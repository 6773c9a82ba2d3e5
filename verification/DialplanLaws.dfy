/** What the dialplan printer, parser and deleter promise one another. */
module DialplanLaws {
  import opened Text
  import opened Dialplan

  // ---- preconditions on names and node strings ----

  /** A context name that stands for itself inside the deletion pattern and
      inside a header: no bracket, line break or pattern character. */
  predicate PlainName(name: string) {
    forall c <- name :: !IsPatternChar(c) && !IsLineTerminator(c)
  }

  /** The characters with a meaning of their own in a pattern. */
  predicate IsPatternChar(c: char) {
    || c == '[' || c == ']' || c == '(' || c == ')' || c == '{' || c == '}' || c == '.' || c == '*'
    || c == '+' || c == '?' || c == '|' || c == '^' || c == '$' || c == '\\' || c == '/'
  }

  /** A string that may be printed inside a context body. */
  predicate Printable(s: string) {
    '[' !in s && '\n' !in s
  }

  /** A key the parser reads back as it was written. */
  predicate PrintableKey(key: string) {
    Printable(key) && ',' !in key && (key != "" ==> !IsSpace(key[0]))
  }

  predicate PrintableTree(node: IvrNode) {
    && Printable(node.application) && Printable(FormatParameters(node.parameters))
    && PrintableKey(node.dtmfKey)
    && forall child <- node.children :: PrintableTree(child)
  }

  predicate PrintableLine(l: DialLine) {
    && Printable(l.app) && Printable(l.args)
    && (l.Exten? ==> l.key != "" && PrintableKey(l.key))
  }

  lemma {:induction false} TreeLinesPrintable(node: IvrNode, useExten: bool)
    requires PrintableTree(node)
    ensures forall l <- NodeLines(node, useExten) :: PrintableLine(l)
    decreases node, 1
  {
    ForestLinesPrintable(node.children);
  }

  lemma {:induction false} ForestLinesPrintable(nodes: seq<IvrNode>)
    requires forall n <- nodes :: PrintableTree(n)
    ensures forall l <- ForestLines(nodes) :: PrintableLine(l)
    decreases nodes, 0
  {
    if nodes != [] {
      TreeLinesPrintable(nodes[0], nodes[0].dtmfKey != "");
      ForestLinesPrintable(nodes[1..]);
    }
  }

  // ---- printing and reading back ----

  /** The rendered lines of a block body. */
  function Rendered(ls: seq<DialLine>): (r: seq<string>)
    ensures |r| == |ls|
  {
    if ls == [] then [] else [Render(ls[0])] + Rendered(ls[1..])
  }

  /** The lines of a context block, header first. */
  function BlockLines(root: IvrNode, context: string): seq<string> {
    [Mark(context)] + Rendered(NodeLines(root, true))
  }

  lemma RenderShape(l: DialLine)
    requires PrintableLine(l)
    ensures Printable(Render(l)) && IsTrimmed(Render(l)) && Render(l) != ""
    ensures Header(Render(l)) == None
  {
    var t := Render(l);
    assert t[|t| - 1] == ')';
    assert t[0] == 'e' || t[0] == 's';
  }

  lemma {:induction false} UpToCommaOf(key: string, rest: string)
    requires ',' !in key
    ensures UpToComma(key + "," + rest) == key
  {
    var s := key + "," + rest;
    if key != "" {
      assert s[1..] == key[1..] + "," + rest;
      UpToCommaOf(key[1..], rest);
    }
  }

  /** The parser finds the key of an entry line. */
  lemma EntryExt(key: string, call: string)
    requires key != "" && ',' !in key && !IsSpace(key[0])
    ensures Ext("exten => " + (key + "," + call)) == Some(key)
  {
    var rest := key + "," + call;
    var t := "exten => " + rest;
    assert t[..5] == "exten";
    assert t[5..] == [' '] + ("=> " + rest);
    assert ([' '] + ("=> " + rest))[1..] == "=> " + rest;
    var arrow := "=> " + rest;
    assert arrow[0] == '=';
    assert TrimStart(t[5..]) == arrow;
    assert arrow[..2] == "=>";
    assert arrow[2..] == [' '] + rest;
    assert ([' '] + rest)[1..] == rest;
    assert TrimStart(arrow[2..]) == rest;
    UpToCommaOf(key, call);
    assert UpToComma(rest) == key;
  }

  /** The parser finds exactly the key of an entry line, and nothing in the others. */
  lemma RenderExt(l: DialLine)
    requires PrintableLine(l)
    ensures Ext(Render(l)) == if l.Exten? then Some(l.key) else None
  {
    if l.Exten? {
      var call := "1," + l.app + "(" + l.args + ")";
      EntryExt(l.key, call);
      assert Render(l) == "exten => " + (l.key + "," + call);
    } else {
      assert Render(l)[0] == 's';
    }
  }

  lemma MarkShape(context: string)
    requires PlainName(context)
    ensures IsTrimmed(Mark(context)) && '\n' !in Mark(context) && Mark(context) != ""
    ensures context != "" ==> Header(Mark(context)) == Some(context)
  {
    var t := Mark(context);
    assert t[1..|t| - 1] == context;
    assert t[0] == '[' && t[|t| - 1] == ']';
  }

  lemma MarksAgree(all: string, h: string, context: string)
    requires ']' !in h && ']' !in context
    requires StartsWith(all, Mark(h)) && StartsWith(all, Mark(context))
    ensures h == context
  {
    assert forall i :: 0 <= i < |h| ==> h[i] == all[i + 1];
    assert forall i :: 0 <= i < |context| ==> context[i] == all[i + 1];
    assert all[|h| + 1] == Mark(h)[|h| + 1] == ']';
    assert all[|context| + 1] == Mark(context)[|context| + 1] == ']';
  }

  lemma {:induction false} CoreOfBody(ls: seq<DialLine>)
    requires forall l <- ls :: PrintableLine(l)
    ensures Core(TextOf(ls)) == Rendered(ls)
    ensures Lines(TextOf(ls)) == Rendered(ls) + [""]
  {
    if ls != [] {
      RenderShape(ls[0]);
      CoreOfBody(ls[1..]);
      LineOnTop(Render(ls[0]), TextOf(ls[1..]));
      assert [Render(ls[0])] + (Rendered(ls[1..]) + [""]) == ([Render(ls[0])] + Rendered(ls[1..])) + [""];
    }
  }

  /** A trimmed line that is not blank, put on top of a text. */
  lemma LineOnTop(l: string, rest: string)
    requires '\n' !in l && IsTrimmed(l) && l != ""
    ensures Core(l + "\n" + rest) == [l] + Core(rest)
    ensures Lines(l + "\n" + rest) == [l] + Lines(rest)
  {
    LinesSnoc("", l, rest);
    LinesOfLine(l);
    CoreBreak(l, rest);
    TrimOfTrimmed(l);
    assert [l][1..] == [];
  }

  /** Forgetting layout, a printed block is its lines. */
  lemma CoreOfBlock(root: IvrNode, context: string)
    requires PrintableTree(root) && PlainName(context)
    ensures Core(Block(root, context)) == BlockLines(root, context)
    ensures Lines(Block(root, context)) == BlockLines(root, context) + [""]
  {
    var ls := NodeLines(root, true);
    TreeLinesPrintable(root, true);
    MarkShape(context);
    CoreOfBody(ls);
    LinesSnoc("", Mark(context), TextOf(ls));
    LinesOfLine(Mark(context));
    CoreBreak(Mark(context), TextOf(ls));
    assert [Mark(context)][1..] == [];
    assert [Mark(context)] + (Rendered(ls) + [""]) == BlockLines(root, context) + [""];
  }

  /** The context in force after reading `ls`. */
  function EndContext(ls: seq<string>, ctx: string): string {
    if ls == [] then ctx
    else EndContext(ls[1..], if Header(ls[0]).Some? then Header(ls[0]).value else ctx)
  }

  lemma {:induction false} ParseConcat(a: seq<string>, b: seq<string>, ctx: string)
    ensures ParseCore(a + b, ctx) == ParseCore(a, ctx) + ParseCore(b, EndContext(a, ctx))
  {
    if a == [] {
      assert a + b == b;
    } else {
      assert (a + b)[1..] == a[1..] + b;
      ParseConcat(a[1..], b, if Header(a[0]).Some? then Header(a[0]).value else ctx);
    }
  }

  /** The (context, key) list of a tree printed under `context`. */
  function Tagged(keys: seq<string>, context: string): (r: seq<Extension>)
    ensures |r| == |keys|
    ensures forall i :: 0 <= i < |r| ==> r[i] == Extension(context, keys[i])
  {
    if keys == [] then [] else [Extension(context, keys[0])] + Tagged(keys[1..], context)
  }

  function EntryKeys(ls: seq<DialLine>): seq<string> {
    if ls == [] then [] else (if ls[0].Exten? then [ls[0].key] else []) + EntryKeys(ls[1..])
  }

  lemma {:induction false} EntryKeysConcat(a: seq<DialLine>, b: seq<DialLine>)
    ensures EntryKeys(a + b) == EntryKeys(a) + EntryKeys(b)
  {
    if a == [] {
      assert a + b == b;
    } else {
      assert (a + b)[0] == a[0] && (a + b)[1..] == a[1..] + b;
      EntryKeysConcat(a[1..], b);
      var own := if a[0].Exten? then [a[0].key] else [];
      assert own + (EntryKeys(a[1..]) + EntryKeys(b)) == (own + EntryKeys(a[1..])) + EntryKeys(b);
    }
  }

  /** The entry lines of a tree are its keys in preorder. */
  lemma {:induction false} EntryKeysOfTree(node: IvrNode, useExten: bool)
    requires useExten || node.dtmfKey == ""
    ensures EntryKeys(NodeLines(node, useExten)) == Keys(node)
    decreases node, 1
  {
    var ls := NodeLines(node, useExten);
    EntryKeysConcat(ls[..1], ls[1..]);
    assert ls == ls[..1] + ls[1..];
    assert ls[..1][1..] == [];
    EntryKeysOfForest(node.children);
    if node.children == [] {
      assert EntryKeys([Same("Hangup", "")]) == [] + EntryKeys([]);
    }
  }

  lemma {:induction false} EntryKeysOfForest(nodes: seq<IvrNode>)
    ensures EntryKeys(ForestLines(nodes)) == ForestKeys(nodes)
    decreases nodes, 0
  {
    if nodes != [] {
      EntryKeysOfTree(nodes[0], nodes[0].dtmfKey != "");
      EntryKeysOfForest(nodes[1..]);
      EntryKeysConcat(NodeLines(nodes[0], nodes[0].dtmfKey != ""), ForestLines(nodes[1..]));
    }
  }

  lemma {:induction false} ParseBody(ls: seq<DialLine>, context: string)
    requires forall l <- ls :: PrintableLine(l)
    requires context != ""
    ensures ParseCore(Rendered(ls), context) == Tagged(EntryKeys(ls), context)
  {
    if ls != [] {
      RenderShape(ls[0]);
      RenderExt(ls[0]);
      ParseBody(ls[1..], context);
      assert Rendered(ls)[1..] == Rendered(ls[1..]);
      if ls[0].Exten? {
        assert EntryKeys(ls)[1..] == EntryKeys(ls[1..]);
      }
    }
  }

  lemma ParseBlock(root: IvrNode, context: string, ctx: string)
    requires PrintableTree(root) && PlainName(context) && context != ""
    requires root.dtmfKey != ""
    ensures ParseCore(BlockLines(root, context), ctx) == Tagged(Keys(root), context)
  {
    MarkShape(context);
    TreeLinesPrintable(root, true);
    ParseBody(NodeLines(root, true), context);
    EntryKeysOfTree(root, true);
    assert BlockLines(root, context)[1..] == Rendered(NodeLines(root, true));
  }

  /** The parser reads back what the printer appended: to any existing text the
      new block adds exactly the tree's keys, in preorder, under its context. */
  lemma ParserPrinterAgree(file: string, root: IvrNode, context: string)
    requires PrintableTree(root) && root.dtmfKey != ""
    requires PlainName(context) && context != ""
    ensures Parse(file + "\n" + Block(root, context)) == Parse(file) + Tagged(Keys(root), context)
  {
    CoreBreak(file, Block(root, context));
    CoreOfBlock(root, context);
    ParseConcat(Core(file), BlockLines(root, context), "");
    ParseBlock(root, context, EndContext(Core(file), ""));
  }

  // ---- no fall-through between siblings ----

  /** A dialplan line, the path of the node it belongs to, and whether it is
      that node's own line rather than the hangup added after a leaf. */
  datatype Placed = Placed(path: seq<nat>, own: bool, line: DialLine)

  function PlacedLines(node: IvrNode, useExten: bool, path: seq<nat>): seq<Placed>
    decreases node, 1
  {
    [Placed(path, true, NodeLines(node, useExten)[0])]
    + (if node.children != [] then PlacedForest(node.children, path, 0)
       else if node.application != "Hangup" then [Placed(path, false, Same("Hangup", ""))]
       else [])
  }

  function PlacedForest(nodes: seq<IvrNode>, parent: seq<nat>, k: nat): seq<Placed>
    decreases nodes, 0
  {
    if nodes == [] then []
    else PlacedLines(nodes[0], nodes[0].dtmfKey != "", parent + [k]) + PlacedForest(nodes[1..], parent, k + 1)
  }

  function Unplaced(ps: seq<Placed>): (r: seq<DialLine>)
    ensures |r| == |ps| && forall i :: 0 <= i < |ps| ==> r[i] == ps[i].line
  {
    seq(|ps|, i requires 0 <= i < |ps| => ps[i].line)
  }

  lemma {:induction false} PlacedAreTheLines(node: IvrNode, useExten: bool, path: seq<nat>)
    ensures Unplaced(PlacedLines(node, useExten, path)) == NodeLines(node, useExten)
    decreases node, 1
  {
    PlacedForestLines(node.children, path, 0);
  }

  lemma {:induction false} PlacedForestLines(nodes: seq<IvrNode>, parent: seq<nat>, k: nat)
    ensures Unplaced(PlacedForest(nodes, parent, k)) == ForestLines(nodes)
    decreases nodes, 0
  {
    if nodes != [] {
      PlacedAreTheLines(nodes[0], nodes[0].dtmfKey != "", parent + [k]);
      PlacedForestLines(nodes[1..], parent, k + 1);
    }
  }

  /** Control reaches line `b` from the line `a` just above it only by design:
      `a` hangs up, or it is the own line of the node above `b`'s node. */
  predicate EntrySafe(a: Placed, b: Placed) {
    b.line.Exten? ==>
      || a.line.app == "Hangup"
      || (a.own && b.path != [] && a.path == b.path[..|b.path| - 1])
  }

  ghost predicate NoFallThrough(ps: seq<Placed>) {
    && ps != []
    && ps[|ps| - 1].line.app == "Hangup"
    && forall i :: 0 < i < |ps| ==> EntrySafe(ps[i - 1], ps[i])
  }

  lemma NoFallThroughConcat(a: seq<Placed>, b: seq<Placed>)
    requires NoFallThrough(a) && NoFallThrough(b)
    ensures NoFallThrough(a + b)
  {
    var c := a + b;
    forall i | 0 < i < |c| ensures EntrySafe(c[i - 1], c[i]) {
      if i < |a| {
        assert EntrySafe(a[i - 1], a[i]);
      } else if i > |a| {
        assert EntrySafe(b[i - |a| - 1], b[i - |a|]);
      }
    }
  }

  lemma {:induction false} TreeDoesNotFallThrough(node: IvrNode, useExten: bool, path: seq<nat>)
    ensures NoFallThrough(PlacedLines(node, useExten, path))
    ensures var p := PlacedLines(node, useExten, path)[0];
      p.path == path && p.own && (p.line.Exten? <==> useExten && node.dtmfKey != "")
    decreases node, 1
  {
    if node.children != [] {
      var ps := PlacedForest(node.children, path, 0);
      ForestDoesNotFallThrough(node.children, path, 0);
      var all := PlacedLines(node, useExten, path);
      assert ps[0].path[..|ps[0].path| - 1] == path;
      forall i | 0 < i < |all| ensures EntrySafe(all[i - 1], all[i]) {
        if i > 1 {
          assert EntrySafe(ps[i - 2], ps[i - 1]);
        }
      }
    }
  }

  lemma {:induction false} ForestDoesNotFallThrough(nodes: seq<IvrNode>, parent: seq<nat>, k: nat)
    requires nodes != []
    ensures NoFallThrough(PlacedForest(nodes, parent, k))
    ensures PlacedForest(nodes, parent, k)[0].path == parent + [k]
    decreases nodes, 0
  {
    var first := PlacedLines(nodes[0], nodes[0].dtmfKey != "", parent + [k]);
    TreeDoesNotFallThrough(nodes[0], nodes[0].dtmfKey != "", parent + [k]);
    if |nodes| > 1 {
      ForestDoesNotFallThrough(nodes[1..], parent, k + 1);
      NoFallThroughConcat(first, PlacedForest(nodes[1..], parent, k + 1));
    } else {
      assert PlacedForest(nodes, parent, k) == first + [];
      assert first + [] == first;
    }
  }

  /** The body of a generated context starts at an entry point, ends by hanging
      up, and no other entry point is reached by running off the line above it
      unless that line belongs to the parent node. */
  lemma GeneratedBodyIsSafe(root: IvrNode)
    requires ValidTree(root)
    ensures var ps := PlacedLines(root, true, []);
      && Unplaced(ps) == NodeLines(root, true)
      && NoFallThrough(ps) && ps[0].line.Exten?
  {
    PlacedAreTheLines(root, true, []);
    TreeDoesNotFallThrough(root, true, []);
  }

  // ---- deletion of a text that holds the context nowhere ----

  lemma {:induction false} CutAbsent(s: string, context: string)
    requires !Contains(s, Mark(context))
    ensures Cut(s, context) == s
  {
    if s != "" {
      CutAbsent(s[1..], context);
    }
  }

  lemma StartsHeader(s: string)
    ensures StartsWith(s, "\n[") <==> |s| >= 2 && s[0] == '\n' && s[1] == '['
  {
    if |s| >= 2 {
      assert s[..2] == [s[0], s[1]];
    }
  }

  lemma {:induction false} SkipBlockStop(s: string)
    ensures SkipBlock(s) == "" || StartsWith(SkipBlock(s), "\n[")
  {
    if s != "" && !StartsWith(s, "\n[") {
      SkipBlockStop(s[1..]);
    }
  }

  lemma CutAtMark(s: string, context: string)
    requires StartsWith(s, Mark(context))
    ensures Cut(s, context) == "" || Cut(s, context)[0] == '\n'
  {
    var rest := SkipBlock(s[|context| + 2..]);
    SkipBlockStop(s[|context| + 2..]);
    if rest != "" {
      assert rest[0] == rest[..2][0] == '\n';
      assert Mark(context)[0] == '[';
    }
  }

  /** A text without line feeds found at the head of `s + "\n" + r` lies in `s`. */
  lemma StartsInside(s: string, r: string, p: string)
    requires '\n' !in p && StartsWith(s + "\n" + r, p)
    ensures StartsWith(s, p)
  {
    var all := s + "\n" + r;
    assert all[|s|] == '\n';
    assert forall i :: 0 <= i < |p| ==> p[i] == all[..|p|][i];
    assert |p| <= |s|;
    assert s[..|p|] == all[..|p|];
  }

  /** A cut text begins with a mark of its own only where the original did. */
  lemma {:induction false} CutStart(s: string, context: string, p: string)
    requires '\n' !in p && StartsWith(Cut(s, context), p)
    ensures StartsWith(s, p)
    decreases |s|
  {
    if p != "" {
      StartsWithTail(Cut(s, context), p);
      assert p[0] in p;
      if StartsWith(s, Mark(context)) {
        CutAtMark(s, context);
      } else if s != "" {
        assert Cut(s, context)[1..] == Cut(s[1..], context);
        CutStart(s[1..], context, p[1..]);
        StartsWithTail(s, p);
      }
    }
  }

  lemma {:induction false} CutLeavesNone(s: string, context: string)
    requires '\n' !in context
    ensures !Contains(Cut(s, context), Mark(context))
    decreases |s|
  {
    var m := Mark(context);
    if StartsWith(s, m) {
      CutLeavesNone(SkipBlock(s[|context| + 2..]), context);
    } else if s != "" {
      CutLeavesNone(s[1..], context);
      if StartsWith(Cut(s, context), m) {
        CutStart(s, context, m);
      }
      assert Cut(s, context)[1..] == Cut(s[1..], context);
    }
  }

  lemma {:induction false} ContainsTrimEnd(s: string, p: string)
    requires Contains(TrimEnd(s), p)
    ensures Contains(s, p)
  {
    TrimEndFacts(s);
    ContainsPrefix(TrimEnd(s), s, p);
  }

  lemma {:induction false} ContainsPrefix(a: string, s: string, p: string)
    requires a <= s && Contains(a, p)
    ensures Contains(s, p)
  {
    if StartsWith(a, p) {
      assert s[..|p|] == a[..|p|];
    } else {
      assert a[1..] <= s[1..];
      ContainsPrefix(a[1..], s[1..], p);
    }
  }

  lemma ContainsTrim(s: string, p: string)
    requires Contains(Trim(s), p)
    ensures Contains(s, p)
  {
    ContainsTrimEnd(TrimStart(s), p);
    TrimStartFacts(s);
    var t := TrimStart(s);
    var n := |s| - |t|;
    ContainsConcat(s[..n], t, p);
    assert s[..n] + t == s;
  }

  lemma {:induction false} ContainsNewline(s: string, context: string)
    requires '\n' !in context
    requires Contains(s + "\n", Mark(context))
    ensures Contains(s, Mark(context))
  {
    var m := Mark(context);
    assert s + "\n" + "" == s + "\n";
    if StartsWith(s + "\n", m) {
      StartsInside(s, "", m);
    } else if s == "" {
      assert (s + "\n")[1..] == "";
    } else {
      ConcatTail(s, "\n");
      ContainsNewline(s[1..], context);
    }
  }

  /** Deleting a context twice gives the same text as deleting it once, for every
      text whatever its shape. `Cut` looks for the literal mark; that is what the
      source's pattern matches for a plain name, not for one with pattern
      characters. The same goes for the lemmas that follow. */
  lemma DeletingTwiceIsDeletingOnce(file: string, context: string)
    requires '\n' !in context
    ensures Deleted(Deleted(file, context), context) == Deleted(file, context)
    ensures !Contains(Deleted(file, context), Mark(context))
  {
    var m := Mark(context);
    var cut := Cut(file, context);
    CutLeavesNone(file, context);
    if Contains(Deleted(file, context), m) {
      ContainsNewline(Trim(cut), context);
      ContainsTrim(cut, m);
    }
    CutAbsent(Deleted(file, context), context);
    TrimAppend(Trim(cut), '\n');
    TrimIsTrimmed(cut);
    TrimOfTrimmed(Trim(cut));
  }

  // ---- deletion undoes saving ----

  lemma {:induction false} CutPassesOver(s: string, r: string, context: string)
    requires '\n' !in context && !Contains(s, Mark(context))
    ensures Cut(s + "\n" + r, context) == s + "\n" + Cut(r, context)
  {
    var all := s + "\n" + r;
    if StartsWith(all, Mark(context)) {
      StartsInside(s, r, Mark(context));
    }
    if s == "" {
      assert all[1..] == r;
    } else {
      assert all[1..] == s[1..] + "\n" + r;
      CutPassesOver(s[1..], r, context);
    }
  }

  lemma {:induction false} SkipBlockToEnd(s: string)
    requires '[' !in s
    ensures SkipBlock(s) == ""
  {
    if s != "" {
      StartsHeader(s);
      assert forall c <- s[1..] :: c in s;
      SkipBlockToEnd(s[1..]);
    }
  }

  lemma {:induction false} BodyHasNoMark(ls: seq<DialLine>)
    requires forall l <- ls :: PrintableLine(l)
    ensures '[' !in TextOf(ls)
  {
    if ls != [] {
      RenderShape(ls[0]);
      BodyHasNoMark(ls[1..]);
    }
  }

  /** Saving a tree under a name the file does not hold, then deleting that
      name, gives back the file up to the white space at its ends; like the source
      for plain names. */
  lemma DeletionUndoesSaving(file: string, root: IvrNode, context: string)
    requires PrintableTree(root) && '\n' !in context
    requires !Contains(file, Mark(context))
    ensures Deleted(file + "\n" + Block(root, context), context) == Trim(file) + "\n"
  {
    CutPassesOver(file, Block(root, context), context);
    BlockIsCut(root, context);
    assert file + "\n" + "" == file + ['\n'];
    TrimAppend(file, '\n');
  }

  lemma BlockIsCut(root: IvrNode, context: string)
    requires PrintableTree(root) && '\n' !in context
    ensures Cut(Block(root, context), context) == ""
  {
    var body := "\n" + TextOf(NodeLines(root, true));
    TreeLinesPrintable(root, true);
    BodyHasNoMark(NodeLines(root, true));
    assert Block(root, context) == Mark(context) + body;
    StartsWithConcat(Mark(context), body);
    assert Block(root, context)[|context| + 2..] == body;
    SkipBlockToEnd(body);
  }
}
