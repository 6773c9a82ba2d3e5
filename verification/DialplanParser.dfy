/** What the parser and the validation of IVR trees find, in terms of the text and the tree
    alone (src/utils/dialplan/dialplan-manager.ts). */
module DialplanParser {
  import opened Text
  import opened Dialplan
  import opened DialplanLaws

  // ---- the two patterns of the parser ----

  predicate AllSpace(w: string) {
    forall c <- w :: IsSpace(c)
  }

  /** The lines the header pattern matches, and what it captures. */
  lemma HeaderIff(t: string, context: string)
    ensures Header(t) == Some(context) <==>
      t == "[" + context + "]" && context != "" && forall c <- context :: !IsLineTerminator(c)
  {
    if t == "[" + context + "]" {
      assert t[1..|t| - 1] == context;
    }
  }

  /** `exten`, `=>` with white space around it, a key without commas, and a comma; the white
      space in front of the key is not part of it unless it is all there is. */
  predicate Declares(t: string, w1: string, w2: string, key: string, rest: string) {
    && t == "exten" + (w1 + ("=>" + (w2 + (key + ("," + rest)))))
    && AllSpace(w1) && Captures(w2 + (key + ("," + rest)), w2, key, rest)
  }

  lemma {:induction false} TrimStartSplit(s: string)
    ensures var n := |s| - |TrimStart(s)|; 0 <= n <= |s| && s == s[..n] + TrimStart(s) && AllSpace(s[..n])
  {
    if s != "" && IsSpace(s[0]) {
      TrimStartSplit(s[1..]);
      var n := |s| - |TrimStart(s)|;
      assert s[..n] == [s[0]] + s[1..][..n - 1];
    }
  }

  lemma {:induction false} TrimStartDrops(w: string, s: string)
    requires AllSpace(w) && (s == "" || !IsSpace(s[0]))
    ensures TrimStart(w + s) == s
  {
    if w == "" {
      assert w + s == s;
    } else {
      ConcatTail(w, s);
      assert w[0] in w && forall c <- w[1..] :: c in w;
      TrimStartDrops(w[1..], s);
    }
  }

  lemma CommaKey(key: string, rest: string)
    requires ',' !in key
    ensures UpToComma(key + ("," + rest)) == key
  {
    assert key + ("," + rest) == key + "," + rest;
    UpToCommaOf(key, rest);
  }

  lemma {:induction false} UpToCommaIs(s: string)
    ensures UpToComma(s) <= s && ',' !in UpToComma(s)
    ensures |UpToComma(s)| < |s| ==> s[|UpToComma(s)|] == ','
  {
    if s != "" && s[0] != ',' {
      UpToCommaIs(s[1..]);
    }
  }

  /** White space, a key, a comma. */
  predicate Captures(s: string, w: string, key: string, rest: string) {
    s == w + (key + ("," + rest)) && AllSpace(w) && key != "" && ',' !in key && (IsSpace(key[0]) ==> |key| == 1)
  }

  /** The capture of `\s*([^,]+),`. */
  function KeyOf(s: string): Option<string> {
    var rest := TrimStart(s);
    var key := UpToComma(rest);
    if |key| >= |rest| then None
    else if key != "" then Some(key)
    else if |rest| < |s| then TrimStartFacts(s); Some([s[|s| - |rest| - 1]])
    else None
  }

  lemma KeyIs(s: string, w: string, key: string, rest: string)
    requires Captures(s, w, key, rest)
    ensures KeyOf(s) == Some(key)
  {
    var tail := key + ("," + rest);
    if IsSpace(key[0]) {
      assert s == (w + key) + ("," + rest);
      TrimStartDrops(w + key, "," + rest);
      assert s[|w|] == key[0] && key == [key[0]];
    } else {
      assert tail[0] == key[0];
      TrimStartDrops(w, tail);
      CommaKey(key, rest);
    }
  }

  lemma KeyFound(s: string, key: string)
    requires KeyOf(s) == Some(key)
    ensures exists w: string, rest: string :: Captures(s, w, key, rest)
  {
    TrimStartSplit(s);
    TrimStartFacts(s);
    var t := TrimStart(s);
    var k := UpToComma(t);
    UpToCommaIs(t);
    assert t == k + ("," + t[|k| + 1..]);
    if k != "" {
      assert k[0] == t[0];
      assert Captures(s, s[..|s| - |t|], key, t[|k| + 1..]);
    } else {
      SpaceFound(s, |s| - |t|, t[1..]);
    }
  }

  lemma SpaceFound(s: string, n: nat, rest: string)
    requires 0 < n <= |s| && s == s[..n] + ("," + rest) && AllSpace(s[..n])
    ensures Captures(s, s[..n - 1], [s[n - 1]], rest)
  {
    var w := s[..n - 1];
    assert s[..n] == w + [s[n - 1]];
    assert s[n - 1] in s[..n] && forall c <- w :: c in s[..n];
    assert s == w + ([s[n - 1]] + ("," + rest));
  }

  /** What stands behind the arrow of an entry line. */
  lemma KeyIff(s: string, key: string)
    ensures KeyOf(s) == Some(key) <==> exists w: string, rest: string :: Captures(s, w, key, rest)
  {
    if KeyOf(s) == Some(key) {
      KeyFound(s, key);
    }
    if w: string, rest: string :| Captures(s, w, key, rest) {
      KeyIs(s, w, key, rest);
    }
  }

  /** The lines the extension pattern matches, and what it captures. */
  lemma ExtIff(t: string, key: string)
    ensures Ext(t) == Some(key) <==> exists w1: string, w2: string, rest: string :: Declares(t, w1, w2, key, rest)
  {
    if Ext(t) == Some(key) {
      ExtFound(t, key);
    }
    if w1: string, w2: string, rest: string :| Declares(t, w1, w2, key, rest) {
      ExtIs(t, w1, w2, key, rest);
    }
  }

  lemma ExtIs(t: string, w1: string, w2: string, key: string, rest: string)
    requires Declares(t, w1, w2, key, rest)
    ensures Ext(t) == Some(key)
  {
    var s := w2 + (key + ("," + rest));
    var arrow := "=>" + s;
    StartsWithConcat("exten", w1 + arrow);
    assert t[5..] == w1 + arrow;
    assert arrow[0] == '=';
    TrimStartDrops(w1, arrow);
    StartsWithConcat("=>", s);
    assert arrow[2..] == s;
    KeyIs(s, w2, key, rest);
  }

  lemma ExtFound(t: string, key: string)
    requires Ext(t) == Some(key)
    ensures exists w1: string, w2: string, rest: string :: Declares(t, w1, w2, key, rest)
  {
    var arrow := TrimStart(t[5..]);
    TrimStartSplit(t[5..]);
    var w1 := t[5..][..|t| - 5 - |arrow|];
    var s := arrow[2..];
    assert KeyOf(s) == Some(key);
    KeyFound(s, key);
    var w2: string, rest: string :| Captures(s, w2, key, rest);
    assert t == t[..5] + t[5..];
    assert arrow == arrow[..2] + s;
    assert Declares(t, w1, w2, key, rest);
  }

  /** The parser finds an entry in a text if and only if some line declares it and the last
      header line in front of that line opens its context. */
  lemma ParsedIff(data: string, e: Extension)
    ensures e in Parse(data) <==> exists i: nat, j: nat :: Finds(Core(data), i, j, e)
  {
    var ls := Core(data);
    ParsedFrom(ls, "", e);
    assert !OpenFinds(ls, "", e);
  }

  /** Line `i` opens the entry's context, line `j` declares it, and no header is between. */
  predicate Finds(ls: seq<string>, i: nat, j: nat, e: Extension) {
    && i < j < |ls|
    && Header(ls[i]) == Some(e.context) && Ext(ls[j]) == Some(e.extension)
    && forall m :: i < m <= j ==> Header(ls[m]) == None
  }

  /** The entry stands in front of the first header, in the context already open. */
  ghost predicate OpenFinds(ls: seq<string>, ctx: string, e: Extension) {
    ctx != "" && e.context == ctx && exists j: nat :: InFront(ls, j, e.extension)
  }

  predicate InFront(ls: seq<string>, j: nat, key: string) {
    j < |ls| && Ext(ls[j]) == Some(key) && forall m :: 0 <= m <= j ==> Header(ls[m]) == None
  }

  lemma {:induction false} ParsedFrom(ls: seq<string>, ctx: string, e: Extension)
    ensures e in ParseCore(ls, ctx) <==> OpenFinds(ls, ctx, e) || exists i: nat, j: nat :: Finds(ls, i, j, e)
  {
    if ls != [] {
      var l, more := ls[0], ls[1..];
      assert ls == [l] + more;
      var ctx' := if Header(l).Some? then Header(l).value else ctx;
      ParsedFrom(more, ctx', e);
      FindsLater(l, more, e);
      FrontLater(l, more, e.extension);
      if Header(l).Some? {
        HeaderIff(l, ctx');
      }
    }
  }

  lemma FindsLater(l: string, more: seq<string>, e: Extension)
    ensures (exists i: nat, j: nat :: Finds([l] + more, i, j, e)) <==>
      (exists i: nat, j: nat :: Finds(more, i, j, e))
      || (Header(l) == Some(e.context) && exists j: nat :: InFront(more, j, e.extension))
  {
    var ls := [l] + more;
    assert forall m: nat :: m < |more| ==> ls[m + 1] == more[m];
    if i: nat, j: nat :| Finds(ls, i, j, e) {
      if i == 0 {
        assert forall m: nat :: m <= j - 1 ==> more[m] == ls[m + 1];
        assert InFront(more, j - 1, e.extension);
      } else {
        assert forall m: nat :: m < |more| ==> more[m] == ls[m + 1];
        assert Finds(more, i - 1, j - 1, e);
      }
    }
    if i: nat, j: nat :| Finds(more, i, j, e) {
      assert forall m: nat :: 0 < m < |ls| ==> ls[m] == more[m - 1];
      assert Finds(ls, i + 1, j + 1, e);
    }
    if Header(l) == Some(e.context) {
      if j: nat :| InFront(more, j, e.extension) {
        assert forall m: nat :: 0 < m < |ls| ==> ls[m] == more[m - 1];
        assert Finds(ls, 0, j + 1, e);
      }
    }
  }

  lemma FrontLater(l: string, more: seq<string>, key: string)
    ensures (exists j: nat :: InFront([l] + more, j, key)) <==>
      Header(l) == None && (Ext(l) == Some(key) || exists j: nat :: InFront(more, j, key))
  {
    var ls := [l] + more;
    assert forall m: nat :: 0 < m < |ls| ==> ls[m] == more[m - 1];
    assert ls[0] == l;
    if j: nat :| InFront(ls, j, key) {
      assert Header(ls[0]) == None;
      if j > 0 {
        assert forall m: nat :: m < |more| ==> more[m] == ls[m + 1];
        assert InFront(more, j - 1, key);
      }
    }
    if Header(l) == None {
      if Ext(l) == Some(key) {
        assert InFront(ls, 0, key);
      }
      if j: nat :| InFront(more, j, key) {
        assert forall m :: 0 <= m <= j + 1 ==> Header(ls[m]) == None;
        assert InFront(ls, j + 1, key);
      }
    }
  }

  // ---- validation ----

  /** The nodes of a tree in preorder. */
  function Nodes(node: IvrNode): seq<IvrNode>
    decreases node, 1
  {
    [node] + ForestNodes(node.children)
  }

  function ForestNodes(nodes: seq<IvrNode>): seq<IvrNode>
    decreases nodes, 0
  {
    if nodes == [] then [] else Nodes(nodes[0]) + ForestNodes(nodes[1..])
  }

  /** The nodes without an application, by name and id. */
  function Missing(nodes: seq<IvrNode>): seq<TreeError> {
    if nodes == [] then []
    else (if nodes[0].application == "" then [MissingApplication(nodes[0].name, nodes[0].id)] else []) + Missing(nodes[1..])
  }

  lemma {:induction false} MissingConcat(a: seq<IvrNode>, b: seq<IvrNode>)
    ensures Missing(a + b) == Missing(a) + Missing(b)
  {
    if a == [] {
      assert a + b == b;
    } else {
      assert (a + b)[1..] == a[1..] + b;
      MissingConcat(a[1..], b);
    }
  }

  lemma MissingOne(node: IvrNode)
    ensures Missing([node]) == if node.application == "" then [MissingApplication(node.name, node.id)] else []
  {
    assert [node][1..] == [];
  }

  /** The errors of a tree: the root's missing application, its missing key, and then in
      preorder every other node without an application. */
  lemma {:induction false} ErrorsInPreorder(node: IvrNode, isRoot: bool)
    ensures Errors(node, isRoot) ==
      Missing([node]) + (if isRoot && node.dtmfKey == "" then [RootWithoutKey(node.name)] else [])
      + Missing(ForestNodes(node.children))
    decreases node, 1
  {
    MissingOne(node);
    ForestErrorsInPreorder(node.children);
  }

  lemma {:induction false} ForestErrorsInPreorder(nodes: seq<IvrNode>)
    ensures ForestErrors(nodes) == Missing(ForestNodes(nodes))
    decreases nodes, 0
  {
    if nodes != [] {
      ErrorsInPreorder(nodes[0], false);
      ForestErrorsInPreorder(nodes[1..]);
      MissingConcat([nodes[0]], ForestNodes(nodes[0].children));
      MissingConcat(Nodes(nodes[0]), ForestNodes(nodes[1..]));
    }
  }
}
