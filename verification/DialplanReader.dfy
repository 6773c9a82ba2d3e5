/** A generated context block says what its tree says: a reader that takes the lines
    apart at their delimiters finds the nodes again
    (src/utils/dialplan/dialplan-manager.ts, generateDialplan). */
module DialplanReader {
  import opened Text
  import opened Dialplan
  import opened DialplanLaws

  /** One line of a context as Asterisk understands it: the extension that starts at
      priority 1 or the next priority, the application and its arguments. */
  datatype Step = Step(entry: Option<string>, application: string, arguments: seq<string>)

  // ---- the reader ----

  /** The directive in front of the application: `same => n,` or `exten => key,1,`. */
  function ReadDirective(l: string): Option<(Option<string>, string)> {
    if StartsWith(l, "same => n,") then Some((None, l[10..]))
    else if StartsWith(l, "exten => ") then
      var rest := l[9..];
      var key := Before(rest, ',');
      if StartsWith(rest[|key|..], ",1,") then Some((Some(key), rest[|key| + 3..])) else None
    else None
  }

  /** The application and the arguments between its parentheses. */
  function ReadCall(entry: Option<string>, call: string): Option<Step> {
    var app := Before(call, '(');
    if |app| + 2 > |call| || call[|call| - 1] != ')' then None
    else Some(Step(entry, app, SplitAt(call[|app| + 1..|call| - 1], ',')))
  }

  function ReadLine(l: string): Option<Step> {
    var r := ReadDirective(l);
    if r.None? then None else ReadCall(r.value.0, r.value.1)
  }

  /** Line by line the reader finds these steps. */
  ghost predicate Reads(ls: seq<string>, steps: seq<Step>) {
    |ls| == |steps| && forall i :: 0 <= i < |ls| ==> ReadLine(ls[i]) == Some(steps[i])
  }

  // ---- what the tree says ----

  /** The arguments of a node; none at all read as one empty argument. */
  function Arguments(parameters: seq<string>): seq<string> {
    if parameters == [] then [""] else parameters
  }

  /** The steps of a tree in preorder: its own, under its key if it has one, then those of
      its children, or a hangup behind a leaf that is none. */
  function Steps(node: IvrNode): seq<Step>
    decreases node, 1
  {
    [Step(if node.dtmfKey == "" then None else Some(node.dtmfKey), node.application, Arguments(node.parameters))]
    + (if node.children != [] then ForestSteps(node.children)
       else if node.application == "Hangup" then []
       else [Step(None, "Hangup", [""])])
  }

  function ForestSteps(nodes: seq<IvrNode>): seq<Step>
    decreases nodes, 0
  {
    if nodes == [] then [] else Steps(nodes[0]) + ForestSteps(nodes[1..])
  }

  /** No argument holds a comma and no application an opening parenthesis. */
  predicate Readable(node: IvrNode) {
    && '(' !in node.application
    && (forall p <- node.parameters :: ',' !in p)
    && forall child <- node.children :: Readable(child)
  }

  // ---- reading back ----

  lemma {:induction false} SplitOfJoin(ps: seq<string>)
    requires forall p <- ps :: ',' !in p
    ensures SplitAt(Join(ps, ","), ',') == Arguments(ps)
  {
    if |ps| <= 1 {
      BeforeAll(Join(ps, ","), ',');
    } else {
      var rest := Join(ps[1..], ",");
      SplitOfJoin(ps[1..]);
      BeforeDelimiter(ps[0], ',', rest);
      var s := ps[0] + [','] + rest;
      assert Join(ps, ",") == s;
      assert s[|ps[0]| + 1..] == rest;
    }
  }

  /** The printer joins the arguments with commas. */
  lemma ArgumentsRead(parameters: seq<string>)
    requires forall p <- parameters :: ',' !in p
    ensures SplitAt(FormatParameters(parameters), ',') == Arguments(parameters)
  {
    SplitOfJoin(parameters);
  }

  /** The call on a line, as the printer writes it. */
  function CallText(l: DialLine): string {
    l.app + "(" + l.args + ")"
  }

  lemma DirectiveReads(l: DialLine)
    requires l.Exten? ==> ',' !in l.key
    ensures ReadDirective(Render(l)) == Some((if l.Exten? then Some(l.key) else None, CallText(l)))
  {
    RenderedLine(l);
    if l.Exten? {
      EntryReads(l.key, CallText(l));
    } else {
      NextReads(CallText(l));
    }
  }

  lemma RenderedLine(l: DialLine)
    ensures Render(l) ==
      if l.Exten? then "exten => " + (l.key + [','] + ("1," + CallText(l))) else "same => n," + CallText(l)
  {
    if l.Exten? {
      assert Render(l) == "exten => " + l.key + ",1" + "," + l.app + "(" + l.args + ")";
    } else {
      assert Render(l) == "same => n" + "," + l.app + "(" + l.args + ")";
    }
  }

  lemma NextReads(call: string)
    ensures ReadDirective("same => n," + call) == Some((None, call))
  {
    StartsWithConcat("same => n,", call);
    assert ("same => n," + call)[10..] == call;
  }

  lemma EntryReads(key: string, call: string)
    requires ',' !in key
    ensures ReadDirective("exten => " + (key + [','] + ("1," + call))) == Some((Some(key), call))
  {
    var rest := key + [','] + ("1," + call);
    var s := "exten => " + rest;
    StartsWithConcat("exten => ", rest);
    assert s[0] == 'e';
    BeforeDelimiter(key, ',', "1," + call);
    assert rest[|key|..] == ",1," + call;
    StartsWithConcat(",1,", call);
    assert rest[|key| + 3..] == call;
  }

  lemma LineReads(l: DialLine, parameters: seq<string>)
    requires '(' !in l.app && (l.Exten? ==> ',' !in l.key)
    requires l.args == FormatParameters(parameters) && forall p <- parameters :: ',' !in p
    ensures ReadLine(Render(l)) == Some(Step(if l.Exten? then Some(l.key) else None, l.app, Arguments(parameters)))
  {
    DirectiveReads(l);
    CallReads(l, if l.Exten? then Some(l.key) else None, parameters);
  }

  lemma CallReads(l: DialLine, entry: Option<string>, parameters: seq<string>)
    requires '(' !in l.app
    requires l.args == FormatParameters(parameters) && forall p <- parameters :: ',' !in p
    ensures ReadCall(entry, CallText(l)) == Some(Step(entry, l.app, Arguments(parameters)))
  {
    var call := CallText(l);
    assert call == l.app + ['('] + (l.args + ")");
    BeforeDelimiter(l.app, '(', l.args + ")");
    assert call[|l.app| + 1..|call| - 1] == l.args;
    ArgumentsRead(parameters);
  }

  lemma ReadsConcat(a: seq<string>, b: seq<string>, x: seq<Step>, y: seq<Step>)
    requires Reads(a, x) && Reads(b, y)
    ensures Reads(a + b, x + y)
  {}

  lemma {:induction false} RenderedConcat(a: seq<DialLine>, b: seq<DialLine>)
    ensures Rendered(a + b) == Rendered(a) + Rendered(b)
  {
    if a == [] {
      assert a + b == b;
    } else {
      assert (a + b)[1..] == a[1..] + b;
      RenderedConcat(a[1..], b);
    }
  }

  lemma RenderedOne(l: DialLine)
    ensures Rendered([l]) == [Render(l)]
  {
    assert [l][1..] == [];
  }

  lemma {:induction false} TreeReads(node: IvrNode, useExten: bool)
    requires PrintableTree(node) && Readable(node) && (useExten || node.dtmfKey == "")
    ensures Reads(Rendered(NodeLines(node, useExten)), Steps(node))
    decreases node, 1
  {
    var ls := NodeLines(node, useExten);
    var own, below := ls[0], ls[1..];
    assert ls == [own] + below;
    LineReads(own, node.parameters);
    RenderedOne(own);
    RenderedConcat([own], below);
    if node.children != [] {
      ForestReads(node.children);
      assert below == ForestLines(node.children);
    } else if node.application != "Hangup" {
      var end := Same("Hangup", "");
      assert below == [end];
      LineReads(end, []);
      RenderedOne(end);
    } else {
      assert below == [];
    }
    ReadsConcat([Render(own)], Rendered(below), Steps(node)[..1], Steps(node)[1..]);
    assert Steps(node)[..1] + Steps(node)[1..] == Steps(node);
  }

  lemma {:induction false} ForestReads(nodes: seq<IvrNode>)
    requires forall n <- nodes :: PrintableTree(n) && Readable(n)
    ensures Reads(Rendered(ForestLines(nodes)), ForestSteps(nodes))
    decreases nodes, 0
  {
    if nodes != [] {
      var first, more := NodeLines(nodes[0], nodes[0].dtmfKey != ""), ForestLines(nodes[1..]);
      TreeReads(nodes[0], nodes[0].dtmfKey != "");
      ForestReads(nodes[1..]);
      RenderedConcat(first, more);
      ReadsConcat(Rendered(first), Rendered(more), Steps(nodes[0]), ForestSteps(nodes[1..]));
    }
  }

  /** The generated text, read line by line, is its header and then, in preorder, each
      node's key with priority 1 or the next priority, its application and its
      arguments, with a hangup behind every leaf that is not one. */
  lemma GeneratedTextReadsBack(root: IvrNode, context: string)
    requires PrintableTree(root) && Readable(root) && PlainName(context)
    ensures var ls := Core(Block(root, context));
      |ls| > 0 && ls[0] == "[" + context + "]" && Reads(ls[1..], Steps(root))
  {
    CoreOfBlock(root, context);
    TreeReads(root, true);
    assert BlockLines(root, context)[1..] == Rendered(NodeLines(root, true));
  }
}
