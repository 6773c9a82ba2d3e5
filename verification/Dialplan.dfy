/** The IVR dialplan compiler and the parser that reads its output back
    (src/utils/dialplan/dialplan-manager.ts). */
module Dialplan {
  import opened Text

  // ---- data model ----

  /** An IVR tree. A missing string is "", a missing child list is []; the code
      treats both alike. `parameters` are the values of the parameter record. */
  datatype IvrNode = IvrNode(
    id: string, name: string, application: string, parameters: seq<string>,
    dtmfKey: string, children: seq<IvrNode>)

  datatype TreeError = MissingApplication(node: string, id: string) | RootWithoutKey(node: string)

  /** One line of a context: an entry point with a key, or the next step. */
  datatype DialLine = Exten(key: string, app: string, args: string) | Same(app: string, args: string)

  datatype Extension = Extension(context: string, extension: string)

  datatype Conflict =
    | EmptyContext
    | DuplicateExtension(extension: string)
    | UnknownContext

  datatype Generated = Text(text: string) | Rejected(error: TreeError)

  // ---- validation ----

  function Errors(node: IvrNode, isRoot: bool): seq<TreeError>
    decreases node, 1
  {
    (if node.application == "" then [MissingApplication(node.name, node.id)] else [])
    + (if isRoot && node.dtmfKey == "" then [RootWithoutKey(node.name)] else [])
    + ForestErrors(node.children)
  }

  function ForestErrors(nodes: seq<IvrNode>): seq<TreeError>
    decreases nodes, 0
  {
    if nodes == [] then [] else Errors(nodes[0], false) + ForestErrors(nodes[1..])
  }

  /** Every node of the tree names an application. */
  predicate AllApplications(node: IvrNode) {
    node.application != "" && forall child <- node.children :: AllApplications(child)
  }

  predicate ValidTree(root: IvrNode) {
    root.dtmfKey != "" && AllApplications(root)
  }

  lemma {:induction false} ErrorsIff(node: IvrNode, isRoot: bool)
    ensures Errors(node, isRoot) == [] <==> AllApplications(node) && (isRoot ==> node.dtmfKey != "")
    decreases node, 1
  {
    ForestErrorsIff(node.children);
  }

  lemma {:induction false} ForestErrorsIff(nodes: seq<IvrNode>)
    ensures ForestErrors(nodes) == [] <==> forall n <- nodes :: AllApplications(n)
    decreases nodes, 0
  {
    if nodes != [] {
      ErrorsIff(nodes[0], false);
      ForestErrorsIff(nodes[1..]);
      assert nodes == [nodes[0]] + nodes[1..];
    }
  }

  method ValidateIvrNode(node: IvrNode, isRoot: bool) returns (errors: seq<TreeError>)
    ensures errors == Errors(node, isRoot)
    ensures errors == [] <==> AllApplications(node) && (isRoot ==> node.dtmfKey != "")
    decreases node
  {
    errors := [];
    if node.application == "" {
      errors := errors + [MissingApplication(node.name, node.id)];
    }
    if isRoot && node.dtmfKey == "" {
      errors := errors + [RootWithoutKey(node.name)];
    }
    ghost var own := errors;
    assert node.children[0..] == node.children;
    for i := 0 to |node.children|
      invariant errors + ForestErrors(node.children[i..]) == own + ForestErrors(node.children)
    {
      assert node.children[i..][1..] == node.children[i + 1..];
      var more := ValidateIvrNode(node.children[i], false);
      errors := errors + more;
    }
    assert errors == own + ForestErrors(node.children);
    ErrorsIff(node, isRoot);
  }

  // ---- generation ----

  function FormatParameters(parameters: seq<string>): string {
    Join(parameters, ",")
  }

  /** The lines of a tree: the node itself, then its children's lines, or a hangup. */
  function NodeLines(node: IvrNode, useExten: bool): seq<DialLine>
    decreases node, 1
  {
    var args := FormatParameters(node.parameters);
    [if node.dtmfKey != "" && useExten then Exten(node.dtmfKey, node.application, args) else Same(node.application, args)]
    + (if node.children != [] then ForestLines(node.children)
       else if node.application != "Hangup" then [Same("Hangup", "")]
       else [])
  }

  function ForestLines(nodes: seq<IvrNode>): seq<DialLine>
    decreases nodes, 0
  {
    if nodes == [] then [] else NodeLines(nodes[0], nodes[0].dtmfKey != "") + ForestLines(nodes[1..])
  }

  function Render(l: DialLine): string {
    (match l
     case Exten(key, _, _) => "exten => " + key + ",1"
     case Same(_, _) => "same => n")
    + "," + l.app + "(" + l.args + ")"
  }

  function TextOf(ls: seq<DialLine>): string {
    if ls == [] then "" else Render(ls[0]) + "\n" + TextOf(ls[1..])
  }

  /** The opening mark of a context. */
  function Mark(context: string): string {
    "[" + context + "]"
  }

  /** The context block of a tree. */
  function Block(root: IvrNode, context: string): string {
    Mark(context) + "\n" + TextOf(NodeLines(root, true))
  }

  lemma {:induction false} TextOfConcat(a: seq<DialLine>, b: seq<DialLine>)
    ensures TextOf(a + b) == TextOf(a) + TextOf(b)
  {
    if a == [] {
      assert a + b == b;
    } else {
      assert (a + b)[1..] == a[1..] + b;
      TextOfConcat(a[1..], b);
    }
  }

  /** The text of a node's own line. */
  function OwnLine(node: IvrNode, useExten: bool): string {
    Render(if node.dtmfKey != "" && useExten
           then Exten(node.dtmfKey, node.application, FormatParameters(node.parameters))
           else Same(node.application, FormatParameters(node.parameters))) + "\n"
  }

  /** The text of the lines that follow it. */
  function Below(node: IvrNode): string {
    if node.children != [] then TextOf(ForestLines(node.children))
    else if node.application != "Hangup" then TextOf([Same("Hangup", "")])
    else ""
  }

  lemma OwnLineText(node: IvrNode, useExten: bool, directive: string)
    requires directive == if node.dtmfKey != "" && useExten then "exten => " + node.dtmfKey + ",1" else "same => n"
    ensures OwnLine(node, useExten) == directive + "," + node.application + "(" + FormatParameters(node.parameters) + ")\n"
  {}

  lemma TextOfNode(node: IvrNode, useExten: bool)
    ensures TextOf(NodeLines(node, useExten)) == OwnLine(node, useExten) + Below(node)
  {
    var ls := NodeLines(node, useExten);
    var rest := ls[1..];
    assert ls == [ls[0]] + rest;
    assert TextOf(ls) == Render(ls[0]) + "\n" + TextOf(rest);
  }

  /** The text of the children from `i` on: the next child, then the others. */
  lemma TextOfForest(before: string, nodes: seq<IvrNode>, i: nat)
    requires i < |nodes|
    ensures before + TextOf(ForestLines(nodes[i..])) ==
      before + TextOf(NodeLines(nodes[i], nodes[i].dtmfKey != "")) + TextOf(ForestLines(nodes[i + 1..]))
  {
    var next, others := NodeLines(nodes[i], nodes[i].dtmfKey != ""), ForestLines(nodes[i + 1..]);
    assert nodes[i..][1..] == nodes[i + 1..];
    TextOfConcat(next, others);
    assert before + (TextOf(next) + TextOf(others)) == before + TextOf(next) + TextOf(others);
  }

  method ProcessNode(node: IvrNode, useExten: bool) returns (result: string)
    ensures result == TextOf(NodeLines(node, useExten))
    decreases node
  {
    var directive := if node.dtmfKey != "" && useExten then "exten => " + node.dtmfKey + ",1" else "same => n";
    var paramStr := FormatParameters(node.parameters);
    result := directive + "," + node.application + "(" + paramStr + ")\n";
    OwnLineText(node, useExten, directive);
    TextOfNode(node, useExten);
    if node.children != [] {
      ghost var whole := TextOf(NodeLines(node, useExten));
      assert node.children[0..] == node.children;
      for i := 0 to |node.children|
        invariant result + TextOf(ForestLines(node.children[i..])) == whole
      {
        var child := node.children[i];
        TextOfForest(result, node.children, i);
        var more := ProcessNode(child, child.dtmfKey != "");
        result := result + more;
      }
    } else if node.application != "Hangup" {
      result := result + "same => n,Hangup()\n";
      HangupLine();
    }
  }

  lemma HangupLine()
    ensures TextOf([Same("Hangup", "")]) == "same => n,Hangup()\n"
  {
    assert TextOf([Same("Hangup", "")]) == Render(Same("Hangup", "")) + "\n" + TextOf([]);
  }

  method GenerateDialplan(root: IvrNode, contextName: string) returns (r: Generated)
    ensures r.Text? <==> ValidTree(root)
    ensures r.Text? ==> r.text == Block(root, contextName)
    ensures r.Rejected? ==> |Errors(root, true)| > 0 && r.error == Errors(root, true)[0]
  {
    var errors := ValidateIvrNode(root, true);
    if |errors| > 0 {
      return Rejected(errors[0]);
    }
    var dialplan := "[" + contextName + "]\n";
    var body := ProcessNode(root, true);
    return Text(dialplan + body);
  }

  // ---- parsing ----

  /** The context a trimmed line opens: `/^\[(.+?)\]$/`. */
  function Header(t: string): Option<string> {
    if |t| >= 3 && t[0] == '[' && t[|t| - 1] == ']' && forall c <- t[1..|t| - 1] :: !IsLineTerminator(c)
    then Some(t[1..|t| - 1]) else None
  }

  /** The prefix of `s` before the first comma, or all of `s`. */
  function UpToComma(s: string): string {
    if s == "" || s[0] == ',' then "" else [s[0]] + UpToComma(s[1..])
  }

  /** The extension a trimmed line declares: `/^exten\s*=>\s*([^,]+),/`. When
      nothing but white space stands before the comma, the greedy `\s*` gives
      its last character back to the group. */
  function Ext(t: string): Option<string> {
    if !StartsWith(t, "exten") then None
    else
      var afterExten := TrimStart(t[5..]);
      if !StartsWith(afterExten, "=>") then None
      else
        var afterArrow := afterExten[2..];
        var rest := TrimStart(afterArrow);
        var key := UpToComma(rest);
        if |key| >= |rest| then None
        else if key != "" then Some(key)
        else if |rest| < |afterArrow| then Some([afterArrow[|afterArrow| - |rest| - 1]])
        else None
  }

  /** What the parser collects from trimmed lines, starting in context `ctx`. */
  function ParseCore(ls: seq<string>, ctx: string): seq<Extension> {
    if ls == [] then []
    else match Header(ls[0])
      case Some(c) => ParseCore(ls[1..], c)
      case None =>
        (if ctx != "" && Ext(ls[0]).Some? then [Extension(ctx, Ext(ls[0]).value)] else [])
        + ParseCore(ls[1..], ctx)
  }

  function Parse(data: string): seq<Extension> {
    ParseCore(Core(data), "")
  }

  /** One turn of the parser: a blank line says nothing. */
  lemma ParseStep(line: string, rest: seq<string>, ctx: string)
    ensures ParseCore(CoreLines([line] + rest), ctx) ==
      match Header(Trim(line))
      case Some(c) => ParseCore(CoreLines(rest), c)
      case None =>
        (if ctx != "" && Ext(Trim(line)).Some? then [Extension(ctx, Ext(Trim(line)).value)] else [])
        + ParseCore(CoreLines(rest), ctx)
  {
    assert ([line] + rest)[1..] == rest;
    var t := Trim(line);
    if t != "" {
      assert CoreLines([line] + rest) == [t] + CoreLines(rest);
      assert ([t] + CoreLines(rest))[1..] == CoreLines(rest);
    } else {
      assert [] + CoreLines(rest) == CoreLines(rest);
    }
  }

  method ParseExtensionsConf(data: string) returns (extensions: seq<Extension>)
    ensures extensions == Parse(data)
  {
    var lines := SplitCrLf(data);
    extensions := [];
    var currentContext := "";
    for i := 0 to |lines|
      invariant extensions + ParseCore(CoreLines(lines[i..]), currentContext) == ParseCore(CoreLines(lines), "")
    {
      var trimmed := Trim(lines[i]);
      assert lines[i..] == [lines[i]] + lines[i + 1..];
      ParseStep(lines[i], lines[i + 1..], currentContext);
      ghost var found, rest := extensions, ParseCore(CoreLines(lines[i + 1..]), currentContext);
      var contextMatch := Header(trimmed);
      if contextMatch.Some? {
        currentContext := contextMatch.value;
        continue;
      }
      var extMatch := Ext(trimmed);
      if extMatch.Some? && currentContext != "" {
        extensions := extensions + [Extension(currentContext, extMatch.value)];
        assert extensions + rest == found + ([Extension(currentContext, extMatch.value)] + rest);
      } else {
        assert [] + rest == rest;
      }
    }
    CoreChopCrs(Lines(data));
  }

  // ---- conflicts ----

  /** The keys of a tree in preorder, without the missing ones. */
  function Keys(node: IvrNode): seq<string>
    decreases node, 1
  {
    (if node.dtmfKey != "" then [node.dtmfKey] else []) + ForestKeys(node.children)
  }

  function ForestKeys(nodes: seq<IvrNode>): seq<string>
    decreases nodes, 0
  {
    if nodes == [] then [] else Keys(nodes[0]) + ForestKeys(nodes[1..])
  }

  /** The insertion-ordered set `exts` after the keys of `node` were added to it. */
  method GatherNewExts(node: IvrNode, exts: seq<string>) returns (r: seq<string>)
    ensures forall k :: k in r <==> k in exts || k in Keys(node)
    decreases node
  {
    r := exts;
    if node.dtmfKey != "" && node.dtmfKey !in r {
      r := r + [node.dtmfKey];
    }
    for i := 0 to |node.children|
      invariant forall k :: k in r || k in ForestKeys(node.children[i..]) <==> k in exts || k in Keys(node)
    {
      assert node.children[i..][1..] == node.children[i + 1..];
      r := GatherNewExts(node.children[i], r);
    }
  }

  method FindConflicts(existing: seq<Extension>, newRoot: IvrNode, newContext: string, requireExistingContext: bool)
    returns (errors: seq<Conflict>)
    ensures EmptyContext in errors <==> Trim(newContext) == ""
    ensures forall k :: DuplicateExtension(k) in errors <==> k in Keys(newRoot) && Extension(newContext, k) in existing
    ensures UnknownContext in errors <==> requireExistingContext && forall e <- existing :: e.context != newContext
    ensures errors == [] <==>
      && Trim(newContext) != ""
      && (forall k <- Keys(newRoot) :: Extension(newContext, k) !in existing)
      && (requireExistingContext ==> exists e :: e in existing && e.context == newContext)
  {
    errors := [];
    if Trim(newContext) == "" {
      errors := errors + [EmptyContext];
    }
    var newExtensions := GatherNewExts(newRoot, []);
    for i := 0 to |newExtensions|
      invariant EmptyContext in errors <==> Trim(newContext) == ""
      invariant UnknownContext !in errors
      invariant forall k :: DuplicateExtension(k) in errors <==>
        k in newExtensions[..i] && Extension(newContext, k) in existing
      invariant errors == [] || EmptyContext in errors || exists k :: DuplicateExtension(k) in errors
    {
      var ext := newExtensions[i];
      if Extension(newContext, ext) in existing {
        errors := errors + [DuplicateExtension(ext)];
        assert DuplicateExtension(ext) in errors;
      }
      assert newExtensions[..i + 1] == newExtensions[..i] + [ext];
    }
    assert newExtensions[..|newExtensions|] == newExtensions;
    var contextExists := exists e :: e in existing && e.context == newContext;
    if requireExistingContext && !contextExists {
      errors := errors + [UnknownContext];
      assert UnknownContext in errors;
    }
  }

  // ---- deletion ----

  /** What is left of `s` after the lazy `[\s\S]*?(?=\n\[|$)` has matched. */
  function SkipBlock(s: string): (r: string)
    ensures |r| <= |s|
  {
    if s == "" || StartsWith(s, "\n[") then s else SkipBlock(s[1..])
  }

  /** `s` without every leftmost match of `\[context\][\s\S]*?(?=\n\[|$)`. */
  function Cut(s: string, context: string): string
    decreases |s|
  {
    if StartsWith(s, Mark(context)) then Cut(SkipBlock(s[|context| + 2..]), context)
    else if s == "" then ""
    else [s[0]] + Cut(s[1..], context)
  }

  /** The file `deleteIVRTree` writes back. */
  function Deleted(content: string, context: string): string {
    Trim(Cut(content, context)) + "\n"
  }
}
