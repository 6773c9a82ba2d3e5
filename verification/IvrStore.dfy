/** The IVR table and the dialplan file kept in step with it
    (src/system-manager/system-manager.service.ts, saveIVRTree and deleteIVRTree;
    src/utils/dialplan/dialplan-manager.ts, saveIvrDialplan and deleteIVRTree). */
module IvrStore {
  import opened Text
  import opened Dialplan
  import opened DialplanBlocks
  import opened DialplanDeletion
  import opened DialplanLaws

  const FRESH_FILE := "; Custom IVR dialplans\n\n"
  const INCLUDE_LINE := "#include extensions_custom.conf"

  datatype Row = Row(name: string, tree: IvrNode, company: int)

  /** The table, the custom dialplan file and the main dialplan file; a file
      that does not exist is None. */
  datatype Store = Store(rows: map<nat, Row>, nextId: nat, custom: Option<string>, mainConf: Option<string>)

  datatype Outcome = Done | Refused | SaveFailed

  // ---- the operations as functions of the store ----

  predicate NoConflict(existing: seq<Extension>, root: IvrNode, context: string) {
    Trim(context) != "" && forall k <- Keys(root) :: Extension(context, k) !in existing
  }

  function WithCustom(s: Store): Store {
    if s.custom.None? then s.(custom := Some(FRESH_FILE)) else s
  }

  function WithInclude(conf: string): string {
    if Contains(conf, INCLUDE_LINE) then conf else INCLUDE_LINE + "\n" + conf
  }

  function SaveDialplan(s: Store, root: IvrNode, context: string): (Store, Outcome) {
    SaveInto(WithCustom(s), root, context)
  }

  function SaveInto(s: Store, root: IvrNode, context: string): (Store, Outcome)
    requires s.custom.Some?
  {
    if s.mainConf.None? then (s, SaveFailed)
    else
      var s1 := s.(mainConf := Some(WithInclude(s.mainConf.value)));
      var file := s.custom.value;
      if !NoConflict(Parse(file), root, context) || !ValidTree(root) then (s1, SaveFailed)
      else (s1.(custom := Some(file + "\n" + Block(root, context))), Done)
  }

  predicate NameTaken(s: Store, name: string) {
    exists id <- s.rows :: s.rows[id].name == name
  }

  function CreateTree(s: Store, name: string, tree: IvrNode, company: int): (Store, Outcome) {
    if NameTaken(s, name) then (s, Refused)
    else SaveDialplan(s.(rows := s.rows[s.nextId := Row(name, tree, company)], nextId := s.nextId + 1), tree, name)
  }

  function UpdateTree(s: Store, id: nat, tree: IvrNode): (Store, Outcome) {
    if id !in s.rows then (s, Refused)
    else if s.custom.None? then (s, SaveFailed)
    else
      var row := s.rows[id];
      var s1 := s.(custom := Some(Deleted(s.custom.value, row.name)));
      SaveDialplan(s1.(rows := s1.rows[id := row.(tree := tree)]), tree, row.name)
  }

  function DeleteTree(s: Store, id: nat, company: int): (Store, Outcome) {
    if id !in s.rows || s.rows[id].company != company then (s, Refused)
    else
      var custom := if s.custom.None? then None else Some(Deleted(s.custom.value, s.rows[id].name));
      (s.(custom := custom, rows := map i | i in s.rows && i != id :: s.rows[i]), Done)
  }

  // ---- the service ----

  class IvrService {
    var rows: map<nat, Row>
    var nextId: nat
    var custom: Option<string>
    var mainConf: Option<string>

    ghost function View(): Store
      reads this
    {
      Store(rows, nextId, custom, mainConf)
    }

    constructor (main: Option<string>)
      ensures View() == Store(map[], 0, None, main)
    {
      rows, nextId, custom, mainConf := map[], 0, None, main;
    }

    method SaveIvrDialplan(root: IvrNode, contextName: string) returns (outcome: Outcome)
      modifies this
      ensures (View(), outcome) == SaveDialplan(old(View()), root, contextName)
    {
      if custom.None? {
        custom := Some(FRESH_FILE);
      }
      ghost var s1 := View();
      assert s1 == WithCustom(old(View()));
      if mainConf.None? {
        return SaveFailed;
      }
      if !Contains(mainConf.value, INCLUDE_LINE) {
        mainConf := Some(INCLUDE_LINE + "\n" + mainConf.value);
      }
      var existing := ParseExtensionsConf(custom.value);
      var conflicts := FindConflicts(existing, root, contextName, false);
      assert conflicts == [] <==> NoConflict(existing, root, contextName);
      if |conflicts| > 0 {
        return SaveFailed;
      }
      var content := GenerateDialplan(root, contextName);
      if content.Rejected? {
        return SaveFailed;
      }
      custom := Some(custom.value + "\n" + content.text);
      return Done;
    }

    method SaveIVRTree(id: Option<nat>, name: string, tree: IvrNode, company: int) returns (outcome: Outcome)
      modifies this
      ensures (View(), outcome) ==
        if id.Some? then UpdateTree(old(View()), id.value, tree) else CreateTree(old(View()), name, tree, company)
    {
      if id.Some? {
        if id.value !in rows {
          return Refused;
        }
        if custom.None? {
          return SaveFailed;
        }
        var existing := rows[id.value];
        custom := Some(Deleted(custom.value, existing.name));
        rows := rows[id.value := Row(existing.name, tree, existing.company)];
        outcome := SaveIvrDialplan(tree, existing.name);
      } else {
        if exists i <- rows :: rows[i].name == name {
          return Refused;
        }
        rows := rows[nextId := Row(name, tree, company)];
        nextId := nextId + 1;
        outcome := SaveIvrDialplan(tree, name);
      }
    }

    method DeleteIVRTree(id: nat, company: int) returns (outcome: Outcome)
      modifies this
      ensures (View(), outcome) == DeleteTree(old(View()), id, company)
    {
      if id !in rows || rows[id].company != company {
        return Refused;
      }
      if custom.Some? {
        custom := Some(Deleted(custom.value, rows[id].name));
      }
      rows := map i | i in rows && i != id :: rows[i];
      return Done;
    }
  }

  // ---- runs ----

  datatype Call =
    | Create(name: string, tree: IvrNode, company: int)
    | Update(id: nat, tree: IvrNode)
    | Delete(id: nat, company: int)

  /** Node strings and names within the reach of the text format. */
  predicate PlainCall(c: Call) {
    match c
    case Create(name, tree, _) => PlainName(name) && PrintableTree(tree)
    case Update(_, tree) => PrintableTree(tree)
    case Delete(_, _) => true
  }

  function Perform(s: Store, c: Call): (Store, Outcome) {
    match c
    case Create(name, tree, company) => CreateTree(s, name, tree, company)
    case Update(id, tree) => UpdateTree(s, id, tree)
    case Delete(id, company) => DeleteTree(s, id, company)
  }

  function Run(s: Store, calls: seq<Call>): Store
    decreases calls
  {
    if calls == [] then s else Run(Perform(s, calls[0]).0, calls[1..])
  }

  // ---- the file mirrors the table ----

  /** A row whose tree can be printed under its name. */
  predicate Saveable(r: Row) {
    Trim(r.name) != "" && ValidTree(r.tree)
  }

  predicate PlainRow(r: Row) {
    PlainName(r.name) && PrintableTree(r.tree)
  }

  /** A list of distinct rows, all of them printable. */
  ghost predicate Ordered(order: seq<nat>, rows: map<nat, Row>) {
    && (forall i, j :: 0 <= i < j < |order| ==> order[i] != order[j])
    && (forall id <- order :: id in rows && Saveable(rows[id]) && PlainRow(rows[id]))
  }

  /** The printed blocks of the rows `order`, one after another. */
  ghost function Blocks(order: seq<nat>, rows: map<nat, Row>): seq<string>
    requires forall id <- order :: id in rows
  {
    if order == [] then []
    else BlockLines(rows[order[0]].tree, rows[order[0]].name) + Blocks(order[1..], rows)
  }

  ghost predicate GoodRows(s: Store) {
    && (forall id <- s.rows :: id < s.nextId && PlainRow(s.rows[id]))
    && (forall i, j :: i in s.rows && j in s.rows && s.rows[i].name == s.rows[j].name ==> i == j)
  }

  /** Lines that open no context. */
  predicate PlainLines(ls: seq<string>) {
    forall l <- ls :: Header(l) == None
  }

  /** Up to layout the file is `head` followed by the blocks of `order`. */
  ghost predicate FileIs(file: string, head: seq<string>, order: seq<nat>, rows: map<nat, Row>) {
    && (forall id <- order :: id in rows)
    && Tidy(file)
    && Core(file) == head + Blocks(order, rows)
  }

  ghost predicate Mirrors(s: Store, head: seq<string>, order: seq<nat>) {
    && s.custom.Some?
    && Ordered(order, s.rows)
    && FileIs(s.custom.value, head, order, s.rows)
    && (s.mainConf.Some? ==> forall id <- s.rows :: id in order <==> Saveable(s.rows[id]))
  }

  /** The lines a fresh custom file starts with. */
  ghost function Preamble(): seq<string> {
    Core(FRESH_FILE)
  }

  ghost predicate Inv(s: Store) {
    && GoodRows(s)
    && if s.custom.None? then s.rows == map[] else exists order :: Mirrors(s, Preamble(), order)
  }

  // ---- lemmas about blocks ----

  lemma SaveableName(r: Row)
    requires Saveable(r) && PlainName(r.name)
    ensures r.name != "" && Header(Mark(r.name)) == Some(r.name)
  {
    MarkShape(r.name);
  }

  lemma {:induction false} NoBracketLines(ls: seq<string>)
    requires forall l <- ls :: '[' !in l
    ensures PlainLines(CoreLines(ls))
  {
    if ls != [] {
      HeaderNeedsBracket(ls[0]);
      NoBracketLines(ls[1..]);
    }
  }

  lemma {:induction false} LinesLetters(s: string, c: char)
    requires c !in s
    ensures forall l <- Lines(s) :: c !in l
  {
    if s != "" {
      assert s == [s[0]] + s[1..];
      LinesLetters(s[1..], c);
    }
  }

  lemma FreshFileShape()
    ensures Tidy(FRESH_FILE) && PlainLines(Preamble())
  {
    assert '[' !in FRESH_FILE;
    LinesLetters(FRESH_FILE, '[');
    NoBracketLines(Lines(FRESH_FILE));
  }

  lemma {:induction false} BlocksFrame(order: seq<nat>, rows: map<nat, Row>, rows': map<nat, Row>)
    requires forall id <- order :: id in rows && id in rows' && rows[id] == rows'[id]
    ensures Blocks(order, rows) == Blocks(order, rows')
  {
    if order != [] {
      BlocksFrame(order[1..], rows, rows');
    }
  }

  lemma {:induction false} BlocksAppend(order: seq<nat>, id: nat, rows: map<nat, Row>)
    requires id in rows && forall i <- order :: i in rows
    ensures Blocks(order + [id], rows) == Blocks(order, rows) + BlockLines(rows[id].tree, rows[id].name)
  {
    if order == [] {
      assert [id][1..] == [] && [] + [id] == [id];
      assert Blocks([], rows) == [];
    } else {
      assert (order + [id])[1..] == order[1..] + [id];
      BlocksAppend(order[1..], id, rows);
    }
  }

  /** Lines without a header are passed over. */
  lemma {:induction false} DropPlain(a: seq<string>, b: seq<string>, context: string)
    requires PlainLines(a)
    ensures DropCore(a + b, context) == a + DropCore(b, context)
    ensures FromCore(a + b) == FromCore(b)
  {
    if a == [] {
      assert a + b == b;
    } else {
      assert (a + b)[1..] == a[1..] + b;
      DropPlain(a[1..], b, context);
    }
  }

  lemma {:induction false} RenderedPlain(ls: seq<DialLine>)
    requires forall l <- ls :: PrintableLine(l)
    ensures PlainLines(Rendered(ls))
  {
    if ls != [] {
      RenderShape(ls[0]);
      RenderedPlain(ls[1..]);
    }
  }

  lemma BlockBody(r: Row)
    requires PrintableTree(r.tree)
    ensures PlainLines(Rendered(NodeLines(r.tree, true)))
  {
    TreeLinesPrintable(r.tree, true);
    RenderedPlain(NodeLines(r.tree, true));
  }

  lemma DropHead(l: string, ls: seq<string>, context: string)
    ensures DropCore([l] + ls, context) ==
      if Header(l) == Some(context) then DropCore(FromCore(ls), context) else [l] + DropCore(ls, context)
  {
    assert ([l] + ls)[1..] == ls;
  }

  lemma Regroup<T>(a: seq<T>, b: seq<T>, c: seq<T>)
    ensures a + b + c == a + (b + c)
  {}

  lemma DropHeaded(l: string, body: seq<string>, rest: seq<string>, context: string)
    requires PlainLines(body)
    ensures DropCore([l] + body + rest, context) ==
      if Header(l) == Some(context) then DropCore(FromCore(rest), context)
      else [l] + body + DropCore(rest, context)
  {
    Regroup([l], body, rest);
    Regroup([l], body, DropCore(rest, context));
    DropHead(l, body + rest, context);
    DropPlain(body, rest, context);
  }

  lemma DropOne(r: Row, rest: seq<string>, context: string)
    requires Saveable(r) && PlainRow(r)
    ensures DropCore(BlockLines(r.tree, r.name) + rest, context) ==
      if r.name == context then DropCore(FromCore(rest), context)
      else BlockLines(r.tree, r.name) + DropCore(rest, context)
  {
    SaveableName(r);
    BlockBody(r);
    DropHeaded(Mark(r.name), Rendered(NodeLines(r.tree, true)), rest, context);
  }

  lemma BlocksStart(order: seq<nat>, rows: map<nat, Row>)
    requires forall id <- order :: id in rows && Saveable(rows[id]) && PlainRow(rows[id])
    ensures FromCore(Blocks(order, rows)) == Blocks(order, rows)
  {
    if order != [] {
      SaveableName(rows[order[0]]);
      assert Blocks(order, rows)[0] == Mark(rows[order[0]].name);
    }
  }

  function Minus(order: seq<nat>, id: nat): (r: seq<nat>)
    ensures forall x :: x in r <==> x in order && x != id
  {
    if order == [] then []
    else
      assert order == [order[0]] + order[1..];
      (if order[0] == id then [] else [order[0]]) + Minus(order[1..], id)
  }

  lemma {:induction false} MinusDistinct(order: seq<nat>, id: nat)
    requires forall i, j :: 0 <= i < j < |order| ==> order[i] != order[j]
    ensures var m := Minus(order, id); forall i, j :: 0 <= i < j < |m| ==> m[i] != m[j]
  {
    if order != [] {
      MinusDistinct(order[1..], id);
      assert order[0] !in order[1..];
      assert order[0] !in Minus(order[1..], id);
    }
  }

  /** Deleting the name of row `id` drops exactly that row's block. */
  lemma {:induction false} DropRow(order: seq<nat>, rows: map<nat, Row>, id: nat)
    requires id in rows
    requires forall i <- order :: i in rows && Saveable(rows[i]) && PlainRow(rows[i])
    requires forall i :: i in rows && rows[i].name == rows[id].name ==> i == id
    ensures DropCore(Blocks(order, rows), rows[id].name) == Blocks(Minus(order, id), rows)
  {
    if order != [] {
      var first, more := order[0], order[1..];
      var rest := Blocks(more, rows);
      DropRow(more, rows, id);
      DropOne(rows[first], rest, rows[id].name);
      if first == id {
        BlocksStart(more, rows);
        assert [] + Minus(more, id) == Minus(more, id);
      } else {
        var m := Minus(order, id);
        assert m == [first] + Minus(more, id);
        assert m[0] == first && m[1..] == Minus(more, id);
      }
    }
  }

  // ---- tidiness ----

  lemma TidyPrepend(s: string, w: char)
    requires IsSpace(w) && Tidy([w] + s)
    ensures Tidy(s)
  {
    assert ([w] + s)[1..] == s;
    var r := Lines(s);
    if w == '\n' {
      assert Lines([w] + s) == [""] + r;
      assert forall l <- r :: l in Lines([w] + s);
    } else {
      var first := [w] + r[0];
      assert Lines([w] + s) == [first] + r[1..];
      assert first in Lines([w] + s);
      assert TidyLine(first);
      assert '[' !in r[0] by {
        assert first[0] == w;
        assert forall c <- r[0] :: c in first;
      }
      forall l | l in r ensures TidyLine(l) {
        if l != r[0] {
          assert l in r[1..];
          assert l in Lines([w] + s);
        }
      }
    }
  }

  lemma TidyLineAppend(l: string, w: char)
    requires IsSpace(w)
    ensures TidyLine(l) <==> TidyLine(l + [w])
  {
    TrimEndAppend(l, w);
    if l != "" {
      ConcatTail(l, [w]);
    }
    assert l == "" ==> l + [w] == [w];
  }

  lemma TidySnoc(init: seq<string>, last: string)
    ensures (forall l <- init + [last] :: TidyLine(l)) <==> (forall l <- init :: TidyLine(l)) && TidyLine(last)
  {
    assert last in init + [last];
  }

  lemma TidyAppend(s: string, w: char)
    requires IsSpace(w)
    ensures Tidy(s) <==> Tidy(s + [w])
  {
    var r := Lines(s);
    var init, last := r[..|r| - 1], r[|r| - 1];
    LinesConcat(s, [w]);
    assert [w][1..] == "";
    assert r == init + [last];
    TidySnoc(init, last);
    if w == '\n' {
      assert Lines([w]) == ["", ""];
      assert last + "" == last;
      assert Lines(s + [w]) == r + [""];
      TidySnoc(r, "");
    } else {
      LinesOfLine([w]);
      assert Lines(s + [w]) == init + [last + [w]];
      TidySnoc(init, last + [w]);
      TidyLineAppend(last, w);
    }
  }

  lemma {:induction false} TidyTrimStart(s: string)
    requires Tidy(s)
    ensures Tidy(TrimStart(s))
  {
    if s != "" && IsSpace(s[0]) {
      assert [s[0]] + s[1..] == s;
      TidyPrepend(s[1..], s[0]);
      TidyTrimStart(s[1..]);
    }
  }

  lemma {:induction false} TidyTrimEnd(s: string)
    requires Tidy(s)
    ensures Tidy(TrimEnd(s))
  {
    if s != "" && IsSpace(s[|s| - 1]) {
      assert s[..|s| - 1] + [s[|s| - 1]] == s;
      TidyAppend(s[..|s| - 1], s[|s| - 1]);
      TidyTrimEnd(s[..|s| - 1]);
    }
  }

  lemma TidyDeleted(file: string, context: string)
    requires Tidy(file) && PlainName(context)
    ensures Tidy(Deleted(file, context))
  {
    TidyIsCleanFor(file, context);
    CutIsDropBlocks(file, context);
    DropBlocksSub(Lines(file), context);
    TidyTrimStart(Cut(file, context));
    TidyTrimEnd(TrimStart(Cut(file, context)));
    TidyAppend(Trim(Cut(file, context)), '\n');
  }

  lemma {:induction false} TidyRendered(ls: seq<DialLine>)
    requires forall l <- ls :: PrintableLine(l)
    ensures forall t <- Rendered(ls) :: TidyLine(t)
  {
    if ls != [] {
      RenderShape(ls[0]);
      TidyRendered(ls[1..]);
    }
  }

  lemma TidySaved(file: string, root: IvrNode, context: string)
    requires Tidy(file) && PrintableTree(root) && PlainName(context) && context != ""
    ensures Tidy(file + "\n" + Block(root, context))
  {
    LinesBreak(file, Block(root, context));
    CoreOfBlock(root, context);
    TreeLinesPrintable(root, true);
    TidyRendered(NodeLines(root, true));
    MarkShape(context);
    TrimOfTrimmed(Mark(context));
    assert TrimStart(Mark(context)) == Mark(context);
    assert Mark(context)[1..] == context + "]";
    assert TidyLine(Mark(context));
    assert TidyLine("");
  }

  // ---- what the file holds ----

  /** Every parsed entry stands under a header of the text. */
  lemma {:induction false} ParsedContexts(ls: seq<string>, ctx: string)
    ensures forall e <- ParseCore(ls, ctx) ::
      e.context != "" && (e.context == ctx || exists l :: l in ls && Header(l) == Some(e.context))
  {
    if ls != [] {
      match Header(ls[0])
      case Some(c) => ParsedContexts(ls[1..], c);
      case None => ParsedContexts(ls[1..], ctx);
    }
  }

  lemma {:induction false} BlockHeaders(order: seq<nat>, rows: map<nat, Row>, l: string)
    requires forall id <- order :: id in rows && Saveable(rows[id]) && PlainRow(rows[id])
    requires l in Blocks(order, rows) && Header(l).Some?
    ensures exists id :: id in order && rows[id].name == Header(l).value
  {
    var r := rows[order[0]];
    SaveableName(r);
    BlockBody(r);
    if l in BlockLines(r.tree, r.name) {
      assert order[0] in order;
    } else {
      BlockHeaders(order[1..], rows, l);
    }
  }

  /** A name no printed row bears has no entry in the file. */
  lemma NoEntryUnder(file: string, head: seq<string>, order: seq<nat>, rows: map<nat, Row>, name: string)
    requires Ordered(order, rows) && FileIs(file, head, order, rows) && PlainLines(head)
    requires forall id <- order :: rows[id].name != name
    ensures forall e <- Parse(file) :: e.context != name
  {
    ParsedContexts(Core(file), "");
    forall e | e in Parse(file) ensures e.context != name {
      var l :| l in Core(file) && Header(l) == Some(e.context);
      BlockHeaders(order, rows, l);
    }
  }

  // ---- the operations keep the mirror ----

  /** What a save does to the store, whatever the store holds. */
  lemma SaveIntoCases(s: Store, root: IvrNode, context: string)
    requires s.custom.Some?
    ensures var r := SaveInto(s, root, context);
      && r.0.rows == s.rows && r.0.nextId == s.nextId
      && r.0.mainConf.Some? == s.mainConf.Some?
      && (r.1 == Done <==> s.mainConf.Some? && NoConflict(Parse(s.custom.value), root, context) && ValidTree(root))
      && r.0.custom == if r.1 == Done then Some(s.custom.value + "\n" + Block(root, context)) else s.custom
  {}

  lemma AppendBlock(file: string, head: seq<string>, order: seq<nat>, rows: map<nat, Row>, id: nat)
    requires id in rows && Saveable(rows[id]) && PlainRow(rows[id])
    requires FileIs(file, head, order, rows)
    ensures FileIs(file + "\n" + Block(rows[id].tree, rows[id].name), head, order + [id], rows)
  {
    var row := rows[id];
    SaveableName(row);
    TidySaved(file, row.tree, row.name);
    AppendCore(file, head, order, rows, id);
  }

  lemma AppendCore(file: string, head: seq<string>, order: seq<nat>, rows: map<nat, Row>, id: nat)
    requires id in rows && PlainRow(rows[id])
    requires (forall i <- order :: i in rows) && Core(file) == head + Blocks(order, rows)
    ensures Core(file + "\n" + Block(rows[id].tree, rows[id].name)) == head + Blocks(order + [id], rows)
  {
    var tree, name := rows[id].tree, rows[id].name;
    CoreBreak(file, Block(tree, name));
    CoreOfBlock(tree, name);
    BlocksAppend(order, id, rows);
    Assoc(head, Blocks(order, rows), BlockLines(tree, name));
  }

  lemma Assoc(a: seq<string>, b: seq<string>, c: seq<string>)
    ensures (a + b) + c == a + (b + c)
  {}

  /** A store whose row `id` has no block in the file, all else being mirrored. */
  ghost predicate MirrorsBut(s: Store, head: seq<string>, order: seq<nat>, id: nat) {
    && GoodRows(s) && id in s.rows && id !in order
    && s.custom.Some? && Ordered(order, s.rows) && FileIs(s.custom.value, head, order, s.rows)
    && (s.mainConf.Some? ==> forall i <- s.rows :: i != id ==> (i in order <==> Saveable(s.rows[i])))
  }

  /** Saving such a row never meets a conflict unless its name is blank; it adds
      the row's block, or fails and leaves the file as it is. */
  lemma SaveKeeps(s: Store, head: seq<string>, order: seq<nat>, id: nat) returns (order': seq<nat>)
    requires MirrorsBut(s, head, order, id) && PlainLines(head)
    ensures var r := SaveInto(s, s.rows[id].tree, s.rows[id].name);
      && Mirrors(r.0, head, order') && r.0.rows == s.rows && r.0.nextId == s.nextId
      && r.0.mainConf.Some? == s.mainConf.Some?
      && (r.1 == Done <==> s.mainConf.Some? && Saveable(s.rows[id]))
    ensures Trim(s.rows[id].name) != "" ==> NoConflict(Parse(s.custom.value), s.rows[id].tree, s.rows[id].name)
  {
    var row := s.rows[id];
    NoEntryUnder(s.custom.value, head, order, s.rows, row.name);
    SaveIntoCases(s, row.tree, row.name);
    if s.mainConf.Some? && Saveable(row) {
      AppendBlock(s.custom.value, head, order, s.rows, id);
      order' := order + [id];
    } else {
      order' := order;
    }
  }

  /** Deleting a row's name takes its block, and only its block, out of the file. */
  lemma CutKeeps(s: Store, head: seq<string>, order: seq<nat>, id: nat)
    requires GoodRows(s) && id in s.rows && Mirrors(s, head, order) && PlainLines(head)
    ensures MirrorsBut(s.(custom := Some(Deleted(s.custom.value, s.rows[id].name))), head, Minus(order, id), id)
  {
    var name := s.rows[id].name;
    MinusDistinct(order, id);
    TidyDeleted(s.custom.value, name);
    TidyIsCleanFor(s.custom.value, name);
    DeletedCore(s.custom.value, name);
    DropPlain(head, Blocks(order, s.rows), name);
    DropRow(order, s.rows, id);
  }

  /** The store after a row was added, before its dialplan is saved. */
  function Added(s: Store, r: Row): Store {
    WithCustom(s.(rows := s.rows[s.nextId := r], nextId := s.nextId + 1))
  }

  /** A row just added has no block, not even in a file created for it. */
  lemma AddedRowHasNoBlock(s: Store, r: Row) returns (order: seq<nat>)
    requires Inv(s) && PlainRow(r) && !NameTaken(s, r.name)
    ensures MirrorsBut(Added(s, r), Preamble(), order, s.nextId)
  {
    AddedRowIsGood(s, r);
    if s.custom.None? {
      AddedToFresh(s, r);
      order := [];
    } else {
      order :| Mirrors(s, Preamble(), order);
      AddedRowIsMirrored(s, Preamble(), order, r);
    }
  }

  lemma AddedToFresh(s: Store, r: Row)
    requires s.custom.None? && s.rows == map[]
    ensures var s1 := Added(s, r);
      && Ordered([], s1.rows) && FileIs(s1.custom.value, Preamble(), [], s1.rows)
      && forall i <- s1.rows :: i == s.nextId
  {
    FreshFileShape();
    assert Preamble() + Blocks([], Added(s, r).rows) == Preamble();
  }

  lemma AddedRowIsGood(s: Store, r: Row)
    requires GoodRows(s) && PlainRow(r) && !NameTaken(s, r.name)
    ensures GoodRows(s.(rows := s.rows[s.nextId := r], nextId := s.nextId + 1))
  {}

  lemma AddedRowIsMirrored(s: Store, head: seq<string>, order: seq<nat>, r: Row)
    requires GoodRows(s) && Mirrors(s, head, order)
    ensures var rows := s.rows[s.nextId := r];
      && Ordered(order, rows) && FileIs(s.custom.value, head, order, rows) && s.nextId !in order
      && (s.mainConf.Some? ==> forall i <- rows :: i != s.nextId ==> (i in order <==> Saveable(rows[i])))
  {
    BlocksFrame(order, s.rows, s.rows[s.nextId := r]);
  }

  lemma CreateKeeps(s: Store, name: string, tree: IvrNode, company: int)
    requires Inv(s) && PlainName(name) && PrintableTree(tree)
    ensures Inv(CreateTree(s, name, tree, company).0)
    ensures var r := CreateTree(s, name, tree, company);
      && r.0.mainConf.Some? == s.mainConf.Some?
      && (r.1 == Done <==> !NameTaken(s, name) && s.mainConf.Some? && Trim(name) != "" && ValidTree(tree))
  {
    if !NameTaken(s, name) {
      var row := Row(name, tree, company);
      var order := AddedRowHasNoBlock(s, row);
      var s1 := Added(s, row);
      assert PlainLines(Preamble()) by { FreshFileShape(); }
      SavedInv(s1, order, s.nextId);
      assert CreateTree(s, name, tree, company) == SaveInto(s1, tree, name);
    }
  }

  lemma SavedInv(s: Store, order: seq<nat>, id: nat)
    requires MirrorsBut(s, Preamble(), order, id) && PlainLines(Preamble())
    ensures var r := SaveInto(s, s.rows[id].tree, s.rows[id].name);
      && Inv(r.0) && r.0.mainConf.Some? == s.mainConf.Some?
      && (r.1 == Done <==> s.mainConf.Some? && Saveable(s.rows[id]))
  {
    var order' := SaveKeeps(s, Preamble(), order, id);
  }

  /** Replacing the tree of a row that has no block in the file. */
  lemma ReplacedTree(s: Store, head: seq<string>, order: seq<nat>, id: nat, tree: IvrNode)
    requires MirrorsBut(s, head, order, id) && PrintableTree(tree)
    ensures MirrorsBut(s.(rows := s.rows[id := s.rows[id].(tree := tree)]), head, order, id)
  {
    var rows' := s.rows[id := s.rows[id].(tree := tree)];
    BlocksFrame(order, s.rows, rows');
    ReplacedIsGood(s, id, tree);
    assert FileIs(s.custom.value, head, order, rows');
    assert Ordered(order, rows');
  }

  lemma ReplacedIsGood(s: Store, id: nat, tree: IvrNode)
    requires GoodRows(s) && id in s.rows && PrintableTree(tree)
    ensures GoodRows(s.(rows := s.rows[id := s.rows[id].(tree := tree)]))
  {
    var rows' := s.rows[id := s.rows[id].(tree := tree)];
    assert forall i <- rows' :: rows'[i].name == s.rows[i].name;
  }

  lemma UpdateKeeps(s: Store, id: nat, tree: IvrNode)
    requires Inv(s) && PrintableTree(tree)
    ensures Inv(UpdateTree(s, id, tree).0)
    ensures var r := UpdateTree(s, id, tree);
      && r.0.mainConf.Some? == s.mainConf.Some?
      && (r.1 == Done <==> id in s.rows && s.mainConf.Some? && Trim(s.rows[id].name) != "" && ValidTree(tree))
  {
    if id in s.rows {
      var order :| Mirrors(s, Preamble(), order);
      assert PlainLines(Preamble()) by { FreshFileShape(); }
      CutKeeps(s, Preamble(), order, id);
      var row := s.rows[id];
      var s1 := s.(custom := Some(Deleted(s.custom.value, row.name)));
      ReplacedTree(s1, Preamble(), Minus(order, id), id, tree);
      var s2 := s1.(rows := s1.rows[id := row.(tree := tree)]);
      SavedInv(s2, Minus(order, id), id);
      assert UpdateTree(s, id, tree) == SaveInto(s2, tree, row.name);
    }
  }

  lemma DeleteKeeps(s: Store, id: nat, company: int)
    requires Inv(s)
    ensures var r := DeleteTree(s, id, company);
      && Inv(r.0) && r.0.mainConf == s.mainConf
      && (r.1 == Done ==> id !in r.0.rows)
  {
    if id in s.rows && s.rows[id].company == company {
      FreshFileShape();
      var order :| Mirrors(s, Preamble(), order);
      CutKeeps(s, Preamble(), order, id);
      var s' := DeleteTree(s, id, company).0;
      BlocksFrame(Minus(order, id), s.rows, s'.rows);
      assert Mirrors(s', Preamble(), Minus(order, id));
    }
  }

  lemma PerformKeeps(s: Store, c: Call)
    requires Inv(s) && PlainCall(c)
    ensures Inv(Perform(s, c).0) && Perform(s, c).0.mainConf.Some? == s.mainConf.Some?
  {
    match c
    case Create(name, tree, company) => CreateKeeps(s, name, tree, company);
    case Update(id, tree) => UpdateKeeps(s, id, tree);
    case Delete(id, company) => DeleteKeeps(s, id, company);
  }

  // ---- main results ----

  lemma {:induction false} RunKeeps(s: Store, calls: seq<Call>)
    requires Inv(s) && forall c <- calls :: PlainCall(c)
    ensures Inv(Run(s, calls)) && Run(s, calls).mainConf.Some? == s.mainConf.Some?
    decreases calls
  {
    if calls != [] {
      PerformKeeps(s, calls[0]);
      RunKeeps(Perform(s, calls[0]).0, calls[1..]);
    }
  }

  ghost function Start(main: Option<string>): Store {
    Store(map[], 0, None, main)
  }

  /** After any calls whatever, including failed ones, the custom file is, up to
      layout, its preamble and one printed block for each row of some list of
      distinct rows; when extensions.conf exists these are exactly the rows whose
      stored tree is valid and whose name is not blank. */
  lemma FileMirrorsTable(main: Option<string>, calls: seq<Call>)
    requires forall c <- calls :: PlainCall(c)
    ensures var s := Run(Start(main), calls);
      if s.custom.None? then s.rows == map[] else exists order :: Mirrors(s, Preamble(), order)
  {
    RunKeeps(Start(main), calls);
  }

  /** Read back by the parser, the file after any run holds exactly the keys of
      the saveable rows under their names. */
  lemma ParsedFileIsTable(main: string, calls: seq<Call>, e: Extension)
    requires forall c <- calls :: PlainCall(c)
    requires Run(Start(Some(main)), calls).custom.Some?
    ensures var s := Run(Start(Some(main)), calls);
      e in Parse(s.custom.value) <==>
      exists id :: id in s.rows && Saveable(s.rows[id]) && s.rows[id].name == e.context && e.extension in Keys(s.rows[id].tree)
  {
    var s := Run(Start(Some(main)), calls);
    RunKeeps(Start(Some(main)), calls);
    var order :| Mirrors(s, Preamble(), order);
    FreshFileShape();
    ParseConcat(Preamble(), Blocks(order, s.rows), "");
    ParsePlain(Preamble());
    ParseBlocks(order, s.rows, EndContext(Preamble(), ""), e);
  }

  lemma {:induction false} ParsePlain(ls: seq<string>)
    requires PlainLines(ls)
    ensures ParseCore(ls, "") == []
  {
    if ls != [] {
      ParsePlain(ls[1..]);
    }
  }

  predicate Owns(rows: map<nat, Row>, id: nat, e: Extension) {
    id in rows && rows[id].name == e.context && e.extension in Keys(rows[id].tree)
  }

  lemma OwnedByFirst(order: seq<nat>, rows: map<nat, Row>, e: Extension)
    requires order != []
    ensures (exists id <- order :: Owns(rows, id, e)) <==>
      Owns(rows, order[0], e) || exists id <- order[1..] :: Owns(rows, id, e)
  {
    assert order == [order[0]] + order[1..];
    assert order[0] in order;
  }

  lemma {:induction false} ParseBlocks(order: seq<nat>, rows: map<nat, Row>, ctx: string, e: Extension)
    requires forall id <- order :: id in rows && Saveable(rows[id]) && PlainRow(rows[id])
    ensures e in ParseCore(Blocks(order, rows), ctx) <==>
      exists id <- order :: Owns(rows, id, e)
  {
    if order != [] {
      var r := rows[order[0]];
      var block, rest := BlockLines(r.tree, r.name), Blocks(order[1..], rows);
      SaveableName(r);
      ParseConcat(block, rest, ctx);
      ParseBlock(r.tree, r.name, ctx);
      ParseBlocks(order[1..], rows, EndContext(block, ctx), e);
      TaggedIn(Keys(r.tree), r.name, e);
      OwnedByFirst(order, rows, e);
    }
  }

  lemma TaggedIn(keys: seq<string>, context: string, e: Extension)
    ensures e in Tagged(keys, context) <==> e.context == context && e.extension in keys
  {
    var t := Tagged(keys, context);
    if e.context == context && e.extension in keys {
      var i :| 0 <= i < |keys| && keys[i] == e.extension;
      assert t[i] == e;
    }
  }

  /** The text `saveIvrDialplan` checks for conflicts: on an update the row's own
      block has been deleted first. */
  function Checked(s: Store, update: bool, name: string): string {
    if s.custom.None? then FRESH_FILE
    else if update then Deleted(s.custom.value, name)
    else s.custom.value
  }

  /** In every reachable store the conflict check rejects no call that gets as
      far as the check with a name that is not blank. */
  lemma ConflictsUnreachable(main: Option<string>, calls: seq<Call>, id: Option<nat>, name: string, tree: IvrNode)
    requires forall c <- calls :: PlainCall(c)
    requires PlainName(name) && Trim(name) != ""
    requires var s := Run(Start(main), calls);
      if id.Some? then id.value in s.rows && s.rows[id.value].name == name else !NameTaken(s, name)
    ensures NoConflict(Parse(Checked(Run(Start(main), calls), id.Some?, name)), tree, name)
  {
    var s := Run(Start(main), calls);
    RunKeeps(Start(main), calls);
    CheckedIsClear(s, id, name, tree);
  }

  lemma CheckedIsClear(s: Store, id: Option<nat>, name: string, tree: IvrNode)
    requires Inv(s) && PlainName(name) && Trim(name) != ""
    requires if id.Some? then id.value in s.rows && s.rows[id.value].name == name else !NameTaken(s, name)
    ensures NoConflict(Parse(Checked(s, id.Some?, name)), tree, name)
  {
    assert PlainLines(Preamble()) && Tidy(FRESH_FILE) by { FreshFileShape(); }
    if s.custom.None? {
      assert Preamble() + Blocks([], s.rows) == Preamble();
      NoEntryUnder(FRESH_FILE, Preamble(), [], s.rows, name);
    } else {
      var order :| Mirrors(s, Preamble(), order);
      if id.Some? {
        CutKeeps(s, Preamble(), order, id.value);
        NoEntryUnder(Deleted(s.custom.value, name), Preamble(), Minus(order, id.value), s.rows, name);
      } else {
        NoEntryUnder(s.custom.value, Preamble(), order, s.rows, name);
      }
    }
  }

  /** Saving a dialplan writes files only, and none of the rows. */
  lemma SaveKeepsRows(s: Store, root: IvrNode, context: string)
    ensures var r := SaveDialplan(s, root, context);
      && r.0.rows == s.rows && (r.1 != Done ==> r.0.custom == WithCustom(s).custom)
  {}

  /** A create that fails after the check for its name leaves its row behind, without a
      block: exactly when extensions.conf is missing, the name is blank or the tree
      is invalid. */
  lemma FailedCreateKeepsRow(s: Store, name: string, tree: IvrNode, company: int)
    requires Inv(s) && PlainName(name) && PrintableTree(tree)
    ensures var r := CreateTree(s, name, tree, company);
      && (r.1 != Done && r.0.rows != s.rows <==>
          !NameTaken(s, name) && !(s.mainConf.Some? && Trim(name) != "" && ValidTree(tree)))
      && (r.1 != Done && r.0.rows != s.rows ==>
          r.0.rows == s.rows[s.nextId := Row(name, tree, company)] && r.0.custom == WithCustom(s).custom)
  {
    CreateKeeps(s, name, tree, company);
    var rows' := s.rows[s.nextId := Row(name, tree, company)];
    SaveKeepsRows(s.(rows := rows', nextId := s.nextId + 1), tree, name);
    assert s.nextId !in s.rows && s.nextId in rows';
  }

  lemma UpdateKeepsOtherRows(s: Store, id: nat, tree: IvrNode)
    requires id in s.rows && s.custom.Some?
    ensures var r := UpdateTree(s, id, tree);
      && r.0.rows == s.rows[id := s.rows[id].(tree := tree)]
      && (r.1 != Done ==> r.0.custom == Some(Deleted(s.custom.value, s.rows[id].name)))
  {
    var row := s.rows[id];
    var s1 := s.(custom := Some(Deleted(s.custom.value, row.name)));
    SaveKeepsRows(s1.(rows := s1.rows[id := row.(tree := tree)]), tree, row.name);
  }

  lemma OtherTree(rows: map<nat, Row>, id: nat, tree: IvrNode)
    requires id in rows
    ensures rows[id := rows[id].(tree := tree)] == rows <==> rows[id].tree == tree
  {
    var rows' := rows[id := rows[id].(tree := tree)];
    assert rows'[id].tree == tree;
    if rows[id].tree == tree {
      assert rows[id].(tree := tree) == rows[id];
    }
  }

  lemma InvHasFile(s: Store, id: nat)
    requires Inv(s) && id in s.rows
    ensures s.custom.Some?
  {}

  lemma UnknownRowIsRefused(s: Store, id: nat, tree: IvrNode)
    requires id !in s.rows
    ensures UpdateTree(s, id, tree) == (s, Refused)
  {}

  /** An update that fails replaces the stored tree all the same, and takes the old
      block out of the file. */
  lemma FailedUpdateKeepsTree(s: Store, id: nat, tree: IvrNode)
    requires Inv(s) && PrintableTree(tree)
    ensures var r := UpdateTree(s, id, tree);
      r.1 != Done && r.0.rows != s.rows <==>
        && id in s.rows && s.rows[id].tree != tree
        && !(s.mainConf.Some? && Trim(s.rows[id].name) != "" && ValidTree(tree))
    ensures id in s.rows && UpdateTree(s, id, tree).1 != Done ==>
      && UpdateTree(s, id, tree).0.rows == s.rows[id := s.rows[id].(tree := tree)] && s.custom.Some?
      && UpdateTree(s, id, tree).0.custom == Some(Deleted(s.custom.value, s.rows[id].name))
  {
    if id in s.rows {
      UpdateKeeps(s, id, tree);
      InvHasFile(s, id);
      UpdateKeepsOtherRows(s, id, tree);
      OtherTree(s.rows, id, tree);
    } else {
      UnknownRowIsRefused(s, id, tree);
    }
  }

  /** Saving adds the include line at most once, whatever the main file holds. */
  lemma IncludeOnce(conf: string)
    ensures Contains(WithInclude(conf), INCLUDE_LINE)
    ensures WithInclude(WithInclude(conf)) == WithInclude(conf)
  {
    if !Contains(conf, INCLUDE_LINE) {
      StartsWithConcat(INCLUDE_LINE, "\n" + conf);
      assert INCLUDE_LINE + "\n" + conf == INCLUDE_LINE + ("\n" + conf);
    }
  }
}
