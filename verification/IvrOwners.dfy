/** Whose the rows of the IVR table are, what each call does to them and to the two
    files (src/system-manager/system-manager.service.ts, saveIVRTree and deleteIVRTree). */
module IvrOwners {
  import opened Text
  import opened Dialplan
  import opened DialplanLaws
  import opened DialplanDeletion
  import opened IvrStore

  // ---- single calls ----

  /** A delete succeeds exactly when the row exists and belongs to the caller's company. It
      then takes that row and its name's blocks, and nothing else; otherwise it is
      refused and changes nothing. */
  lemma DeleteAnswer(s: Store, id: nat, company: int)
    ensures var r := DeleteTree(s, id, company);
      && (r.1 == Done <==> id in s.rows && s.rows[id].company == company)
      && (r.1 != Done ==> r == (s, Refused))
      && (r.1 == Done ==>
            && r.0.rows == s.rows - {id} && r.0.nextId == s.nextId && r.0.mainConf == s.mainConf
            && r.0.custom == if s.custom.None? then None else Some(Deleted(s.custom.value, s.rows[id].name)))
  {
    assert (map i | i in s.rows && i != id :: s.rows[i]) == s.rows - {id};
  }

  /** A create stores its row, with the caller's name, tree and company under a new id,
      exactly when the name is free, whether or not the dialplan can be saved then. */
  lemma CreateStores(s: Store, name: string, tree: IvrNode, company: int)
    ensures var r := CreateTree(s, name, tree, company);
      if exists id <- s.rows :: s.rows[id].name == name then r == (s, Refused)
      else r.1 != Refused && r.0.rows == s.rows[s.nextId := Row(name, tree, company)] && r.0.nextId == s.nextId + 1
  {
    if !NameTaken(s, name) {
      SaveKeepsRows(s.(rows := s.rows[s.nextId := Row(name, tree, company)], nextId := s.nextId + 1), tree, name);
    }
  }

  /** An update replaces the tree of its row, never its name or its company, exactly when
      the row and the custom file exist. */
  lemma UpdateStores(s: Store, id: nat, tree: IvrNode)
    ensures var r := UpdateTree(s, id, tree);
      && r.0.nextId == s.nextId
      && (r.1 == Refused <==> id !in s.rows)
      && if id !in s.rows || s.custom.None? then r.0 == s
         else r.0.rows == s.rows[id := Row(s.rows[id].name, tree, s.rows[id].company)]
  {
    if id in s.rows && s.custom.Some? {
      UpdateKeepsOtherRows(s, id, tree);
    }
  }

  /** The main file with the include line in it: put in front unless it is there. */
  function Included(conf: string): string {
    if Contains(conf, "#include extensions_custom.conf") then conf else "#include extensions_custom.conf\n" + conf
  }

  lemma IncludedIs(conf: string)
    ensures WithInclude(conf) == Included(conf)
    ensures Included(Included(conf)) == Included(conf)
  {
    IncludeOnce(conf);
    assert "#include extensions_custom.conf\n" == "#include extensions_custom.conf" + "\n";
    assert WithInclude(Included(conf)) == Included(Included(conf));
  }

  /** The first save of all makes the custom file: its comment, an empty line and the
      block of the tree. */
  lemma FirstSave(s: Store, name: string, tree: IvrNode, company: int)
    requires s.custom.None? && CreateTree(s, name, tree, company).1 == Done
    ensures CreateTree(s, name, tree, company).0.custom == Some("; Custom IVR dialplans\n\n" + "\n" + Block(tree, name))
  {}

  // ---- whole runs ----

  /** Ids are given out once, and a table with rows has its file. */
  ghost predicate Filed(s: Store) {
    && (forall id <- s.rows :: id < s.nextId)
    && (s.rows != map[] ==> s.custom.Some?)
  }

  /** The table after a call. */
  function RowsAfter(rows: map<nat, Row>, nextId: nat, c: Call): map<nat, Row> {
    match c
    case Create(name, tree, company) =>
      if exists id <- rows :: rows[id].name == name then rows else rows[nextId := Row(name, tree, company)]
    case Update(id, tree) =>
      if id in rows then rows[id := Row(rows[id].name, tree, rows[id].company)] else rows
    case Delete(id, company) =>
      if id in rows && rows[id].company == company then rows - {id} else rows
  }

  lemma SaveMakesFile(s: Store, root: IvrNode, context: string)
    ensures SaveDialplan(s, root, context).0.custom.Some?
  {
    SaveIntoCases(WithCustom(s), root, context);
  }

  lemma CreateRows(s: Store, name: string, tree: IvrNode, company: int)
    requires Filed(s)
    ensures var s' := CreateTree(s, name, tree, company).0;
      Filed(s') && s'.rows == RowsAfter(s.rows, s.nextId, Create(name, tree, company)) && s'.nextId >= s.nextId
  {
    CreateStores(s, name, tree, company);
    if !NameTaken(s, name) {
      SaveMakesFile(s.(rows := s.rows[s.nextId := Row(name, tree, company)], nextId := s.nextId + 1), tree, name);
    }
  }

  lemma UpdateRows(s: Store, id: nat, tree: IvrNode)
    requires Filed(s)
    ensures var s' := UpdateTree(s, id, tree).0;
      Filed(s') && s'.rows == RowsAfter(s.rows, s.nextId, Update(id, tree)) && s'.nextId == s.nextId
  {
    UpdateStores(s, id, tree);
    if id in s.rows {
      var row := s.rows[id];
      var s1 := s.(custom := Some(Deleted(s.custom.value, row.name)));
      SaveMakesFile(s1.(rows := s1.rows[id := row.(tree := tree)]), tree, row.name);
    }
  }

  lemma PerformRows(s: Store, c: Call)
    requires Filed(s)
    ensures Filed(Perform(s, c).0) && Perform(s, c).0.nextId >= s.nextId
    ensures Perform(s, c).0.rows == RowsAfter(s.rows, s.nextId, c)
  {
    match c
    case Create(name, tree, company) => CreateRows(s, name, tree, company);
    case Update(id, tree) => UpdateRows(s, id, tree);
    case Delete(id, company) => DeleteAnswer(s, id, company);
  }

  lemma RowAfter(rows: map<nat, Row>, nextId: nat, c: Call, id: nat)
    requires id in rows && id < nextId
    ensures var rows' := RowsAfter(rows, nextId, c);
      if c == Delete(id, rows[id].company) then id !in rows'
      else
        && id in rows'
        && rows'[id] == Row(rows[id].name, if c.Update? && c.id == id then c.tree else rows[id].tree, rows[id].company)
  {}

  /** The tree the last update of the row has given it. */
  function LastTree(calls: seq<Call>, id: nat, tree: IvrNode): IvrNode
    decreases calls
  {
    if calls == [] then tree
    else LastTree(calls[1..], id, if calls[0].Update? && calls[0].id == id then calls[0].tree else tree)
  }

  lemma {:induction false} GoneForGood(s: Store, calls: seq<Call>, id: nat)
    requires Filed(s) && id < s.nextId && id !in s.rows
    ensures id !in Run(s, calls).rows
    decreases calls
  {
    if calls != [] {
      PerformRows(s, calls[0]);
      GoneForGood(Perform(s, calls[0]).0, calls[1..], id);
    }
  }

  /** A row is there after any calls if and only if none of them was a delete of it by its
      own company; it then has the name and company it had, and the tree of its last
      update. */
  lemma {:induction false} RowLastsUntilItsCompanyDeletesIt(s: Store, calls: seq<Call>, id: nat)
    requires Filed(s) && id in s.rows
    ensures id in Run(s, calls).rows <==> Delete(id, s.rows[id].company) !in calls
    ensures id in Run(s, calls).rows ==>
      Run(s, calls).rows[id] == Row(s.rows[id].name, LastTree(calls, id, s.rows[id].tree), s.rows[id].company)
    decreases calls
  {
    if calls != [] {
      var c := calls[0];
      assert calls == [c] + calls[1..];
      PerformRows(s, c);
      RowAfter(s.rows, s.nextId, c, id);
      if c == Delete(id, s.rows[id].company) {
        GoneForGood(Perform(s, c).0, calls[1..], id);
      } else {
        RowLastsUntilItsCompanyDeletesIt(Perform(s, c).0, calls[1..], id);
      }
    }
  }

  predicate Creates(c: Call, name: string, company: int) {
    c.Create? && c.name == name && c.company == company
  }

  /** Every row of the table goes back to a create by its company under its name. */
  lemma {:induction false} RowsWereCreated(s: Store, calls: seq<Call>, id: nat)
    requires Filed(s)
    requires id in Run(s, calls).rows && id !in s.rows
    ensures var row := Run(s, calls).rows[id]; exists i: nat :: i < |calls| && Creates(calls[i], row.name, row.company)
    decreases calls
  {
    if calls != [] {
      var c, s1 := calls[0], Perform(s, calls[0]).0;
      var row := Run(s, calls).rows[id];
      PerformRows(s, c);
      if id in s1.rows {
        RowLastsUntilItsCompanyDeletesIt(s1, calls[1..], id);
        assert Creates(calls[0], row.name, row.company);
      } else {
        RowsWereCreated(s1, calls[1..], id);
        var i: nat :| i < |calls| - 1 && Creates(calls[1..][i], row.name, row.company);
        assert Creates(calls[i + 1], row.name, row.company);
      }
    }
  }

  /** The main file has the include line as soon as there is a custom file. */
  ghost predicate MainOk(s: Store, main: string) {
    s.mainConf == Some(if s.custom.Some? then Included(main) else main)
  }

  lemma SaveMain(s: Store, root: IvrNode, context: string, main: string)
    requires MainOk(s, main)
    ensures MainOk(SaveDialplan(s, root, context).0, main)
  {
    IncludedIs(main);
    IncludedIs(Included(main));
  }

  lemma PerformMain(s: Store, c: Call, main: string)
    requires MainOk(s, main)
    ensures MainOk(Perform(s, c).0, main)
  {
    match c
    case Create(name, tree, company) =>
      if !NameTaken(s, name) {
        SaveMain(s.(rows := s.rows[s.nextId := Row(name, tree, company)], nextId := s.nextId + 1), tree, name, main);
      }
    case Update(id, tree) =>
      if id in s.rows && s.custom.Some? {
        var row := s.rows[id];
        var s1 := s.(custom := Some(Deleted(s.custom.value, row.name)));
        SaveMain(s1.(rows := s1.rows[id := row.(tree := tree)]), tree, row.name, main);
      }
    case Delete(id, company) =>
  }

  lemma {:induction false} RunMain(s: Store, calls: seq<Call>, main: string)
    requires MainOk(s, main)
    ensures MainOk(Run(s, calls), main)
    decreases calls
  {
    if calls != [] {
      PerformMain(s, calls[0], main);
      RunMain(Perform(s, calls[0]).0, calls[1..], main);
    }
  }

  /** After any calls the main file is as it was while there is no custom file, and from
      then on it has the include line, put in once if it was missing. */
  lemma MainFileIncludesOnce(main: string, calls: seq<Call>)
    ensures var s := Run(Start(Some(main)), calls);
      s.mainConf == Some(if s.custom.None? || Contains(main, "#include extensions_custom.conf") then main
                         else "#include extensions_custom.conf\n" + main)
  {
    RunMain(Start(Some(main)), calls, main);
  }
}
