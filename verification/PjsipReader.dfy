/** The PJSIP files say what was written to them: a reader that takes their lines apart
    finds the sections again, with their entries in order (src/utils/pjsip-writer.ts). */
module PjsipReader {
  import opened Text
  import opened Dialplan
  import opened DialplanReader
  import opened Pjsip

  // ---- the reader ----

  predicate Opens(l: string) {
    l != "" && l[0] == '['
  }

  /** `key=value`, taken apart at the first equals sign. */
  function ReadEntry(l: string): (string, string) {
    var key := Before(l, '=');
    (key, if |key| < |l| then l[|key| + 1..] else "")
  }

  /** The entries up to the next section. */
  function ReadEntries(ls: seq<string>): seq<(string, string)> {
    if ls == [] || Opens(ls[0]) then []
    else (if ls[0] == "" then [] else [ReadEntry(ls[0])]) + ReadEntries(ls[1..])
  }

  function ReadSections(ls: seq<string>): seq<Section> {
    if ls == [] then []
    else if Opens(ls[0]) then
      [Section(ls[0][1..if |ls[0]| > 1 then |ls[0]| - 1 else 1], ReadEntries(ls[1..]))] + ReadSections(ls[1..])
    else ReadSections(ls[1..])
  }

  // ---- what may be written ----

  /** A key without an equals sign, on one line, and its value. */
  predicate PlainEntry(e: (string, string)) {
    && '=' !in e.0 && '\n' !in e.0 && (e.0 != "" ==> e.0[0] != '[')
    && '\n' !in e.1
  }

  predicate PlainSection(s: Section) {
    '\n' !in s.name && forall e <- s.config :: PlainEntry(e)
  }

  /** The entries of an agent's section that are printed: `name` names the section. */
  function Shown(config: seq<(string, string)>): seq<(string, string)> {
    if config == [] then []
    else if config[0].0 == "name" then Shown(config[1..])
    else [config[0]] + Shown(config[1..])
  }

  function ShownSections(sections: seq<Section>): (r: seq<Section>)
    ensures |r| == |sections|
  {
    if sections == [] then []
    else [Section(sections[0].name, Shown(sections[0].config))] + ShownSections(sections[1..])
  }

  // ---- reading entries ----

  lemma EntryReads(e: (string, string))
    requires PlainEntry(e)
    ensures var l := Entry(e); ReadEntry(l) == e && l != "" && !Opens(l) && '\n' !in l
  {
    var l := Entry(e);
    assert l == e.0 + ['='] + e.1;
    BeforeDelimiter(e.0, '=', e.1);
    assert l[|e.0| + 1..] == e.1;
  }

  /** Entry lines in front of lines that open a section, or of none. */
  lemma {:induction false} EntriesRead(config: seq<(string, string)>, more: seq<string>)
    requires forall e <- config :: PlainEntry(e)
    ensures ReadEntries(EntryLines(config) + more) == config + ReadEntries(more)
    ensures ReadSections(EntryLines(config) + more) == ReadSections(more)
  {
    if config == [] {
      assert EntryLines(config) + more == more;
      assert config + ReadEntries(more) == ReadEntries(more);
    } else {
      var e, rest := config[0], config[1..];
      assert PlainEntry(e);
      EntryReads(e);
      EntriesRead(rest, more);
      LineFirst(Entry(e), EntryLines(rest) + more);
      Grouped([Entry(e)], EntryLines(rest), more);
      Grouped([e], rest, ReadEntries(more));
      assert [e] + rest == config;
    }
  }

  lemma Grouped<T>(a: seq<T>, b: seq<T>, c: seq<T>)
    ensures a + b + c == a + (b + c)
  {}

  lemma LineFirst(l: string, more: seq<string>)
    requires l != "" && !Opens(l)
    ensures ReadEntries([l] + more) == [ReadEntry(l)] + ReadEntries(more)
    ensures ReadSections([l] + more) == ReadSections(more)
  {
    assert ([l] + more)[1..] == more;
  }

  lemma {:induction false} EntryLinesAreLines(config: seq<(string, string)>)
    requires forall e <- config :: PlainEntry(e)
    ensures forall l <- EntryLines(config) :: '\n' !in l
  {
    if config != [] {
      assert PlainEntry(config[0]);
      EntryReads(config[0]);
      EntryLinesAreLines(config[1..]);
    }
  }

  /** One printed section in front of the rest of the file. */
  lemma SectionReads(name: string, config: seq<(string, string)>, more: seq<string>)
    requires forall e <- config :: PlainEntry(e)
    requires ReadEntries(more) == []
    ensures ReadSections([Mark(name)] + (EntryLines(config) + more)) == [Section(name, config)] + ReadSections(more)
    ensures ReadEntries([Mark(name)] + (EntryLines(config) + more)) == []
  {
    var m, rest := Mark(name), EntryLines(config) + more;
    assert m[0] == '[' && m[1..|m| - 1] == name;
    assert ([m] + rest)[1..] == rest;
    EntriesRead(config, more);
    assert config + [] == config;
  }

  lemma BlankLine(more: seq<string>)
    ensures ReadSections([""] + more) == ReadSections(more) && ReadEntries([""] + more) == ReadEntries(more)
  {
    assert ([""] + more)[1..] == more;
    assert [] + ReadEntries(more) == ReadEntries(more);
  }

  // ---- the provider file ----

  lemma SectionLines(s: Section)
    requires PlainSection(s)
    ensures Lines(SectionText(s)) == [Mark(s.name)] + EntryLines(s.config)
  {
    EntryLinesAreLines(s.config);
    assert '\n' !in Mark(s.name);
    LinesJoin([Mark(s.name)] + EntryLines(s.config));
  }

  /** The lines of the sections, an empty one between two. */
  function FileLines(sections: seq<Section>): seq<string> {
    if sections == [] then [""]
    else [Mark(sections[0].name)] + (EntryLines(sections[0].config) +
           if |sections| == 1 then [] else [""] + FileLines(sections[1..]))
  }

  lemma {:induction false} ProviderLines(sections: seq<Section>)
    requires forall s <- sections :: PlainSection(s)
    ensures Lines(ProviderText(sections)) == FileLines(sections)
  {
    if sections != [] {
      var s, more := sections[0], sections[1..];
      assert PlainSection(s);
      assert sections == [s] + more;
      SectionLines(s);
      if more == [] {
        OneText(s);
        assert EntryLines(s.config) + [] == EntryLines(s.config);
      } else {
        ProviderLines(more);
        TextsJoin(s, more);
        EmptyLineBetween(SectionText(s), ProviderText(more));
        Grouped([Mark(s.name)], EntryLines(s.config), [""] + FileLines(more));
      }
    }
  }

  lemma OneText(s: Section)
    ensures ProviderText([s]) == SectionText(s)
  {
    assert [s][1..] == [];
    assert SectionTexts([s]) == [SectionText(s)] + [];
  }

  lemma TextsJoin(s: Section, more: seq<Section>)
    requires more != []
    ensures ProviderText([s] + more) == SectionText(s) + "\n\n" + ProviderText(more)
  {
    assert ([s] + more)[1..] == more;
    assert SectionTexts([s] + more) == [SectionText(s)] + SectionTexts(more);
    assert ([SectionText(s)] + SectionTexts(more))[1..] == SectionTexts(more);
  }

  lemma EmptyLineBetween(a: string, b: string)
    ensures Lines(a + "\n\n" + b) == Lines(a) + ([""] + Lines(b))
  {
    assert a + "\n\n" + b == a + "\n" + ("\n" + b);
    LinesBreak(a, "\n" + b);
    EmptyLineFirst(b);
  }

  lemma EmptyLineFirst(t: string)
    ensures Lines("\n" + t) == [""] + Lines(t)
  {
    assert ("\n" + t)[1..] == t;
  }

  lemma {:induction false} FileReads(sections: seq<Section>)
    requires forall s <- sections :: PlainSection(s)
    ensures ReadSections(FileLines(sections)) == sections && ReadEntries(FileLines(sections)) == []
  {
    if sections == [] {
      BlankLine([]);
      assert [""] + [] == [""];
    } else {
      var s, more := sections[0], sections[1..];
      assert PlainSection(s);
      if more == [] {
        SectionReads(s.name, s.config, []);
        assert [s] + [] == sections;
      } else {
        FileReads(more);
        BlankLine(FileLines(more));
        SectionReads(s.name, s.config, [""] + FileLines(more));
        assert [s] + more == sections;
      }
    }
  }

  /** The provider file, read line by line, holds exactly the sections written: the names,
      and each section's keys and values in order. */
  lemma ProviderReadsBack(sections: seq<Section>)
    requires forall s <- sections :: PlainSection(s)
    ensures ReadSections(Lines(ProviderText(sections))) == sections
  {
    ProviderLines(sections);
    FileReads(sections);
  }

  // ---- the agents' file ----

  lemma {:induction false} ShownIsUnnamed(config: seq<(string, string)>)
    ensures Unnamed(config) == Shown(config)
  {
    if config != [] {
      ShownIsUnnamed(config[1..]);
    }
  }

  lemma {:induction false} ShownIsPlain(config: seq<(string, string)>)
    requires forall e <- config :: PlainEntry(e)
    ensures forall e <- Shown(config) :: PlainEntry(e)
  {
    if config != [] {
      assert PlainEntry(config[0]);
      ShownIsPlain(config[1..]);
    }
  }

  /** The lines of one printed block, after the line feed in front of it. */
  function BlockLinesOf(s: Section): seq<string> {
    var entries := EntryLines(Shown(s.config));
    [Mark(s.name)] + (if entries == [] then [""] else entries)
  }

  lemma FormatIs(s: Section, more: string)
    ensures FormatBlock(s) + more == "\n" + (Mark(s.name) + "\n" + (Join(EntryLines(Unnamed(s.config)), "\n") + "\n" + more))
  {}

  lemma BlockText(s: Section, more: string)
    requires PlainSection(s)
    ensures Lines(FormatBlock(s) + more) == [""] + (BlockLinesOf(s) + Lines(more))
  {
    var m, entries := Mark(s.name), EntryLines(Shown(s.config));
    var body := Join(entries, "\n");
    ShownIsUnnamed(s.config);
    ShownIsPlain(s.config);
    EntryLinesAreLines(Shown(s.config));
    assert '\n' !in m;
    FormatIs(s, more);
    EmptyLineFirst(m + "\n" + (body + "\n" + more));
    LinesSnoc("", m, body + "\n" + more);
    LinesBreak(body, more);
    if entries == [] {
      assert [m] + ([""] + Lines(more)) == ([m] + [""]) + Lines(more);
    } else {
      LinesJoin(entries);
      assert [m] + (entries + Lines(more)) == ([m] + entries) + Lines(more);
    }
  }

  lemma BlockReads(s: Section, more: seq<string>)
    requires PlainSection(s) && ReadEntries(more) == []
    ensures ReadSections(BlockLinesOf(s) + more) == [Section(s.name, Shown(s.config))] + ReadSections(more)
    ensures ReadEntries(BlockLinesOf(s) + more) == []
  {
    ShownIsPlain(s.config);
    var config := Shown(s.config);
    var m := Mark(s.name);
    if config == [] {
      BlankLine(more);
      SectionReads(s.name, config, [""] + more);
      NoEntries(m, more);
    } else {
      SectionReads(s.name, config, more);
      Grouped([m], EntryLines(config), more);
    }
  }

  lemma NoEntries(m: string, more: seq<string>)
    ensures [m] + [""] + more == [m] + (EntryLines([]) + ([""] + more))
  {}

  lemma {:induction false} BlocksRead(sections: seq<Section>)
    requires forall s <- sections :: PlainSection(s)
    ensures ReadSections(Lines(BuildBlocks(sections))) == ShownSections(sections)
    ensures ReadEntries(Lines(BuildBlocks(sections))) == []
  {
    if sections == [] {
      BlankLine([]);
      assert [""] + [] == [""];
    } else {
      var more := Lines(BuildBlocks(sections[1..]));
      assert PlainSection(sections[0]);
      BlocksRead(sections[1..]);
      BlockText(sections[0], BuildBlocks(sections[1..]));
      BlockReads(sections[0], more);
      BlankLine(BlockLinesOf(sections[0]) + more);
    }
  }

  /** Lines behind which no entries follow are read on their own. */
  lemma {:induction false} ReadsApart(a: seq<string>, b: seq<string>)
    requires ReadEntries(b) == []
    ensures ReadSections(a + b) == ReadSections(a) + ReadSections(b)
    ensures ReadEntries(a + b) == ReadEntries(a)
  {
    if a == [] {
      assert a + b == b;
    } else {
      assert (a + b)[1..] == a[1..] + b;
      ReadsApart(a[1..], b);
    }
  }

  /** Appending an agent's sections to any file adds exactly these sections to what the
      reader finds: their names, and their entries in order without those named `name`. */
  lemma AppendedBlocksReadBack(file: string, sections: seq<Section>)
    requires sections != [] && forall s <- sections :: PlainSection(s)
    ensures ReadSections(Lines(file + BuildBlocks(sections))) == ReadSections(Lines(file)) + ShownSections(sections)
  {
    var first, rest := sections[0], BuildBlocks(sections[1..]);
    var all := BuildBlocks(sections);
    assert PlainSection(first);
    BlocksRead(sections);
    BlockText(first, rest);
    var tail := all[1..];
    assert all == "\n" + tail;
    EmptyLineFirst(tail);
    assert Lines(tail) == BlockLinesOf(first) + Lines(rest);
    BlankLine(Lines(tail));
    assert file + all == file + "\n" + tail;
    LinesBreak(file, tail);
    ReadsApart(Lines(file), Lines(tail));
  }

  lemma ShownCons(s: Section, more: seq<Section>)
    ensures ShownSections([s] + more) == [Section(s.name, Shown(s.config))] + ShownSections(more)
  {
    assert ([s] + more)[1..] == more;
  }

  /** So writing an agent adds its endpoint, its authentication and its address of record,
      in this order. */
  lemma WrittenAgentReadsBack(file: string, endpoint: Section, auth: Section, aor: Section)
    requires PlainSection(endpoint) && PlainSection(auth) && PlainSection(aor)
    ensures ReadSections(Lines(WithAgent(file, endpoint, auth, aor))) == ReadSections(Lines(file)) +
      [Section(endpoint.name, Shown(endpoint.config)), Section(auth.name, Shown(auth.config)), Section(aor.name, Shown(aor.config))]
  {
    var sections := [endpoint, auth, aor];
    AppendedBlocksReadBack(file, sections);
    ShownCons(endpoint, [auth, aor]);
    ShownCons(auth, [aor]);
    ShownCons(aor, []);
    assert sections == [endpoint] + [auth, aor] && [auth, aor] == [auth] + [aor] && [aor] == [aor] + [];
  }
}
