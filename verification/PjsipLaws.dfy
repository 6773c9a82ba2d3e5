/** What appending an agent's blocks and deleting them promise one another. */
module PjsipLaws {
  import opened Text
  import opened Dialplan
  import opened DialplanLaws
  import opened Pjsip

  /** A section whose strings cannot be taken for a header. */
  predicate PlainSection(s: Section) {
    PlainName(s.name) && forall e <- s.config :: '[' !in e.0 && '[' !in e.1
  }

  predicate PlainSections(sections: seq<Section>) {
    forall s <- sections :: PlainSection(s)
  }

  // ---- agents ----

  lemma {:induction false} UnnamedSub(config: seq<(string, string)>)
    ensures forall e <- Unnamed(config) :: e in config
  {
    if config != [] {
      UnnamedSub(config[1..]);
    }
  }

  lemma {:induction false} EntriesPlain(config: seq<(string, string)>)
    requires forall e <- config :: '[' !in e.0 && '[' !in e.1
    ensures '[' !in Join(EntryLines(config), "\n")
  {
    if config != [] {
      assert '[' !in Entry(config[0]);
      EntriesPlain(config[1..]);
      if |config| > 1 {
        assert EntryLines(config)[1..] == EntryLines(config[1..]);
      }
    }
  }

  /** The text of a block after its header; no bracket, and a line feed at each end. */
  function Body(s: Section): string {
    "\n" + Join(EntryLines(Unnamed(s.config)), "\n") + "\n"
  }

  lemma BodyPlain(s: Section)
    requires PlainSection(s)
    ensures '[' !in Body(s)
  {
    UnnamedSub(s.config);
    EntriesPlain(Unnamed(s.config));
  }

  /** `s` begins with a line feed or is empty: where blocks and ends of file meet. */
  predicate AtBreak(s: string) {
    s == "" || StartsWith(s, "\n[")
  }

  lemma BlocksAtBreak(sections: seq<Section>)
    ensures AtBreak(BuildBlocks(sections))
  {
    if sections != [] {
      StartsHeader(BuildBlocks(sections));
    }
  }

  lemma StartsCrHeader(s: string)
    ensures StartsWith(s, "\r\n[") <==> |s| >= 3 && s[0] == '\r' && s[1] == '\n' && s[2] == '['
  {
    if |s| >= 3 {
      assert s[..3] == [s[0], s[1], s[2]];
    }
  }

  /** The lazy body match runs over a bracket-free body up to the next block. */
  lemma {:induction false} SkipBody(b: string, r: string)
    requires '[' !in b && (b == "" || b[|b| - 1] == '\n') && AtBreak(r)
    ensures SkipAgent(b + r) == r
  {
    if b == "" {
      assert b + r == r;
    } else {
      ConcatTail(b, r);
      var s := b + r;
      StartsHeader(s);
      StartsCrHeader(s);
      StartsHeader(r);
      assert b[0] in b;
      assert |b| > 1 ==> s[1] == b[1] && b[1] in b;
      assert |b| > 2 ==> s[2] == b[2] && b[2] in b;
      assert forall c <- b[1..] :: c in b;
      SkipBody(b[1..], r);
    }
  }

  /** `r` is a line feed and the mark of `name`, and whatever follows. */
  predicate Opens(r: string, name: string) {
    r != "" && r[0] == '\n' && StartsWith(r[1..], Mark(name))
  }

  /** The mark stands neither in `s` nor across its end. */
  lemma NoOpening(s: string, r: string, name: string)
    requires '\n' !in name && s != "" && !Contains(s, Mark(name)) && AtBreak(r)
    requires s == "\r" ==> !Opens(r, name)
    ensures Opening(s + r, name) == None
  {
    ConcatTail(s, r);
    MarkAcross(s, r, name);
    NoMarkAfter(s[1..], r, name);
    if |s| > 1 {
      assert (s + r)[2..] == s[1..][1..] + r;
      NoMarkAfter(s[1..][1..], r, name);
    } else if |r| > 0 {
      assert s[0] == '\r' ==> s == "\r";
      assert (s + r)[2..] == r[1..];
    }
  }

  lemma NoMarkAfter(s: string, r: string, name: string)
    requires '\n' !in name && !Contains(s, Mark(name)) && AtBreak(r)
    ensures !StartsWith(s + r, Mark(name))
  {
    if s == "" {
      assert s + r == r;
      BreakIsNoMark(r, name);
    } else {
      MarkAcross(s, r, name);
    }
  }

  lemma BreakIsNoMark(r: string, name: string)
    requires AtBreak(r)
    ensures !StartsWith(r, Mark(name))
  {
    StartsHeader(r);
    StartsWithTail(r, Mark(name));
  }

  lemma MarkAcross(s: string, r: string, name: string)
    requires '\n' !in name && s != "" && !Contains(s, Mark(name)) && AtBreak(r)
    ensures !StartsWith(s + r, Mark(name))
  {
    var m := Mark(name);
    if r == "" {
      assert s + r == s;
    } else {
      StartsHeader(r);
      assert r == "\n" + r[1..];
      assert s + r == s + "\n" + r[1..];
      if StartsWith(s + r, m) {
        StartsInside(s, r[1..], m);
      }
    }
  }

  /** `p` without the carriage return that runs into a removed block. */
  function Before(p: string, removed: bool): string {
    if removed then ChopCr(p) else p
  }

  /** Where the pattern does not match, one character is copied. */
  lemma CutCopies(s: string, name: string)
    requires s != "" && Opening(s, name) == None
    ensures CutAgent(s, name) == [s[0]] + CutAgent(s[1..], name)
  {}

  /** Cutting passes over a text without the mark, up to the block behind it. */
  lemma {:induction false} CutAgentPasses(p: string, r: string, name: string)
    requires '\n' !in name && !Contains(p, Mark(name)) && AtBreak(r)
    ensures CutAgent(p + r, name) == Before(p, Opens(r, name)) + CutAgent(r, name)
  {
    var removed := Opens(r, name);
    if p == "" {
      assert p + r == r;
      assert Before(p, removed) + CutAgent(r, name) == CutAgent(r, name);
    } else if p == "\r" && removed {
      CutAgentAtCr(r, name);
      assert Before(p, removed) == "";
    } else {
      NoOpening(p, r, name);
      CutCopies(p + r, name);
      ConcatTail(p, r);
      CutAgentPasses(p[1..], r, name);
      BeforeTail(p, removed);
      Concat3([p[0]], Before(p[1..], removed), CutAgent(r, name));
    }
  }

  lemma BeforeTail(p: string, removed: bool)
    requires p != "" && !(p == "\r" && removed)
    ensures [p[0]] + Before(p[1..], removed) == Before(p, removed)
  {
    assert p == [p[0]] + p[1..];
  }

  lemma CutAgentAtCr(r: string, name: string)
    requires Opens(r, name)
    ensures CutAgent("\r" + r, name) == CutAgent(r, name)
  {
    var all := "\r" + r;
    var n := |name| + 2;
    assert all[1..] == r && all[2..] == r[1..];
    StartsWithTail(all, Mark(name));
    StartsWithTail(r, Mark(name));
    assert Opening(all, name) == Some(n + 2);
    assert Opening(r, name) == Some(n + 1);
    assert all[n + 2..] == r[n + 1..];
  }

  function Keep(sections: seq<Section>, name: string): seq<Section> {
    if sections == [] then []
    else (if sections[0].name == name then [] else [sections[0]]) + Keep(sections[1..], name)
  }

  /** A block whose name differs is no match for the mark. */
  lemma OtherMark(other: string, r: string, name: string)
    requires PlainName(name) && PlainName(other) && other != name
    ensures !StartsWith(Mark(other) + r, Mark(name))
  {
    var all := Mark(other) + r;
    StartsWithConcat(Mark(other), r);
    assert ']' !in other && ']' !in name;
    if StartsWith(all, Mark(name)) {
      MarksAgree(all, other, name);
    }
  }

  /** On a bracket-free text there is nothing to find. */
  lemma {:induction false} NoMarkWithoutBracket(s: string, name: string)
    requires '[' !in s
    ensures !Contains(s, Mark(name))
  {
    if s != "" {
      assert s[0] in s;
      assert forall c <- s[1..] :: c in s;
      StartsWithTail(s, Mark(name));
      NoMarkWithoutBracket(s[1..], name);
    }
  }

  lemma CutOwnBlock(s: Section, r: string)
    requires PlainSection(s) && AtBreak(r)
    ensures CutAgent(FormatBlock(s) + r, s.name) == CutAgent(r, s.name)
  {
    var m, rest := Mark(s.name), Body(s) + r;
    var all := FormatBlock(s) + r;
    BodyPlain(s);
    assert all == "\n" + (m + rest);
    StartsWithConcat(m, rest);
    assert all[1..] == m + rest;
    StartsWithTail(all, m);
    assert Opening(all, s.name) == Some(|m| + 1);
    assert all[|m| + 1..] == rest;
    SkipBody(Body(s), r);
  }

  lemma CutOtherBlock(s: Section, r: string, name: string)
    requires PlainSection(s) && PlainName(name) && AtBreak(r) && s.name != name
    ensures CutAgent(FormatBlock(s) + r, name) == FormatBlock(s) + CutAgent(r, name)
  {
    var inner := s.name + "]" + Body(s);
    var all := "[" + (inner + r);
    BlockShape(s, r);
    BlockShape(s, CutAgent(r, name));
    OtherMark(s.name, Body(s) + r, name);
    BodyPlain(s);
    CutAfterBracket(inner, r, name);
    CutLineFeed(all, name);
  }

  lemma BlockShape(s: Section, r: string)
    ensures FormatBlock(s) + r == "\n" + ("[" + ((s.name + "]" + Body(s)) + r))
    ensures "[" + ((s.name + "]" + Body(s)) + r) == Mark(s.name) + (Body(s) + r)
  {}

  lemma CutAfterBracket(inner: string, r: string, name: string)
    requires '[' !in inner && inner != "" && inner[|inner| - 1] == '\n' && '\n' !in name && AtBreak(r)
    requires !StartsWith("[" + (inner + r), Mark(name))
    ensures CutAgent("[" + (inner + r), name) == "[" + (inner + CutAgent(r, name))
  {
    var all := "[" + (inner + r);
    assert all[1..] == inner + r;
    CutCopies(all, name);
    NoMarkWithoutBracket(inner, name);
    CutAgentPasses(inner, r, name);
  }

  lemma CutLineFeed(s: string, name: string)
    requires !StartsWith(s, Mark(name))
    ensures CutAgent("\n" + s, name) == "\n" + CutAgent(s, name)
  {
    var all := "\n" + s;
    assert all[1..] == s;
    StartsWithTail(all, Mark(name));
    CutCopies(all, name);
  }

  lemma Concat3(a: string, b: string, c: string)
    ensures a + (b + c) == (a + b) + c
  {}

  lemma {:induction false} CutBlocks(sections: seq<Section>, name: string)
    requires PlainSections(sections) && PlainName(name)
    ensures CutAgent(BuildBlocks(sections), name) == BuildBlocks(Keep(sections, name))
  {
    if sections != [] {
      CutBlocks(sections[1..], name);
      BlocksAtBreak(sections[1..]);
      var r := BuildBlocks(sections[1..]);
      if sections[0].name != name {
        CutOtherBlock(sections[0], r, name);
        assert Keep(sections, name)[1..] == Keep(sections[1..], name);
      } else {
        CutOwnBlock(sections[0], r);
        assert [] + Keep(sections[1..], name) == Keep(sections[1..], name);
      }
    }
  }

  function KeepAll(sections: seq<Section>, names: seq<string>): seq<Section>
    decreases names
  {
    if names == [] then sections else KeepAll(Keep(sections, names[0]), names[1..])
  }

  lemma {:induction false} KeepIn(sections: seq<Section>, name: string)
    ensures forall s :: s in Keep(sections, name) <==> s in sections && s.name != name
  {
    if sections != [] {
      KeepIn(sections[1..], name);
      assert sections == [sections[0]] + sections[1..];
    }
  }

  lemma {:induction false} KeepAllIn(sections: seq<Section>, names: seq<string>)
    ensures forall s :: s in KeepAll(sections, names) <==> s in sections && s.name !in names
    decreases names
  {
    if names != [] {
      KeepIn(sections, names[0]);
      KeepAllIn(Keep(sections, names[0]), names[1..]);
      assert names == [names[0]] + names[1..];
    }
  }

  lemma {:induction false} ContainsChop(p: string, q: string, m: string)
    requires q <= p && !Contains(p, m)
    ensures !Contains(q, m)
  {
    if Contains(q, m) {
      ContainsPrefix(q, p, m);
    }
  }

  /** One pass of the deletion. */
  lemma CutOnePass(p: string, sections: seq<Section>, name: string)
    requires PlainSections(sections) && PlainName(name) && !Contains(p, Mark(name))
    ensures CutAgent(p + BuildBlocks(sections), name) ==
      Before(p, Opens(BuildBlocks(sections), name)) + BuildBlocks(Keep(sections, name))
  {
    BlocksAtBreak(sections);
    assert '\n' !in name;
    CutAgentPasses(p, BuildBlocks(sections), name);
    CutBlocks(sections, name);
  }

  /** `q` is `p` without some of the carriage returns at its end. */
  ghost predicate LessCrs(q: string, p: string) {
    q <= p && forall i :: |q| <= i < |p| ==> p[i] == '\r'
  }

  lemma BeforeLessCrs(p: string, removed: bool)
    ensures LessCrs(Before(p, removed), p)
  {}

  lemma LessCrsTrans(r: string, q: string, p: string)
    requires LessCrs(r, q) && LessCrs(q, p)
    ensures LessCrs(r, p)
  {
    forall i | |r| <= i < |p| ensures p[i] == '\r' {
      assert i < |q| ==> q[i] == p[i];
    }
  }

  lemma NoMarksBefore(p: string, removed: bool, names: seq<string>)
    requires forall n <- names :: PlainName(n) && !Contains(p, Mark(n))
    ensures forall n <- names :: PlainName(n) && !Contains(Before(p, removed), Mark(n))
  {
    BeforeLessCrs(p, removed);
    forall n | n in names ensures !Contains(Before(p, removed), Mark(n)) {
      ContainsChop(p, Before(p, removed), Mark(n));
    }
  }

  /** Deleting names from a file that holds appended blocks after some text keeps
      the text, up to carriage returns at its end, and the blocks of other names
      in their order. */
  lemma {:induction false} CutAgentsKeeps(p: string, sections: seq<Section>, names: seq<string>) returns (q: string)
    requires PlainSections(sections)
    requires forall n <- names :: PlainName(n) && !Contains(p, Mark(n))
    ensures CutAgents(p + BuildBlocks(sections), names) == q + BuildBlocks(KeepAll(sections, names))
    ensures LessCrs(q, p)
    decreases names
  {
    q := p;
    if names != [] {
      var n := names[0];
      CutOnePass(p, sections, n);
      KeepIn(sections, n);
      var removed := Opens(BuildBlocks(sections), n);
      NoMarksBefore(p, removed, names);
      BeforeLessCrs(p, removed);
      q := CutAgentsKeeps(Before(p, removed), Keep(sections, n), names[1..]);
      LessCrsTrans(q, Before(p, removed), p);
    }
  }

  lemma {:induction false} TrimCrs(q: string, p: string)
    requires LessCrs(q, p)
    ensures Trim(p) == Trim(q)
    decreases |p|
  {
    if |q| == |p| {
      assert p == q;
    } else {
      var p' := p[..|p| - 1];
      assert p == p' + ['\r'];
      TrimAppend(p', '\r');
      TrimCrs(q, p');
    }
  }

  lemma EmptyIfNone(sections: seq<Section>)
    ensures (forall s :: s !in sections) ==> sections == []
  {
    if sections != [] {
      assert sections[0] in sections;
    }
  }

  /** Appending an agent's three blocks and deleting their names gives back the
      file, trimmed and ended with one line feed, whatever its text was and also
      when endpoint and address of record share a name. */
  lemma DeletingUndoesAppending(file: string, endpoint: Section, auth: Section, aor: Section, names: seq<string>)
    requires PlainSections([endpoint, auth, aor])
    requires endpoint.name in names && auth.name in names && aor.name in names
    requires forall n <- names :: PlainName(n) && !Contains(file, Mark(n))
    ensures WithoutAgents(WithAgent(file, endpoint, auth, aor), names) == Trim(file) + "\n"
  {
    var sections := [endpoint, auth, aor];
    var q := CutAgentsKeeps(file, sections, names);
    KeepAllIn(sections, names);
    var kept := KeepAll(sections, names);
    assert forall s <- sections :: s.name in names;
    EmptyIfNone(kept);
    assert q + "" == q;
    TrimCrs(q, file);
  }
}
