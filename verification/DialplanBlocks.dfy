/** Deleting a context from a file in which its mark stands only as its header: its
    blocks go, and with them its entries. */
module DialplanBlocks {
  import opened Text
  import opened Dialplan
  import opened DialplanLaws
  import opened DialplanDeletion

  /** A line of a well-formed file: a bracket opens a header at column 0 that
      is alone on its line. */
  predicate TidyLine(l: string) {
    '[' in l ==>
      && l[0] == '[' && '[' !in l[1..]
      && Header(TrimEnd(l)).Some? && ']' !in Header(TrimEnd(l)).value
  }

  ghost predicate Tidy(s: string) {
    forall l <- Lines(s) :: TidyLine(l)
  }

  /** A line the parser and the deletion of `context` understand alike: it is a header
      exactly when a bracket opens it, and the context's mark stands on it only as
      its header. Brackets elsewhere in a line do not matter. */
  predicate CleanLine(l: string, context: string) {
    && (Header(Trim(l)).Some? <==> Opens(l))
    && (Contains(l, Mark(context)) ==> TrimEnd(l) == Mark(context))
  }

  ghost predicate CleanFor(s: string, context: string) {
    forall l <- Lines(s) :: CleanLine(l, context)
  }

  lemma HeaderNeedsBracket(l: string)
    requires '[' !in l
    ensures Header(Trim(l)) == None
  {
    TrimStartFacts(l);
    TrimEndFacts(TrimStart(l));
    var t := Trim(l);
    if t != "" {
      assert t[0] == TrimStart(l)[0];
      assert t[0] in l;
    }
  }

  lemma TidyHeader(l: string)
    requires TidyLine(l) && '[' in l
    ensures Header(Trim(l)).Some? && Header(Trim(l)) == Header(TrimEnd(l))
    ensures var h := Header(Trim(l)).value; Mark(h) <= l && ']' !in h
    ensures forall i :: |Header(Trim(l)).value| + 2 <= i < |l| ==> IsSpace(l[i])
  {
    assert TrimStart(l) == l;
    TrimEndFacts(l);
    var t := TrimEnd(l);
    assert t == Mark(Header(t).value);
  }

  lemma OnlyAtStart(l: string, m: string)
    requires m != "" && m[0] == '[' && l != "" && '[' !in l[1..] && Contains(l, m)
    ensures StartsWith(l, m)
  {
    if !StartsWith(l, m) {
      NoneInside(l[1..], m);
    }
  }

  lemma {:induction false} NoneInside(l: string, m: string)
    requires m != "" && m[0] == '[' && '[' !in l
    ensures !Contains(l, m)
  {
    if l != "" {
      assert l[0] in l;
      assert forall c <- l[1..] :: c in l;
      NoneInside(l[1..], m);
    }
  }

  /** A line of a tidy file suits the deletion of every context. */
  lemma TidyIsClean(l: string, context: string)
    requires TidyLine(l) && PlainName(context)
    ensures CleanLine(l, context)
  {
    if '[' in l {
      TidyHeader(l);
      var h := Header(Trim(l)).value;
      assert TrimStart(l) == l && TrimEnd(l) == Mark(h);
      if Contains(l, Mark(context)) {
        OnlyAtStart(l, Mark(context));
        assert l[..|h| + 2] == Mark(h);
        MarksAgree(l, h, context);
      }
    } else {
      HeaderNeedsBracket(l);
      NoneInside(l, Mark(context));
      assert l != "" ==> l[0] in l;
    }
  }

  lemma TidyIsCleanFor(s: string, context: string)
    requires Tidy(s) && PlainName(context)
    ensures CleanFor(s, context)
  {
    forall l | l in Lines(s) ensures CleanLine(l, context) {
      TidyIsClean(l, context);
    }
  }

  /** A header line of `context` is its mark, up to white space at the end. */
  lemma HeaderIsMark(l: string, context: string)
    requires CleanLine(l, context)
    ensures Header(Trim(l)) == Some(context) <==> Contains(l, Mark(context))
    ensures Contains(l, Mark(context)) ==> Opens(l) && UpTo(l, Mark(context)) == ""
  {
    TrimEndFacts(l);
    var m := Mark(context);
    if Contains(l, m) {
      assert m <= l && Opens(l);
      assert TrimStart(l) == l;
      assert context == m[1..|m| - 1];
    }
    if Header(Trim(l)) == Some(context) {
      assert Trim(l) == m;
      assert m + "" == m;
      StartsWithConcat(m, "");
      ContainsTrim(l, m);
    }
  }

  /** The lines from the first header on. */
  function From(ls: seq<string>): (r: seq<string>)
    ensures |r| <= |ls|
  {
    if ls == [] || Header(Trim(ls[0])).Some? then ls else From(ls[1..])
  }

  /** The lines without the blocks of `context`; an empty line stays for each. */
  function DropBlocks(ls: seq<string>, context: string): seq<string>
    decreases |ls|
  {
    if ls == [] then []
    else if Header(Trim(ls[0])) == Some(context) then [""] + DropBlocks(From(ls[1..]), context)
    else [ls[0]] + DropBlocks(ls[1..], context)
  }

  lemma {:induction false} FromIsOpened(ls: seq<string>, context: string)
    requires forall l <- ls :: CleanLine(l, context)
    ensures From(ls) == Opened(ls)
  {
    if ls != [] {
      assert CleanLine(ls[0], context);
      FromIsOpened(ls[1..], context);
    }
  }

  lemma {:induction false} CutLinesIsDropBlocks(ls: seq<string>, context: string)
    requires forall l <- ls :: CleanLine(l, context)
    ensures CutLines(ls, context) == DropBlocks(ls, context)
    decreases |ls|
  {
    if ls != [] {
      HeaderIsMark(ls[0], context);
      OpenedSub(ls[1..]);
      FromIsOpened(ls[1..], context);
      CutLinesIsDropBlocks(if Contains(ls[0], Mark(context)) then Opened(ls[1..]) else ls[1..], context);
    }
  }

  /** Cutting a text clean for the context is dropping its lines block by block. */
  lemma CutIsDropBlocks(file: string, context: string)
    requires CleanFor(file, context) && PlainName(context)
    ensures Lines(Cut(file, context)) == DropBlocks(Lines(file), context)
  {
    CutIsCutLines(file, context);
    CutLinesIsDropBlocks(Lines(file), context);
  }

  lemma {:induction false} DropBlocksSub(ls: seq<string>, context: string)
    requires forall l <- ls :: CleanLine(l, context)
    ensures forall l <- DropBlocks(ls, context) :: l in ls || l == ""
    decreases |ls|
  {
    if ls != [] {
      OpenedSub(ls[1..]);
      FromIsOpened(ls[1..], context);
      DropBlocksSub(if Header(Trim(ls[0])) == Some(context) then From(ls[1..]) else ls[1..], context);
    }
  }

  // The same on the core of the text.

  function FromCore(ls: seq<string>): (r: seq<string>)
    ensures |r| <= |ls|
  {
    if ls == [] || Header(ls[0]).Some? then ls else FromCore(ls[1..])
  }

  function DropCore(ls: seq<string>, context: string): seq<string>
    decreases |ls|
  {
    if ls == [] then []
    else if Header(ls[0]) == Some(context) then DropCore(FromCore(ls[1..]), context)
    else [ls[0]] + DropCore(ls[1..], context)
  }

  lemma {:induction false} FromIsFromCore(ls: seq<string>)
    ensures CoreLines(From(ls)) == FromCore(CoreLines(ls))
  {
    if ls != [] {
      FromIsFromCore(ls[1..]);
      var t := Trim(ls[0]);
      if t != "" {
        assert CoreLines(ls)[1..] == CoreLines(ls[1..]);
      } else {
        assert [] + CoreLines(ls[1..]) == CoreLines(ls[1..]);
      }
    }
  }

  lemma {:induction false} DropBlocksIsDropCore(ls: seq<string>, context: string)
    ensures CoreLines(DropBlocks(ls, context)) == DropCore(CoreLines(ls), context)
    decreases |ls|
  {
    if ls != [] {
      var t := Trim(ls[0]);
      var more := ls[1..];
      if Header(t) == Some(context) {
        DropBlocksIsDropCore(From(more), context);
        FromIsFromCore(more);
        assert CoreLines(ls)[1..] == CoreLines(more);
        CoreLinesConcat([""], DropBlocks(From(more), context));
        assert CoreLines([""]) == [] + CoreLines([]);
      } else {
        DropBlocksIsDropCore(more, context);
        assert DropBlocks(ls, context)[1..] == DropBlocks(more, context);
        if t != "" {
          assert CoreLines(ls)[1..] == CoreLines(more);
        } else {
          assert [] + CoreLines(more) == CoreLines(more);
        }
      }
    }
  }

  /** Deleting a context from a file clean for it drops its blocks and nothing else. */
  lemma DeletedCore(file: string, context: string)
    requires CleanFor(file, context) && PlainName(context)
    ensures Core(Deleted(file, context)) == DropCore(Core(file), context)
  {
    CoreTrim(Cut(file, context));
    CutIsDropBlocks(file, context);
    DropBlocksIsDropCore(Lines(file), context);
  }

  /** Where a bracket opens a line only as a header, every deletion ends at a header. */
  lemma {:induction false} HeadedLands(ls: seq<string>, dropping: bool, context: string)
    requires forall l <- ls :: Opens(l) ==> Header(Trim(l)).Some?
    ensures LandsOnHeaders(ls, dropping, context)
  {
    if ls != [] {
      HeadedLands(ls[1..], Drops(ls[0], dropping, context), context);
    }
  }

  lemma {:induction false} CleanLosesNone(ls: seq<string>, dropping: bool, ctx: string, left: string, context: string)
    requires forall l <- ls :: CleanLine(l, context)
    requires if dropping then ctx == context else ctx == left
    ensures NoneLost(ls, dropping, ctx, left, context)
  {
    if ls != [] {
      var l := ls[0];
      var kept := Kept(l, dropping, context);
      assert CleanLine(l, context);
      HeaderIsMark(l, context);
      NoEntryInHeader(l);
      EntryBefore(l, ctx, context);
      if Ext(Trim(l)).Some? && ',' !in l {
        KeptEntry(l, l);
      }
      CleanLosesNone(ls[1..], Drops(l, dropping, context), Now(l, ctx), Now(kept, left), context);
    }
  }

  /** So deleting a context from a file clean for it is filtering its entries out. */
  lemma ParsingAfterDeletionIsFiltering(file: string, context: string)
    requires CleanFor(file, context) && PlainName(context)
    ensures Parse(Deleted(file, context)) == Without(Parse(file), context)
  {
    var ls := Lines(file);
    HeadedLands(ls, false, context);
    CleanLosesNone(ls, false, "", "", context);
    FilteringIffNoneLost(file, context);
  }
}
