/** Files on which deleting a context is not filtering out its entries. */
module DialplanExamples {
  import opened Text
  import opened Dialplan
  import opened DialplanLaws
  import opened DialplanDeletion
  import opened DialplanBlocks

  lemma ReadOfJoin(ls: seq<string>, context: string)
    requires ls != [] && (forall l <- ls :: '\n' !in l) && '\n' !in context
    ensures Parse(Deleted(Join(ls, "\n"), context)) == Left(ls, false, "", context)
    ensures Without(Parse(Join(ls, "\n")), context) == Due(ls, "", context)
  {
    LinesJoin(ls);
    DeletedRemains(Join(ls, "\n"), context);
  }

  /** A line without an entry only changes the contexts. */
  lemma SilentLine(l: string, more: seq<string>, dropping: bool, ctx: string, left: string, context: string)
    requires Ext(Trim(l)) == None
    ensures Due([l] + more, ctx, context) == Due(more, Now(l, ctx), context)
    ensures Left([l] + more, dropping, left, context) ==
      Left(more, Drops(l, dropping, context), Now(Kept(l, dropping, context), left), context)
  {
    DueCons(l, more, ctx, context);
    LeftCons(l, more, dropping, left, context);
    var after := Left(more, Drops(l, dropping, context), Now(Kept(l, dropping, context), left), context);
    assert [] + Due(more, Now(l, ctx), context) == Due(more, Now(l, ctx), context);
    assert [] + after == after;
  }

  lemma LastLine(l: string, dropping: bool, ctx: string, left: string, context: string)
    ensures Due([l], ctx, context) == Found(l, Owner(ctx, context))
    ensures Left([l], dropping, left, context) == Found(l, Heir(Kept(l, dropping, context), left))
  {
    assert [l] == [l] + [];
    DueCons(l, [], ctx, context);
    LeftCons(l, [], dropping, left, context);
  }

  lemma HeaderHoldsNoOther(a: string, c: string)
    requires PlainName(a) && PlainName(c) && a != c
    ensures !Contains(Mark(a), Mark(c))
  {
    assert Mark(a)[1..] == a + "]";
    if Contains(Mark(a), Mark(c)) {
      OnlyAtStart(Mark(a), Mark(c));
      assert Mark(a)[..|a| + 2] == Mark(a);
      MarksAgree(Mark(a), a, c);
    }
  }

  /** A header line of another context. */
  lemma OtherHeader(a: string, c: string)
    requires PlainName(a) && PlainName(c) && a != c && a != ""
    ensures var l := Mark(a);
      && Opens(l) && !Contains(l, Mark(c)) && '\n' !in l
      && Header(Trim(l)) == Some(a) && Ext(Trim(l)) == None
  {
    MarkShape(a);
    HeaderHoldsNoOther(a, c);
    NoEntryInHeader(Mark(a));
  }

  /** The header line of the deleted context, with text in front of it. */
  lemma OwnHeader(before: string, c: string)
    requires '[' !in before
    ensures Contains(before + Mark(c), Mark(c)) && UpTo(before + Mark(c), Mark(c)) == before
  {
    assert before + Mark(c) + "" == before + Mark(c);
    UpToMark(before, c, "");
  }

  lemma {:induction false} UpToMark(before: string, c: string, after: string)
    requires '[' !in before
    ensures var l := before + Mark(c) + after; Contains(l, Mark(c)) && UpTo(l, Mark(c)) == before
  {
    var l := before + Mark(c) + after;
    if before == "" {
      assert l == Mark(c) + after;
      StartsWithConcat(Mark(c), after);
    } else {
      assert l[1..] == before[1..] + Mark(c) + after;
      assert before[0] in before && forall x <- before[1..] :: x in before;
      StartsWithTail(l, Mark(c));
      UpToMark(before[1..], c, after);
      assert [before[0]] + before[1..] == before;
    }
  }

  /** A line that declares the entry `key`. */
  function EntryLine(key: string): string {
    "exten => " + key + ",1"
  }

  predicate PlainKey(key: string) {
    PrintableKey(key) && key != ""
  }

  lemma EntryShape(key: string, c: string)
    requires key != "" && '\n' !in key && ',' !in key && !IsSpace(key[0])
    ensures var l := EntryLine(key);
      && !Opens(l) && Header(Trim(l)) == None && Ext(Trim(l)) == Some(key)
      && ',' in l && '\n' !in l
    ensures '[' !in key ==> !Contains(EntryLine(key), Mark(c))
  {
    var l := EntryLine(key);
    assert key + "," + "1" == key + ",1";
    assert l == "exten => " + (key + "," + "1");
    EntryExt(key, "1");
    assert l[0] == 'e' && l[|l| - 1] == '1';
    TrimOfTrimmed(l);
    assert l[|l| - 2] == ',';
    if '[' !in key {
      NoneInside(l, Mark(c));
    }
  }

  lemma EntryLast(key: string, dropping: bool, ctx: string, left: string, c: string)
    requires PlainKey(key)
    ensures Due([EntryLine(key)], ctx, c) == if ctx == "" || ctx == c then [] else [Extension(ctx, key)]
    ensures Left([EntryLine(key)], dropping, left, c) == if dropping || left == "" then [] else [Extension(left, key)]
  {
    EntryShape(key, c);
    LastLine(EntryLine(key), dropping, ctx, left, c);
  }

  lemma HeaderFirst(a: string, more: seq<string>, c: string)
    requires PlainName(a) && PlainName(c) && a != c && a != ""
    ensures Due([Mark(a)] + more, "", c) == Due(more, a, c)
    ensures Left([Mark(a)] + more, false, "", c) == Left(more, false, a, c)
  {
    OtherHeader(a, c);
    SilentLine(Mark(a), more, false, "", "", c);
  }

  lemma MarkedUpTo(c: string, key: string)
    requires PlainKey(key)
    ensures var l := EntryLine(key + Mark(c)); Contains(l, Mark(c)) && ',' !in UpTo(l, Mark(c))
  {
    assert EntryLine(key + Mark(c)) == "exten => " + key + Mark(c) + ",1";
    UpToMark("exten => " + key, c, ",1");
  }

  lemma MarkedEntry(a: string, c: string, key: string)
    requires PlainName(c) && PlainKey(key) && a != "" && a != c && ',' !in c
    ensures '\n' !in EntryLine(key + Mark(c))
    ensures Due([EntryLine(key + Mark(c))], a, c) == [Extension(a, key + Mark(c))]
    ensures Left([EntryLine(key + Mark(c))], false, a, c) == []
  {
    var l := EntryLine(key + Mark(c));
    EntryShape(key + Mark(c), c);
    MarkedUpTo(c, key);
    LastLine(l, false, a, a, c);
  }

  /** An entry of another context whose key ends in the deleted context's mark is cut
      in two and lost. */
  lemma MarkInLineLosesEntry(a: string, c: string, key: string)
    requires PlainName(a) && PlainName(c) && PlainKey(key) && a != "" && a != c && ',' !in c
    ensures var file := Join([Mark(a), EntryLine(key + Mark(c))], "\n");
      && Without(Parse(file), c) == [Extension(a, key + Mark(c))]
      && Parse(Deleted(file, c)) == []
  {
    var h, l := Mark(a), EntryLine(key + Mark(c));
    OtherHeader(a, c);
    MarkedEntry(a, c, key);
    ReadOfJoin([h, l], c);
    assert [h, l] == [h] + [l];
    HeaderFirst(a, [l], c);
  }

  lemma CommentShape(c: string)
    requires PlainName(c)
    ensures var l := ";" + Mark(c);
      && !Opens(l) && Header(Trim(l)) == None && Ext(Trim(l)) == None && '\n' !in l
      && Contains(l, Mark(c)) && UpTo(l, Mark(c)) == ";"
  {
    var l := ";" + Mark(c);
    assert l[0] == ';' && l[|l| - 1] == ']';
    TrimOfTrimmed(l);
    OwnHeader(";", c);
  }

  lemma CommentLine(c: string, more: seq<string>, ctx: string)
    requires PlainName(c)
    ensures '\n' !in ";" + Mark(c)
    ensures Due([";" + Mark(c)] + more, ctx, c) == Due(more, ctx, c)
    ensures Left([";" + Mark(c)] + more, false, ctx, c) == Left(more, true, ctx, c)
  {
    CommentShape(c);
    SilentLine(";" + Mark(c), more, false, ctx, ctx, c);
    assert Trim(";") == ";";
  }

  lemma ThreeLines<T>(a: T, b: T, c: T)
    ensures [a, b, c] == [a] + ([b] + [c])
  {}

  lemma CommentReads(a: string, c: string, key: string)
    requires PlainName(a) && PlainName(c) && PlainKey(key) && a != "" && a != c
    ensures var ls := [Mark(a), ";" + Mark(c), EntryLine(key)];
      Due(ls, "", c) == [Extension(a, key)] && Left(ls, false, "", c) == []
  {
    var end := [EntryLine(key)];
    EntryLast(key, true, a, a, c);
    CommentLine(c, end, a);
    HeaderFirst(a, [";" + Mark(c)] + end, c);
    ThreeLines(Mark(a), ";" + Mark(c), EntryLine(key));
  }

  lemma CommentAreLines(a: string, c: string, key: string)
    requires PlainName(a) && PlainName(c) && PlainKey(key)
    ensures forall l <- [Mark(a), ";" + Mark(c), EntryLine(key)] :: '\n' !in l
  {}

  /** The mark in a comment takes the entries behind it along. */
  lemma MarkInCommentLosesEntry(a: string, c: string, key: string)
    requires PlainName(a) && PlainName(c) && PlainKey(key) && a != "" && a != c
    ensures var file := Join([Mark(a), ";" + Mark(c), EntryLine(key)], "\n");
      && Without(Parse(file), c) == [Extension(a, key)]
      && Parse(Deleted(file, c)) == []
  {
    CommentReads(a, c, key);
    CommentAreLines(a, c, key);
    ReadOfJoin([Mark(a), ";" + Mark(c), EntryLine(key)], c);
  }

  /** The header of a template, which stops a deletion but which the parser skips. */
  lemma TemplateShape(x: string, c: string)
    requires PlainName(x) && PlainName(c) && x != c
    ensures var l := Mark(x) + "(!)";
      && Opens(l) && Header(Trim(l)) == None && Ext(Trim(l)) == None
      && !Contains(l, Mark(c)) && '\n' !in l
  {
    var l := Mark(x) + "(!)";
    assert l[0] == '[' && l[|l| - 1] == ')';
    TrimOfTrimmed(l);
    assert l[1..] == x + "](!)";
    StartsWithConcat(Mark(x), "(!)");
    if Contains(l, Mark(c)) {
      OnlyAtStart(l, Mark(c));
      MarksAgree(l, x, c);
    }
  }

  lemma OwnHeaderShape(c: string)
    requires PlainName(c) && c != ""
    ensures Contains(Mark(c), Mark(c)) && UpTo(Mark(c), Mark(c)) == ""
    ensures Header(Trim(Mark(c))) == Some(c) && Ext(Trim(Mark(c))) == None && '\n' !in Mark(c)
  {
    MarkShape(c);
    assert "" + Mark(c) == Mark(c);
    OwnHeader("", c);
    NoEntryInHeader(Mark(c));
  }

  /** Behind a deleted part that ended in context `c`, the lines of a template. */
  lemma TemplateTail(a: string, c: string, x: string, key: string)
    requires PlainName(c) && PlainName(x) && PlainKey(key) && a != "" && x != c
    ensures var t, e := Mark(x) + "(!)", EntryLine(key);
      && '\n' !in t && '\n' !in e
      && Due([t, e], c, c) == [] && Left([t, e], true, a, c) == [Extension(a, key)]
  {
    var t, e := Mark(x) + "(!)", EntryLine(key);
    TemplateShape(x, c);
    EntryShape(key, c);
    assert [t, e] == [t] + [e];
    SilentLine(t, [e], true, c, a, c);
    EntryLast(key, false, c, a, c);
  }

  lemma FourLines<T>(a: T, b: T, c: T, d: T)
    ensures [a, b, c, d] == [a] + ([b] + [c, d])
  {}

  lemma OwnHeaderNext(c: string, more: seq<string>, a: string)
    requires PlainName(c) && c != ""
    ensures Due([Mark(c)] + more, a, c) == Due(more, c, c)
    ensures Left([Mark(c)] + more, false, a, c) == Left(more, true, a, c)
  {
    OwnHeaderShape(c);
    SilentLine(Mark(c), more, false, a, a, c);
  }

  lemma TemplateReads(a: string, c: string, x: string, key: string)
    requires PlainName(a) && PlainName(c) && PlainName(x) && PlainKey(key)
    requires a != "" && c != "" && a != c && x != c
    ensures var ls := [Mark(a), Mark(c), Mark(x) + "(!)", EntryLine(key)];
      Due(ls, "", c) == [] && Left(ls, false, "", c) == [Extension(a, key)]
  {
    var end := [Mark(x) + "(!)", EntryLine(key)];
    TemplateTail(a, c, x, key);
    OwnHeaderNext(c, end, a);
    HeaderFirst(a, [Mark(c)] + end, c);
    FourLines(Mark(a), Mark(c), Mark(x) + "(!)", EntryLine(key));
  }

  lemma TemplateAreLines(a: string, c: string, x: string, key: string)
    requires PlainName(a) && PlainName(c) && PlainName(x) && PlainKey(key)
    ensures forall l <- [Mark(a), Mark(c), Mark(x) + "(!)", EntryLine(key)] :: '\n' !in l
  {}

  /** A deletion that ends at a template's header leaves the lines behind it to the
      context in front of the deleted one. */
  lemma TemplateEntriesMove(a: string, c: string, x: string, key: string)
    requires PlainName(a) && PlainName(c) && PlainName(x) && PlainKey(key)
    requires a != "" && c != "" && a != c && x != c
    ensures var file := Join([Mark(a), Mark(c), Mark(x) + "(!)", EntryLine(key)], "\n");
      && Without(Parse(file), c) == []
      && Parse(Deleted(file, c)) == [Extension(a, key)]
  {
    TemplateReads(a, c, x, key);
    TemplateAreLines(a, c, x, key);
    ReadOfJoin([Mark(a), Mark(c), Mark(x) + "(!)", EntryLine(key)], c);
  }

  lemma IndentedHeader(a: string, c: string, more: seq<string>)
    requires PlainName(c) && c != ""
    ensures '\n' !in " " + Mark(c)
    ensures Due([" " + Mark(c)] + more, a, c) == Due(more, c, c)
    ensures Left([" " + Mark(c)] + more, true, a, c) == Left(more, true, a, c)
  {
    var l := " " + Mark(c);
    MarkShape(c);
    TrimPrepend(Mark(c), ' ');
    TrimOfTrimmed(Mark(c));
    NoEntryInHeader(Mark(c));
    SilentLine(l, more, true, a, a, c);
  }

  /** An entry of `a` among lines that are deleted. */
  lemma DroppedEntry(a: string, c: string, key: string, more: seq<string>)
    requires PlainKey(key) && a != "" && a != c
    ensures Due([EntryLine(key)] + more, a, c) == [Extension(a, key)] + Due(more, a, c)
    ensures Left([EntryLine(key)] + more, true, a, c) == Left(more, true, a, c)
  {
    EntryShape(key, c);
    DueCons(EntryLine(key), more, a, c);
    LeftCons(EntryLine(key), more, true, a, c);
    assert [] + Left(more, true, a, c) == Left(more, true, a, c);
  }

  /** A header, the mark in a comment, an entry, an indented header and a template. */
  function MixedLines(a: string, c: string, x: string, key: string): seq<string> {
    [Mark(a), ";" + Mark(c), EntryLine(key), " " + Mark(c), Mark(x) + "(!)", EntryLine(key)]
  }

  lemma SixLines<T>(a: T, b: T, c: T, d: T, e: T, f: T)
    ensures [a, b, c, d, e, f] == [a] + ([b] + ([c] + ([d] + [e, f])))
  {}

  lemma MixedReads(a: string, c: string, x: string, key: string)
    requires PlainName(a) && PlainName(c) && PlainName(x) && PlainKey(key)
    requires a != "" && c != "" && a != c && x != c
    ensures Due(MixedLines(a, c, x, key), "", c) == [Extension(a, key)]
    ensures Left(MixedLines(a, c, x, key), false, "", c) == [Extension(a, key)]
  {
    var end := [Mark(x) + "(!)", EntryLine(key)];
    var fromIndented := [" " + Mark(c)] + end;
    var fromEntry := [EntryLine(key)] + fromIndented;
    var fromComment := [";" + Mark(c)] + fromEntry;
    TemplateTail(a, c, x, key);
    IndentedHeader(a, c, end);
    DroppedEntry(a, c, key, fromIndented);
    CommentLine(c, fromEntry, a);
    HeaderFirst(a, fromComment, c);
    SixLines(Mark(a), ";" + Mark(c), EntryLine(key), " " + Mark(c), Mark(x) + "(!)", EntryLine(key));
    assert [Extension(a, key)] + [] == [Extension(a, key)];
  }

  lemma MixedLoses(a: string, c: string, x: string, key: string)
    requires PlainName(a) && PlainName(c) && PlainName(x) && PlainKey(key)
    requires a != "" && c != "" && a != c
    ensures !NoneLost(MixedLines(a, c, x, key), false, "", "", c)
  {
    var ls := MixedLines(a, c, x, key);
    OtherHeader(a, c);
    CommentShape(c);
    EntryShape(key, c);
    assert Trim(";") == ";";
    var l1, l2 := ls[1..], ls[1..][1..];
    assert l1[0] == ";" + Mark(c) && l2[0] == EntryLine(key);
    assert NoneLost(ls, false, "", "", c) ==> NoneLost(l1, false, a, a, c);
    assert NoneLost(l1, false, a, a, c) ==> NoneLost(l2, true, a, a, c);
  }

  lemma MixedAreLines(a: string, c: string, x: string, key: string)
    requires PlainName(a) && PlainName(c) && PlainName(x) && PlainKey(key)
    ensures forall l <- MixedLines(a, c, x, key) :: '\n' !in l
  {}

  /** A file on which the parser finds the right list although one entry is lost and
      another one moved: line by line the lists differ. */
  lemma LossHiddenByMove(a: string, c: string, x: string, key: string)
    requires PlainName(a) && PlainName(c) && PlainName(x) && PlainKey(key)
    requires a != "" && c != "" && a != c && x != c
    ensures var ls := MixedLines(a, c, x, key);
      var file := Join(ls, "\n");
      && Parse(Deleted(file, c)) == Without(Parse(file), c) == [Extension(a, key)]
      && !NoneLost(ls, false, "", "", c) && !NoneMoved(ls, false, "", "", c)
  {
    var ls := MixedLines(a, c, x, key);
    MixedReads(a, c, x, key);
    MixedLoses(a, c, x, key);
    MixedAreLines(a, c, x, key);
    ReadOfJoin(ls, c);
    if NoneMoved(ls, false, "", "", c) {
      LossShows(ls, false, "", "", c);
    }
  }
}
