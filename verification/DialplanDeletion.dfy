/** What deleting a context does to the lines of a file and to the entries the parser
    finds there (src/utils/dialplan/dialplan-manager.ts, deleteIVRTree). `Cut` looks for
    the literal mark of the context, which is what the source's pattern matches for
    a plain name. */
module DialplanDeletion {
  import opened Text
  import opened Dialplan
  import opened DialplanLaws

  // ---- deletion line by line ----

  /** A line the deletion stops at. */
  predicate Opens(l: string) {
    l != "" && l[0] == '['
  }

  /** The lines from the first one that a bracket opens. */
  function Opened(ls: seq<string>): (r: seq<string>)
    ensures |r| <= |ls|
  {
    if ls == [] || Opens(ls[0]) then ls else Opened(ls[1..])
  }

  /** The part of a line in front of the first `m`. */
  function UpTo(l: string, m: string): (r: string)
    ensures r <= l
  {
    if l == "" || StartsWith(l, m) then "" else [l[0]] + UpTo(l[1..], m)
  }

  /** The lines of a file without the context: what stands in front of a mark stays,
      and the lines behind it go up to the next one that a bracket opens. */
  function CutLines(ls: seq<string>, context: string): seq<string>
    decreases |ls|
  {
    if ls == [] then []
    else if Contains(ls[0], Mark(context)) then
      [UpTo(ls[0], Mark(context))] + CutLines(Opened(ls[1..]), context)
    else [ls[0]] + CutLines(ls[1..], context)
  }

  /** The text that follows a line when `ls` are the lines after it. */
  function Tail(ls: seq<string>): string {
    if ls == [] then "" else "\n" + Join(ls, "\n")
  }

  lemma TailCons(l: string, ls: seq<string>)
    ensures Tail([l] + ls) == "\n" + (l + Tail(ls))
  {
    assert ([l] + ls)[1..] == ls;
    if ls != [] {
      assert l + "\n" + Join(ls, "\n") == l + ("\n" + Join(ls, "\n"));
    }
  }

  lemma {:induction false} SkipLine(w: string, r: string)
    requires '\n' !in w
    requires r == "" || r[0] == '\n'
    ensures SkipBlock(w + r) == SkipBlock(r)
  {
    if w == "" {
      assert w + r == r;
    } else {
      ConcatTail(w, r);
      StartsHeader(w + r);
      assert w[0] in w;
      assert forall c <- w[1..] :: c in w;
      SkipLine(w[1..], r);
    }
  }

  lemma {:induction false} SkipTail(w: string, ls: seq<string>)
    requires '\n' !in w && forall l <- ls :: '\n' !in l
    ensures SkipBlock(w + Tail(ls)) == Tail(Opened(ls))
    decreases |ls|
  {
    SkipLine(w, Tail(ls));
    if ls != [] {
      var l, s := ls[0], Tail(ls);
      assert ls == [l] + ls[1..];
      TailCons(l, ls[1..]);
      assert s[1..] == l + Tail(ls[1..]);
      StartsHeader(s);
      if Opens(l) {
        assert s[1] == s[1..][0] == l[0];
      } else {
        assert |s| >= 2 ==> s[1] == s[1..][0];
        SkipTail(l, ls[1..]);
      }
    }
  }

  lemma CutBreak(r: string, context: string)
    ensures Cut("\n" + r, context) == "\n" + Cut(r, context)
  {
    assert ("\n" + r)[1..] == r;
  }

  lemma StartsInLine(l: string, more: seq<string>, m: string)
    requires '\n' !in m && m != ""
    ensures StartsWith(l + Tail(more), m) <==> StartsWith(l, m)
  {
    if more == [] {
      assert l + "" == l;
    } else if StartsWith(l + Tail(more), m) {
      assert l + Tail(more) == l + "\n" + Join(more, "\n");
      StartsInside(l, Join(more, "\n"), m);
    }
  }

  lemma CutStep(l: string, r: string, context: string)
    requires l != "" && !StartsWith(l + r, Mark(context))
    ensures Cut(l + r, context) == [l[0]] + Cut(l[1..] + r, context)
  {
    ConcatTail(l, r);
  }

  lemma EmptyFirst(s: string)
    ensures "" + s == s
  {}

  lemma CharInFront(c: char, a: string, b: string)
    ensures [c] + (a + b) == ([c] + a) + b
  {}

  lemma CutMarked(l: string, more: seq<string>, context: string)
    requires '\n' !in l && forall x <- more :: '\n' !in x
    requires StartsWith(l, Mark(context)) && StartsWith(l + Tail(more), Mark(context))
    ensures Cut(l + Tail(more), context) == UpTo(l, Mark(context)) + Cut(Tail(Opened(more)), context)
  {
    var w := l[|context| + 2..];
    assert (l + Tail(more))[|context| + 2..] == w + Tail(more);
    assert forall x <- w :: x in l;
    SkipTail(w, more);
    assert "" + Cut(Tail(Opened(more)), context) == Cut(Tail(Opened(more)), context);
  }

  /** Cutting a text whose first line is `l`. */
  lemma {:induction false} CutLine(l: string, more: seq<string>, context: string)
    requires '\n' !in l && '\n' !in context && forall x <- more :: '\n' !in x
    ensures Cut(l + Tail(more), context) ==
      if Contains(l, Mark(context)) then UpTo(l, Mark(context)) + Cut(Tail(Opened(more)), context)
      else l + Cut(Tail(more), context)
  {
    var m := Mark(context);
    StartsInLine(l, more, m);
    if StartsWith(l, m) {
      CutMarked(l, more, context);
    } else if l == "" {
      EmptyFirst(Tail(more));
      EmptyFirst(Cut(Tail(more), context));
    } else {
      assert forall x <- l[1..] :: x in l;
      CutLine(l[1..], more, context);
      CutStep(l, Tail(more), context);
      CharInFront(l[0], UpTo(l[1..], m), Cut(Tail(Opened(more)), context));
      CharInFront(l[0], l[1..], Cut(Tail(more), context));
      assert [l[0]] + l[1..] == l;
    }
  }

  lemma {:induction false} OpenedSub(ls: seq<string>)
    ensures forall l <- Opened(ls) :: l in ls
  {
    if ls != [] && !Opens(ls[0]) {
      OpenedSub(ls[1..]);
    }
  }

  lemma {:induction false} CutTail(ls: seq<string>, context: string)
    requires '\n' !in context && forall l <- ls :: '\n' !in l
    ensures Cut(Tail(ls), context) == Tail(CutLines(ls, context))
    decreases |ls|
  {
    if ls != [] {
      var l, more := ls[0], ls[1..];
      assert ls == [l] + more;
      TailCons(l, more);
      CutBreak(l + Tail(more), context);
      CutLine(l, more, context);
      if Contains(l, Mark(context)) {
        OpenedSub(more);
        CutTail(Opened(more), context);
        TailCons(UpTo(l, Mark(context)), CutLines(Opened(more), context));
      } else {
        CutTail(more, context);
        TailCons(l, CutLines(more, context));
      }
    }
  }

  lemma {:induction false} CutLinesAreLines(ls: seq<string>, context: string)
    requires forall l <- ls :: '\n' !in l
    ensures forall l <- CutLines(ls, context) :: '\n' !in l
    ensures ls != [] ==> CutLines(ls, context) != []
    decreases |ls|
  {
    if ls != [] {
      OpenedSub(ls[1..]);
      assert '\n' !in ls[0] && forall c <- UpTo(ls[0], Mark(context)) :: c in ls[0];
      CutLinesAreLines(if Contains(ls[0], Mark(context)) then Opened(ls[1..]) else ls[1..], context);
    }
  }

  /** The pattern works line by line, whatever the file. */
  lemma CutIsCutLines(file: string, context: string)
    requires '\n' !in context
    ensures Lines(Cut(file, context)) == CutLines(Lines(file), context)
  {
    var ls := Lines(file);
    var left := CutLines(ls, context);
    CutLinesAreLines(ls, context);
    CutTail(ls, context);
    JoinLines(file);
    CutBreak(file, context);
    assert "\n" + Cut(file, context) == "\n" + Join(left, "\n");
    assert Cut(file, context) == ("\n" + Cut(file, context))[1..] == ("\n" + Join(left, "\n"))[1..] == Join(left, "\n");
    LinesJoin(left);
  }

  // ---- what remains of each line ----

  /** The part of a line that stays when it is reached with or without a deletion
      under way. */
  function Kept(l: string, dropping: bool, context: string): (r: string)
    ensures r <= l
  {
    if dropping && !Opens(l) then ""
    else if Contains(l, Mark(context)) then UpTo(l, Mark(context))
    else l
  }

  /** A deletion is under way behind the line. */
  predicate Drops(l: string, dropping: bool, context: string) {
    (dropping && !Opens(l)) || Contains(l, Mark(context))
  }

  /** The lines of a file after a deletion, an empty one for each line removed. */
  function Remains(ls: seq<string>, dropping: bool, context: string): (r: seq<string>)
    ensures |r| == |ls|
  {
    if ls == [] then []
    else [Kept(ls[0], dropping, context)] + Remains(ls[1..], Drops(ls[0], dropping, context), context)
  }

  lemma {:induction false} RemainsBehind(ls: seq<string>, context: string)
    ensures CoreLines(Remains(ls, true, context)) == CoreLines(Remains(Opened(ls), false, context))
  {
    if ls != [] && !Opens(ls[0]) {
      RemainsBehind(ls[1..], context);
      var more := Remains(ls[1..], true, context);
      assert ([""] + more)[1..] == more;
      assert [] + CoreLines(more) == CoreLines(more);
    }
  }

  lemma {:induction false} RemainsAreCut(ls: seq<string>, context: string)
    ensures CoreLines(CutLines(ls, context)) == CoreLines(Remains(ls, false, context))
    decreases |ls|
  {
    if ls != [] {
      var l, more := ls[0], ls[1..];
      if Contains(l, Mark(context)) {
        RemainsAreCut(Opened(more), context);
        RemainsBehind(more, context);
        var kept := UpTo(l, Mark(context));
        CoreLinesConcat([kept], CutLines(Opened(more), context));
        CoreLinesConcat([kept], Remains(more, true, context));
      } else {
        RemainsAreCut(more, context);
        CoreLinesConcat([l], CutLines(more, context));
        CoreLinesConcat([l], Remains(more, false, context));
      }
    }
  }

  /** Up to layout a file after a deletion is what remains of its lines. */
  lemma DeletedRemains(file: string, context: string)
    requires '\n' !in context
    ensures Core(Deleted(file, context)) == CoreLines(Remains(Lines(file), false, context))
  {
    CoreTrim(Cut(file, context));
    CutIsCutLines(file, context);
    RemainsAreCut(Lines(file), context);
  }

  // ---- entries, line by line ----

  /** The context in force behind a line. */
  function Now(l: string, ctx: string): string {
    if Header(Trim(l)).Some? then Header(Trim(l)).value else ctx
  }

  /** The entry a line declares in context `ctx`. */
  function Found(l: string, ctx: string): seq<Extension> {
    if ctx != "" && Ext(Trim(l)).Some? then [Extension(ctx, Ext(Trim(l)).value)] else []
  }

  /** What the parser collects from lines. */
  function Read(ls: seq<string>, ctx: string): seq<Extension> {
    ParseCore(CoreLines(ls), ctx)
  }

  /** The same, with the entry of each line in its place. */
  function ByLine(ls: seq<string>, ctx: string): (r: seq<seq<Extension>>)
    ensures |r| == |ls|
  {
    if ls == [] then [] else [Found(ls[0], ctx)] + ByLine(ls[1..], Now(ls[0], ctx))
  }

  function Flat(ess: seq<seq<Extension>>): seq<Extension> {
    if ess == [] then [] else ess[0] + Flat(ess[1..])
  }

  function Without(es: seq<Extension>, context: string): seq<Extension> {
    if es == [] then []
    else (if es[0].context == context then [] else [es[0]]) + Without(es[1..], context)
  }

  function EachWithout(ess: seq<seq<Extension>>, context: string): (r: seq<seq<Extension>>)
    ensures |r| == |ess|
  {
    if ess == [] then [] else [Without(ess[0], context)] + EachWithout(ess[1..], context)
  }

  lemma {:induction false} WithoutConcat(a: seq<Extension>, b: seq<Extension>, context: string)
    ensures Without(a + b, context) == Without(a, context) + Without(b, context)
  {
    if a == [] {
      assert a + b == b;
    } else {
      assert (a + b)[1..] == a[1..] + b;
      WithoutConcat(a[1..], b, context);
    }
  }

  lemma ReadCons(l: string, more: seq<string>, ctx: string)
    ensures Read([l] + more, ctx) == Found(l, ctx) + Read(more, Now(l, ctx))
  {
    ParseStep(l, more, ctx);
    if Header(Trim(l)).Some? {
      assert [] + Read(more, Now(l, ctx)) == Read(more, Now(l, ctx));
    }
  }

  lemma {:induction false} ReadIsFlat(ls: seq<string>, ctx: string)
    ensures Flat(ByLine(ls, ctx)) == Read(ls, ctx)
  {
    if ls != [] {
      assert ls == [ls[0]] + ls[1..];
      ReadCons(ls[0], ls[1..], ctx);
      ReadIsFlat(ls[1..], Now(ls[0], ctx));
      assert ByLine(ls, ctx)[1..] == ByLine(ls[1..], Now(ls[0], ctx));
    }
  }

  lemma {:induction false} WithoutIsFlat(ess: seq<seq<Extension>>, context: string)
    ensures Flat(EachWithout(ess, context)) == Without(Flat(ess), context)
  {
    if ess != [] {
      WithoutConcat(ess[0], Flat(ess[1..]), context);
      WithoutIsFlat(ess[1..], context);
      assert EachWithout(ess, context)[1..] == EachWithout(ess[1..], context);
    }
  }

  // ---- an entry needs its line up to the comma, and no more ----

  lemma {:induction false} TrimStartPrefix(p: string, s: string)
    requires p <= s && ',' in p
    ensures TrimStart(p) <= TrimStart(s) && ',' in TrimStart(p)
    ensures |p| - |TrimStart(p)| == |s| - |TrimStart(s)|
  {
    if IsSpace(p[0]) {
      assert p == [p[0]] + p[1..];
      assert p[1..] <= s[1..];
      TrimStartPrefix(p[1..], s[1..]);
    }
  }

  lemma {:induction false} TrimEndKeepsComma(p: string)
    requires ',' in p
    ensures ',' in TrimEnd(p)
  {
    if IsSpace(p[|p| - 1]) {
      assert p == p[..|p| - 1] + [p[|p| - 1]];
      TrimEndKeepsComma(p[..|p| - 1]);
    }
  }

  lemma {:induction false} UpToCommaPrefix(p: string, s: string)
    requires p <= s && ',' in p
    ensures UpToComma(p) == UpToComma(s) && |UpToComma(p)| < |p|
  {
    if p[0] != ',' {
      assert p == [p[0]] + p[1..];
      assert p[1..] <= s[1..];
      UpToCommaPrefix(p[1..], s[1..]);
    }
  }

  lemma PrefixStarts(p: string, s: string, w: string)
    requires p <= s && ',' in p && ',' !in w
    ensures StartsWith(p, w) <==> StartsWith(s, w)
    ensures StartsWith(p, w) ==> p[|w|..] <= s[|w|..] && ',' in p[|w|..]
  {
    var i :| 0 <= i < |p| && p[i] == ',';
    if StartsWith(s, w) {
      assert forall j | 0 <= j < |w| :: s[j] == w[j] && w[j] in w;
      assert p[..|w|] == s[..|w|];
      assert p[|w|..][i - |w|] == ',';
    }
  }

  lemma KeyPrefix(p: string, s: string)
    requires p <= s && ',' in p
    ensures var q, t := TrimStart(p), TrimStart(s);
      && UpToComma(q) == UpToComma(t) && |UpToComma(q)| < |q| && |UpToComma(t)| < |t|
      && |p| - |q| == |s| - |t|
  {
    TrimStartPrefix(p, s);
    UpToCommaPrefix(TrimStart(p), TrimStart(s));
  }

  lemma ExtPrefix(p: string, s: string)
    requires p <= s && ',' in p
    ensures Ext(p) == Ext(s)
  {
    PrefixStarts(p, s, "exten");
    if StartsWith(p, "exten") {
      TrimStartPrefix(p[5..], s[5..]);
      var q, t := TrimStart(p[5..]), TrimStart(s[5..]);
      PrefixStarts(q, t, "=>");
      if StartsWith(q, "=>") {
        KeyPrefix(q[2..], t[2..]);
      }
    }
  }

  lemma {:induction false} NoComma(t: string)
    requires ',' !in t
    ensures UpToComma(t) == t
  {
    if t != "" {
      assert t[0] in t;
      assert forall c <- t[1..] :: c in t;
      NoComma(t[1..]);
    }
  }

  lemma ExtNeedsComma(t: string)
    requires ',' !in t
    ensures Ext(t) == None
  {
    if StartsWith(t, "exten") {
      var afterExten := TrimStart(t[5..]);
      TrimStartFacts(t[5..]);
      assert forall c <- afterExten :: c in t;
      if StartsWith(afterExten, "=>") {
        TrimStartFacts(afterExten[2..]);
        NoComma(TrimStart(afterExten[2..]));
      }
    }
  }

  /** The first part of a line declares the entry of the line if it reaches to the
      comma, and nothing otherwise. */
  lemma KeptEntry(kept: string, l: string)
    requires kept <= l
    ensures Ext(Trim(kept)) == if ',' in kept then Ext(Trim(l)) else None
  {
    if ',' in kept {
      TrimStartPrefix(kept, l);
      var q, t := TrimStart(kept), TrimStart(l);
      TrimEndFacts(q);
      TrimEndFacts(t);
      TrimEndKeepsComma(q);
      assert ',' in t;
      TrimEndKeepsComma(t);
      ExtPrefix(TrimEnd(q), t);
      ExtPrefix(TrimEnd(t), t);
    } else {
      TrimStartFacts(kept);
      TrimEndFacts(TrimStart(kept));
      assert forall c <- Trim(kept) :: c in kept;
      ExtNeedsComma(Trim(kept));
    }
  }

  // ---- entries lost and entries moved ----

  /** The context, other than the deleted one, an entry belongs to before ... */
  function Owner(ctx: string, context: string): string {
    if ctx == context then "" else ctx
  }

  /** ... and after the deletion; "" when it belongs to none. */
  function Heir(kept: string, ctx: string): string {
    if ',' in kept then ctx else ""
  }

  /** The line declares an entry of another context that is gone afterwards. */
  predicate Lost(l: string, owner: string, heir: string) {
    Ext(Trim(l)).Some? && owner != "" && heir == ""
  }

  /** The line declares an entry that afterwards stands in a context it was not in. */
  predicate Moved(l: string, owner: string, heir: string) {
    Ext(Trim(l)).Some? && heir != "" && heir != owner
  }

  /** No line loses its entry. `ctx` is the context the parser is in before the
      deletion, `left` the one it is in afterwards. */
  predicate NoneLost(ls: seq<string>, dropping: bool, ctx: string, left: string, context: string) {
    ls == [] ||
    (var kept := Kept(ls[0], dropping, context);
     && !Lost(ls[0], Owner(ctx, context), Heir(kept, left))
     && NoneLost(ls[1..], Drops(ls[0], dropping, context), Now(ls[0], ctx), Now(kept, left), context))
  }

  /** No line's entry comes under another context. */
  predicate NoneMoved(ls: seq<string>, dropping: bool, ctx: string, left: string, context: string) {
    ls == [] ||
    (var kept := Kept(ls[0], dropping, context);
     && !Moved(ls[0], Owner(ctx, context), Heir(kept, left))
     && NoneMoved(ls[1..], Drops(ls[0], dropping, context), Now(ls[0], ctx), Now(kept, left), context))
  }

  lemma EntryBefore(l: string, ctx: string, context: string)
    ensures Without(Found(l, ctx), context) == Found(l, Owner(ctx, context))
  {
    var es := Found(l, ctx);
    if es != [] {
      assert es[1..] == [];
    }
  }

  lemma EntryAfter(l: string, kept: string, left: string)
    requires kept <= l
    ensures Found(kept, left) == Found(l, Heir(kept, left))
  {
    KeptEntry(kept, l);
  }

  /** Each line has the same entry of other contexts before and after exactly when
      none is lost and none moved, whatever the file. */
  lemma {:induction false} ByLineIff(ls: seq<string>, dropping: bool, ctx: string, left: string, context: string)
    ensures ByLine(Remains(ls, dropping, context), left) == EachWithout(ByLine(ls, ctx), context) <==>
      NoneLost(ls, dropping, ctx, left, context) && NoneMoved(ls, dropping, ctx, left, context)
  {
    if ls != [] {
      var l := ls[0];
      var kept, drops := Kept(l, dropping, context), Drops(l, dropping, context);
      EntryBefore(l, ctx, context);
      EntryAfter(l, kept, left);
      ByLineIff(ls[1..], drops, Now(l, ctx), Now(kept, left), context);
      var after, before := ByLine(Remains(ls, dropping, context), left), EachWithout(ByLine(ls, ctx), context);
      assert after[1..] == ByLine(Remains(ls[1..], drops, context), Now(kept, left));
      assert before[1..] == EachWithout(ByLine(ls[1..], Now(l, ctx)), context);
      assert after == [after[0]] + after[1..] && before == [before[0]] + before[1..];
    }
  }

  /** The entries after a deletion ... */
  function Left(ls: seq<string>, dropping: bool, left: string, context: string): seq<Extension> {
    Read(Remains(ls, dropping, context), left)
  }

  /** ... and the ones that should be there. */
  function Due(ls: seq<string>, ctx: string, context: string): seq<Extension> {
    Without(Read(ls, ctx), context)
  }

  lemma LeftCons(l: string, more: seq<string>, dropping: bool, left: string, context: string)
    ensures var kept := Kept(l, dropping, context);
      Left([l] + more, dropping, left, context) ==
        Found(l, Heir(kept, left)) + Left(more, Drops(l, dropping, context), Now(kept, left), context)
  {
    var kept := Kept(l, dropping, context);
    assert ([l] + more)[1..] == more;
    EntryAfter(l, kept, left);
    ReadCons(kept, Remains(more, Drops(l, dropping, context), context), left);
  }

  lemma DueCons(l: string, more: seq<string>, ctx: string, context: string)
    ensures Due([l] + more, ctx, context) == Found(l, Owner(ctx, context)) + Due(more, Now(l, ctx), context)
  {
    ReadCons(l, more, ctx);
    EntryBefore(l, ctx, context);
    WithoutConcat(Found(l, ctx), Read(more, Now(l, ctx)), context);
  }

  lemma SplitEqual<T>(a: seq<T>, b: seq<T>, c: seq<T>, d: seq<T>)
    requires a + b == c + d && |a| == |c|
    ensures a == c && b == d
  {
    assert a == (a + b)[..|a|] == (c + d)[..|c|] == c;
    assert b == (a + b)[|a|..] == (c + d)[|c|..] == d;
  }

  /** Where nothing moves the list only shrinks, and any loss shows. */
  lemma {:induction false} LossShows(ls: seq<string>, dropping: bool, ctx: string, left: string, context: string)
    requires NoneMoved(ls, dropping, ctx, left, context)
    ensures |Left(ls, dropping, left, context)| <= |Due(ls, ctx, context)|
    ensures Left(ls, dropping, left, context) == Due(ls, ctx, context) <==> NoneLost(ls, dropping, ctx, left, context)
  {
    if ls != [] {
      var l := ls[0];
      var kept, drops := Kept(l, dropping, context), Drops(l, dropping, context);
      assert ls == [l] + ls[1..];
      LeftCons(l, ls[1..], dropping, left, context);
      DueCons(l, ls[1..], ctx, context);
      LossShows(ls[1..], drops, Now(l, ctx), Now(kept, left), context);
      if Left(ls, dropping, left, context) == Due(ls, ctx, context) {
        SplitEqual(Found(l, Heir(kept, left)), Left(ls[1..], drops, Now(kept, left), context),
                   Found(l, Owner(ctx, context)), Due(ls[1..], Now(l, ctx), context));
      }
    }
  }

  /** Where nothing is lost the list only grows, and any move shows. */
  lemma {:induction false} MoveShows(ls: seq<string>, dropping: bool, ctx: string, left: string, context: string)
    requires NoneLost(ls, dropping, ctx, left, context)
    ensures |Left(ls, dropping, left, context)| >= |Due(ls, ctx, context)|
    ensures Left(ls, dropping, left, context) == Due(ls, ctx, context) <==> NoneMoved(ls, dropping, ctx, left, context)
  {
    if ls != [] {
      var l := ls[0];
      var kept, drops := Kept(l, dropping, context), Drops(l, dropping, context);
      assert ls == [l] + ls[1..];
      LeftCons(l, ls[1..], dropping, left, context);
      DueCons(l, ls[1..], ctx, context);
      MoveShows(ls[1..], drops, Now(l, ctx), Now(kept, left), context);
      if Left(ls, dropping, left, context) == Due(ls, ctx, context) {
        SplitEqual(Found(l, Heir(kept, left)), Left(ls[1..], drops, Now(kept, left), context),
                   Found(l, Owner(ctx, context)), Due(ls[1..], Now(l, ctx), context));
      }
    }
  }

  // ---- deletion and parsing ----

  /** What a deletion does to the entries of any file, line by line: the parser finds
      them in what remains of the lines, and each line has the entry it should have
      exactly when no entry is lost and none is moved. */
  lemma DeletionLineByLine(file: string, context: string)
    requires PlainName(context)
    ensures var ls := Lines(file);
      var after, due := ByLine(Remains(ls, false, context), ""), EachWithout(ByLine(ls, ""), context);
      && Parse(Deleted(file, context)) == Flat(after)
      && Without(Parse(file), context) == Flat(due)
      && (after == due <==> NoneLost(ls, false, "", "", context) && NoneMoved(ls, false, "", "", context))
  {
    var ls := Lines(file);
    DeletedRemains(file, context);
    ReadIsFlat(Remains(ls, false, context), "");
    ReadIsFlat(ls, "");
    WithoutIsFlat(ByLine(ls, ""), context);
    ByLineIff(ls, false, "", "", context);
  }

  /** Parsing after a deletion is parsing before it and leaving out the entries of the
      deleted context, if and only if no entry is lost and none moved. Only a file
      with a loss and a move together is outside the statement: there the two can
      hide each other (`DialplanExamples.LossHiddenByMove`). */
  lemma ParsingAfterDeletionIff(file: string, context: string)
    requires PlainName(context)
    requires NoneLost(Lines(file), false, "", "", context) || NoneMoved(Lines(file), false, "", "", context)
    ensures Parse(Deleted(file, context)) == Without(Parse(file), context) <==>
      NoneLost(Lines(file), false, "", "", context) && NoneMoved(Lines(file), false, "", "", context)
  {
    var ls := Lines(file);
    DeletedRemains(file, context);
    if NoneMoved(ls, false, "", "", context) {
      LossShows(ls, false, "", "", context);
    } else {
      MoveShows(ls, false, "", "", context);
    }
  }

  /** Every deletion ends at a header the parser sees, or at the end of the file. */
  predicate LandsOnHeaders(ls: seq<string>, dropping: bool, context: string) {
    ls == [] ||
    (&& (dropping && Opens(ls[0]) ==> Header(Trim(ls[0])).Some?)
     && LandsOnHeaders(ls[1..], Drops(ls[0], dropping, context), context))
  }

  lemma {:induction false} UpToHasNone(l: string, m: string)
    requires m != ""
    ensures !Contains(UpTo(l, m), m)
  {
    var r := UpTo(l, m);
    if r != "" {
      UpToHasNone(l[1..], m);
      assert r[1..] == UpTo(l[1..], m);
      assert StartsWith(r, m) ==> StartsWith(l, m);
    }
  }

  /** No line opens the deleted context once it is deleted. */
  lemma KeptOpensOther(l: string, dropping: bool, context: string)
    ensures Header(Trim(Kept(l, dropping, context))) != Some(context)
  {
    var kept, m := Kept(l, dropping, context), Mark(context);
    UpToHasNone(l, m);
    if Header(Trim(kept)) == Some(context) {
      assert Trim(kept) == m;
      StartsWithConcat(m, "");
      assert m + "" == m;
      ContainsTrim(kept, m);
    }
  }

  lemma NoEntryInHeader(l: string)
    ensures Header(Trim(l)).Some? || Opens(l) ==> Ext(Trim(l)) == None
  {
    if Opens(l) {
      assert TrimStart(l) == l;
      TrimEndFacts(l);
    }
  }

  /** Then entries may be lost, but none is moved. */
  lemma {:induction false} LandingMovesNone(ls: seq<string>, dropping: bool, ctx: string, left: string, context: string)
    requires LandsOnHeaders(ls, dropping, context)
    requires (dropping || ctx == left) && (left == context ==> context == "")
    ensures NoneMoved(ls, dropping, ctx, left, context)
  {
    if ls != [] {
      var l := ls[0];
      var kept := Kept(l, dropping, context);
      NoEntryInHeader(l);
      KeptOpensOther(l, dropping, context);
      LandingMovesNone(ls[1..], Drops(l, dropping, context), Now(l, ctx), Now(kept, left), context);
    }
  }

  /** When each deletion ends at a header, deleting filters the entries if and only if
      every entry of another context keeps its line up to the comma. */
  lemma FilteringIffNoneLost(file: string, context: string)
    requires PlainName(context) && LandsOnHeaders(Lines(file), false, context)
    ensures Parse(Deleted(file, context)) == Without(Parse(file), context) <==>
      NoneLost(Lines(file), false, "", "", context)
  {
    LandingMovesNone(Lines(file), false, "", "", context);
    ParsingAfterDeletionIff(file, context);
  }
}
