/** What replacing a provider keeps, adds and misses. */
module PjsipReplacement {
  import opened Text
  import opened Dialplan
  import opened DialplanLaws
  import opened Pjsip
  import opened PjsipLaws
  import opened PjsipPieces

  // ---- what the passes keep ----

  /** The pass that is meant for the piece, counted from 0. */
  function PassOf(p: string, names: seq<string>): (r: nat)
    ensures r <= |names|
  {
    if names == [] || Named(p, names[0]) then 0 else 1 + PassOf(p, names[1..])
  }

  /** Every piece is removed by a pass before `k`. */
  predicate GoneBefore(ps: seq<string>, names: seq<string>, k: nat)
    decreases |ps|, 0
  {
    ps == [] || (PassOf(ps[0], names) < k && !Missed(ps[0], ps[1..], names) && GoneBefore(ps[1..], names, k))
  }

  /** The pass meant for the piece leaves it where it is: nothing at all follows
      its mark, or nothing but white space does, and an earlier pass has trimmed
      that away because everything behind the piece was gone. */
  predicate Missed(p: string, behind: seq<string>, names: seq<string>)
    decreases |behind|, 1
  {
    var i := PassOf(p, names);
    && i < |names|
    && (p == Mark(names[i]) || (i > 0 && TrimEnd(p) == Mark(names[i]) && GoneBefore(behind, names, i)))
  }

  predicate Stays(p: string, behind: seq<string>, names: seq<string>) {
    PassOf(p, names) == |names| || Missed(p, behind, names)
  }

  /** The pieces the passes keep: those of other names and those that are missed. */
  function Kept(ps: seq<string>, names: seq<string>): seq<string> {
    if ps == [] then [] else (if Stays(ps[0], ps[1..], names) then [ps[0]] else []) + Kept(ps[1..], names)
  }

  lemma {:induction false} PassOfTrimmed(p: string, names: seq<string>)
    requires IsPiece(p) && forall n <- names :: PlainName(n)
    ensures PassOf(TrimEnd(p), names) == PassOf(p, names)
  {
    if names != [] {
      assert names[0] in names && forall n <- names[1..] :: n in names;
      NamedTrimmed(p, names[0]);
      PassOfTrimmed(p, names[1..]);
    }
  }

  lemma {:induction false} PassOfMark(p: string, name: string, names: seq<string>)
    requires PlainName(name) && Named(p, name) && forall n <- names :: PlainName(n)
    ensures PassOf(p, names) == PassOf(Mark(name), names)
    ensures PassOf(p, names) < |names| ==> names[PassOf(p, names)] == name
    ensures name in names ==> PassOf(p, names) < |names|
  {
    if names != [] {
      assert names[0] in names && forall n <- names[1..] :: n in names;
      StartsWithSelf(Mark(name));
      OneName(p, name, names[0]);
      OneName(Mark(name), name, names[0]);
      PassOfMark(p, name, names[1..]);
    }
  }

  lemma StartsWithSelf(p: string)
    ensures StartsWith(p, p)
  {
    assert p[..|p|] == p;
  }

  /** A bare piece of the first name is missed by its pass, and by a later one of the
      same name. */
  lemma BareStays(name: string, behind: seq<string>, names: seq<string>)
    requires PlainName(name) && forall n <- names :: PlainName(n)
    ensures Stays(Mark(name), behind, names)
  {
    StartsWithSelf(Mark(name));
    PassOfMark(Mark(name), name, names);
  }

  /** A piece of another name is missed later exactly when it would be now. */
  lemma {:induction false} MissedAfterPass(p: string, behind: seq<string>, names: seq<string>)
    requires names != [] && (forall n <- names :: PlainName(n))
    requires IsPiece(p) && !Named(p, names[0]) && (forall q <- behind :: IsPiece(q))
    ensures var left := Misses(behind, names[0]);
      Missed(p, behind, names) <==>
        if left == [] then Missed(TrimEnd(p), [], names[1..]) else Missed(p, LastTrimmed(left), names[1..])
    decreases |behind|, 1
  {
    var more, left := names[1..], Misses(behind, names[0]);
    assert forall n <- more :: n in names;
    var j := PassOf(p, more);
    assert PassOf(p, names) == j + 1;
    PassOfTrimmed(p, more);
    TrimEndPiece(p);
    if j < |more| {
      GoneAfterPass(behind, names, j);
      MarkTrimmed(more[j]);
    }
  }

  /** What is gone in time now is gone in time after the first pass. */
  lemma {:induction false} GoneAfterPass(ps: seq<string>, names: seq<string>, k: nat)
    requires names != [] && (forall n <- names :: PlainName(n)) && k < |names| && forall p <- ps :: IsPiece(p)
    ensures GoneBefore(ps, names, k + 1) <==> GoneBefore(LastTrimmed(Misses(ps, names[0])), names[1..], k)
    decreases |ps|, 0
  {
    if ps != [] {
      var p, rest, n, more := ps[0], ps[1..], names[0], names[1..];
      assert ps == [p] + rest;
      assert n in names && forall m <- more :: m in names;
      var left := Misses(rest, n);
      GoneAfterPass(rest, names, k);
      if Hit(p, n) {
        assert [] + left == left;
        HitIsGone(p, rest, names);
      } else if p == Mark(n) {
        StartsWithSelf(p);
        MarkTrimmed(n);
        GoneCons(p, left, more, k);
        BareStays(n, [], more);
        BareStays(n, LastTrimmed(left), more);
      } else {
        NotNamed(p, n);
        MissedAfterPass(p, rest, names);
        PassOfTrimmed(p, more);
        GoneCons(p, left, more, k);
      }
    }
  }

  lemma HitIsGone(p: string, behind: seq<string>, names: seq<string>)
    requires names != [] && Hit(p, names[0])
    ensures PassOf(p, names) == 0 && !Missed(p, behind, names) && !Stays(p, behind, names)
  {}

  lemma GoneCons(p: string, left: seq<string>, names: seq<string>, k: nat)
    ensures GoneBefore(LastTrimmed([p] + left), names, k) <==>
      if left == [] then PassOf(TrimEnd(p), names) < k && !Missed(TrimEnd(p), [], names)
      else PassOf(p, names) < k && !Missed(p, LastTrimmed(left), names) && GoneBefore(LastTrimmed(left), names, k)
  {
    assert ([p] + left)[1..] == left;
    if left == [] {
      assert [TrimEnd(p)][1..] == [];
    } else {
      assert LastTrimmed([p] + left)[1..] == LastTrimmed(left);
    }
  }

  lemma KeptCons(p: string, left: seq<string>, names: seq<string>)
    ensures Kept(LastTrimmed([p] + left), names) ==
      if left == [] then (if Stays(TrimEnd(p), [], names) then [TrimEnd(p)] else [])
      else (if Stays(p, LastTrimmed(left), names) then [p] else []) + Kept(LastTrimmed(left), names)
  {
    assert ([p] + left)[1..] == left;
    if left == [] {
      assert [TrimEnd(p)][1..] == [];
    } else {
      assert LastTrimmed([p] + left)[1..] == LastTrimmed(left);
    }
  }

  lemma TrimsCons(p: string, ps: seq<string>)
    ensures Trims([p] + ps) == [Trim(p)] + Trims(ps)
  {
    assert ([p] + ps)[1..] == ps;
  }

  /** One pass changes nothing about what is kept in the end. */
  lemma {:induction false} KeptAfterPass(ps: seq<string>, names: seq<string>)
    requires names != [] && (forall n <- names :: PlainName(n)) && forall p <- ps :: IsPiece(p)
    ensures Trims(Kept(ps, names)) == Trims(Kept(LastTrimmed(Misses(ps, names[0])), names[1..]))
    decreases |ps|
  {
    if ps != [] {
      var p, rest, n, more := ps[0], ps[1..], names[0], names[1..];
      assert ps == [p] + rest;
      assert n in names && forall m <- more :: m in names;
      var left := Misses(rest, n);
      KeptAfterPass(rest, names);
      if Hit(p, n) {
        assert [] + left == left;
        HitIsGone(p, rest, names);
        assert [] + Kept(rest, names) == Kept(rest, names);
      } else {
        if p == Mark(n) {
          MarkTrimmed(n);
          BareStays(n, rest, names);
          BareStays(n, [], more);
          BareStays(n, LastTrimmed(left), more);
        } else {
          NotNamed(p, n);
          MissedAfterPass(p, rest, names);
          PassOfTrimmed(p, more);
        }
        KeptCons(p, left, more);
        KeptPiece(p, rest, names);
      }
    }
  }

  /** The step for a piece the first pass leaves. */
  lemma KeptPiece(p: string, rest: seq<string>, names: seq<string>)
    requires names != [] && IsPiece(p)
    requires var left, more := Misses(rest, names[0]), names[1..];
      && Trims(Kept(rest, names)) == Trims(Kept(LastTrimmed(left), more))
      && (Stays(p, rest, names) <==> if left == [] then Stays(TrimEnd(p), [], more) else Stays(p, LastTrimmed(left), more))
    ensures var left, more := Misses(rest, names[0]), names[1..];
      Trims((if Stays(p, rest, names) then [p] else []) + Kept(rest, names)) ==
        Trims(if left == [] then (if Stays(TrimEnd(p), [], more) then [TrimEnd(p)] else [])
              else (if Stays(p, LastTrimmed(left), more) then [p] else []) + Kept(LastTrimmed(left), more))
  {
    var left, more := Misses(rest, names[0]), names[1..];
    var kept, later := Kept(rest, names), Kept(LastTrimmed(left), more);
    TrimsCons(p, kept);
    TrimsCons(p, later);
    assert [] + kept == kept && [] + later == later;
    if left == [] {
      assert later == [] && kept == [];
      TrimEndPiece(p);
      assert TrimStart(p) == p && TrimStart(TrimEnd(p)) == TrimEnd(p);
      TrimsCons(TrimEnd(p), []);
      assert [TrimEnd(p)] + [] == [TrimEnd(p)];
    }
  }

  lemma {:induction false} KeptNoNames(ps: seq<string>)
    ensures Kept(ps, []) == ps
  {
    if ps != [] {
      KeptNoNames(ps[1..]);
      assert ps == [ps[0]] + ps[1..];
    }
  }

  /** Whatever the file, cleaning keeps its head and, in order and up to layout,
      exactly the pieces of other names and those that are missed. */
  lemma {:induction false} CleanedKeeps(s: string, names: seq<string>)
    requires forall n <- names :: PlainName(n)
    ensures Sections(Cleaned(s, names)) == [Sections(s)[0]] + Trims(Kept(Pieces(s)[1..], names))
    decreases names
  {
    if names == [] {
      KeptNoNames(Pieces(s)[1..]);
    } else {
      assert names[0] in names && forall n <- names[1..] :: n in names;
      var s1 := Trim(CutSection(s, names[0]));
      PiecesShape(s);
      KeptAfterPass(Pieces(s)[1..], names);
      PassPieces(s, names[0]);
      CutSectionPieces(s, names[0]);
      SectionsTrim(CutSection(s, names[0]));
      CleanedKeeps(s1, names[1..]);
    }
  }

  // ---- sections kept ----

  predicate NamedAny(section: string, names: seq<string>) {
    exists n <- names :: Named(section, n)
  }

  /** The sections under none of `names`, in order. */
  function Others(sections: seq<string>, names: seq<string>): seq<string> {
    if sections == [] then []
    else (if NamedAny(sections[0], names) then [] else [sections[0]]) + Others(sections[1..], names)
  }

  /** Some piece is missed. */
  predicate Blocked(ps: seq<string>, names: seq<string>) {
    ps != [] && (Missed(ps[0], ps[1..], names) || Blocked(ps[1..], names))
  }

  lemma {:induction false} NamedAnyIff(p: string, names: seq<string>)
    requires IsPiece(p) && forall n <- names :: PlainName(n)
    ensures NamedAny(Trim(p), names) <==> PassOf(p, names) < |names|
  {
    if names != [] {
      assert names[0] in names && forall n <- names[1..] :: n in names;
      NamedTrimmed(p, names[0]);
      NamedAnyIff(p, names[1..]);
      assert names == [names[0]] + names[1..];
      if NamedAny(Trim(p), names[1..]) {
        var n :| n in names[1..] && Named(Trim(p), n);
        assert n in names;
      }
    }
  }

  /** What is kept is the sections of other names exactly when none is missed. */
  lemma {:induction false} KeptIsOthersIff(ps: seq<string>, names: seq<string>)
    requires (forall p <- ps :: IsPiece(p)) && forall n <- names :: PlainName(n)
    ensures !Blocked(ps, names) ==> Trims(Kept(ps, names)) == Others(Trims(ps), names)
    ensures |Kept(ps, names)| >= |Others(Trims(ps), names)|
    ensures Blocked(ps, names) ==> |Kept(ps, names)| > |Others(Trims(ps), names)|
  {
    if ps != [] {
      NamedAnyIff(ps[0], names);
      KeptIsOthersIff(ps[1..], names);
      assert Trims(ps)[1..] == Trims(ps[1..]);
      TrimsCons(ps[0], Kept(ps[1..], names));
      assert [] + Kept(ps[1..], names) == Kept(ps[1..], names);
    }
  }

  /** Cleaning keeps the head and exactly the sections of other names, in order,
      if and only if no section of the names is missed. */
  lemma CleanedSectionsIff(s: string, names: seq<string>)
    requires forall n <- names :: PlainName(n)
    ensures Sections(Cleaned(s, names)) == [Sections(s)[0]] + Others(Sections(s)[1..], names) <==>
      !Blocked(Pieces(s)[1..], names)
  {
    var ps := Pieces(s)[1..];
    PiecesShape(s);
    CleanedKeeps(s, names);
    KeptIsOthersIff(ps, names);
    assert Sections(s)[1..] == Trims(ps);
  }

  // ---- texts the passes leave alone ----

  /** No pass for the name removes anything from the text. */
  ghost predicate NoHit(s: string, name: string) {
    forall p <- Pieces(s)[1..] :: !Hit(p, name)
  }

  ghost predicate NoHits(s: string, names: seq<string>) {
    forall n <- names :: NoHit(s, n)
  }

  lemma TrimmedIsNoHit(p: string, name: string)
    requires !Hit(p, name)
    ensures !Hit(TrimEnd(p), name)
  {
    TrimEndFacts(p);
    if StartsWith(TrimEnd(p), Mark(name)) {
      assert TrimEnd(p)[..|name| + 2] == p[..|name| + 2];
    }
  }

  lemma {:induction false} LastTrimmedNoHit(ps: seq<string>, name: string)
    requires forall p <- ps :: !Hit(p, name)
    ensures forall p <- LastTrimmed(ps) :: !Hit(p, name)
  {
    if |ps| == 1 {
      TrimmedIsNoHit(ps[0], name);
    } else if ps != [] {
      LastTrimmedNoHit(ps[1..], name);
    }
  }

  lemma {:induction false} MissesNoHit(ps: seq<string>, name: string)
    ensures forall p <- Misses(ps, name) :: !Hit(p, name)
  {
    if ps != [] {
      MissesNoHit(ps[1..], name);
    }
  }

  lemma {:induction false} CleanedKeepsNoHit(s: string, names: seq<string>, name: string)
    requires (forall n <- names :: PlainName(n)) && NoHit(s, name)
    ensures NoHit(Cleaned(s, names), name)
    decreases names
  {
    if names != [] {
      assert names[0] in names && forall n <- names[1..] :: n in names;
      PassPieces(s, names[0]);
      MissesIn(Pieces(s)[1..], names[0]);
      LastTrimmedNoHit(Misses(Pieces(s)[1..], names[0]), name);
      CleanedKeepsNoHit(Trim(CutSection(s, names[0])), names[1..], name);
    }
  }

  /** After cleaning there is nothing left that the passes would remove. */
  lemma {:induction false} CleanedNoHits(s: string, names: seq<string>)
    requires forall n <- names :: PlainName(n)
    ensures NoHits(Cleaned(s, names), names)
    decreases names
  {
    if names != [] {
      var s1 := Trim(CutSection(s, names[0]));
      assert names[0] in names && forall n <- names[1..] :: n in names;
      PassPieces(s, names[0]);
      MissesNoHit(Pieces(s)[1..], names[0]);
      LastTrimmedNoHit(Misses(Pieces(s)[1..], names[0]), names[0]);
      CleanedKeepsNoHit(s1, names[1..], names[0]);
      CleanedNoHits(s1, names[1..]);
      assert forall n <- names :: n == names[0] || n in names[1..];
    }
  }

  lemma {:induction false} MissesBehind(a: seq<string>, b: seq<string>, name: string)
    requires forall p <- a :: !Hit(p, name)
    ensures Misses(a + b, name) == a + Misses(b, name)
  {
    if a == [] {
      assert a + b == b;
    } else {
      assert (a + b)[0] == a[0] && (a + b)[1..] == a[1..] + b;
      assert a[0] in a;
      MissesBehind(a[1..], b, name);
      assert [a[0]] + (a[1..] + Misses(b, name)) == a + Misses(b, name);
    }
  }

  lemma {:induction false} FlatConcat(a: seq<string>, b: seq<string>)
    ensures Flat(a + b) == Flat(a) + Flat(b)
  {
    if a == [] {
      assert a + b == b;
    } else {
      assert (a + b)[0] == a[0] && (a + b)[1..] == a[1..] + b;
      FlatConcat(a[1..], b);
    }
  }

  lemma CutBehind(s: string, ps: seq<string>, name: string)
    requires '[' !in name && NoHit(s, name) && forall p <- ps :: IsPiece(p)
    ensures CutSection(s + Flat(ps), name) == s + Flat(Misses(ps, name))
  {
    var h, own := Pieces(s)[0], Pieces(s)[1..];
    PiecesShape(s);
    FlatBehind(h, own, ps);
    CutSectionCopies(h, Flat(own + ps), name);
    CutFlat(own + ps, name);
    MissesBehind(own, ps, name);
    FlatBehind(h, own, Misses(ps, name));
  }

  lemma FlatBehind(h: string, own: seq<string>, ps: seq<string>)
    ensures (h + Flat(own)) + Flat(ps) == h + Flat(own + ps)
  {
    FlatConcat(own, ps);
    assert (h + Flat(own)) + Flat(ps) == h + (Flat(own) + Flat(ps));
  }

  lemma TrimmedPieces(s: string)
    ensures Pieces(TrimStart(s))[1..] == Pieces(s)[1..]
    ensures Pieces(Trim(s))[1..] == LastTrimmed(Pieces(s)[1..])
  {
    var h, own := Pieces(s)[0], Pieces(s)[1..];
    PiecesShape(s);
    assert s == h + Flat(own);
    NoBracketTrimmed(h);
    if own == [] {
      assert h + "" == h;
      PiecesOfPlain(TrimStart(h));
      PiecesOfPlain(Trim(h));
    } else {
      assert IsPiece(own[0]);
      FlatStart(own);
      TrimStartPasses(h, Flat(own));
      PiecesOfFlat(TrimStart(h), own);
      assert ([TrimStart(h)] + own)[1..] == own;
      TrimBeforePieces(h, own);
      LastTrimmedPieces(own);
      PiecesOfFlat(TrimStart(h), LastTrimmed(own));
      assert ([TrimStart(h)] + LastTrimmed(own))[1..] == LastTrimmed(own);
    }
  }

  lemma TrimmedNoHits(s: string, names: seq<string>)
    requires NoHits(s, names)
    ensures NoHits(TrimStart(s), names) && NoHits(Trim(s), names)
  {
    TrimmedPieces(s);
    forall n | n in names ensures NoHit(TrimStart(s), n) && NoHit(Trim(s), n) {
      assert NoHit(s, n);
      LastTrimmedNoHit(Pieces(s)[1..], n);
    }
  }

  // ---- pieces the passes remove ----

  /** Some name of the list removes the piece, with or without its layout. */
  predicate HitAny(p: string, names: seq<string>) {
    exists n <- names :: Hit(TrimEnd(p), n)
  }

  predicate AllHit(ps: seq<string>, names: seq<string>) {
    ps == [] || (IsPiece(ps[0]) && HitAny(ps[0], names) && AllHit(ps[1..], names))
  }

  lemma {:induction false} AllHitPieces(ps: seq<string>, names: seq<string>)
    requires AllHit(ps, names)
    ensures forall p <- ps :: IsPiece(p)
  {
    if ps != [] {
      AllHitPieces(ps[1..], names);
    }
  }

  /** A piece the first name does not remove is removed by a later one. */
  lemma HitLater(p: string, names: seq<string>)
    requires IsPiece(p) && names != [] && HitAny(p, names) && !Hit(p, names[0])
    ensures HitAny(p, names[1..])
  {
    TrimEndFacts(p);
    var n :| n in names && Hit(TrimEnd(p), n);
    assert TrimEnd(p)[..|n| + 2] == p[..|n| + 2];
    assert n != names[0];
  }

  lemma {:induction false} MissesHitLater(ps: seq<string>, names: seq<string>)
    requires names != [] && AllHit(ps, names)
    ensures AllHit(Misses(ps, names[0]), names[1..])
  {
    if ps != [] {
      MissesHitLater(ps[1..], names);
      if Hit(ps[0], names[0]) {
        assert Misses(ps, names[0]) == Misses(ps[1..], names[0]);
      } else {
        HitLater(ps[0], names);
        assert Misses(ps, names[0])[1..] == Misses(ps[1..], names[0]);
      }
    }
  }

  lemma {:induction false} LastTrimmedHit(ps: seq<string>, names: seq<string>)
    requires AllHit(ps, names)
    ensures AllHit(LastTrimmed(ps), names)
  {
    if |ps| == 1 {
      TrimEndPiece(ps[0]);
      assert [TrimEnd(ps[0])][1..] == [];
    } else if ps != [] {
      LastTrimmedHit(ps[1..], names);
      assert LastTrimmed(ps)[1..] == LastTrimmed(ps[1..]);
    }
  }

  /** Text the passes leave alone survives cleaning; sections of the names behind it
      do not. */
  lemma {:induction false} CleanedStrips(s: string, ps: seq<string>, names: seq<string>)
    requires (forall n <- names :: PlainName(n)) && NoHits(s, names) && AllHit(ps, names)
    ensures Trim(Cleaned(s + Flat(ps), names)) == Trim(s)
    decreases names, 0
  {
    if names == [] {
      assert s + "" == s;
    } else {
      var n, more := names[0], names[1..];
      assert n in names && forall m <- more :: m in names;
      AllHitPieces(ps, names);
      CutBehind(s, ps, n);
      MissesHitLater(ps, names);
      StripsOn(s, Misses(ps, n), more);
    }
  }

  lemma {:induction false} StripsOn(s: string, ps: seq<string>, more: seq<string>)
    requires (forall n <- more :: PlainName(n)) && NoHits(s, more) && AllHit(ps, more)
    ensures Trim(Cleaned(Trim(s + Flat(ps)), more)) == Trim(s)
    decreases more, 1
  {
    TrimmedNoHits(s, more);
    TrimOfTrimStart(s);
    if ps == [] {
      assert s + "" == s && Trim(s) + Flat([]) == Trim(s);
      CleanedStrips(Trim(s), [], more);
    } else {
      AllHitPieces(ps, more);
      TrimBeforePieces(s, ps);
      LastTrimmedHit(ps, more);
      CleanedStrips(TrimStart(s), LastTrimmed(ps), more);
    }
  }

  lemma {:induction false} CleanedIsTrimmed(s: string, names: seq<string>)
    requires names != [] || Trim(s) == s
    ensures Trim(Cleaned(s, names)) == Cleaned(s, names)
    decreases names
  {
    if names != [] {
      TrimOfTrimStart(CutSection(s, names[0]));
      CleanedIsTrimmed(Trim(CutSection(s, names[0])), names[1..]);
    }
  }

  // ---- the generated sections as pieces ----

  /** A section to be generated: its config is not blank. */
  predicate PlainProvider(s: Section) {
    PlainSection(s) && Trim(Join(EntryLines(s.config), "\n")) != ""
  }

  function ProviderPieces(sections: seq<Section>): (r: seq<string>)
    ensures |r| == |sections|
  {
    if sections == [] then []
    else if |sections| == 1 then [SectionText(sections[0]) + "\n"]
    else [SectionText(sections[0]) + "\n\n"] + ProviderPieces(sections[1..])
  }

  lemma {:induction false} ProviderFlat(sections: seq<Section>)
    requires sections != []
    ensures ProviderText(sections) + "\n" == Flat(ProviderPieces(sections))
  {
    var t := SectionText(sections[0]);
    if |sections| == 1 {
      assert [t + "\n"][1..] == [];
      assert (t + "\n") + "" == t + "\n";
    } else {
      ProviderFlat(sections[1..]);
      assert SectionTexts(sections)[1..] == SectionTexts(sections[1..]);
      assert ProviderPieces(sections)[1..] == ProviderPieces(sections[1..]);
      assert (t + "\n\n" + ProviderText(sections[1..])) + "\n" == (t + "\n\n") + (ProviderText(sections[1..]) + "\n");
    }
  }

  lemma {:induction false} NonSpace(x: string) returns (i: nat)
    requires Trim(x) != ""
    ensures i < |x| && !IsSpace(x[i])
  {
    if IsSpace(x[0]) {
      i := NonSpace(x[1..]);
      i := i + 1;
    } else {
      i := 0;
    }
  }

  /** A generated section, with any layout behind it, is a piece its name removes. */
  lemma SectionIsPiece(s: Section, w: string, names: seq<string>)
    requires PlainProvider(s) && s.name in names && '[' !in w
    ensures IsPiece(SectionText(s) + w) && HitAny(SectionText(s) + w, names)
  {
    var x := Join(EntryLines(s.config), "\n");
    EntriesPlain(s.config);
    assert s.config != [];
    var ls := [Mark(s.name)] + EntryLines(s.config);
    assert ls[1..] == EntryLines(s.config);
    assert SectionText(s) == Mark(s.name) + "\n" + x;
    var p := SectionText(s) + w;
    assert p[1..] == s.name + "]" + "\n" + x + w;
    var i := NonSpace(x);
    assert p[|s.name| + 3 + i] == x[i];
    TrimEndFacts(p);
    assert TrimEnd(p)[..|s.name| + 2] == p[..|s.name| + 2] == Mark(s.name);
    assert Hit(TrimEnd(p), s.name);
  }

  lemma {:induction false} ProviderPiecesHit(sections: seq<Section>, names: seq<string>)
    requires forall s <- sections :: PlainProvider(s) && s.name in names
    ensures AllHit(ProviderPieces(sections), names)
    ensures Trims(ProviderPieces(sections)) == Trims(SectionTexts(sections))
  {
    if sections != [] {
      var t := SectionText(sections[0]);
      TrimAppend(t, '\n');
      TrimAppend(t + "\n", '\n');
      assert t + "\n\n" == (t + "\n") + ['\n'];
      if |sections| == 1 {
        SectionIsPiece(sections[0], "\n", names);
        assert [t + "\n"][1..] == [];
      } else {
        SectionIsPiece(sections[0], "\n\n", names);
        ProviderPiecesHit(sections[1..], names);
        assert ProviderPieces(sections)[1..] == ProviderPieces(sections[1..]);
      }
    }
  }

  // ---- main results on replacement ----

  /** What the replacement writes: what cleaning left, then the new sections. */
  lemma ReplacedShape(content: string, sections: seq<Section>) returns (s: string)
    requires sections != [] && forall x <- sections :: PlainProvider(x)
    ensures Replaced(content, sections) == s + Flat(ProviderPieces(sections))
    ensures s == "" || s == Cleaned(content, Names(sections)) + ['\n'] + ['\n']
    ensures s == "" ==> Cleaned(content, Names(sections)) == ""
  {
    var cleaned := Cleaned(content, Names(sections));
    ProviderFlat(sections);
    assert ProviderText(sections) != "" by {
      var t := SectionTexts(sections)[0];
      var ls := [Mark(sections[0].name)] + EntryLines(sections[0].config);
      assert ls[0] == Mark(sections[0].name);
      assert t == SectionText(sections[0]) && |t| >= 2;
    }
    if cleaned == "" {
      s := "";
      assert s + Flat(ProviderPieces(sections)) == Flat(ProviderPieces(sections));
    } else {
      s := cleaned + ['\n'] + ['\n'];
      assert (cleaned + "\n\n" + ProviderText(sections)) + "\n" == s + (ProviderText(sections) + "\n");
    }
  }

  lemma NamesIn(sections: seq<Section>)
    ensures forall s <- sections :: s.name in Names(sections)
    ensures forall n <- Names(sections) :: exists s :: s in sections && s.name == n
  {
    forall s | s in sections ensures s.name in Names(sections) {
      var i :| 0 <= i < |sections| && sections[i] == s;
      assert Names(sections)[i] == s.name;
    }
    forall n | n in Names(sections) ensures exists s :: s in sections && s.name == n {
      var i :| 0 <= i < |Names(sections)| && Names(sections)[i] == n;
      assert sections[i] in sections;
    }
  }

  lemma GlueAtBreak(r: seq<string>, ps: seq<string>)
    requires |r| >= 1
    ensures Glue(r, [""] + ps) == r + ps
  {
    assert r[|r| - 1] + "" == r[|r| - 1];
    assert r == r[..|r| - 1] + [r[|r| - 1]];
    assert ([""] + ps)[1..] == ps;
  }

  lemma PiecesBehind(s: string, ps: seq<string>)
    requires forall p <- ps :: IsPiece(p)
    ensures Sections(s + Flat(ps)) == Sections(s) + Trims(ps)
  {
    PiecesOfFlat("", ps);
    assert "" + Flat(ps) == Flat(ps);
    PiecesConcat(s, Flat(ps));
    GlueAtBreak(Pieces(s), ps);
    TrimsConcat(Pieces(s), ps);
  }

  lemma SameBefore(a: seq<string>, b: seq<string>, c: seq<string>)
    ensures a + c == b + c <==> a == b
  {
    if a + c == b + c {
      assert |a| == |b|;
      assert a == (a + c)[..|a|] == (b + c)[..|b|] == b;
    }
  }

  /** Replacement keeps the head of the file and every section whose name is not
      among the new ones, in order, and puts the new sections behind them, if and
      only if no old section of those names is missed. */
  lemma ReplacementKeepsOthersIff(content: string, sections: seq<Section>)
    requires sections != [] && forall x <- sections :: PlainProvider(x)
    ensures Sections(Replaced(content, sections)) ==
        [Sections(content)[0]] + Others(Sections(content)[1..], Names(sections)) + Trims(SectionTexts(sections))
      <==> !Blocked(Pieces(content)[1..], Names(sections))
  {
    var names := Names(sections);
    var cleaned := Cleaned(content, names);
    NamesIn(sections);
    CleanedSectionsIff(content, names);
    var s := ReplacedShape(content, sections);
    if s != "" {
      SectionsAppend(cleaned, '\n');
      SectionsAppend(cleaned + ['\n'], '\n');
    }
    assert Sections(s) == Sections(cleaned);
    ProviderPiecesHit(sections, names);
    AllHitPieces(ProviderPieces(sections), names);
    PiecesBehind(s, ProviderPieces(sections));
    SameBefore(Sections(cleaned), [Sections(content)[0]] + Others(Sections(content)[1..], names), Trims(SectionTexts(sections)));
  }

  // ---- replacing twice ----

  /** The last section the first cleaning keeps bears one of the names: a missed
      piece with everything behind it gone. */
  predicate EndsMissed(ps: seq<string>, names: seq<string>) {
    var kept := Kept(ps, names);
    kept != [] && PassOf(kept[|kept| - 1], names) < |names|
  }

  lemma {:induction false} KeptIn(ps: seq<string>, names: seq<string>)
    ensures forall p <- Kept(ps, names) :: p in ps
    ensures forall p <- Kept(ps, names) :: PassOf(p, names) < |names| ==> TrimEnd(p) == TrimEnd(Mark(names[PassOf(p, names)]))
  {
    if ps != [] {
      KeptIn(ps[1..], names);
    }
  }

  /** The last piece of a trimmed text ends with the text. */
  lemma LastPieceTrimmed(s: string)
    requires Trim(s) == s && |Pieces(s)| > 1
    ensures var z := Pieces(s)[|Pieces(s)| - 1]; TrimEnd(z) == z && IsPiece(z)
  {
    var own := Pieces(s)[1..];
    PiecesShape(s);
    TrimmedPieces(s);
    LastOfTrimmed(own);
    assert own[|own| - 1] in own;
    TrimEndPiece(own[|own| - 1]);
  }

  lemma {:induction false} LastOfTrimmed(ps: seq<string>)
    requires ps != []
    ensures LastTrimmed(ps)[|ps| - 1] == TrimEnd(ps[|ps| - 1])
  {
    if |ps| > 1 {
      LastOfTrimmed(ps[1..]);
    }
  }

  /** The last piece of a cleaned text is bare and of one of the names exactly when
      the cleaning ends in a missed piece. */
  lemma CleanedEnds(content: string, names: seq<string>)
    requires names != [] && forall n <- names :: PlainName(n)
    ensures var ps := Pieces(Cleaned(content, names));
      if EndsMissed(Pieces(content)[1..], names)
      then |ps| > 1 && exists n <- names :: ps[|ps| - 1] == Mark(n)
      else |ps| > 1 ==> forall n <- names :: !Named(ps[|ps| - 1], n)
  {
    var c, own := Cleaned(content, names), Pieces(content)[1..];
    var ps, kept := Pieces(c), Kept(own, names);
    CleanedIsTrimmed(content, names);
    CleanedKeeps(content, names);
    PiecesShape(content);
    KeptIn(own, names);
    assert |Sections(c)| == |ps| && |Trims(kept)| == |kept|;
    if |ps| > 1 {
      var z, q := ps[|ps| - 1], kept[|kept| - 1];
      LastPieceTrimmed(c);
      assert Sections(c)[|ps| - 1] == Trims(kept)[|kept| - 1];
      TrimsAt(ps, |ps| - 1);
      TrimsAt(kept, |kept| - 1);
      assert q in own && IsPiece(q);
      LastKept(z, q, names);
    }
  }

  lemma {:induction false} TrimsAt(ps: seq<string>, i: nat)
    requires i < |ps|
    ensures Trims(ps)[i] == Trim(ps[i])
  {
    if i > 0 {
      TrimsAt(ps[1..], i - 1);
    }
  }

  lemma LastKept(z: string, q: string, names: seq<string>)
    requires IsPiece(z) && IsPiece(q) && TrimEnd(z) == z && Trim(z) == Trim(q) && forall n <- names :: PlainName(n)
    requires PassOf(q, names) < |names| ==> TrimEnd(q) == TrimEnd(Mark(names[PassOf(q, names)]))
    ensures if PassOf(q, names) < |names| then exists n <- names :: z == Mark(n) else forall n <- names :: !Named(z, n)
  {
    assert TrimStart(z) == z && TrimStart(q) == q;
    assert z == TrimEnd(q);
    if PassOf(q, names) < |names| {
      MarkTrimmed(names[PassOf(q, names)]);
      assert names[PassOf(q, names)] in names;
    } else {
      PassOfTrimmed(q, names);
      NoneNamed(z, names);
    }
  }

  lemma {:induction false} NoneNamed(p: string, names: seq<string>)
    requires PassOf(p, names) == |names|
    ensures forall n <- names :: !Named(p, n)
  {
    if names != [] {
      NoneNamed(p, names[1..]);
    }
  }

  /** Layout behind a cleaned text leaves nothing to remove, unless the text ends in a
      missed piece. */
  lemma LayoutNoHits(c: string, names: seq<string>)
    requires (forall n <- names :: PlainName(n)) && NoHits(c, names) && Trim(c) == c
    requires |Pieces(c)| > 1 ==> forall n <- names :: !Named(Pieces(c)[|Pieces(c)| - 1], n)
    ensures NoHits(c + ['\n'] + ['\n'], names)
  {
    var s := c + ['\n'] + ['\n'];
    LayoutPieces(c);
    if |Pieces(c)| > 1 {
      var ps := Pieces(c);
      var z, q := ps[|ps| - 1], ps[|ps| - 1] + "\n\n";
      LastPieceTrimmed(c);
      forall n | n in names ensures NoHit(s, n) {
        assert NoHit(c, n);
        LayoutKeepsName(z, n);
        forall p | p in Pieces(s)[1..] ensures !Hit(p, n) {
          assert p == q || p in ps[1..];
        }
      }
    }
  }

  lemma LayoutKeepsName(z: string, n: string)
    requires IsPiece(z) && TrimEnd(z) == z && PlainName(n)
    ensures IsPiece(z + "\n\n") && TrimEnd(z + "\n\n") == z
    ensures Named(z + "\n\n", n) <==> Named(z, n)
  {
    assert z + "\n\n" == (z + ['\n']) + ['\n'];
    TrimEndAppend(z, '\n');
    TrimEndAppend(z + ['\n'], '\n');
    assert (z + "\n\n")[1..] == z[1..] + "\n\n";
    NamedTrimmed(z + "\n\n", n);
  }

  lemma LayoutPieces(c: string)
    ensures var ps, layout := Pieces(c), Pieces(c + ['\n'] + ['\n']);
      layout == ps[..|ps| - 1] + [ps[|ps| - 1] + "\n\n"]
  {
    assert c + ['\n'] + ['\n'] == c + "\n\n";
    PiecesOfPlain("\n\n");
    PiecesConcat(c, "\n\n");
    GlueOne(Pieces(c), "\n\n");
  }

  lemma GlueOne(ps: seq<string>, w: string)
    requires |ps| >= 1
    ensures Glue(ps, [w]) == ps[..|ps| - 1] + [ps[|ps| - 1] + w]
  {}

  lemma {:induction false} KeptConcat(a: seq<string>, b: seq<string>, names: seq<string>)
    ensures |Kept(a + b, names)| <= |a| + |Kept(b, names)|
  {
    if a == [] {
      assert a + b == b;
    } else {
      assert (a + b)[0] == a[0] && (a + b)[1..] == a[1..] + b;
      KeptConcat(a[1..], b, names);
    }
  }

  lemma HitAnyIsGone(p: string, behind: seq<string>, names: seq<string>)
    requires IsPiece(p) && HitAny(p, names) && forall n <- names :: PlainName(n)
    ensures !Stays(p, behind, names)
  {
    var n :| n in names && Hit(TrimEnd(p), n);
    NamedTrimmed(p, n);
    PassOfMark(p, n, names);
    TrimEndFacts(p);
  }

  lemma {:induction false} AllHitIsGone(ps: seq<string>, names: seq<string>)
    requires AllHit(ps, names) && forall n <- names :: PlainName(n)
    ensures Kept(ps, names) == []
  {
    if ps != [] {
      HitAnyIsGone(ps[0], ps[1..], names);
      AllHitIsGone(ps[1..], names);
    }
  }

  lemma {:induction false} GoneAt(ps: seq<string>, names: seq<string>, k: nat, p: string)
    requires GoneBefore(ps, names, k) && p in ps
    ensures PassOf(p, names) < k
  {
    if p != ps[0] {
      assert p in ps[1..];
      GoneAt(ps[1..], names, k, p);
    }
  }

  lemma {:induction false} ProviderNamed(sections: seq<Section>, x: Section) returns (p: string)
    requires x in sections && forall y <- sections :: PlainProvider(y)
    ensures p in ProviderPieces(sections) && Named(p, x.name)
  {
    if x == sections[0] {
      p := ProviderPieces(sections)[0];
      SectionIsPiece(x, if |sections| == 1 then "\n" else "\n\n", [x.name]);
      SectionHasMark(x, if |sections| == 1 then "\n" else "\n\n");
    } else {
      assert x in sections[1..];
      p := ProviderNamed(sections[1..], x);
      assert ProviderPieces(sections)[1..] == ProviderPieces(sections[1..]);
    }
  }

  lemma SectionHasMark(x: Section, w: string)
    ensures Named(SectionText(x) + w, x.name)
  {
    var ls := [Mark(x.name)] + EntryLines(x.config);
    assert ls[0] == Mark(x.name);
    assert SectionText(x)[..|x.name| + 2] == Mark(x.name);
    assert (SectionText(x) + w)[..|x.name| + 2] == SectionText(x)[..|x.name| + 2];
  }

  /** A bare piece that has layout and the new sections behind it is not missed the
      second time. */
  lemma BareGoesTheSecondTime(b: string, sections: seq<Section>)
    requires (forall x <- sections :: PlainProvider(x)) && b in Names(sections)
    ensures !Stays(Mark(b) + "\n\n", ProviderPieces(sections), Names(sections))
  {
    var names, q := Names(sections), Mark(b) + "\n\n";
    NamesIn(sections);
    var x :| x in sections && x.name == b;
    var p := ProviderNamed(sections, x);
    assert PlainName(b);
    assert q[..|b| + 2] == Mark(b);
    PassOfMark(q, b, names);
    PassOfMark(p, b, names);
    if GoneBefore(ProviderPieces(sections), names, PassOf(q, names)) {
      GoneAt(ProviderPieces(sections), names, PassOf(q, names), p);
    }
    assert |q| == |b| + 4;
  }

  lemma SameCleaned(a: string, b: string, sections: seq<Section>)
    requires sections != [] && forall x <- sections :: PlainProvider(x)
    requires Replaced(a, sections) == Replaced(b, sections)
    ensures Cleaned(a, Names(sections)) == Cleaned(b, Names(sections))
  {
    var s := ReplacedShape(a, sections);
    var t := ReplacedShape(b, sections);
    var g := Flat(ProviderPieces(sections));
    assert |s| == |t|;
    assert s == (s + g)[..|s|] == (t + g)[..|t|] == t;
    var ca, cb := Cleaned(a, Names(sections)), Cleaned(b, Names(sections));
    if s != "" {
      assert ca == (ca + ['\n'] + ['\n'])[..|s| - 2] == cb;
    }
  }

  /** The pieces of a replaced file: those cleaning left, then the new ones. */
  lemma ReplacedPieces(s: string, ps: seq<string>)
    requires forall p <- ps :: IsPiece(p)
    ensures Pieces(s + Flat(ps)) == Pieces(s) + ps
  {
    PiecesOfFlat("", ps);
    assert "" + Flat(ps) == Flat(ps);
    PiecesConcat(s, Flat(ps));
    GlueAtBreak(Pieces(s), ps);
  }

  /** The second replacement removes a missed piece at the end of the first one's
      text, so that less is left. */
  lemma SecondCleaningTakesMore(content: string, sections: seq<Section>)
    requires sections != [] && forall x <- sections :: PlainProvider(x)
    requires EndsMissed(Pieces(content)[1..], Names(sections))
    ensures Cleaned(Replaced(content, sections), Names(sections)) != Cleaned(content, Names(sections))
  {
    var names, gen := Names(sections), ProviderPieces(sections);
    var c := Cleaned(content, names);
    var s := ReplacedShape(content, sections);
    NamesIn(sections);
    CleanedEnds(content, names);
    var ps := Pieces(c);
    var b :| b in names && ps[|ps| - 1] == Mark(b);
    LayoutPieces(c);
    ProviderPiecesHit(sections, names);
    AllHitPieces(gen, names);
    ReplacedPieces(s, gen);
    var init, q := ps[1..|ps| - 1], Mark(b) + "\n\n";
    SplitEnd(ps, q, gen);
    KeptConcat(init, [q] + gen, names);
    NothingKept(b, sections);
    CleanedKeeps(Replaced(content, sections), names);
    assert |Sections(Cleaned(Replaced(content, sections), names))| <= |ps| - 1;
    assert |Sections(c)| == |ps|;
  }

  lemma SplitEnd(ps: seq<string>, q: string, gen: seq<string>)
    requires |ps| > 1
    ensures ((ps[..|ps| - 1] + [q]) + gen)[1..] == ps[1..|ps| - 1] + ([q] + gen)
  {}

  lemma NothingKept(b: string, sections: seq<Section>)
    requires (forall x <- sections :: PlainProvider(x)) && b in Names(sections)
    ensures Kept([Mark(b) + "\n\n"] + ProviderPieces(sections), Names(sections)) == []
  {
    var gen, names := ProviderPieces(sections), Names(sections);
    NamesIn(sections);
    ProviderPiecesHit(sections, names);
    BareGoesTheSecondTime(b, sections);
    AllHitIsGone(gen, names);
    assert ([Mark(b) + "\n\n"] + gen)[1..] == gen;
  }

  lemma CleaningTwice(content: string, sections: seq<Section>)
    requires sections != [] && forall x <- sections :: PlainProvider(x)
    requires !EndsMissed(Pieces(content)[1..], Names(sections))
    ensures Cleaned(Replaced(content, sections), Names(sections)) == Cleaned(content, Names(sections))
  {
    var names := Names(sections);
    var c := Cleaned(content, names);
    var s := ReplacedShape(content, sections);
    NamesIn(sections);
    CleanedEnds(content, names);
    CleanedNoHits(content, names);
    CleanedIsTrimmed(content, names);
    if s != "" {
      LayoutNoHits(c, names);
      TrimAppend(c, '\n');
      TrimAppend(c + ['\n'], '\n');
    }
    assert Trim(s) == c;
    ProviderPiecesHit(sections, names);
    CleanedStrips(s, ProviderPieces(sections), names);
    CleanedIsTrimmed(Replaced(content, sections), names);
  }

  /** Replacing twice writes the same text as replacing once if and only if the first
      cleaning does not end in a missed section. */
  lemma ReplacingTwiceIsReplacingOnceIff(content: string, sections: seq<Section>)
    requires sections != [] && forall x <- sections :: PlainProvider(x)
    ensures Replaced(Replaced(content, sections), sections) == Replaced(content, sections) <==>
      !EndsMissed(Pieces(content)[1..], Names(sections))
  {
    if EndsMissed(Pieces(content)[1..], Names(sections)) {
      SecondCleaningTakesMore(content, sections);
      if Replaced(Replaced(content, sections), sections) == Replaced(content, sections) {
        SameCleaned(Replaced(content, sections), content, sections);
      }
    } else {
      CleaningTwice(content, sections);
    }
  }

  // ---- a family of files with a missed section ----

  lemma MarkedPiece(name: string, w: string)
    requires PlainName(name) && '[' !in w
    ensures IsPiece(Mark(name) + w)
    ensures Hit(Mark(name) + w, name) <==> w != ""
  {
    assert (Mark(name) + w)[1..] == name + "]" + w;
    StartsWithConcat(Mark(name), w);
  }

  lemma CleanedTwo(s: string, a: string, b: string)
    ensures Cleaned(s, [a, b]) == Trim(CutSection(Trim(CutSection(s, a)), b))
  {
    assert [a, b][1..] == [b] && [b][1..] == [];
    var s1 := Trim(CutSection(s, a));
    assert Cleaned(s1, [b]) == Cleaned(Trim(CutSection(s1, b)), []);
  }

  /** A text that is one piece is removed as a whole or not at all. */
  lemma CutLone(p: string, name: string)
    requires IsPiece(p) && '[' !in name
    ensures CutSection(p, name) == if Hit(p, name) then "" else p
  {
    CutOnePiece(p, "", name);
    assert p + "" == p;
  }

  lemma {:induction false} TrimEndBlank(a: string, w: string)
    requires TrimEnd(w) == "" && a != "" && !IsSpace(a[|a| - 1])
    ensures TrimEnd(a + w) == a
  {
    if w == "" {
      assert a + w == a;
    } else {
      assert (a + w)[..|a + w| - 1] == a + w[..|w| - 1];
      TrimEndBlank(a, w[..|w| - 1]);
    }
  }

  lemma BlankEnd(w: string)
    ensures TrimEnd(w) == "" <==> Trim(w) == ""
  {
    TrimEndFacts(w);
    if TrimEnd(w) == "" && Trim(w) != "" {
      var i := NonSpace(w);
    }
    if TrimEnd(w) != "" {
      TrimStartKeeps(w, |TrimEnd(w)| - 1);
      TrimEndFacts(TrimStart(w));
    }
  }

  lemma {:induction false} TrimMarked(b: string, w: string)
    requires PlainName(b)
    ensures Trim(Mark(b) + w) == Mark(b) + TrimEnd(w)
    ensures TrimEnd(w) == "" <==> Trim(w) == ""
  {
    assert TrimStart(Mark(b) + w) == Mark(b) + w;
    BlankEnd(w);
    if TrimEnd(w) != "" {
      TrimEndPasses(Mark(b), w);
    } else {
      TrimEndBlank(Mark(b), w);
      assert Mark(b) + "" == Mark(b);
    }
  }

  /** The first pass trims the section, ... */
  lemma FirstPassTrims(a: string, b: string, w: string)
    requires PlainName(a) && PlainName(b) && a != b && '[' !in w
    ensures Trim(CutSection(Mark(b) + w, a)) == Mark(b) + TrimEnd(w)
  {
    MarkedPiece(b, w);
    OtherMark(b, w, a);
    CutLone(Mark(b) + w, a);
    TrimMarked(b, w);
  }

  /** ... and the second removes it, if anything is left behind its mark. */
  lemma SecondPassCuts(b: string, w: string)
    requires PlainName(b) && '[' !in w
    ensures CutSection(Mark(b) + w, b) == if w == "" then Mark(b) else ""
  {
    MarkedPiece(b, w);
    CutLone(Mark(b) + w, b);
    assert Mark(b) + "" == Mark(b);
  }

  /** Sections are missed in practice: a file that is one section `b` is emptied
      by the passes for `a` and `b` exactly when the section says something; a
      blank one is trimmed out of the pattern's reach by the first pass. */
  lemma BlankSectionSurvives(a: string, b: string, w: string)
    requires PlainName(a) && PlainName(b) && a != b && '[' !in w
    ensures Cleaned(Mark(b) + w, [a, b]) == if Trim(w) == "" then Mark(b) else ""
  {
    FirstPassTrims(a, b, w);
    TrimEndFacts(w);
    SecondPassCuts(b, TrimEnd(w));
    BlankEnd(w);
    MarkTrimmed(b);
    CleanedTwo(Mark(b) + w, a, b);
  }
}
