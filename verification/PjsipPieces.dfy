/** A section file as a head and the pieces that start at brackets, and what the
    replacement's passes do to them. */
module PjsipPieces {
  import opened Text
  import opened Dialplan
  import opened DialplanLaws
  import opened Pjsip
  import opened PjsipLaws

  /** The text before the first bracket, then the pieces that start with one. */
  function Pieces(s: string): (r: seq<string>)
    ensures |r| >= 1
  {
    if s == "" then [""]
    else
      var r := Pieces(s[1..]);
      var more := [[s[0]] + r[0]] + r[1..];
      if s[0] == '[' then [""] + more else more
  }

  /** The pieces without the white space around them. */
  function Trims(ps: seq<string>): (r: seq<string>)
    ensures |r| == |ps|
    ensures forall i :: 0 <= i < |r| ==> r[i] == Trim(ps[i])
  {
    if ps == [] then [] else [Trim(ps[0])] + Trims(ps[1..])
  }

  /** What a file says: its head and its sections, up to layout. */
  function Sections(s: string): (r: seq<string>)
    ensures |r| >= 1
  {
    Trims(Pieces(s))
  }

  lemma {:induction false} TrimsConcat(a: seq<string>, b: seq<string>)
    ensures Trims(a + b) == Trims(a) + Trims(b)
  {
    if a == [] {
      assert a + b == b;
    } else {
      assert (a + b)[1..] == a[1..] + b;
      TrimsConcat(a[1..], b);
    }
  }

  /** Cutting a concatenation glues the pieces at the seam. */
  lemma {:induction false} PiecesConcat(a: string, b: string)
    ensures Pieces(a + b) == Glue(Pieces(a), Pieces(b))
  {
    if a == "" {
      assert a + b == b;
      assert "" + Pieces(b)[0] == Pieces(b)[0];
    } else {
      ConcatTail(a, b);
      PiecesConcat(a[1..], b);
      var r := Pieces(a[1..]);
      GluePrefix(a[0], r, Pieces(b));
      if a[0] == '[' {
        GlueCons("", [[a[0]] + r[0]] + r[1..], Pieces(b));
      }
    }
  }

  lemma {:induction false} PiecesOfPlain(s: string)
    requires '[' !in s
    ensures Pieces(s) == [s]
  {
    if s != "" {
      assert s[0] in s;
      assert forall c <- s[1..] :: c in s;
      PiecesOfPlain(s[1..]);
      assert [s[0]] + s[1..] == s;
    }
  }

  lemma SectionsPrepend(s: string, w: char)
    requires IsSpace(w)
    ensures Sections([w] + s) == Sections(s)
  {
    assert ([w] + s)[1..] == s;
    TrimPrepend(Pieces(s)[0], w);
    assert Pieces([w] + s)[1..] == Pieces(s)[1..];
  }

  lemma SectionsAppend(s: string, w: char)
    requires IsSpace(w)
    ensures Sections(s + [w]) == Sections(s)
  {
    var r := Pieces(s);
    var last := r[|r| - 1];
    PiecesOfPlain([w]);
    PiecesConcat(s, [w]);
    TrimAppend(last, w);
    assert Glue(r, [[w]]) == r[..|r| - 1] + [last + [w]];
    assert r == r[..|r| - 1] + [last];
    TrimsConcat(r[..|r| - 1], [last]);
    TrimsConcat(r[..|r| - 1], [last + [w]]);
  }

  lemma {:induction false} SectionsTrimStart(s: string)
    ensures Sections(TrimStart(s)) == Sections(s)
  {
    if s != "" && IsSpace(s[0]) {
      SectionsTrimStart(s[1..]);
      SectionsPrepend(s[1..], s[0]);
      assert [s[0]] + s[1..] == s;
    }
  }

  lemma {:induction false} SectionsTrimEnd(s: string)
    ensures Sections(TrimEnd(s)) == Sections(s)
  {
    if s != "" && IsSpace(s[|s| - 1]) {
      SectionsTrimEnd(s[..|s| - 1]);
      SectionsAppend(s[..|s| - 1], s[|s| - 1]);
      assert s[..|s| - 1] + [s[|s| - 1]] == s;
    }
  }

  lemma SectionsTrim(s: string)
    ensures Sections(Trim(s)) == Sections(s)
  {
    SectionsTrimStart(s);
    SectionsTrimEnd(TrimStart(s));
  }

  // ---- cutting by pieces ----

  predicate IsPiece(p: string) {
    p != "" && p[0] == '[' && '[' !in p[1..]
  }

  function Flat(ps: seq<string>): string {
    if ps == [] then "" else ps[0] + Flat(ps[1..])
  }

  lemma {:induction false} PiecesShape(s: string)
    ensures '[' !in Pieces(s)[0]
    ensures forall p <- Pieces(s)[1..] :: IsPiece(p)
    ensures Flat(Pieces(s)) == s
  {
    if s != "" {
      PiecesShape(s[1..]);
      var r := Pieces(s[1..]);
      var first := [s[0]] + r[0];
      assert [s[0]] + (r[0] + Flat(r[1..])) == first + Flat(r[1..]);
      assert [s[0]] + s[1..] == s;
      if s[0] == '[' {
        assert first[1..] == r[0];
        assert Pieces(s)[1..] == [first] + r[1..];
        assert ([first] + r[1..])[1..] == r[1..];
        assert "" + Flat([first] + r[1..]) == Flat([first] + r[1..]);
      } else {
        assert Pieces(s)[1..] == r[1..];
      }
    }
  }

  lemma {:induction false} PiecesOfFlat(h: string, ps: seq<string>)
    requires '[' !in h && forall p <- ps :: IsPiece(p)
    ensures Pieces(h + Flat(ps)) == [h] + ps
    decreases |ps|
  {
    PiecesOfPlain(h);
    PiecesConcat(h, Flat(ps));
    if ps == [] {
      assert h + "" == h;
    } else {
      var p := ps[0];
      assert IsPiece(p);
      PiecesOfFlat(p[1..], ps[1..]);
      var s := Flat(ps);
      assert s[0] == '[' && s[1..] == p[1..] + Flat(ps[1..]);
      assert [s[0]] + p[1..] == p;
      assert ([p[1..]] + ps[1..])[1..] == ps[1..];
      assert Pieces(s) == [""] + [p] + ps[1..];
      assert [p] + ps[1..] == ps;
      assert h + "" == h;
    }
  }

  /** A piece the pattern for `name` removes. */
  predicate Hit(p: string, name: string) {
    StartsWith(p, Mark(name)) && |p| > |name| + 2
  }

  function Misses(ps: seq<string>, name: string): seq<string> {
    if ps == [] then [] else (if Hit(ps[0], name) then [] else [ps[0]]) + Misses(ps[1..], name)
  }

  lemma {:induction false} ToBracketSkips(w: string, r: string)
    requires '[' !in w && (r == "" || r[0] == '[')
    ensures ToBracket(w + r) == r
  {
    if w == "" {
      assert w + r == r;
    } else {
      ConcatTail(w, r);
      assert w[0] in w;
      assert forall c <- w[1..] :: c in w;
      ToBracketSkips(w[1..], r);
    }
  }

  lemma {:induction false} CutSectionCopies(h: string, r: string, name: string)
    requires '[' !in h
    ensures CutSection(h + r, name) == h + CutSection(r, name)
  {
    if h == "" {
      assert h + r == r;
    } else {
      ConcatTail(h, r);
      assert h[0] in h;
      assert forall c <- h[1..] :: c in h;
      StartsWithTail(h + r, Mark(name));
      CutSectionCopies(h[1..], r, name);
      HeadTail(h, CutSection(r, name));
    }
  }

  lemma MarkInPiece(p: string, r: string, name: string)
    requires IsPiece(p) && '[' !in name && (r == "" || r[0] == '[')
    ensures StartsWith(p + r, Mark(name)) <==> StartsWith(p, Mark(name))
  {
    var m, all := Mark(name), p + r;
    if StartsWith(all, m) {
      assert forall i :: 0 <= i < |m| ==> m[i] == all[..|m|][i];
      assert forall i :: 1 <= i < |m| ==> m[i] != '[';
      if r != "" {
        assert all[|p|] == '[';
      }
      assert |m| <= |p|;
      assert p[..|m|] == all[..|m|];
    }
    if StartsWith(p, m) {
      assert p[..|m|] == all[..|m|];
    }
  }

  lemma PieceTail(p: string, r: string, n: nat)
    requires IsPiece(p) && 0 < n < |p|
    ensures (p + r)[n..] == p[n..] + r
    ensures (p + r)[n] == p[n] && p[n] != '[' && '[' !in p[n..]
  {
    assert forall i :: n <= i < |p| ==> p[i] == p[1..][i - 1];
  }

  lemma CutHitPiece(p: string, r: string, name: string)
    requires IsPiece(p) && Hit(p, name) && StartsWith(p + r, Mark(name)) && (r == "" || r[0] == '[')
    ensures CutSection(p + r, name) == CutSection(r, name)
  {
    var n := |name| + 2;
    PieceTail(p, r, n);
    ToBracketSkips(p[n..], r);
    assert CutSection(p + r, name) == CutSection(ToBracket((p + r)[n..]), name);
  }

  lemma CutOtherPiece(p: string, r: string, name: string)
    requires IsPiece(p) && !Hit(p, name) && '[' !in name && (r == "" || r[0] == '[')
    requires StartsWith(p + r, Mark(name)) <==> StartsWith(p, Mark(name))
    ensures CutSection(p + r, name) == p + CutSection(r, name)
  {
    var all, n := p + r, |name| + 2;
    if StartsWith(all, Mark(name)) && n < |all| {
      assert all[n] == r[0];
    }
    assert CutSection(all, name) == [all[0]] + CutSection(all[1..], name);
    ConcatTail(p, r);
    CutSectionCopies(p[1..], r, name);
    HeadTail(p, CutSection(r, name));
  }

  lemma CutOnePiece(p: string, r: string, name: string)
    requires IsPiece(p) && '[' !in name && (r == "" || r[0] == '[')
    ensures CutSection(p + r, name) == if Hit(p, name) then CutSection(r, name) else p + CutSection(r, name)
  {
    MarkInPiece(p, r, name);
    if Hit(p, name) {
      CutHitPiece(p, r, name);
    } else {
      CutOtherPiece(p, r, name);
    }
  }

  lemma FlatStart(ps: seq<string>)
    requires forall p <- ps :: IsPiece(p)
    ensures Flat(ps) == "" || Flat(ps)[0] == '['
  {
    if ps != [] {
      assert IsPiece(ps[0]);
    }
  }

  lemma {:induction false} CutFlat(ps: seq<string>, name: string)
    requires '[' !in name && forall p <- ps :: IsPiece(p)
    ensures CutSection(Flat(ps), name) == Flat(Misses(ps, name))
  {
    if ps != [] {
      FlatStart(ps[1..]);
      CutOnePiece(ps[0], Flat(ps[1..]), name);
      CutFlat(ps[1..], name);
      if !Hit(ps[0], name) {
        assert Misses(ps, name)[1..] == Misses(ps[1..], name);
      } else {
        assert [] + Misses(ps[1..], name) == Misses(ps[1..], name);
      }
    }
  }

  lemma {:induction false} MissesIn(ps: seq<string>, name: string)
    ensures forall p <- Misses(ps, name) :: p in ps
  {
    if ps != [] {
      MissesIn(ps[1..], name);
    }
  }

  /** Cutting a name removes its pieces and keeps the head and the others. */
  lemma CutSectionPieces(s: string, name: string)
    requires '[' !in name
    ensures Pieces(CutSection(s, name)) == [Pieces(s)[0]] + Misses(Pieces(s)[1..], name)
  {
    var h, ps := Pieces(s)[0], Pieces(s)[1..];
    PiecesShape(s);
    assert s == h + Flat(ps);
    CutSectionCopies(h, Flat(ps), name);
    CutFlat(ps, name);
    MissesIn(ps, name);
    PiecesOfFlat(h, Misses(ps, name));
  }

  // ---- trimming pieces ----

  /** The pieces with the last one trimmed at its end. */
  function LastTrimmed(ps: seq<string>): (r: seq<string>)
    ensures |r| == |ps|
  {
    if ps == [] then [] else if |ps| == 1 then [TrimEnd(ps[0])] else [ps[0]] + LastTrimmed(ps[1..])
  }

  lemma TrimEndPiece(p: string)
    requires IsPiece(p)
    ensures IsPiece(TrimEnd(p)) && TrimEnd(TrimEnd(p)) == TrimEnd(p)
  {
    TrimEndFacts(p);
    assert TrimEnd(p)[1..] <= p[1..];
  }

  lemma {:induction false} LastTrimmedPieces(ps: seq<string>)
    requires forall p <- ps :: IsPiece(p)
    ensures forall p <- LastTrimmed(ps) :: IsPiece(p)
  {
    if |ps| == 1 {
      TrimEndPiece(ps[0]);
    } else if ps != [] {
      LastTrimmedPieces(ps[1..]);
    }
  }

  lemma {:induction false} TrimEndPasses(a: string, b: string)
    requires TrimEnd(b) != ""
    ensures TrimEnd(a + b) == a + TrimEnd(b)
  {
    if IsSpace(b[|b| - 1]) {
      assert (a + b)[..|a + b| - 1] == a + b[..|b| - 1];
      TrimEndPasses(a, b[..|b| - 1]);
    }
  }

  lemma {:induction false} TrimEndFlat(ps: seq<string>)
    requires ps != [] && forall p <- ps :: IsPiece(p)
    ensures TrimEnd(Flat(ps)) == Flat(LastTrimmed(ps)) && TrimEnd(Flat(ps)) != ""
  {
    assert IsPiece(ps[0]);
    if |ps| == 1 {
      TrimEndPiece(ps[0]);
      assert ps[0] + "" == ps[0];
      assert [TrimEnd(ps[0])][1..] == [];
      assert TrimEnd(ps[0]) + "" == TrimEnd(ps[0]);
    } else {
      TrimEndFlat(ps[1..]);
      TrimEndPasses(ps[0], Flat(ps[1..]));
      assert LastTrimmed(ps)[1..] == LastTrimmed(ps[1..]);
    }
  }

  lemma {:induction false} TrimStartPasses(s: string, r: string)
    requires r != "" && !IsSpace(r[0])
    ensures TrimStart(s + r) == TrimStart(s) + r
  {
    if s == "" {
      assert s + r == r;
      assert TrimStart(s) + r == r;
    } else {
      ConcatTail(s, r);
      TrimStartPasses(s[1..], r);
    }
  }

  lemma TrimBeforePieces(s: string, ps: seq<string>)
    requires ps != [] && forall p <- ps :: IsPiece(p)
    ensures Trim(s + Flat(ps)) == TrimStart(s) + Flat(LastTrimmed(ps))
  {
    assert IsPiece(ps[0]);
    FlatStart(ps);
    TrimStartPasses(s, Flat(ps));
    TrimEndFlat(ps);
    TrimEndPasses(TrimStart(s), Flat(ps));
  }

  lemma TrimOfTrimStart(s: string)
    ensures Trim(TrimStart(s)) == Trim(s)
    ensures Trim(Trim(s)) == Trim(s)
  {
    TrimStartFacts(s);
    TrimIsTrimmed(s);
    TrimOfTrimmed(Trim(s));
  }

  lemma NoBracketTrimmed(h: string)
    requires '[' !in h
    ensures '[' !in TrimStart(h) && '[' !in Trim(h)
  {
    TrimStartFacts(h);
    TrimEndFacts(TrimStart(h));
  }

  /** One pass of the replacement, at the level of pieces. */
  lemma PassPieces(s: string, name: string)
    requires '[' !in name
    ensures Pieces(Trim(CutSection(s, name)))[1..] == LastTrimmed(Misses(Pieces(s)[1..], name))
  {
    var c, h, ms := CutSection(s, name), Pieces(s)[0], Misses(Pieces(s)[1..], name);
    CutSectionPieces(s, name);
    PiecesShape(s);
    PiecesShape(c);
    MissesIn(Pieces(s)[1..], name);
    assert ([h] + ms)[1..] == ms;
    assert c == h + Flat(ms);
    if ms == [] {
      assert h + "" == h;
      NoBracketTrimmed(h);
      PiecesOfPlain(Trim(h));
    } else {
      TrimBeforePieces(h, ms);
      NoBracketTrimmed(h);
      LastTrimmedPieces(ms);
      PiecesOfFlat(TrimStart(h), LastTrimmed(ms));
      assert ([TrimStart(h)] + LastTrimmed(ms))[1..] == LastTrimmed(ms);
    }
  }

  // ---- names ----

  predicate Named(section: string, name: string) {
    StartsWith(section, Mark(name))
  }

  lemma NamedTrimmed(p: string, name: string)
    requires IsPiece(p) && PlainName(name)
    ensures Trim(p) == TrimEnd(p)
    ensures Named(p, name) <==> Named(TrimEnd(p), name)
  {
    TrimEndFacts(p);
    assert TrimStart(p) == p;
    var t, n := TrimEnd(p), |name| + 2;
    if StartsWith(p, Mark(name)) {
      assert p[n - 1] == p[..n][n - 1] == ']';
      assert |t| >= n;
      assert t[..n] == p[..n];
    }
    if StartsWith(t, Mark(name)) {
      assert t[..n] == p[..n];
    }
  }

  lemma NotNamed(p: string, name: string)
    requires !Hit(p, name) && p != Mark(name)
    ensures !Named(p, name)
  {
    if |p| == |name| + 2 {
      assert p[..|name| + 2] == p;
    }
  }

  lemma MarkTrimmed(name: string)
    ensures TrimEnd(Mark(name)) == Mark(name) && Trim(Mark(name)) == Mark(name)
  {
    assert Mark(name)[|name| + 1] == ']';
  }

  /** Only one name can stand in the mark of a piece. */
  lemma OneName(p: string, a: string, b: string)
    requires PlainName(a) && PlainName(b) && Named(p, a)
    ensures Named(p, b) <==> a == b
  {
    assert Mark(a) == p[..|a| + 2];
    if Named(p, b) {
      SameLength(p, a, b);
      SameLength(p, b, a);
      assert Mark(a) == Mark(b);
      assert a == Mark(a)[1..|a| + 1] && b == Mark(b)[1..|b| + 1];
    }
  }

  lemma SameLength(p: string, a: string, b: string)
    requires PlainName(b) && Named(p, a) && Named(p, b)
    ensures |a| >= |b|
  {
    assert p[|a| + 1] == p[..|a| + 2][|a| + 1] == ']';
    assert |a| + 1 < |b| + 2 ==> p[..|b| + 2][|a| + 1] == p[|a| + 1];
    InsideMark(b, |a|);
  }

  lemma InsideMark(name: string, i: nat)
    requires PlainName(name)
    ensures i < |name| ==> Mark(name)[i + 1] != ']'
  {
    if i < |name| {
      assert name[i] in name;
    }
  }
}
