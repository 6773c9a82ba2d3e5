/** Text files as strings: white space, trimming, splitting into lines, and the
    `Core` of a text, which is what remains when layout is forgotten. */
module Text {

  datatype Option<+T> = None | Some(value: T)

  /** The characters removed by `trim()` and matched by `\s`. */
  predicate IsSpace(c: char) {
    || c == ' ' || '\t' <= c <= '\r' || c == '\U{00A0}' || c == '\U{1680}'
    || '\U{2000}' <= c <= '\U{200A}' || c == '\U{2028}' || c == '\U{2029}'
    || c == '\U{202F}' || c == '\U{205F}' || c == '\U{3000}' || c == '\U{FEFF}'
  }

  /** The characters a regular-expression dot does not match. */
  predicate IsLineTerminator(c: char) {
    c == '\n' || c == '\r' || c == '\U{2028}' || c == '\U{2029}'
  }

  function TrimStart(s: string): string {
    if s != "" && IsSpace(s[0]) then TrimStart(s[1..]) else s
  }

  function TrimEnd(s: string): string {
    if s != "" && IsSpace(s[|s| - 1]) then TrimEnd(s[..|s| - 1]) else s
  }

  function Trim(s: string): string {
    TrimEnd(TrimStart(s))
  }

  /** `p` occurs in `s` at position 0. */
  predicate StartsWith(s: string, p: string) {
    |p| <= |s| && s[..|p|] == p
  }

  /** `p` occurs somewhere in `s`. */
  predicate Contains(s: string, p: string) {
    StartsWith(s, p) || (s != "" && Contains(s[1..], p))
  }

  /** The pieces of `s` between line feeds; never empty. */
  function Lines(s: string): (r: seq<string>)
    ensures |r| >= 1
    ensures forall l <- r :: '\n' !in l
  {
    if s == "" then [""]
    else
      var r := Lines(s[1..]);
      if s[0] == '\n' then [""] + r else [[s[0]] + r[0]] + r[1..]
  }

  /** `ls.join(sep)` */
  function Join(ls: seq<string>, sep: string): string {
    if |ls| == 0 then "" else if |ls| == 1 then ls[0] else ls[0] + sep + Join(ls[1..], sep)
  }

  /** A line without the carriage return of its `\r\n` ending. */
  function ChopCr(l: string): string {
    if l != "" && l[|l| - 1] == '\r' then l[..|l| - 1] else l
  }

  function ChopCrs(ls: seq<string>): (r: seq<string>)
    ensures |r| == |ls|
  {
    if |ls| <= 1 then ls else [ChopCr(ls[0])] + ChopCrs(ls[1..])
  }

  /** `s.split(/\r?\n/)` */
  function SplitCrLf(s: string): (r: seq<string>)
    ensures |r| >= 1
  {
    ChopCrs(Lines(s))
  }

  /** The lines that say something, without the white space around them. */
  function CoreLines(ls: seq<string>): seq<string> {
    if ls == [] then []
    else (if Trim(ls[0]) == "" then [] else [Trim(ls[0])]) + CoreLines(ls[1..])
  }

  function Core(s: string): seq<string> {
    CoreLines(Lines(s))
  }

  /** The part of `s` in front of the first `c`, or all of it. */
  function Before(s: string, c: char): (r: string)
    ensures r <= s
    ensures c !in r && (|r| < |s| ==> s[|r|] == c)
  {
    if s == "" || s[0] == c then "" else [s[0]] + Before(s[1..], c)
  }

  function SplitAt(s: string, c: char): (r: seq<string>)
    ensures |r| >= 1
    decreases |s|
  {
    var first := Before(s, c);
    if |first| == |s| then [s] else [first] + SplitAt(s[|first| + 1..], c)
  }

  // ---- strings ----

  lemma ConcatTail(a: string, b: string)
    requires a != ""
    ensures (a + b)[0] == a[0] && (a + b)[1..] == a[1..] + b
  {}

  lemma HeadTail(l: string, r: string)
    requires l != ""
    ensures [l[0]] + (l[1..] + r) == l + r
  {}

  lemma StartsWithTail(s: string, p: string)
    requires p != ""
    ensures StartsWith(s, p) <==> s != "" && s[0] == p[0] && StartsWith(s[1..], p[1..])
  {
    if s != "" && |p| <= |s| {
      assert s[..|p|] == [s[0]] + s[1..][..|p| - 1];
      assert p == [p[0]] + p[1..];
    }
  }

  lemma StartsWithConcat(a: string, b: string)
    ensures StartsWith(a + b, a)
  {
    assert (a + b)[..|a|] == a;
  }

  lemma {:induction false} ContainsConcat(a: string, b: string, p: string)
    requires Contains(b, p)
    ensures Contains(a + b, p)
  {
    if a == "" {
      assert a + b == b;
    } else {
      ConcatTail(a, b);
      ContainsConcat(a[1..], b, p);
    }
  }

  lemma {:induction false} BeforeDelimiter(a: string, c: char, b: string)
    requires c !in a
    ensures Before(a + [c] + b, c) == a
  {
    var s := a + [c] + b;
    if a != "" {
      assert s[1..] == a[1..] + [c] + b;
      assert a[0] in a && forall x <- a[1..] :: x in a;
      BeforeDelimiter(a[1..], c, b);
    }
  }

  lemma {:induction false} BeforeAll(a: string, c: char)
    requires c !in a
    ensures Before(a, c) == a
  {
    if a != "" {
      assert a[0] in a && forall x <- a[1..] :: x in a;
      BeforeAll(a[1..], c);
    }
  }

  // ---- trimming ----

  lemma {:induction false} TrimEndAppend(s: string, w: char)
    requires IsSpace(w)
    ensures TrimEnd(s + [w]) == TrimEnd(s)
  {
    assert (s + [w])[..|s|] == s;
  }

  lemma {:induction false} TrimStartAppend(s: string, w: char)
    requires IsSpace(w)
    ensures TrimStart(s + [w]) == if TrimStart(s) == "" then "" else TrimStart(s) + [w]
  {
    if s == "" {
      assert s + [w] == [w] && [w][1..] == "";
    } else {
      ConcatTail(s, [w]);
      TrimStartAppend(s[1..], w);
    }
  }

  lemma TrimAppend(s: string, w: char)
    requires IsSpace(w)
    ensures Trim(s + [w]) == Trim(s)
  {
    TrimStartAppend(s, w);
    if TrimStart(s) != "" {
      TrimEndAppend(TrimStart(s), w);
    }
  }

  lemma TrimPrepend(s: string, w: char)
    requires IsSpace(w)
    ensures Trim([w] + s) == Trim(s)
  {
    assert ([w] + s)[1..] == s;
  }

  lemma {:induction false} TrimEndFacts(s: string)
    ensures TrimEnd(s) <= s
    ensures TrimEnd(s) == "" || !IsSpace(TrimEnd(s)[|TrimEnd(s)| - 1])
    ensures forall i :: |TrimEnd(s)| <= i < |s| ==> IsSpace(s[i])
  {
    if s != "" && IsSpace(s[|s| - 1]) {
      TrimEndFacts(s[..|s| - 1]);
    }
  }

  lemma {:induction false} TrimStartFacts(s: string)
    ensures |TrimStart(s)| <= |s| && TrimStart(s) == s[|s| - |TrimStart(s)|..]
    ensures TrimStart(s) == "" || !IsSpace(TrimStart(s)[0])
  {
    if s != "" && IsSpace(s[0]) {
      TrimStartFacts(s[1..]);
    }
  }

  /** A text with no white space at either end. */
  predicate IsTrimmed(s: string) {
    s == "" || (!IsSpace(s[0]) && !IsSpace(s[|s| - 1]))
  }

  lemma TrimIsTrimmed(s: string)
    ensures IsTrimmed(Trim(s))
  {
    TrimStartFacts(s);
    TrimEndFacts(TrimStart(s));
  }

  lemma TrimOfTrimmed(s: string)
    requires IsTrimmed(s)
    ensures Trim(s) == s
  {}

  lemma TrimKeeps(s: string, i: nat)
    requires i < |s| && !IsSpace(s[i])
    ensures Trim(s) != ""
  {
    TrimStartKeeps(s, i);
    var t := TrimStart(s);
    TrimEndFacts(t);
    assert !IsSpace(t[0]);
  }

  lemma {:induction false} TrimStartKeeps(s: string, i: nat)
    requires i < |s| && !IsSpace(s[i])
    ensures TrimStart(s) != "" && !IsSpace(TrimStart(s)[0])
  {
    if IsSpace(s[0]) {
      TrimStartKeeps(s[1..], i - 1);
    }
  }

  // ---- lines ----

  lemma JoinHead(x: string, ls: seq<string>)
    requires |ls| >= 1
    ensures Join([x] + ls, "\n") == x + "\n" + Join(ls, "\n")
  {
    assert ([x] + ls)[1..] == ls;
  }

  /** A character before the first line. */
  lemma JoinGrow(c: char, x: string, ls: seq<string>)
    ensures Join([[c] + x] + ls, "\n") == [c] + Join([x] + ls, "\n")
  {
    if ls != [] {
      JoinHead([c] + x, ls);
      JoinHead(x, ls);
      var rest := Join(ls, "\n");
      assert ([c] + x) + "\n" + rest == [c] + (x + "\n" + rest);
    }
  }

  lemma {:induction false} JoinLines(s: string)
    ensures Join(Lines(s), "\n") == s
  {
    if s != "" {
      JoinLines(s[1..]);
      var r := Lines(s[1..]);
      assert s == [s[0]] + s[1..];
      assert r == [r[0]] + r[1..];
      if s[0] == '\n' {
        JoinHead("", r);
        assert "" + "\n" + Join(r, "\n") == ['\n'] + s[1..];
      } else {
        JoinGrow(s[0], r[0], r[1..]);
      }
    }
  }

  lemma {:induction false} LinesOfLine(l: string)
    requires '\n' !in l
    ensures Lines(l) == [l]
  {
    if l != "" {
      assert l[0] in l;
      assert forall c <- l[1..] :: c in l;
      LinesOfLine(l[1..]);
      assert [l[0]] + l[1..] == l;
    }
  }

  /** Two lists of lines with the line at the seam run together. */
  function Glue(la: seq<string>, lb: seq<string>): seq<string>
    requires |la| >= 1 && |lb| >= 1
  {
    la[..|la| - 1] + [la[|la| - 1] + lb[0]] + lb[1..]
  }

  lemma GlueCons(x: string, la: seq<string>, lb: seq<string>)
    requires |la| >= 1 && |lb| >= 1
    ensures Glue([x] + la, lb) == [x] + Glue(la, lb)
  {
    var all := [x] + la;
    assert all[|all| - 1] == la[|la| - 1];
    assert all[..|all| - 1] == [x] + la[..|la| - 1];
  }

  lemma GluePrefix(c: char, la: seq<string>, lb: seq<string>)
    requires |la| >= 1 && |lb| >= 1
    ensures Glue([[c] + la[0]] + la[1..], lb) == [[c] + Glue(la, lb)[0]] + Glue(la, lb)[1..]
  {
    if |la| == 1 {
      assert [c] + (la[0] + lb[0]) == ([c] + la[0]) + lb[0];
    } else {
      GlueCons(la[0], la[1..], lb);
      assert [la[0]] + la[1..] == la;
      GlueCons([c] + la[0], la[1..], lb);
    }
  }

  /** Splitting a concatenation glues the two lines at the seam. */
  lemma {:induction false} LinesConcat(a: string, b: string)
    ensures Lines(a + b) == Glue(Lines(a), Lines(b))
  {
    if a == "" {
      assert a + b == b;
      assert "" + Lines(b)[0] == Lines(b)[0];
    } else {
      ConcatTail(a, b);
      LinesConcat(a[1..], b);
      if a[0] == '\n' {
        GlueCons("", Lines(a[1..]), Lines(b));
      } else {
        GluePrefix(a[0], Lines(a[1..]), Lines(b));
      }
    }
  }

  lemma LinesSnoc(a: string, l: string, b: string)
    requires '\n' !in l
    ensures Lines(l + "\n" + b) == [l] + Lines(b)
    ensures Lines(a + "\n" + b) == Lines(a) + Lines(b)
  {
    LinesBreak(l, b);
    LinesBreak(a, b);
    LinesOfLine(l);
  }

  lemma LinesBreak(a: string, b: string)
    ensures Lines(a + "\n" + b) == Lines(a) + Lines(b)
  {
    var la, lb := Lines(a), Lines(b);
    var nb := "\n" + b;
    assert nb[0] == '\n' && nb[1..] == b;
    assert Lines(nb) == [""] + lb;
    LinesConcat(a, nb);
    assert a + "\n" + b == a + nb;
    assert la[|la| - 1] + "" == la[|la| - 1];
    assert la == la[..|la| - 1] + [la[|la| - 1]];
    assert ([""] + lb)[1..] == lb;
  }

  lemma {:induction false} LinesJoin(ls: seq<string>)
    requires |ls| >= 1 && forall l <- ls :: '\n' !in l
    ensures Lines(Join(ls, "\n")) == ls
  {
    if |ls| == 1 {
      LinesOfLine(ls[0]);
    } else {
      LinesJoin(ls[1..]);
      LinesBreak(ls[0], Join(ls[1..], "\n"));
      LinesOfLine(ls[0]);
    }
  }

  lemma {:induction false} CoreLinesConcat(a: seq<string>, b: seq<string>)
    ensures CoreLines(a + b) == CoreLines(a) + CoreLines(b)
  {
    if a == [] {
      assert a + b == b;
    } else {
      assert (a + b)[1..] == a[1..] + b;
      CoreLinesConcat(a[1..], b);
    }
  }

  lemma CoreBreak(a: string, b: string)
    ensures Core(a + "\n" + b) == Core(a) + Core(b)
  {
    LinesBreak(a, b);
    CoreLinesConcat(Lines(a), Lines(b));
  }

  /** Carriage returns at line ends are layout. */
  lemma {:induction false} CoreChopCrs(ls: seq<string>)
    ensures CoreLines(ChopCrs(ls)) == CoreLines(ls)
  {
    if |ls| > 1 {
      CoreChopCrs(ls[1..]);
      var l := ls[0];
      if ChopCr(l) != l {
        assert l == ChopCr(l) + ['\r'];
        TrimAppend(ChopCr(l), '\r');
      }
    }
  }

  lemma CorePrepend(s: string, w: char)
    requires IsSpace(w)
    ensures Core([w] + s) == Core(s)
  {
    assert ([w] + s)[1..] == s;
    var r := Lines(s);
    if w != '\n' {
      TrimPrepend(r[0], w);
      assert Lines([w] + s)[1..] == r[1..];
    }
  }

  lemma CoreSnoc(init: seq<string>, last: string)
    ensures CoreLines(init + [last]) == CoreLines(init) + CoreLines([last])
    ensures CoreLines([last]) == if Trim(last) == "" then [] else [Trim(last)]
  {
    CoreLinesConcat(init, [last]);
    assert [last][1..] == [];
  }

  lemma CoreAppend(s: string, w: char)
    requires IsSpace(w)
    ensures Core(s + [w]) == Core(s)
  {
    var r := Lines(s);
    var init, last := r[..|r| - 1], r[|r| - 1];
    LinesConcat(s, [w]);
    assert [w][1..] == "";
    if w == '\n' {
      assert Lines([w]) == ["", ""];
      assert last + "" == last;
      assert Lines(s + [w]) == r + [""];
      CoreSnoc(r, "");
    } else {
      LinesOfLine([w]);
      assert Lines(s + [w]) == init + [last + [w]];
      assert r == init + [last];
      CoreSnoc(init, last);
      CoreSnoc(init, last + [w]);
      TrimAppend(last, w);
    }
  }

  lemma {:induction false} CoreTrimStart(s: string)
    ensures Core(TrimStart(s)) == Core(s)
  {
    if s != "" && IsSpace(s[0]) {
      CoreTrimStart(s[1..]);
      CorePrepend(s[1..], s[0]);
      assert [s[0]] + s[1..] == s;
    }
  }

  lemma {:induction false} CoreTrimEnd(s: string)
    ensures Core(TrimEnd(s)) == Core(s)
  {
    if s != "" && IsSpace(s[|s| - 1]) {
      CoreTrimEnd(s[..|s| - 1]);
      CoreAppend(s[..|s| - 1], s[|s| - 1]);
      assert s[..|s| - 1] + [s[|s| - 1]] == s;
    }
  }

  /** Trimming a file and ending it with a line feed changes layout only. */
  lemma CoreTrim(s: string)
    ensures Core(Trim(s)) == Core(s)
    ensures Core(Trim(s) + "\n") == Core(s)
  {
    CoreTrimStart(s);
    CoreTrimEnd(TrimStart(s));
    CoreAppend(Trim(s), '\n');
  }
}
