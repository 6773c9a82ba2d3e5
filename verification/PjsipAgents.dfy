/** What deleting an agent's section does to any file, line by line, whatever its line ends
    (src/utils/pjsip-writer.ts, deleteAgentFromPJSIP). */
module PjsipAgents {
  import opened Text
  import opened Dialplan
  import opened DialplanLaws
  import opened DialplanDeletion
  import opened Pjsip

  /** The carriage return at the end of a line, if there is one. */
  function CrOf(l: string): string {
    if l != "" && l[|l| - 1] == '\r' then "\r" else ""
  }

  /** The part of a line behind the first `m`. */
  function Behind(l: string, m: string): string
    requires Contains(l, m)
    decreases |l|
  {
    if StartsWith(l, m) then l[|m|..] else Behind(l[1..], m)
  }

  lemma {:induction false} BehindIsShorter(l: string, m: string)
    requires Contains(l, m) && m != ""
    ensures |Behind(l, m)| + |UpTo(l, m)| + |m| == |l|
    ensures UpTo(l, m) + m + Behind(l, m) == l
    decreases |l|
  {
    if StartsWith(l, m) {
      assert l == l[..|m|] + l[|m|..];
      assert "" + m + l[|m|..] == l;
    } else {
      BehindIsShorter(l[1..], m);
      assert l == [l[0]] + l[1..];
    }
  }

  /** Where a deletion stops that has come to the rest `w` of a line with `more` behind it:
      in front of the line break of the next line a bracket opens. What is left is the
      carriage return of that break, if it has one, and the lines from there on. */
  function Stop(w: string, more: seq<string>): (r: (string, seq<string>))
    ensures |r.1| <= |more|
    ensures r.0 == "" || r.0 == "\r"
    decreases more
  {
    if more == [] then ("", [])
    else if Opens(more[0]) then (CrOf(w), more)
    else Stop(more[0], more[1..])
  }

  function Prepend(k: string, ls: seq<string>): seq<string>
    requires ls != []
  {
    [k + ls[0]] + ls[1..]
  }

  /** The lines of a file without the sections of `name`. A mark inside a line takes the
      rest of it along, and a carriage return right in front of it; a mark that opens a line
      takes the line break in front of it. The lines behind it go up to the next one that a
      bracket opens. */
  function WithoutAgent(cur: string, more: seq<string>, name: string): (r: seq<string>)
    ensures r != []
    decreases |more|, |cur|
  {
    var m := Mark(name);
    if Contains(cur, m) then
      BehindIsShorter(cur, m);
      var stop := Stop(Behind(cur, m), more);
      Prepend(ChopCr(UpTo(cur, m)), WithoutAgent(stop.0, stop.1, name))
    else if more == [] then [cur]
    else if StartsWith(more[0], m) then
      var stop := Stop(more[0][|m|..], more[1..]);
      Prepend(ChopCr(cur), WithoutAgent(stop.0, stop.1, name))
    else [cur] + WithoutAgent(more[0], more[1..], name)
  }

  // ---- the deletion of one block ----

  lemma StopsHere(s: string)
    ensures StartsWith(s, "\n[") <==> |s| >= 2 && s[0] == '\n' && s[1] == '['
    ensures StartsWith(s, "\r\n[") <==> |s| >= 3 && s[0] == '\r' && s[1] == '\n' && s[2] == '['
  {
    StartsHeader(s);
    if |s| >= 3 {
      assert s[..3] == [s[0], s[1], s[2]];
    }
  }

  lemma TailShape(more: seq<string>)
    ensures more != [] ==> Tail(more) == "\n" + (more[0] + Tail(more[1..]))
    ensures more != [] ==> |Tail(more)| >= 1 && Tail(more)[0] == '\n' && Tail(more)[1..] == more[0] + Tail(more[1..])
    ensures Opens(if more == [] then "" else more[0]) <==> |Tail(more)| >= 2 && Tail(more)[1] == '['
    requires forall l <- more :: '\n' !in l
  {
    if more != [] {
      assert more == [more[0]] + more[1..];
      TailCons(more[0], more[1..]);
      var t := Tail(more);
      assert t[1..] == more[0] + Tail(more[1..]);
      if |t| >= 2 {
        assert t[1] == t[1..][0];
        if more[0] == "" {
          assert Tail(more[1..]) != "" ==> Tail(more[1..])[0] == '\n';
        }
      }
    }
  }

  lemma CrStops(more: seq<string>)
    requires forall l <- more :: '\n' !in l
    ensures SkipAgent("\r" + Tail(more)) ==
      if more != [] && Opens(more[0]) then "\r" + Tail(more) else SkipAgent(Tail(more))
  {
    var s := "\r" + Tail(more);
    StopsHere(s);
    TailShape(more);
    assert s[1..] == Tail(more);
    assert |s| >= 3 ==> s[1] == Tail(more)[0] && s[2] == Tail(more)[1];
  }

  lemma BreakStops(more: seq<string>)
    requires more != [] && Opens(more[0]) && forall l <- more :: '\n' !in l
    ensures SkipAgent(Tail(more)) == Tail(more)
  {
    StopsHere(Tail(more));
    TailShape(more);
  }

  lemma SkipChar(w: string, t: string)
    requires w != "" && w[0] != '\n' && (w[0] == '\r' ==> |w| > 1 && w[1] != '\n')
    ensures SkipAgent(w + t) == SkipAgent(w[1..] + t)
  {
    var s := w + t;
    StopsHere(s);
    assert s[1..] == w[1..] + t;
  }

  /** Skipping to the end of a line. */
  lemma {:induction false} SkipInLine(w: string, more: seq<string>)
    requires '\n' !in w && forall l <- more :: '\n' !in l
    ensures SkipAgent(w + Tail(more)) ==
      if more != [] && Opens(more[0]) then CrOf(w) + Tail(more) else SkipAgent(Tail(more))
  {
    if w == "" {
      assert "" + Tail(more) == Tail(more);
      if more != [] && Opens(more[0]) {
        BreakStops(more);
      }
    } else if w == "\r" {
      CrStops(more);
    } else {
      assert w[0] in w && forall c <- w[1..] :: c in w;
      assert |w| > 1 ==> w[1] in w;
      SkipChar(w, Tail(more));
      SkipInLine(w[1..], more);
    }
  }

  lemma {:induction false} SkipStops(w: string, more: seq<string>)
    requires '\n' !in w && forall l <- more :: '\n' !in l
    ensures SkipAgent(w + Tail(more)) == Stop(w, more).0 + Tail(Stop(w, more).1)
    decreases more
  {
    SkipInLine(w, more);
    if more != [] && !Opens(more[0]) {
      TailShape(more);
      StopsHere(Tail(more));
      SkipStops(more[0], more[1..]);
    }
  }

  // ---- the scan ----

  lemma JoinPrepend(k: string, ls: seq<string>)
    requires ls != []
    ensures Join(Prepend(k, ls), "\n") == k + Join(ls, "\n")
  {
    if |ls| > 1 {
      var rest := ls[1..];
      assert Prepend(k, ls)[1..] == rest;
      assert (k + ls[0]) + "\n" + Join(rest, "\n") == k + (ls[0] + "\n" + Join(rest, "\n"));
    }
  }

  lemma {:induction false} StopIsLines(w: string, more: seq<string>)
    requires forall l <- more :: '\n' !in l
    ensures '\n' !in Stop(w, more).0 && forall l <- Stop(w, more).1 :: '\n' !in l
    ensures forall l <- Stop(w, more).1 :: l in more
    decreases more
  {
    if more != [] && !Opens(more[0]) {
      StopIsLines(more[0], more[1..]);
    }
  }

  lemma EmptyFront(s: string)
    ensures "" + s == s
  {}

  lemma OpeningAtLf(t: string, name: string)
    ensures Opening("\n" + t, name) == if StartsWith(t, Mark(name)) then Some(|name| + 3) else None
  {
    assert ("\n" + t)[1..] == t;
    assert Mark(name)[0] == '[' && !StartsWith("\n" + t, Mark(name));
  }

  lemma OpeningAtCr(t: string, name: string)
    ensures Opening("\r" + t, name) ==
      if StartsWith(t, Mark(name)) then Some(|name| + 3)
      else if t != "" && t[0] == '\n' && StartsWith(t[1..], Mark(name)) then Some(|name| + 4)
      else None
  {
    var s := "\r" + t;
    assert s[1..] == t;
    assert Mark(name)[0] == '[' && !StartsWith(s, Mark(name));
    if t != "" {
      assert s[2..] == t[1..] && s[1] == t[0];
    }
  }

  lemma OpeningElsewhere(s: string, name: string)
    requires s == "" || (s[0] != '\n' && s[0] != '\r')
    ensures Opening(s, name) == if StartsWith(s, Mark(name)) then Some(|name| + 2) else None
  {}

  /** The pattern's match at the start of `cur`, the current line, with `more` behind it. */
  lemma OpeningHere(cur: string, more: seq<string>, name: string)
    requires '\n' !in name && '\n' !in cur && forall l <- more :: '\n' !in l
    ensures var m, open := Mark(name), Opening(cur + Tail(more), name);
      if StartsWith(cur, m) then open == Some(|m|)
      else if cur != "" && cur[0] == '\r' && StartsWith(cur[1..], m) then open == Some(|m| + 1)
      else if cur == "" && more != [] && StartsWith(more[0], m) then open == Some(|m| + 1)
      else if cur == "\r" && more != [] && StartsWith(more[0], m) then open == Some(|m| + 2)
      else open == None
  {
    assert '\n' !in Mark(name);
    if cur == "" {
      EmptyFront(Tail(more));
      OpeningBetween(more, name);
    } else if cur[0] == '\r' {
      OpeningCrLine(cur, more, name);
    } else {
      StartsInLine(cur, more, Mark(name));
      assert (cur + Tail(more))[0] == cur[0] && cur[0] in cur;
      OpeningElsewhere(cur + Tail(more), name);
    }
  }

  lemma OpeningBetween(more: seq<string>, name: string)
    requires '\n' !in Mark(name) && forall l <- more :: '\n' !in l
    ensures Opening(Tail(more), name) ==
      if more != [] && StartsWith(more[0], Mark(name)) then Some(|name| + 3) else None
  {
    if more == [] {
      OpeningElsewhere("", name);
    } else {
      TailShape(more);
      OpeningAtLf(more[0] + Tail(more[1..]), name);
      StartsInLine(more[0], more[1..], Mark(name));
    }
  }

  lemma OpeningCrLine(cur: string, more: seq<string>, name: string)
    requires '\n' !in Mark(name) && '\n' !in cur && cur != "" && cur[0] == '\r' && forall l <- more :: '\n' !in l
    ensures !StartsWith(cur, Mark(name))
    ensures Opening(cur + Tail(more), name) ==
      if StartsWith(cur[1..], Mark(name)) then Some(|name| + 3)
      else if cur == "\r" && more != [] && StartsWith(more[0], Mark(name)) then Some(|name| + 4)
      else None
  {
    var t := cur[1..] + Tail(more);
    assert Mark(name)[0] == '[';
    assert cur + Tail(more) == "\r" + t;
    OpeningAtCr(t, name);
    StartsInLine(cur[1..], more, Mark(name));
    if |cur| > 1 {
      assert t[0] == cur[1] && cur[1] in cur;
    } else {
      assert cur == "\r";
      EmptyFront(Tail(more));
      if more != [] {
        TailShape(more);
        StartsInLine(more[0], more[1..], Mark(name));
      }
    }
  }

  /** Scanning on past a character that is no match. */
  lemma StepOn(cur: string, more: seq<string>, name: string)
    requires '\n' !in name && '\n' !in cur && cur != "" && forall l <- more :: '\n' !in l
    requires Opening(cur + Tail(more), name) == None
    ensures WithoutAgent(cur, more, name) == Prepend([cur[0]], WithoutAgent(cur[1..], more, name))
  {
    var m := Mark(name);
    OpeningHere(cur, more, name);
    assert cur == [cur[0]] + cur[1..];
    assert !StartsWith(cur, m);
    if Contains(cur, m) {
      assert Behind(cur, m) == Behind(cur[1..], m);
      var k := UpTo(cur[1..], m);
      if k == "" {
        UpToEmpty(cur[1..], m);
      }
      ChopStep(cur[0], k);
      PrependTwice([cur[0]], ChopCr(k), WithoutAgent(Stop(Behind(cur, m), more).0, Stop(Behind(cur, m), more).1, name));
    } else if more != [] && StartsWith(more[0], m) {
      ChopStep(cur[0], cur[1..]);
      var stop := Stop(more[0][|m|..], more[1..]);
      PrependTwice([cur[0]], ChopCr(cur[1..]), WithoutAgent(stop.0, stop.1, name));
    }
  }

  lemma UpToEmpty(l: string, m: string)
    requires UpTo(l, m) == "" && Contains(l, m)
    ensures StartsWith(l, m)
  {}

  lemma ChopStep(c: char, k: string)
    requires k != "" || c != '\r'
    ensures ChopCr([c] + k) == [c] + ChopCr(k)
  {
    assert k != "" ==> ([c] + k)[..|k|] == [c] + k[..|k| - 1];
  }

  lemma PrependTwice(a: string, b: string, ls: seq<string>)
    requires ls != []
    ensures Prepend(a + b, ls) == Prepend(a, Prepend(b, ls))
  {
    assert (a + b) + ls[0] == a + (b + ls[0]);
  }

  lemma PrependNothing(ls: seq<string>)
    requires ls != []
    ensures Prepend("", ls) == ls
  {
    assert "" + ls[0] == ls[0];
  }

  lemma StepOverHere(cur: string, more: seq<string>, name: string)
    requires StartsWith(cur, Mark(name))
    ensures var stop := Stop(cur[|name| + 2..], more);
      WithoutAgent(cur, more, name) == WithoutAgent(stop.0, stop.1, name)
  {
    var stop := Stop(cur[|name| + 2..], more);
    PrependNothing(WithoutAgent(stop.0, stop.1, name));
  }

  lemma StepOverCr(cur: string, more: seq<string>, name: string)
    requires cur != "" && cur[0] == '\r' && StartsWith(cur[1..], Mark(name))
    ensures var stop := Stop(cur[|name| + 3..], more);
      WithoutAgent(cur, more, name) == WithoutAgent(stop.0, stop.1, name)
  {
    var m, stop := Mark(name), Stop(cur[|name| + 3..], more);
    assert m[0] == '[' && !StartsWith(cur, m);
    assert Behind(cur, m) == Behind(cur[1..], m) == cur[1..][|m|..] == cur[|name| + 3..];
    assert UpTo(cur[1..], m) == "" && UpTo(cur, m) == "\r";
    assert ChopCr("\r") == "";
    PrependNothing(WithoutAgent(stop.0, stop.1, name));
  }

  lemma {:induction false} NoneInside(l: string, m: string)
    requires m != "" && m[0] == '[' && '[' !in l
    ensures !Contains(l, m)
  {
    if l != "" {
      assert l[0] in l && forall c <- l[1..] :: c in l;
      NoneInside(l[1..], m);
    }
  }

  lemma StepOverBreak(cur: string, more: seq<string>, name: string)
    requires (cur == "" || cur == "\r") && more != [] && StartsWith(more[0], Mark(name))
    ensures var stop := Stop(more[0][|name| + 2..], more[1..]);
      WithoutAgent(cur, more, name) == WithoutAgent(stop.0, stop.1, name)
  {
    var m, stop := Mark(name), Stop(more[0][|name| + 2..], more[1..]);
    NoneInside(cur, m);
    assert ChopCr(cur) == "";
    PrependNothing(WithoutAgent(stop.0, stop.1, name));
  }

  /** The rest of the line behind a match, and the lines behind that. */
  function RestOf(cur: string, more: seq<string>, name: string): (string, seq<string>) {
    var m := Mark(name);
    if StartsWith(cur, m) then (cur[|m|..], more)
    else if cur != "" && cur[0] == '\r' && StartsWith(cur[1..], m) then (cur[|m| + 1..], more)
    else if more != [] && StartsWith(more[0], m) then (more[0][|m|..], more[1..])
    else ("", [])
  }

  lemma RestIsText(cur: string, more: seq<string>, name: string)
    requires '\n' !in name && '\n' !in cur && forall l <- more :: '\n' !in l
    requires Opening(cur + Tail(more), name).Some?
    ensures var s, n, rest := cur + Tail(more), Opening(cur + Tail(more), name).value, RestOf(cur, more, name);
      s[n..] == rest.0 + Tail(rest.1)
  {
    var m := Mark(name);
    OpeningHere(cur, more, name);
    if StartsWith(cur, m) {
      DropInside(cur, Tail(more), |m|);
    } else if cur != "" && cur[0] == '\r' && StartsWith(cur[1..], m) {
      DropInside(cur, Tail(more), |m| + 1);
    } else {
      TailShape(more);
      var t := more[0] + Tail(more[1..]);
      DropInside(more[0], Tail(more[1..]), |m|);
      DropBehind(Tail(more), 1, |m|);
      assert t[|m|..] == Tail(more)[1 + |m|..];
      if cur == "" {
        assert cur + Tail(more) == Tail(more);
      } else {
        DropBehind("\r" + Tail(more), 1, 1 + |m|);
        assert ("\r" + Tail(more))[1..] == Tail(more);
      }
    }
  }

  lemma DropInside(a: string, b: string, n: nat)
    requires n <= |a|
    ensures (a + b)[n..] == a[n..] + b
  {}

  lemma DropBehind(a: string, m: nat, n: nat)
    requires m + n <= |a|
    ensures a[m..][n..] == a[m + n..]
  {}

  /** A match: its block goes, and the scan goes on where the deletion stops. */
  lemma StepOver(cur: string, more: seq<string>, name: string)
    requires '\n' !in name && '\n' !in cur && forall l <- more :: '\n' !in l
    requires Opening(cur + Tail(more), name).Some?
    ensures var (w, rest) := RestOf(cur, more, name);
      && '\n' !in w && (forall l <- rest :: '\n' !in l)
      && |rest| <= |more| && (|rest| == |more| ==> |w| + 1 < |cur|)
      && WithoutAgent(cur, more, name) == WithoutAgent(Stop(w, rest).0, Stop(w, rest).1, name)
  {
    var m := Mark(name);
    OpeningHere(cur, more, name);
    if StartsWith(cur, m) {
      StepOverHere(cur, more, name);
    } else if cur != "" && cur[0] == '\r' && StartsWith(cur[1..], m) {
      StepOverCr(cur, more, name);
    } else {
      StepOverBreak(cur, more, name);
      assert forall c <- more[0][|m|..] :: c in more[0];
    }
  }

  lemma {:induction false} ScanIsWithout(cur: string, more: seq<string>, name: string)
    requires '\n' !in name && '\n' !in cur && forall l <- more :: '\n' !in l
    ensures CutAgent(cur + Tail(more), name) == Join(WithoutAgent(cur, more, name), "\n")
    decreases |more|, |cur|
  {
    var s := cur + Tail(more);
    if Opening(s, name).Some? {
      var n := Opening(s, name).value;
      StepOver(cur, more, name);
      RestIsText(cur, more, name);
      var (w, rest) := RestOf(cur, more, name);
      SkipStops(w, rest);
      StopIsLines(w, rest);
      ScanIsWithout(Stop(w, rest).0, Stop(w, rest).1, name);
    } else if cur != "" {
      StepOn(cur, more, name);
      assert s[1..] == cur[1..] + Tail(more) && s[0] == cur[0];
      assert forall c <- cur[1..] :: c in cur;
      ScanIsWithout(cur[1..], more, name);
      JoinPrepend([cur[0]], WithoutAgent(cur[1..], more, name));
    } else {
      ScanEmpty(more, name);
    }
  }

  lemma ScanEmpty(more: seq<string>, name: string)
    requires '\n' !in name && forall l <- more :: '\n' !in l
    requires Opening("" + Tail(more), name) == None
    ensures CutAgent("" + Tail(more), name) == Join(WithoutAgent("", more, name), "\n")
    decreases |more|, 0, 0
  {
    EmptyFront(Tail(more));
    if more == [] {
      NothingToScan(name);
    } else {
      OpeningBetween(more, name);
      TailShape(more);
      ScanIsWithout(more[0], more[1..], name);
      EmptyLineFirst(more, name);
      CutBreakOn(Tail(more), name);
    }
  }

  lemma NothingToScan(name: string)
    ensures CutAgent("", name) == "" && Join(WithoutAgent("", [], name), "\n") == ""
  {
    OpeningElsewhere("", name);
    NoneInside("", Mark(name));
  }

  lemma EmptyLineFirst(more: seq<string>, name: string)
    requires more != [] && !StartsWith(more[0], Mark(name))
    ensures Join(WithoutAgent("", more, name), "\n") == "\n" + Join(WithoutAgent(more[0], more[1..], name), "\n")
  {
    var ls := WithoutAgent(more[0], more[1..], name);
    NoneInside("", Mark(name));
    assert WithoutAgent("", more, name) == [""] + ls;
    JoinHead("", ls);
  }

  lemma CutBreakOn(s: string, name: string)
    requires s != "" && s[0] == '\n' && Opening(s, name) == None
    ensures CutAgent(s, name) == "\n" + CutAgent(s[1..], name)
  {}

  lemma {:induction false} WithoutAgentIsLines(cur: string, more: seq<string>, name: string)
    requires '\n' !in cur && forall l <- more :: '\n' !in l
    ensures forall l <- WithoutAgent(cur, more, name) :: '\n' !in l
    decreases |more|, |cur|
  {
    var m := Mark(name);
    if Contains(cur, m) {
      var w := Behind(cur, m);
      BehindIsShorter(cur, m);
      StopIsLines(w, more);
      WithoutAgentIsLines(Stop(w, more).0, Stop(w, more).1, name);
      assert forall c <- ChopCr(UpTo(cur, m)) :: c in cur;
    } else if more == [] {
    } else if StartsWith(more[0], m) {
      var w := more[0][|m|..];
      StopIsLines(w, more[1..]);
      WithoutAgentIsLines(Stop(w, more[1..]).0, Stop(w, more[1..]).1, name);
      assert forall c <- ChopCr(cur) :: c in cur;
    } else {
      WithoutAgentIsLines(more[0], more[1..], name);
    }
  }

  /** For every file the agent pattern works line by line as `WithoutAgent` says, on files
      with either kind of line ends, mixed ones, and marks in the middle of lines. */
  lemma CutAgentLines(file: string, name: string)
    requires '\n' !in name
    ensures Lines(CutAgent(file, name)) == WithoutAgent(Lines(file)[0], Lines(file)[1..], name)
  {
    var cur, more := Lines(file)[0], Lines(file)[1..];
    JoinLines(file);
    assert Lines(file) == [cur] + more;
    TailCons(cur, more);
    assert file == cur + Tail(more) by {
      if more != [] {
        JoinHead(cur, more);
        assert cur + "\n" + Join(more, "\n") == cur + Tail(more);
      } else {
        assert cur + "" == cur;
      }
    }
    ScanIsWithout(cur, more, name);
    WithoutAgentIsLines(cur, more, name);
    LinesJoin(WithoutAgent(cur, more, name));
  }
}
