/** The SIP message parser (src/debugger/sip/sip-listener/sip-parser.ts): the
    split of a message into start line, headers and body, section 7 of RFC 3261. */
module SipMessages {
  import opened Text

  datatype SipMessage = SipMessage(startLine: string, headers: map<string, string>, body: string)

  /** The position of the first colon, or the length of the line. */
  function ColonAt(line: string): (n: nat)
    ensures n <= |line| && ':' !in line[..n]
    ensures n < |line| ==> line[n] == ':'
  {
    if line == "" || line[0] == ':' then 0
    else
      var n := 1 + ColonAt(line[1..]);
      assert line[..n] == [line[0]] + line[1..][..n - 1];
      n
  }

  /** What one header line adds: a name before the first colon, the rest after it. */
  function AddHeader(headers: map<string, string>, line: string): map<string, string> {
    var n := ColonAt(line);
    if n == 0 || n == |line| then headers else headers[Trim(line[..n]) := Trim(line[n + 1..])]
  }

  /** The headers up to the first blank line, and the lines after it. */
  function Split(lines: seq<string>, headers: map<string, string>): (map<string, string>, seq<string>) {
    if lines == [] then (headers, [])
    else if Trim(lines[0]) == "" then (headers, lines[1..])
    else Split(lines[1..], AddHeader(headers, lines[0]))
  }

  function Parse(message: string): SipMessage {
    var lines := SplitCrLf(message);
    var (headers, rest) := Split(lines[1..], map[]);
    SipMessage(lines[0], headers, Join(rest, "\n"))
  }

  method ParseSipMessage(message: string) returns (r: SipMessage)
    ensures r == Parse(message)
  {
    var lines := SplitCrLf(message);
    var startLine := lines[0];
    var headers: map<string, string> := map[];
    var i := 1;
    while i < |lines|
      invariant 1 <= i <= |lines|
      invariant Split(lines[i..], headers) == Split(lines[1..], map[])
    {
      var line := lines[i];
      if Trim(line) == "" {
        break;
      }
      var n := ColonAt(line);
      if n > 0 && n < |line| {
        headers := headers[Trim(line[..n]) := Trim(line[n + 1..])];
      }
      assert lines[i..][1..] == lines[i + 1..];
      i := i + 1;
    }
    var rest := if i + 1 <= |lines| then lines[i + 1..] else [];
    assert i < |lines| ==> lines[i..][1..] == lines[i + 1..];
    return SipMessage(startLine, headers, Join(rest, "\n"));
  }

  // ---- rendering ----

  function HeaderLine(h: (string, string)): string {
    h.0 + ": " + h.1
  }

  function RenderHeaders(hs: seq<(string, string)>): string {
    if hs == [] then "" else HeaderLine(hs[0]) + "\r\n" + RenderHeaders(hs[1..])
  }

  function Render(startLine: string, hs: seq<(string, string)>, body: string): string {
    startLine + "\r\n" + (RenderHeaders(hs) + ("\r\n" + body))
  }

  /** Every CRLF of the text turned into LF. */
  function CrLfToLf(s: string): (r: string)
    ensures |r| <= |s|
  {
    if |s| < 2 then s
    else if s[0] == '\r' && s[1] == '\n' then "\n" + CrLfToLf(s[2..])
    else [s[0]] + CrLfToLf(s[1..])
  }

  predicate HasCrLf(s: string) {
    |s| >= 2 && ((s[0] == '\r' && s[1] == '\n') || HasCrLf(s[1..]))
  }

  /** A header the grammar of section 7.3 allows: a colon-free name on one line,
      neither part padded with white space. The parser itself can produce an
      empty name, so that is not excluded here. */
  predicate GoodHeader(h: (string, string)) {
    && IsTrimmed(h.0) && ':' !in h.0 && '\n' !in h.0
    && IsTrimmed(h.1) && '\n' !in h.1
  }

  predicate GoodHeaders(m: map<string, string>) {
    forall k <- m :: GoodHeader((k, m[k]))
  }

  /** The headers set one after another, a later one replacing an earlier one of
      the same name, and those without a name left out. */
  function Fold(acc: map<string, string>, hs: seq<(string, string)>): map<string, string>
    decreases hs
  {
    if hs == [] then acc
    else Fold(if hs[0].0 == "" then acc else acc[hs[0].0 := hs[0].1], hs[1..])
  }

  lemma SplitFirst(l: string, rest: string)
    requires '\n' !in l
    ensures SplitCrLf(l + "\r\n" + rest) == [l] + SplitCrLf(rest)
  {
    var x := l + "\r";
    assert l + "\r\n" + rest == x + "\n" + rest;
    LinesSnoc("", x, rest);
    assert ([x] + Lines(rest))[1..] == Lines(rest);
    assert x[..|x| - 1] == l;
  }

  /** The parser takes a rendered header line apart at its first colon. */
  lemma AddRendered(acc: map<string, string>, h: (string, string))
    requires GoodHeader(h)
    ensures AddHeader(acc, HeaderLine(h)) == if h.0 == "" then acc else acc[h.0 := h.1]
    ensures Trim(HeaderLine(h)) != ""
  {
    HeaderParts(h);
    var line := HeaderLine(h);
    TrimPrepend(h.1, ' ');
    TrimOfTrimmed(h.0);
    TrimOfTrimmed(h.1);
    TrimKeeps(line, |h.0|);
  }

  lemma HeaderParts(h: (string, string))
    requires ':' !in h.0
    ensures |HeaderLine(h)| == |h.0| + 2 + |h.1| && HeaderLine(h)[|h.0|] == ':'
    ensures ColonAt(HeaderLine(h)) == |h.0|
    ensures HeaderLine(h)[..|h.0|] == h.0 && HeaderLine(h)[|h.0| + 1..] == [' '] + h.1
  {
    assert HeaderLine(h) == h.0 + ":" + (" " + h.1);
    ColonOf(h.0, " " + h.1);
  }

  lemma {:induction false} ColonOf(name: string, rest: string)
    requires ':' !in name
    ensures ColonAt(name + ":" + rest) == |name|
  {
    var s := name + ":" + rest;
    if name != "" {
      assert s[1..] == name[1..] + ":" + rest;
      ColonOf(name[1..], rest);
    }
  }

  lemma {:induction false} SplitRendered(hs: seq<(string, string)>, body: string, acc: map<string, string>)
    requires forall h <- hs :: GoodHeader(h)
    ensures Split(SplitCrLf(RenderHeaders(hs) + ("\r\n" + body)), acc) == (Fold(acc, hs), SplitCrLf(body))
  {
    if hs == [] {
      assert "" + ("\r\n" + body) == "" + "\r\n" + body;
      SplitFirst("", body);
      assert ([""] + SplitCrLf(body))[1..] == SplitCrLf(body);
    } else {
      var more := RenderHeaders(hs[1..]) + ("\r\n" + body);
      assert RenderHeaders(hs) + ("\r\n" + body) == HeaderLine(hs[0]) + "\r\n" + more;
      assert GoodHeader(hs[0]);
      SplitFirst(HeaderLine(hs[0]), more);
      AddRendered(acc, hs[0]);
      SplitRendered(hs[1..], body, if hs[0].0 == "" then acc else acc[hs[0].0 := hs[0].1]);
      assert ([HeaderLine(hs[0])] + SplitCrLf(more))[1..] == SplitCrLf(more);
    }
  }

  // ---- the body ----

  lemma SplitJoinOne(s: string)
    requires |s| == 1
    ensures Join(SplitCrLf(s), "\n") == s
  {
    assert s[1..] == "";
    if s[0] == '\n' {
      assert Lines(s) == ["", ""];
      assert ["", ""][1..] == [""];
      assert ChopCrs(["", ""]) == ["", ""];
      assert ["", ""] == [""] + [""];
      JoinHead("", [""]);
      assert s == "" + "\n" + "";
    } else {
      LinesOfLine(s);
    }
  }

  lemma SplitAtLf(s: string)
    requires s != "" && s[0] == '\n'
    ensures Join(SplitCrLf(s), "\n") == "\n" + Join(SplitCrLf(s[1..]), "\n")
  {
    var r := Lines(s[1..]);
    assert ([""] + r)[1..] == r;
    JoinHead("", SplitCrLf(s[1..]));
    assert "" + "\n" + Join(SplitCrLf(s[1..]), "\n") == "\n" + Join(SplitCrLf(s[1..]), "\n");
  }

  lemma SplitAtCrLf(s: string)
    requires |s| >= 2 && s[0] == '\r' && s[1] == '\n'
    ensures Join(SplitCrLf(s), "\n") == "\n" + Join(SplitCrLf(s[2..]), "\n")
  {
    SplitFirst("", s[2..]);
    assert s == "" + "\r\n" + s[2..];
    JoinHead("", SplitCrLf(s[2..]));
    assert "" + "\n" + Join(SplitCrLf(s[2..]), "\n") == "\n" + Join(SplitCrLf(s[2..]), "\n");
  }

  /** Splitting at line ends and joining with LF turns every CRLF into LF. */
  lemma {:induction false} SplitJoin(s: string)
    ensures Join(SplitCrLf(s), "\n") == CrLfToLf(s)
  {
    if s == "" {
    } else if |s| == 1 {
      SplitJoinOne(s);
    } else if s[0] == '\n' {
      SplitJoin(s[1..]);
      SplitAtLf(s);
    } else if s[0] == '\r' && s[1] == '\n' {
      SplitJoin(s[2..]);
      SplitAtCrLf(s);
    } else {
      SplitJoin(s[1..]);
      SplitCons(s);
    }
  }

  lemma SplitCons(s: string)
    requires |s| >= 2 && s[0] != '\n' && !(s[0] == '\r' && s[1] == '\n')
    ensures Join(SplitCrLf(s), "\n") == [s[0]] + Join(SplitCrLf(s[1..]), "\n")
  {
    var c := s[0];
    var r := Lines(s[1..]);
    var first := [c] + r[0];
    assert Lines(s) == [first] + r[1..];
    assert Lines(s)[1..] == r[1..];
    if |r| > 1 {
      var tail := ChopCrs(r[1..]);
      NotLoneCr(s);
      assert ChopCr(first) == [c] + ChopCr(r[0]);
      JoinHead([c] + ChopCr(r[0]), tail);
      JoinHead(ChopCr(r[0]), tail);
      assert ([c] + ChopCr(r[0])) + "\n" + Join(tail, "\n") == [c] + (ChopCr(r[0]) + "\n" + Join(tail, "\n"));
    }
  }

  lemma NotLoneCr(s: string)
    requires |s| >= 2 && s[0] != '\n' && !(s[0] == '\r' && s[1] == '\n')
    ensures s[0] == '\r' ==> Lines(s[1..])[0] != ""
  {
    assert s[1..][0] == s[1];
  }

  lemma {:induction false} CrLfFree(s: string)
    ensures CrLfToLf(s) == s <==> !HasCrLf(s)
    ensures HasCrLf(s) ==> |CrLfToLf(s)| < |s|
  {
    if |s| >= 2 {
      CrLfFree(s[1..]);
      assert s == [s[0]] + s[1..];
      if s[0] == '\r' && s[1] == '\n' {
        assert |CrLfToLf(s[2..])| <= |s| - 2;
      }
    }
  }

  // ---- which headers there are ----

  /** The value a line gives the header `name`: what stands behind the first colon, if
      the line has one, not at its very start, and the name in front of it. */
  function Declared(line: string, name: string): Option<string> {
    var front := Before(line, ':');
    if front == "" || |front| == |line| || Trim(front) != name then None
    else Some(Trim(line[|front| + 1..]))
  }

  /** The value of the last of the lines up to the first blank one that declares the name. */
  function LastDeclared(lines: seq<string>, name: string): Option<string> {
    if lines == [] || Trim(lines[0]) == "" then None
    else if LastDeclared(lines[1..], name).Some? then LastDeclared(lines[1..], name)
    else Declared(lines[0], name)
  }

  /** The lines behind the first blank one. */
  function BehindBlank(lines: seq<string>): seq<string> {
    if lines == [] then [] else if Trim(lines[0]) == "" then lines[1..] else BehindBlank(lines[1..])
  }

  function Lookup(headers: map<string, string>, name: string): Option<string> {
    if name in headers then Some(headers[name]) else None
  }

  lemma {:induction false} ColonIsBefore(line: string)
    ensures line[..ColonAt(line)] == Before(line, ':')
  {
    if line != "" && line[0] != ':' {
      ColonIsBefore(line[1..]);
      assert line[..ColonAt(line)] == [line[0]] + line[1..][..ColonAt(line[1..])];
    }
  }

  lemma AddedHeader(headers: map<string, string>, line: string, name: string)
    ensures Lookup(AddHeader(headers, line), name) ==
      if Declared(line, name).Some? then Declared(line, name) else Lookup(headers, name)
  {
    ColonIsBefore(line);
  }

  lemma {:induction false} SplitLookup(lines: seq<string>, headers: map<string, string>, name: string)
    ensures Lookup(Split(lines, headers).0, name) ==
      if LastDeclared(lines, name).Some? then LastDeclared(lines, name) else Lookup(headers, name)
    ensures Split(lines, headers).1 == BehindBlank(lines)
    decreases lines
  {
    if lines != [] && Trim(lines[0]) != "" {
      AddedHeader(headers, lines[0], name);
      SplitLookup(lines[1..], AddHeader(headers, lines[0]), name);
    }
  }

  /** The parse of any text: its first line, for each name the value of the last line in
      front of the first blank one that declares it, and the lines behind that one. */
  lemma ParsedHeaders(message: string, name: string)
    ensures var p, lines := Parse(message), SplitCrLf(message);
      && p.startLine == lines[0]
      && Lookup(p.headers, name) == LastDeclared(lines[1..], name)
      && p.body == Join(BehindBlank(lines[1..]), "\n")
  {
    SplitLookup(SplitCrLf(message)[1..], map[], name);
  }

  // ---- main results ----

  /** Parsing a rendered message gives back its start line, its headers and its
      body with every CRLF turned into LF, for every start line on one line and
      every list of well-formed headers; values may hold colons. */
  lemma ParseOfRender(startLine: string, hs: seq<(string, string)>, body: string)
    requires '\n' !in startLine && forall h <- hs :: GoodHeader(h)
    ensures Parse(Render(startLine, hs, body)) == SipMessage(startLine, Fold(map[], hs), CrLfToLf(body))
  {
    var more := RenderHeaders(hs) + ("\r\n" + body);
    SplitFirst(startLine, more);
    assert ([startLine] + SplitCrLf(more))[1..] == SplitCrLf(more);
    SplitRendered(hs, body, map[]);
    SplitJoin(body);
  }

  /** `hs` lists the entries of `m`, each once, in some order. */
  ghost predicate Lists(hs: seq<(string, string)>, m: map<string, string>) {
    && (forall i, j :: 0 <= i < j < |hs| ==> hs[i].0 != hs[j].0)
    && (forall h <- hs :: h.0 in m && m[h.0] == h.1)
    && (forall k <- m :: (k, m[k]) in hs)
  }

  lemma {:induction false} FoldFacts(acc: map<string, string>, hs: seq<(string, string)>)
    requires forall i, j :: 0 <= i < j < |hs| ==> hs[i].0 != hs[j].0
    ensures forall k :: k in Fold(acc, hs) <==> k in acc || (k != "" && exists h :: h in hs && h.0 == k)
    ensures forall h <- hs :: h.0 != "" ==> h.0 in Fold(acc, hs) && Fold(acc, hs)[h.0] == h.1
    ensures forall k <- acc :: (forall h <- hs :: h.0 != k) ==> k in Fold(acc, hs) && Fold(acc, hs)[k] == acc[k]
    decreases hs
  {
    if hs != [] {
      var acc' := if hs[0].0 == "" then acc else acc[hs[0].0 := hs[0].1];
      FoldFacts(acc', hs[1..]);
      assert hs == [hs[0]] + hs[1..];
      forall h | h in hs[1..] ensures h.0 != hs[0].0 {
        var k :| 0 <= k < |hs| - 1 && hs[1..][k] == h;
        assert hs[k + 1] == h;
      }
    }
  }

  lemma FoldOfList(hs: seq<(string, string)>, m: map<string, string>)
    requires Lists(hs, m)
    ensures Fold(map[], hs) == m - {""}
  {
    var f := Fold(map[], hs);
    FoldFacts(map[], hs);
    forall k | k in f ensures k in m && k != "" && f[k] == m[k] {
      var h :| h in hs && h.0 == k;
      assert f[h.0] == h.1;
    }
    forall k | k in m && k != "" ensures k in f {
      assert (k, m[k]) in hs;
    }
  }

  lemma {:induction false} SplitHeaders(lines: seq<string>, acc: map<string, string>)
    requires forall l <- lines :: '\n' !in l
    requires GoodHeaders(acc)
    ensures GoodHeaders(Split(lines, acc).0)
    decreases lines
  {
    if lines != [] && Trim(lines[0]) != "" {
      AddedHeaderIsGood(acc, lines[0]);
      SplitHeaders(lines[1..], AddHeader(acc, lines[0]));
    }
  }

  lemma AddedHeaderIsGood(acc: map<string, string>, l: string)
    requires '\n' !in l
    requires GoodHeaders(acc)
    ensures GoodHeaders(AddHeader(acc, l))
  {
    var n := ColonAt(l);
    if 0 < n < |l| {
      var name, value := Trim(l[..n]), Trim(l[n + 1..]);
      TrimIsTrimmed(l[..n]);
      TrimIsTrimmed(l[n + 1..]);
      TrimLetters(l[..n]);
      TrimLetters(l[n + 1..]);
      assert forall c <- l[..n] :: c in l;
      assert forall c <- l[n + 1..] :: c in l;
      assert GoodHeader((name, value));
    }
  }

  lemma TrimLetters(s: string)
    ensures forall c <- Trim(s) :: c in s
  {
    TrimStartFacts(s);
    TrimEndFacts(TrimStart(s));
  }

  lemma {:induction false} ChopCrsOneLine(ls: seq<string>)
    requires forall l <- ls :: '\n' !in l
    ensures forall l <- ChopCrs(ls) :: '\n' !in l
  {
    if |ls| > 1 {
      assert forall c <- ChopCr(ls[0]) :: c in ls[0];
      ChopCrsOneLine(ls[1..]);
    }
  }

  /** What the parser makes of any text at all is well formed. */
  lemma ParsedShape(message: string)
    ensures '\n' !in Parse(message).startLine && GoodHeaders(Parse(message).headers)
  {
    ChopCrsOneLine(Lines(message));
    assert forall l <- SplitCrLf(message)[1..] :: l in SplitCrLf(message);
    SplitHeaders(SplitCrLf(message)[1..], map[]);
  }

  /** Any text the parser has read survives rendering and parsing again exactly
      when no header lost its name to trimming and the body is free of CRLF. */
  lemma ReparseIff(message: string, hs: seq<(string, string)>)
    requires Lists(hs, Parse(message).headers)
    ensures var p := Parse(message);
      Parse(Render(p.startLine, hs, p.body)) == p <==> "" !in p.headers && !HasCrLf(p.body)
  {
    var p := Parse(message);
    ParsedShape(message);
    forall h | h in hs ensures GoodHeader(h) {
      assert h == (h.0, p.headers[h.0]);
    }
    ParseOfRender(p.startLine, hs, p.body);
    FoldOfList(hs, p.headers);
    CrLfFree(p.body);
  }

  /** Both exceptions occur: a name of white space only, ... */
  lemma ReparseLosesBlankName()
    ensures "" in Parse("\n :v").headers
  {
    var m, l := "\n :v", " :v";
    assert m == "" + "\n" + l;
    LinesSnoc("", "", l);
    LinesOfLine(l);
    assert ["", l][1..] == [l];
    assert SplitCrLf(m) == ["", l];
    TrimKeeps(l, 1);
    assert l[1..] == ":v";
    assert ColonAt(l) == 1;
    assert l[..1] == " " && [' '][1..] == "";
    assert Trim(l[..1]) == "";
    assert Split([l], map[]) == Split([l][1..], AddHeader(map[], l));
  }

  /** ... and a doubled carriage return in the body. */
  lemma ReparseLosesDoubledCr()
    ensures HasCrLf(Parse("\n\n\r\r\n").body)
  {
    var m := "\n\n\r\r\n";
    assert m == "" + "\n" + "\n\r\r\n";
    LinesSnoc("", "", "\n\r\r\n");
    assert "\n\r\r\n" == "" + "\n" + "\r\r\n";
    LinesSnoc("", "", "\r\r\n");
    assert "\r\r\n" == "\r\r" + "\n" + "";
    LinesSnoc("", "\r\r", "");
    var x := "\r\r";
    assert x[..1] == "\r";
    var rest := ["\r", ""];
    assert [x, ""][1..] == [""] && ["", x, ""][1..] == [x, ""] && ["", "", x, ""][1..] == ["", x, ""];
    assert SplitCrLf(m) == ["", ""] + rest;
    assert SplitCrLf(m)[1..] == [""] + rest && ([""] + rest)[1..] == rest;
    JoinHead("\r", [""]);
    assert Join(rest, "\n") == "\r" + "\n" + "";
  }
}
