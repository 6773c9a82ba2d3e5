/** Capturing DTMF digits: the handler refines functions of the event trace. */
module DialerDtmf {
  import opened Text
  import opened Leads
  import opened DialerState
  import opened DialerInvariants
  import opened DialerFrames

  // ---- removing duplicates ----

  /** The digits accepted from a stream when `last` is the last one remembered. */
  function Accepted(last: Option<char>, digits: string): string
    decreases |digits|
  {
    if digits == "" then ""
    else if last == Some(digits[0]) then Accepted(None, digits[1..])
    else [digits[0]] + Accepted(Some(digits[0]), digits[1..])
  }

  function Times(d: char, k: nat): (r: string)
    ensures |r| == k && forall i :: 0 <= i < k ==> r[i] == d
  {
    if k == 0 then "" else [d] + Times(d, k - 1)
  }

  /** A stream written as runs of equal digits, neighbours differing. */
  datatype Burst = Burst(digit: char, count: nat)

  predicate Maximal(bursts: seq<Burst>) {
    && (forall b <- bursts :: b.count > 0)
    && (forall i :: 0 < i < |bursts| ==> bursts[i - 1].digit != bursts[i].digit)
  }

  function Stream(bursts: seq<Burst>): string {
    if bursts == [] then "" else Times(bursts[0].digit, bursts[0].count) + Stream(bursts[1..])
  }

  /** Every run of k digits cut down to k / 2 of them, rounded up. */
  function Halved(bursts: seq<Burst>): string {
    if bursts == [] then ""
    else Times(bursts[0].digit, (bursts[0].count + 1) / 2) + Halved(bursts[1..])
  }

  /** What is remembered after a run of k equal digits that were not remembered. */
  function Remembered(last: Option<char>, d: char, k: nat): Option<char> {
    if k == 0 then last else if k % 2 == 1 then Some(d) else None
  }

  lemma AcceptedTwice(last: Option<char>, d: char, rest: string)
    requires last != Some(d)
    ensures Accepted(last, [d, d] + rest) == [d] + Accepted(None, rest)
  {
    var s := [d, d] + rest;
    assert s[1..] == [d] + rest;
    assert s[1..][1..] == rest;
  }

  lemma AcceptedOnce(last: Option<char>, d: char, rest: string)
    requires last != Some(d)
    ensures Accepted(last, [d] + rest) == [d] + Accepted(Some(d), rest)
  {
    assert ([d] + rest)[1..] == rest;
  }

  lemma TimesTwoMore(d: char, k: nat, rest: string)
    ensures Times(d, k + 2) + rest == [d, d] + (Times(d, k) + rest)
  {
    assert Times(d, k + 2) == [d] + ([d] + Times(d, k));
  }

  lemma TimesOneMore(d: char, m: nat, rest: string)
    ensures Times(d, m + 1) + rest == [d] + (Times(d, m) + rest)
  {}

  lemma {:induction false} AcceptedBurst(last: Option<char>, d: char, k: nat, rest: string)
    requires last != Some(d)
    ensures Accepted(last, Times(d, k) + rest) == Times(d, (k + 1) / 2) + Accepted(Remembered(last, d, k), rest)
    decreases k
  {
    if k == 0 {
      assert "" + rest == rest;
      assert "" + Accepted(last, rest) == Accepted(last, rest);
    } else if k == 1 {
      assert Times(d, 1) == [d];
      AcceptedOnce(last, d, rest);
    } else {
      AcceptedLongBurst(last, d, k, rest);
    }
  }

  lemma {:induction false} AcceptedLongBurst(last: Option<char>, d: char, k: nat, rest: string)
    requires last != Some(d) && k >= 2
    ensures Accepted(last, Times(d, k) + rest) == Times(d, (k + 1) / 2) + Accepted(Remembered(last, d, k), rest)
    decreases k, 0
  {
    var tail := Accepted(Remembered(None, d, k - 2), rest);
    assert Remembered(None, d, k - 2) == Remembered(last, d, k);
    calc {
      Accepted(last, Times(d, k) + rest);
      { TimesTwoMore(d, k - 2, rest); }
      Accepted(last, [d, d] + (Times(d, k - 2) + rest));
      { AcceptedTwice(last, d, Times(d, k - 2) + rest); }
      [d] + Accepted(None, Times(d, k - 2) + rest);
      { AcceptedBurst(None, d, k - 2, rest); }
      [d] + (Times(d, (k - 1) / 2) + tail);
      { TimesOneMore(d, (k - 1) / 2, tail); }
      Times(d, (k - 1) / 2 + 1) + tail;
    }
  }

  /** Each maximal run of k equal digits contributes k / 2 digits, rounded up. */
  lemma {:induction false} RunsAreHalved(last: Option<char>, bursts: seq<Burst>)
    requires Maximal(bursts) && (bursts != [] ==> last != Some(bursts[0].digit))
    ensures Accepted(last, Stream(bursts)) == Halved(bursts)
    decreases |bursts|
  {
    if bursts != [] {
      var b, more := bursts[0], bursts[1..];
      assert b in bursts;
      AcceptedBurst(last, b.digit, b.count, Stream(more));
      MaximalTail(bursts);
      var last' := Remembered(last, b.digit, b.count);
      assert last' == None || last' == Some(b.digit);
      RunsAreHalved(last', more);
      assert Stream(bursts) == Times(b.digit, b.count) + Stream(more);
      assert Halved(bursts) == Times(b.digit, (b.count + 1) / 2) + Halved(more);
    }
  }

  lemma MaximalTail(bursts: seq<Burst>)
    requires Maximal(bursts) && bursts != []
    ensures Maximal(bursts[1..])
    ensures bursts[1..] != [] ==> bursts[1..][0].digit != bursts[0].digit
  {
    var more := bursts[1..];
    forall i | 0 < i < |more| ensures more[i - 1].digit != more[i].digit {
      assert bursts[i].digit != bursts[i + 1].digit;
    }
    if |bursts| > 1 {
      assert bursts[0].digit != bursts[1].digit;
    }
  }

  function Doubled(digits: string): string {
    if digits == "" then "" else [digits[0], digits[0]] + Doubled(digits[1..])
  }

  /** A stream in which every digit arrives twice is recovered exactly. */
  lemma {:induction false} DoubledIsRecovered(digits: string)
    ensures Accepted(None, Doubled(digits)) == digits
  {
    if digits != "" {
      var d, s := digits[0], Doubled(digits);
      assert s[1..] == [d] + Doubled(digits[1..]);
      assert s[1..][1..] == Doubled(digits[1..]);
      DoubledIsRecovered(digits[1..]);
      assert [d] + digits[1..] == digits;
    }
  }

  // ---- the accepted digits of a run ----

  function LastOn(s: Dialer, ch: nat): Option<char> {
    if ch in s.lastDtmf then Some(s.lastDtmf[ch]) else None
  }

  /** The digits delivered on a channel over the events. */
  function DigitsOn(events: seq<Event>, ch: nat): string {
    if events == [] then ""
    else (if events[0].EvDtmf? && events[0].ch == ch then [events[0].digit] else "") + DigitsOn(events[1..], ch)
  }

  /** The digits the dialer accepts on a channel over a run. */
  function AcceptedOn(s: Dialer, events: seq<Event>, ch: nat): string
    decreases events
  {
    if events == [] then ""
    else
      var e := events[0];
      (if e.EvDtmf? && e.ch == ch && !Repeats(s.lastDtmf, ch, e.digit) then [e.digit] else "")
      + AcceptedOn(Next(s, e), events[1..], ch)
  }

  lemma LastDtmfFrame(s: Dialer, e: Event, ch: nat)
    requires !(e.EvDtmf? && e.ch == ch)
    ensures LastOn(Next(s, e), ch) == LastOn(s, ch)
  {
    EventTables(s, e);
    if e.EvDtmf? {
      OtherChannelsRemember(s, e.ch, e.digit, ch);
    }
  }

  lemma OtherChannelsRemember(s: Dialer, c: nat, digit: char, ch: nat)
    requires c != ch
    ensures LastOn(Dtmf(s, c, digit), ch) == LastOn(s, ch)
  {
    if !Repeats(s.lastDtmf, c, digit) && c in s.channels {
      DigitFrame(s.(lastDtmf := s.lastDtmf[c := digit]), s.channels[c].callLogId, digit);
    }
  }

  lemma DtmfRemembers(s: Dialer, ch: nat, digit: char)
    ensures LastOn(Dtmf(s, ch, digit), ch) == if Repeats(s.lastDtmf, ch, digit) then None else Some(digit)
  {
    if !Repeats(s.lastDtmf, ch, digit) && ch in s.channels {
      DigitFrame(s.(lastDtmf := s.lastDtmf[ch := digit]), s.channels[ch].callLogId, digit);
    }
  }

  lemma AcceptedHead(last: Option<char>, d: char, digits: string)
    ensures Accepted(last, [d] + digits) ==
      if last == Some(d) then Accepted(None, digits) else [d] + Accepted(Some(d), digits)
  {
    assert ([d] + digits)[1..] == digits;
  }

  /** What is accepted on a channel depends on that channel's digits alone,
      whatever else happens in the run. */
  lemma {:induction false} AcceptedOnIsAccepted(s: Dialer, events: seq<Event>, ch: nat)
    ensures AcceptedOn(s, events, ch) == Accepted(LastOn(s, ch), DigitsOn(events, ch))
    decreases events
  {
    if events != [] {
      var e, more := events[0], events[1..];
      AcceptedOnIsAccepted(Next(s, e), more, ch);
      if e.EvDtmf? && e.ch == ch {
        DtmfRemembers(s, ch, e.digit);
        AcceptedHead(LastOn(s, ch), e.digit, DigitsOn(more, ch));
        assert "" + AcceptedOn(Next(s, e), more, ch) == AcceptedOn(Next(s, e), more, ch);
      } else {
        LastDtmfFrame(s, e, ch);
        assert "" + AcceptedOn(Next(s, e), more, ch) == AcceptedOn(Next(s, e), more, ch);
        assert "" + DigitsOn(more, ch) == DigitsOn(more, ch);
      }
    }
  }

  // ---- capturing a transfer ----

  /** A capture in progress, and the extensions transferred to so far. */
  datatype Capture = Capture(open: Option<string>, done: seq<string>)

  /** What a call's capture hears: an accepted digit on one of its legs, told
      whether both its legs are there, or the loss of a leg. */
  datatype Signal = Tone(digit: char, both: bool) | LegLost

  /** `#` opens the capture when both legs are there, and closes it; the loss of a leg
      drops it. */
  function Hear(c: Capture, signal: Signal): Capture {
    match signal
    case LegLost => c.(open := None)
    case Tone(digit, both) =>
      match c.open
      case None => if digit == '#' && both then c.(open := Some("")) else c
      case Some(digits) =>
        if digit == '#' then Capture(None, c.done + [Extension(digits)])
        else c.(open := Some(digits + [digit]))
  }

  function HearAll(c: Capture, signals: seq<Signal>): Capture
    decreases |signals|
  {
    if signals == [] then c else HearAll(Hear(c, signals[0]), signals[1..])
  }

  lemma {:induction false} HearConcat(c: Capture, a: seq<Signal>, b: seq<Signal>)
    ensures HearAll(c, a + b) == HearAll(HearAll(c, a), b)
    decreases |a|
  {
    if a == [] {
      assert a + b == b;
    } else {
      assert (a + b)[0] == a[0] && (a + b)[1..] == a[1..] + b;
      HearConcat(Hear(c, a[0]), a[1..], b);
    }
  }

  lemma HearOne(c: Capture, signal: Signal)
    ensures HearAll(c, [signal]) == Hear(c, signal)
  {
    assert [signal][1..] == [];
  }

  /** Digits accepted while both legs are there. */
  function Tones(digits: string): seq<Signal> {
    if digits == "" then [] else [Tone(digits[0], true)] + Tones(digits[1..])
  }

  lemma {:induction false} TonesConcat(a: string, b: string)
    ensures Tones(a + b) == Tones(a) + Tones(b)
  {
    if a == "" {
      assert a + b == b;
    } else {
      assert (a + b)[0] == a[0] && (a + b)[1..] == a[1..] + b;
      TonesConcat(a[1..], b);
    }
  }

  lemma TonesCons(d: char, more: string)
    ensures Tones([d] + more) == [Tone(d, true)] + Tones(more)
  {
    assert ([d] + more)[1..] == more;
  }

  lemma {:induction false} HearPlain(c: Capture, digits: string)
    requires '#' !in digits
    ensures HearAll(c, Tones(digits)) == if c.open.None? then c else c.(open := Some(c.open.value + digits))
    decreases |digits|
  {
    if digits == "" {
      assert c.open.Some? ==> c.open.value + "" == c.open.value;
    } else {
      var d, more := digits[0], digits[1..];
      assert digits == [d] + more && d in digits;
      assert forall x <- more :: x in digits;
      TonesCons(d, more);
      HearConcat(c, [Tone(d, true)], Tones(more));
      HearOne(c, Tone(d, true));
      HearPlain(Hear(c, Tone(d, true)), more);
      assert c.open.Some? ==> (c.open.value + [d]) + more == c.open.value + digits;
    }
  }

  lemma HearHash(c: Capture)
    ensures HearAll(c, Tones("#")) == Hear(c, Tone('#', true))
  {
    assert "#"[1..] == "";
    HearOne(c, Tone('#', true));
  }

  /** A closing `#` transfers to exactly the digits since the opening one, in
      order, or to 200 if there are none. */
  lemma ClosingTransfersWhatWasHeard(done: seq<string>, before: string, digits: string)
    requires '#' !in before && '#' !in digits
    ensures HearAll(Capture(None, done), Tones(before + ("#" + (digits + "#")))) ==
      Capture(None, done + [if digits == "" then "200" else digits])
  {
    var c, c1 := Capture(None, done), Capture(Some(""), done);
    TonesConcat(before, "#" + (digits + "#"));
    TonesConcat("#", digits + "#");
    TonesConcat(digits, "#");
    HearConcat(c, Tones(before), Tones("#" + (digits + "#")));
    HearPlain(c, before);
    HearConcat(c, Tones("#"), Tones(digits + "#"));
    HearHash(c);
    HearConcat(c1, Tones(digits), Tones("#"));
    HearPlain(c1, digits);
    assert "" + digits == digits;
    HearHash(Capture(Some(digits), done));
  }

  // ---- the handlers capture ----

  predicate BothRegistered(s: Dialer, log: nat) {
    Leg(s, log, Customer).Some? && Leg(s, log, Agent).Some?
  }

  predicate OnLeg(s: Dialer, ch: nat, log: nat) {
    ch in s.channels && s.channels[ch].callLogId == log
  }

  /** What the capture of a call hears of an event. */
  function HeardNow(s: Dialer, e: Event, log: nat): seq<Signal> {
    if e.EvDestroyed? && OnLeg(s, e.ch, log) then [LegLost]
    else if e.EvDtmf? && OnLeg(s, e.ch, log) && !Repeats(s.lastDtmf, e.ch, e.digit)
    then [Tone(e.digit, BothRegistered(s, log))]
    else []
  }

  /** What it hears over a run, in order. */
  function Heard(s: Dialer, events: seq<Event>, log: nat): seq<Signal>
    decreases events
  {
    if events == [] then [] else HeardNow(s, events[0], log) + Heard(Next(s, events[0]), events[1..], log)
  }

  function OpenDigits(s: Dialer, log: nat): Option<string> {
    if log in s.transfers then Some(s.transfers[log].digits) else None
  }

  /** The extensions a channel was told to continue at, in order. */
  function Continued(trace: seq<Act>, ch: nat): seq<string> {
    if trace == [] then []
    else
      var last := trace[|trace| - 1];
      Continued(trace[..|trace| - 1], ch) + if last.Continue? && last.channel == ch then [last.extension] else []
  }

  lemma ContinuedSnoc(trace: seq<Act>, act: Act, ch: nat)
    ensures Continued(trace + [act], ch) ==
      Continued(trace, ch) + if act.Continue? && act.channel == ch then [act.extension] else []
  {
    assert (trace + [act])[..|trace|] == trace;
  }

  lemma {:induction false} NoContinue(trace: seq<Act>, acts: seq<Act>, ch: nat)
    requires forall a <- acts :: !a.Continue?
    ensures Continued(trace + acts, ch) == Continued(trace, ch)
  {
    if acts == [] {
      assert trace + acts == trace;
    } else {
      var init, last := acts[..|acts| - 1], acts[|acts| - 1];
      NoContinue(trace, init, ch);
      ContinuedSnoc(trace + init, last, ch);
      assert trace + acts == (trace + init) + [last];
    }
  }

  /** The capture of a call as the dialer's state shows it. */
  function Shown(s: Dialer, log: nat, customer: nat): Capture {
    Capture(OpenDigits(s, log), Continued(s.trace, customer))
  }

  /** `customer` is the one customer channel the call ever has, and no other call's. */
  ghost predicate CallOf(s: Dialer, log: nat, customer: nat) {
    && SoleCustomer(s, log, customer) && customer < s.nextChannel
    && (customer in s.channels ==> IsLeg(s.channels, customer, log, Customer))
  }

  lemma NextKeepsCall(s: Dialer, e: Event, log: nat, customer: nat)
    requires IdsOk(s) && CallOf(s, log, customer)
    ensures CallOf(Next(s, e), log, customer)
  {
    NextKeepsSole(s, e, log, customer);
    EventLegs(s, e);
  }

  /** The acts of a finished transfer, as the channel that is told to continue and
      any other channel see them. */
  lemma FinishContinues(s: Dialer, log: nat, ch: nat)
    requires log in s.transfers
    ensures Continued(FinishTransfer(s, log).trace, ch) == Continued(s.trace, ch)
      + if s.transfers[log].customerChannelId == ch then [Extension(s.transfers[log].digits)] else []
  {
    var t := s.transfers[log];
    var act := Continue(t.customerChannelId, Extension(t.digits));
    ContinuedSnoc(s.trace, act, ch);
    ContinuedSnoc(s.trace + [act], Hangup(t.agentChannelId), ch);
  }

  lemma StartOpensIff(s: Dialer, log: nat, other: nat)
    requires log !in s.transfers
    ensures OpenDigits(StartTransfer(s, log), log) == if BothRegistered(s, log) then Some("") else None
    ensures other != log ==> OpenDigits(StartTransfer(s, log), other) == OpenDigits(s, other)
    ensures StartTransfer(s, log).trace == s.trace
  {
    if BothRegistered(s, log) {
    } else {
    }
  }

  /** An accepted digit on a leg of the call is heard by its capture. */
  lemma DigitIsHeard(s: Dialer, log: nat, digit: char, customer: nat)
    requires LegsOk(s) && CallOf(s, log, customer)
    ensures Shown(Digit(s, log, digit), log, customer) == Hear(Shown(s, log, customer), Tone(digit, BothRegistered(s, log)))
  {
    if digit == '#' {
      if log in s.transfers {
        assert s.transfers[log].customerChannelId == customer;
        FinishContinues(s, log, customer);
      } else {
        StartOpensIff(s, log, log);
      }
    } else if log in s.transfers {
      assert OpenDigits(Digit(s, log, digit), log) == Some(s.transfers[log].digits + [digit]);
    }
  }

  /** A digit on another call's leg is not. */
  lemma DigitElsewhere(s: Dialer, log: nat, other: nat, digit: char, customer: nat)
    requires LegsOk(s) && other != log && CallOf(s, log, customer)
    ensures Shown(Digit(s, other, digit), log, customer) == Shown(s, log, customer)
  {
    if digit == '#' {
      if other in s.transfers {
        assert IsLeg(s.channels, s.transfers[other].customerChannelId, other, Customer);
        FinishContinues(s, other, customer);
        assert Continued(s.trace, customer) + [] == Continued(s.trace, customer);
      } else {
        StartOpensIff(s, other, log);
      }
    } else if other in s.transfers {
      assert OpenDigits(Digit(s, other, digit), log) == OpenDigits(s, log);
    }
  }

  lemma DtmfIsDigit(s: Dialer, ch: nat, digit: char, log: nat, customer: nat)
    ensures !Repeats(s.lastDtmf, ch, digit) && ch in s.channels ==>
      Dtmf(s, ch, digit) == Digit(s.(lastDtmf := s.lastDtmf[ch := digit]), s.channels[ch].callLogId, digit)
    ensures Repeats(s.lastDtmf, ch, digit) || ch !in s.channels ==>
      Shown(Dtmf(s, ch, digit), log, customer) == Shown(s, log, customer)
  {}

  lemma LegsOkWithoutDigits(s: Dialer, s1: Dialer)
    requires LegsOk(s) && s1 == s.(lastDtmf := s1.lastDtmf)
    ensures LegsOk(s1)
  {}

  /** A digit event on any channel is heard by the capture of the call exactly
      when it is accepted on a leg of the call. */
  lemma DtmfIsHeard(s: Dialer, ch: nat, digit: char, log: nat, customer: nat)
    requires LegsOk(s) && CallOf(s, log, customer)
    ensures Shown(Dtmf(s, ch, digit), log, customer) == HearAll(Shown(s, log, customer), HeardNow(s, EvDtmf(ch, digit), log))
  {
    DtmfIsDigit(s, ch, digit, log, customer);
    if !Repeats(s.lastDtmf, ch, digit) && ch in s.channels {
      var s1 := s.(lastDtmf := s.lastDtmf[ch := digit]);
      LegsOkWithoutDigits(s, s1);
      assert CallOf(s1, log, customer) && BothRegistered(s1, log) == BothRegistered(s, log);
      assert Shown(s1, log, customer) == Shown(s, log, customer);
      if s.channels[ch].callLogId == log {
        DigitIsHeard(s1, log, digit, customer);
        HearOne(Shown(s, log, customer), Tone(digit, BothRegistered(s, log)));
      } else {
        DigitElsewhere(s1, log, s.channels[ch].callLogId, digit, customer);
      }
    }
  }

  lemma LossDrops(s: Dialer, ch: nat)
    ensures Destroyed(s, ch).transfers == if ch in s.channels then s.transfers - {s.channels[ch].callLogId} else s.transfers
  {}

  /** The loss of a leg drops its own call's capture and no other. */
  lemma LossIsHeard(s: Dialer, ch: nat, log: nat, customer: nat)
    ensures Shown(Destroyed(s, ch), log, customer) == HearAll(Shown(s, log, customer), HeardNow(s, EvDestroyed(ch), log))
  {
    DestroyedFrame(s, ch);
    LossDrops(s, ch);
    LossContinuesNone(s, ch, customer);
    HearOne(Shown(s, log, customer), LegLost);
  }

  lemma LossContinuesNone(s: Dialer, ch: nat, customer: nat)
    ensures Continued(s.trace + DestroyedActs(s, ch), customer) == Continued(s.trace, customer)
  {
    NoContinue(s.trace, DestroyedActs(s, ch), customer);
  }

  /** Nothing but a digit or the loss of a leg touches the capture of a call. */
  lemma OtherEventsUnheard(s: Dialer, e: Event, log: nat, customer: nat)
    requires !e.EvDtmf? && !e.EvDestroyed?
    ensures Shown(Next(s, e), log, customer) == Shown(s, log, customer)
  {
    EventTables(s, e);
    EventTrace(s, e);
    ActKinds(s, e);
    NoContinue(s.trace, Acts(s, e), customer);
  }

  lemma EventIsHeard(s: Dialer, e: Event, log: nat, customer: nat)
    requires LegsOk(s) && CallOf(s, log, customer)
    ensures Shown(Next(s, e), log, customer) == HearAll(Shown(s, log, customer), HeardNow(s, e, log))
  {
    match e
    case EvDtmf(ch, digit) => DtmfIsHeard(s, ch, digit, log, customer);
    case EvDestroyed(ch) => LossIsHeard(s, ch, log, customer);
    case _ => OtherEventsUnheard(s, e, log, customer);
  }

  /** Over any run, whatever happens to this call or others, the pending transfer
      and the transfers made are those of the capture that hears the call's accepted
      digits and the loss of its legs, and nothing else. */
  lemma {:induction false} TransfersRefineCapture(s: Dialer, events: seq<Event>, log: nat, customer: nat)
    requires Inv(s) && CallOf(s, log, customer)
    ensures Shown(Run(s, events), log, customer) == HearAll(Shown(s, log, customer), Heard(s, events, log))
    decreases events
  {
    if events != [] {
      var e := events[0];
      EventIsHeard(s, e, log, customer);
      NextKeepsInv(s, e);
      NextKeepsCall(s, e, log, customer);
      TransfersRefineCapture(Next(s, e), events[1..], log, customer);
      HearConcat(Shown(s, log, customer), HeardNow(s, e, log), Heard(Next(s, e), events[1..], log));
    }
  }

  // ---- dialling a transfer on one leg ----

  /** Both legs of the call are registered. */
  predicate BothLegs(s: Dialer, log: nat, customer: nat, agent: nat) {
    IsLeg(s.channels, customer, log, Customer) && IsLeg(s.channels, agent, log, Agent)
  }

  /** No event of the run destroys a leg of the call, and every digit of the run on a
      leg of the call is on `ch`, which is one whenever it sends a digit. */
  predicate DialsOn(s: Dialer, events: seq<Event>, log: nat, ch: nat)
    decreases events
  {
    events == [] ||
    (&& (events[0].EvDestroyed? ==> !OnLeg(s, events[0].ch, log))
     && (events[0].EvDtmf? ==> (events[0].ch == ch <==> OnLeg(s, events[0].ch, log)))
     && DialsOn(Next(s, events[0]), events[1..], log, ch))
  }

  lemma NextKeepsBoth(s: Dialer, e: Event, log: nat, customer: nat, agent: nat)
    requires IdsOk(s) && BothLegs(s, log, customer, agent) && e != EvDestroyed(customer) && e != EvDestroyed(agent)
    ensures BothLegs(Next(s, e), log, customer, agent)
  {
    EventLegs(s, e);
  }

  lemma BothAreRegistered(s: Dialer, log: nat, customer: nat, agent: nat)
    requires IdsOk(s) && BothLegs(s, log, customer, agent)
    ensures BothRegistered(s, log)
  {
    assert customer < s.nextChannel && agent < s.nextChannel;
  }

  /** Then the call hears what is accepted on that channel: its digit runs halved. */
  lemma {:induction false} HeardOnOneLeg(s: Dialer, events: seq<Event>, log: nat, customer: nat, agent: nat, ch: nat)
    requires Inv(s) && BothLegs(s, log, customer, agent) && DialsOn(s, events, log, ch)
    ensures Heard(s, events, log) == Tones(Accepted(LastOn(s, ch), DigitsOn(events, ch)))
    decreases events
  {
    AcceptedOnIsAccepted(s, events, ch);
    HeardIsAcceptedOn(s, events, log, customer, agent, ch);
  }

  lemma {:induction false} HeardIsAcceptedOn(s: Dialer, events: seq<Event>, log: nat, customer: nat, agent: nat, ch: nat)
    requires Inv(s) && BothLegs(s, log, customer, agent) && DialsOn(s, events, log, ch)
    ensures Heard(s, events, log) == Tones(AcceptedOn(s, events, ch))
    decreases events
  {
    if events != [] {
      var e, more := events[0], events[1..];
      NextKeepsInv(s, e);
      NextKeepsBoth(s, e, log, customer, agent);
      BothAreRegistered(s, log, customer, agent);
      HeardIsAcceptedOn(Next(s, e), more, log, customer, agent, ch);
      var rest := AcceptedOn(Next(s, e), more, ch);
      if e.EvDtmf? && e.ch == ch && !Repeats(s.lastDtmf, ch, e.digit) {
        TonesConcat([e.digit], rest);
        assert [e.digit][1..] == "";
      } else {
        assert "" + rest == rest;
        assert [] + Tones(rest) == Tones(rest);
      }
    }
  }

  /** A blind transfer end to end: in any run that keeps both legs of a call and in
      which one channel alone sends its digits, if what is accepted on that channel is
      some digits, an opening `#`, the extension and a closing `#`, then the customer
      is told to continue at that extension, or at 200 if it is empty, once, and
      no transfer stays open. */
  lemma DialledTransfer(s: Dialer, events: seq<Event>, log: nat, customer: nat, agent: nat, ch: nat,
      before: string, digits: string)
    requires Inv(s) && BothLegs(s, log, customer, agent) && DialsOn(s, events, log, ch)
    requires log !in s.transfers && '#' !in before && '#' !in digits
    requires Accepted(LastOn(s, ch), DigitsOn(events, ch)) == before + ("#" + (digits + "#"))
    ensures Continued(Run(s, events).trace, customer) == Continued(s.trace, customer) + [if digits == "" then "200" else digits]
    ensures log !in Run(s, events).transfers
  {
    assert CallOf(s, log, customer);
    TransfersRefineCapture(s, events, log, customer);
    HeardOnOneLeg(s, events, log, customer, agent, ch);
    ClosingTransfersWhatWasHeard(Continued(s.trace, customer), before, digits);
  }

  /** The usual case: every digit arrives twice, on a channel silent before. */
  lemma DoubledTransfer(s: Dialer, events: seq<Event>, log: nat, customer: nat, agent: nat, ch: nat,
      before: string, digits: string)
    requires Inv(s) && BothLegs(s, log, customer, agent) && DialsOn(s, events, log, ch)
    requires log !in s.transfers && '#' !in before && '#' !in digits && ch !in s.lastDtmf
    requires DigitsOn(events, ch) == Doubled(before + ("#" + (digits + "#")))
    ensures Continued(Run(s, events).trace, customer) == Continued(s.trace, customer) + [if digits == "" then "200" else digits]
    ensures log !in Run(s, events).transfers
  {
    DoubledIsRecovered(before + ("#" + (digits + "#")));
    DialledTransfer(s, events, log, customer, agent, ch, before, digits);
  }
}
