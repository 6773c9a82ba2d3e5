/** Which rows the calls of a SIP session leave behind, for every interleaving of their
    requests (src/debugger/sip/sip-session/sip-session.service.ts). */
module SipRows {
  import opened Text
  import opened SipSessions

  // ---- messages and media offers ----

  /** The row a finished call with this kind of data has saved. */
  function RowOf(k: Caller, offers: bool): seq<Saved> {
    if k.pc.Finished? && (if offers then k.data.MediaOffer? else k.data.SipMessage?) then [Saved(k.pc.session, k.data)] else []
  }

  /** The rows of the finished calls, in the order in which the calls arrived. */
  function RowsOf(callers: seq<Caller>, offers: bool): seq<Saved> {
    if callers == [] then [] else RowOf(callers[0], offers) + RowsOf(callers[1..], offers)
  }

  lemma {:induction false} RowsConcat(a: seq<Caller>, b: seq<Caller>, offers: bool)
    ensures RowsOf(a + b, offers) == RowsOf(a, offers) + RowsOf(b, offers)
  {
    if a == [] {
      assert a + b == b;
    } else {
      assert (a + b)[1..] == a[1..] + b;
      RowsConcat(a[1..], b, offers);
    }
  }

  lemma RowsAround(callers: seq<Caller>, c: nat, k: Caller, offers: bool)
    requires c < |callers|
    ensures multiset(RowsOf(callers[c := k], offers)) ==
      multiset(RowsOf(callers[..c], offers)) + multiset(RowOf(k, offers)) + multiset(RowsOf(callers[c + 1..], offers))
  {
    assert callers[c := k] == callers[..c] + ([k] + callers[c + 1..]);
    RowsConcat(callers[..c], [k] + callers[c + 1..], offers);
    assert ([k] + callers[c + 1..])[1..] == callers[c + 1..];
  }

  /** A call's row comes when the call finishes. */
  lemma RowsStep(callers: seq<Caller>, c: nat, k: Caller, offers: bool)
    requires c < |callers| && !callers[c].pc.Finished?
    ensures multiset(RowsOf(callers[c := k], offers)) == multiset(RowsOf(callers, offers)) + multiset(RowOf(k, offers))
  {
    RowsAround(callers, c, k, offers);
    RowsAround(callers, c, callers[c], offers);
    assert callers[c := callers[c]] == callers;
  }

  ghost predicate RowsOk(s: State) {
    && multiset(s.messages) == multiset(RowsOf(s.callers, false))
    && multiset(s.offers) == multiset(RowsOf(s.callers, true))
  }

  /** What saving adds to each table. */
  lemma SaveAdds(s: State, id: nat, data: Data)
    ensures var s', k := Save(s, id, data), Caller(data, Finished(id));
      && s'.messages == s.messages + RowOf(k, false)
      && s'.offers == s.offers + RowOf(k, true)
      && s'.reports == (if data.QosReport? then s.reports[id := data] else s.reports)
      && s'.callers == s.callers
  {
    assert s.messages + [] == s.messages && s.offers + [] == s.offers;
    match data
    case SipMessage(_, _, _, _, _) =>
    case MediaOffer(_, _, _, _, _, _) =>
    case QosReport(_, _) =>
  }

  lemma AnswerRows(s: State, c: nat)
    requires RowsOk(s) && c < |s.callers| && !Ended(s.callers[c].pc)
    ensures RowsOk(Answer(s, c))
  {
    var data := s.callers[c].data;
    match s.callers[c].pc
    case Saving(id) =>
      var k := Caller(data, Finished(id));
      SaveAdds(s, id, data);
      RowsStep(s.callers, c, k, false);
      RowsStep(s.callers, c, k, true);
      assert Answer(s, c).callers == s.callers[c := k];
    case _ => WaitingRows(s, c);
  }

  lemma WaitingRows(s: State, c: nat)
    requires RowsOk(s) && c < |s.callers| && !Ended(s.callers[c].pc) && !s.callers[c].pc.Saving?
    ensures RowsOk(Answer(s, c))
  {
    var s' := Answer(s, c);
    assert s'.messages == s.messages && s'.offers == s.offers;
    assert s'.callers == s.callers[c := s'.callers[c]] && !s'.callers[c].pc.Finished?;
    RowsStep(s.callers, c, s'.callers[c], false);
    RowsStep(s.callers, c, s'.callers[c], true);
  }

  lemma ArrivalRows(callers: seq<Caller>, data: Data, offers: bool)
    ensures RowsOf(callers + [Caller(data, Finding)], offers) == RowsOf(callers, offers)
  {
    var k := Caller(data, Finding);
    RowsConcat(callers, [k], offers);
    assert [k][1..] == [];
    assert RowsOf([k], offers) == [];
    assert RowsOf(callers, offers) + [] == RowsOf(callers, offers);
  }

  lemma FaultRows(callers: seq<Caller>, c: nat, offers: bool)
    requires c < |callers| && !Ended(callers[c].pc)
    ensures multiset(RowsOf(callers[c := callers[c].(pc := Failed(DbError))], offers)) == multiset(RowsOf(callers, offers))
  {
    RowsStep(callers, c, callers[c].(pc := Failed(DbError)), offers);
  }

  lemma NextRows(s: State, e: Event)
    requires RowsOk(s)
    ensures RowsOk(Next(s, e))
  {
    match e
    case Arrive(data) =>
      ArrivalRows(s.callers, data, false);
      ArrivalRows(s.callers, data, true);
    case Request(c, fault) =>
      if c < |s.callers| && !Ended(s.callers[c].pc) {
        if fault {
          FaultRows(s.callers, c, false);
          FaultRows(s.callers, c, true);
        } else {
          AnswerRows(s, c);
        }
      }
  }

  lemma {:induction false} RunRows(s: State, events: seq<Event>)
    requires RowsOk(s)
    ensures RowsOk(Run(s, events))
    decreases events
  {
    if events != [] {
      NextRows(s, events[0]);
      RunRows(Next(s, events[0]), events[1..]);
    }
  }

  /** Under every interleaving the saved messages are the rows of the finished message
      calls, each once and no others, and the saved media offers likewise: nothing is
      lost, doubled or saved for a call that failed. */
  lemma SavedExactlyOnce(events: seq<Event>)
    ensures var s := Run(INITIAL, events);
      && multiset(s.messages) == multiset(RowsOf(s.callers, false))
      && multiset(s.offers) == multiset(RowsOf(s.callers, true))
  {
    RunRows(INITIAL, events);
  }

  // ---- reports ----

  /** The step finishes a call with a QoS report on this session. */
  predicate Reports(s: State, e: Event, session: nat) {
    && e.Request? && !e.fault && e.c < |s.callers|
    && s.callers[e.c].pc == Saving(session) && s.callers[e.c].data.QosReport?
  }

  function Report(s: State, session: nat): Option<Data> {
    if session in s.reports then Some(s.reports[session]) else None
  }

  lemma NextReport(s: State, e: Event, session: nat)
    ensures Report(Next(s, e), session) ==
      if Reports(s, e, session) then Some(s.callers[e.c].data) else Report(s, session)
  {
    if e.Request? && e.c < |s.callers| && !Ended(s.callers[e.c].pc) && !e.fault {
      match s.callers[e.c].pc
      case Saving(id) => SaveAdds(s, id, s.callers[e.c].data);
      case _ =>
    }
  }

  /** The report of the last call of the run to finish with one on this session. */
  function LastReport(s: State, events: seq<Event>, session: nat): Option<Data>
    decreases events
  {
    if events == [] then None
    else
      var later := LastReport(Next(s, events[0]), events[1..], session);
      if later.Some? then later
      else if Reports(s, events[0], session) then Some(s.callers[events[0].c].data)
      else None
  }

  lemma {:induction false} RunReport(s: State, events: seq<Event>, session: nat)
    ensures Report(Run(s, events), session) ==
      if LastReport(s, events, session).Some? then LastReport(s, events, session) else Report(s, session)
    decreases events
  {
    if events != [] {
      NextReport(s, events[0], session);
      RunReport(Next(s, events[0]), events[1..], session);
    }
  }

  /** The call has finished with a report on this session. */
  predicate HasReported(k: Caller, session: nat) {
    k.pc == Finished(session) && k.data.QosReport?
  }

  ghost predicate SomeoneReported(s: State, session: nat) {
    exists i: nat :: i < |s.callers| && HasReported(s.callers[i], session)
  }

  lemma NextReported(s: State, e: Event, session: nat)
    ensures SomeoneReported(Next(s, e), session) <==> SomeoneReported(s, session) || Reports(s, e, session)
  {
    var s' := Next(s, e);
    CallersLength(s, e);
    forall i: nat | i < |s'.callers|
      ensures HasReported(s'.callers[i], session) <==>
        (i < |s.callers| && HasReported(s.callers[i], session)) || (Reports(s, e, session) && e.c == i)
    {
      CallerStep(s, e, i, session);
    }
    if SomeoneReported(s, session) {
      var i: nat :| i < |s.callers| && HasReported(s.callers[i], session);
      assert HasReported(s'.callers[i], session);
    }
    if Reports(s, e, session) {
      assert HasReported(s'.callers[e.c], session);
    }
  }

  lemma CallerStep(s: State, e: Event, i: nat, session: nat)
    requires i < |Next(s, e).callers|
    ensures HasReported(Next(s, e).callers[i], session) <==>
      (i < |s.callers| && HasReported(s.callers[i], session)) || (Reports(s, e, session) && e.c == i)
  {
    CallersLength(s, e);
    if e.Request? && e.c < |s.callers| && !Ended(s.callers[e.c].pc) {
      if i != e.c {
        OthersWait(s, e.c, i);
      } else {
        match s.callers[e.c].pc
        case Saving(id) => SaveKeepsSessions(s, id, s.callers[e.c].data);
        case _ =>
      }
    }
  }

  lemma {:induction false} RunReported(s: State, events: seq<Event>, session: nat)
    requires session in s.reports <==> SomeoneReported(s, session)
    ensures session in Run(s, events).reports <==> SomeoneReported(Run(s, events), session)
    decreases events
  {
    if events != [] {
      NextReport(s, events[0], session);
      NextReported(s, events[0], session);
      RunReported(Next(s, events[0]), events[1..], session);
    }
  }

  /** A session has a QoS report if and only if some call has finished with one on it, and
      it is then the report of the last such call to finish. */
  lemma LastReportWins(events: seq<Event>, session: nat)
    ensures var s := Run(INITIAL, events);
      && (session in s.reports <==> exists i: nat :: i < |s.callers| && HasReported(s.callers[i], session))
      && Report(s, session) == LastReport(INITIAL, events, session)
  {
    RunReported(INITIAL, events, session);
    RunReport(INITIAL, events, session);
  }

  // ---- faults ----

  /** A request the database fails ends its call and changes nothing else; a call that
      has ended makes no more requests. */
  lemma FaultEndsCall(s: State, c: nat)
    requires c < |s.callers|
    ensures Next(s, Request(c, true)) ==
      if s.callers[c].pc.Finished? || s.callers[c].pc.Failed? then s
      else s.(callers := s.callers[c := Caller(s.callers[c].data, Failed(DbError))])
    ensures s.callers[c].pc.Finished? || s.callers[c].pc.Failed? ==> Next(s, Request(c, false)) == s
  {}

  // ---- calls whose session is there already ----

  lemma {:induction false} RunSessionsStay(s: State, events: seq<Event>)
    requires Inv(s)
    ensures SessionsStay(s, Run(s, events))
    decreases events
  {
    if events != [] {
      NextSessions(s, events[0]);
      NextKeepsInv(s, events[0]);
      RunSessionsStay(Next(s, events[0]), events[1..]);
    }
  }

  /** A call whose session exists when it starts takes it without trying to create one: it
      is finished with that session after two requests of its own. */
  lemma {:induction false} KnownSessionTakesTwo(s: State, events: seq<Event>, c: nat, id: nat)
    requires Inv(s) && c < |s.callers| && s.callers[c].pc == Finding && IsSession(s, id, s.callers[c].data.callId)
    requires Request(c, true) !in events && Turns(events, c) >= 2
    ensures c < |Run(s, events).callers| && Run(s, events).callers[c].pc == Finished(id)
    decreases events
  {
    var e, more := events[0], events[1..];
    assert e in events && forall x <- more :: x in events;
    NextKeepsInv(s, e);
    NextSessions(s, e);
    StepProgress(s, e, c);
    if e == Request(c, false) {
      assert Next(s, e).callers[c].pc == Saving(id);
      WaitFree(Next(s, e), more, c);
      RunSessionsStay(Next(s, e), more);
      RunKeepsInv(Next(s, e), more);
      var k := Run(s, events).callers[c];
      assert k in Run(s, events).callers && CallerOk(Run(s, events), k);
    } else {
      KnownSessionTakesTwo(Next(s, e), more, c, id);
    }
  }
}
