/** Finding or creating the session of a SIP call under concurrency
    (src/debugger/sip/sip-session/sip-session.service.ts). Every database request
    is one atomic step; the requests of any number of calls interleave freely. */
module SipSessions {
  import opened Text

  /** What is to be saved, and the call id it came with. */
  datatype Data =
    | SipMessage(callId: string, source: string, destination: string, verb: string, body: string)
    | QosReport(callId: string, report: string)
    | MediaOffer(callId: string, sourceIp: string, mediaIp: string, port: int, protocol: string, kind: string)

  datatype Failure = DbError | UniqueViolation

  /** The request a call will make next, or how it ended. */
  datatype Pc =
    | Finding
    | Creating
    | Refinding
    | Saving(session: nat)
    | Finished(session: nat)
    | Failed(error: Failure)

  datatype Caller = Caller(data: Data, pc: Pc)

  /** A saved row: its session and the argument it was made from. */
  datatype Saved = Saved(session: nat, data: Data)

  datatype State = State(
    sessions: map<nat, string>,  // id -> call id, the latter unique
    nextId: nat,
    callers: seq<Caller>,
    messages: seq<Saved>,
    offers: seq<Saved>,
    reports: map<nat, Data>)     // session id -> its one report

  /** A call arrives, or call `c` gets its next request answered; `fault` says
      that the database fails the request for a reason of its own. */
  datatype Event = Arrive(data: Data) | Request(c: nat, fault: bool)

  // ---- the steps as functions of the state ----

  /** `findUnique({ where: { callId } })` */
  function Find(sessions: map<nat, string>, callId: string, n: nat): (r: Option<nat>)
    ensures r.Some? ==> r.value < n && r.value in sessions && sessions[r.value] == callId
    ensures r.None? ==> forall id: nat | id < n && id in sessions :: sessions[id] != callId
  {
    if n == 0 then None
    else if n - 1 in sessions && sessions[n - 1] == callId then Some(n - 1)
    else Find(sessions, callId, n - 1)
  }

  function MoveTo(s: State, c: nat, pc: Pc): State
    requires c < |s.callers|
  {
    s.(callers := s.callers[c := s.callers[c].(pc := pc)])
  }

  function Save(s: State, id: nat, data: Data): State {
    match data
    case SipMessage(_, _, _, _, _) => s.(messages := s.messages + [Saved(id, data)])
    case MediaOffer(_, _, _, _, _, _) => s.(offers := s.offers + [Saved(id, data)])
    case QosReport(_, _) => s.(reports := s.reports[id := data])
  }

  function Answer(s: State, c: nat): State
    requires c < |s.callers|
  {
    var data := s.callers[c].data;
    match s.callers[c].pc
    case Finding =>
      var found := Find(s.sessions, data.callId, s.nextId);
      MoveTo(s, c, if found.Some? then Saving(found.value) else Creating)
    case Creating =>
      if Find(s.sessions, data.callId, s.nextId).Some? then MoveTo(s, c, Refinding)
      else MoveTo(s.(sessions := s.sessions[s.nextId := data.callId], nextId := s.nextId + 1), c, Saving(s.nextId))
    case Refinding =>
      var found := Find(s.sessions, data.callId, s.nextId);
      MoveTo(s, c, if found.Some? then Saving(found.value) else Failed(UniqueViolation))
    case Saving(id) => MoveTo(Save(s, id, data), c, Finished(id))
    case _ => s
  }

  predicate Ended(pc: Pc) {
    pc.Finished? || pc.Failed?
  }

  function Next(s: State, e: Event): State {
    match e
    case Arrive(data) => s.(callers := s.callers + [Caller(data, Finding)])
    case Request(c, fault) =>
      if c >= |s.callers| || Ended(s.callers[c].pc) then s
      else if fault then MoveTo(s, c, Failed(DbError))
      else Answer(s, c)
  }

  function Run(s: State, events: seq<Event>): State
    decreases events
  {
    if events == [] then s else Run(Next(s, events[0]), events[1..])
  }

  // ---- the service ----

  class SessionService {
    var sessions: map<nat, string>
    var nextId: nat
    var callers: seq<Caller>
    var messages: seq<Saved>
    var offers: seq<Saved>
    var reports: map<nat, Data>

    ghost function View(): State
      reads this
    {
      State(sessions, nextId, callers, messages, offers, reports)
    }

    constructor ()
      ensures View() == State(map[], 0, [], [], [], map[])
    {
      sessions, nextId, callers, messages, offers, reports := map[], 0, [], [], [], map[];
    }

    method Call(data: Data) returns (c: nat)
      modifies this
      ensures View() == Next(old(View()), Arrive(data)) && c == old(|callers|)
    {
      c := |callers|;
      callers := callers + [Caller(data, Finding)];
    }

    /** `sipSession.create`: None is the unique violation P2002. */
    method Create(callId: string) returns (id: Option<nat>)
      modifies this`sessions, this`nextId
      ensures old(Find(sessions, callId, nextId)).Some? ==> id == None && unchanged(this)
      ensures old(Find(sessions, callId, nextId)).None? ==>
        id == Some(old(nextId)) && sessions == old(sessions[nextId := callId]) && nextId == old(nextId) + 1
    {
      if Find(sessions, callId, nextId).Some? {
        return None;
      }
      id := Some(nextId);
      sessions := sessions[nextId := callId];
      nextId := nextId + 1;
    }

    /** The next request of call `c`, up to the point where it awaits again. */
    method Step(c: nat, fault: bool)
      modifies this
      ensures View() == Next(old(View()), Request(c, fault))
    {
      if c >= |callers| || Ended(callers[c].pc) {
        return;
      }
      var data := callers[c].data;
      var pc := callers[c].pc;
      if fault {
        pc := Failed(DbError);
      } else {
        match pc {
          case Finding =>
            var session := Find(sessions, data.callId, nextId);
            pc := if session.Some? then Saving(session.value) else Creating;
          case Creating =>
            var created := Create(data.callId);
            pc := if created.Some? then Saving(created.value) else Refinding;
          case Refinding =>
            var session := Find(sessions, data.callId, nextId);
            pc := if session.Some? then Saving(session.value) else Failed(UniqueViolation);
          case Saving(id) =>
            match data {
              case SipMessage(_, _, _, _, _) => messages := messages + [Saved(id, data)];
              case MediaOffer(_, _, _, _, _, _) => offers := offers + [Saved(id, data)];
              case QosReport(_, _) => reports := reports[id := data];
            }
            pc := Finished(id);
        }
      }
      callers := callers[c := Caller(data, pc)];
    }
  }

  // ---- the invariant ----

  /** `id` is the session of `callId`. */
  predicate IsSession(s: State, id: nat, callId: string) {
    id in s.sessions && s.sessions[id] == callId
  }

  ghost predicate CallerOk(s: State, k: Caller) {
    match k.pc
    case Refinding => exists id: nat :: IsSession(s, id, k.data.callId)
    case Saving(id) => IsSession(s, id, k.data.callId)
    case Finished(id) => IsSession(s, id, k.data.callId)
    case Failed(e) => e == DbError
    case _ => true
  }

  ghost predicate Inv(s: State) {
    && SessionsOk(s)
    && (forall k <- s.callers :: CallerOk(s, k))
    && SavedOk(s)
  }

  ghost const INITIAL := State(map[], 0, [], [], [], map[])

  /** Sessions are never lost or renamed, so what a call knows stays true. */
  lemma KnowledgeIsStable(s: State, s': State, k: Caller)
    requires CallerOk(s, k)
    requires forall id <- s.sessions :: id in s'.sessions && s'.sessions[id] == s.sessions[id]
    ensures CallerOk(s', k)
  {
    if k.pc.Refinding? {
      var id: nat :| IsSession(s, id, k.data.callId);
      assert IsSession(s', id, k.data.callId);
    }
  }

  ghost predicate SessionsStay(s: State, s': State) {
    forall id <- s.sessions :: id in s'.sessions && s'.sessions[id] == s.sessions[id]
  }

  ghost predicate SessionsOk(s: State) {
    && (forall id <- s.sessions :: id < s.nextId)
    && (forall i, j :: i in s.sessions && j in s.sessions && s.sessions[i] == s.sessions[j] ==> i == j)
  }

  ghost predicate SavedOk(s: State) {
    && (forall m <- s.messages :: IsSession(s, m.session, m.data.callId))
    && (forall m <- s.offers :: IsSession(s, m.session, m.data.callId))
    && (forall id <- s.reports :: IsSession(s, id, s.reports[id].callId))
  }

  lemma AnswerSessions(s: State, c: nat)
    requires SessionsOk(s) && c < |s.callers|
    ensures SessionsStay(s, Answer(s, c)) && SessionsOk(Answer(s, c))
  {
    match s.callers[c].pc
    case Finding =>
    case Creating =>
      if Find(s.sessions, s.callers[c].data.callId, s.nextId).Some? {
      } else {
        assert forall id <- s.sessions :: s.sessions[id] != s.callers[c].data.callId;
      }
    case Refinding =>
    case Saving(id) => SaveKeepsSessions(s, id, s.callers[c].data);
    case _ =>
  }

  lemma SaveKeepsSessions(s: State, id: nat, data: Data)
    ensures Save(s, id, data).sessions == s.sessions && Save(s, id, data).nextId == s.nextId
    ensures Save(s, id, data).callers == s.callers
  {}

  lemma NextSessions(s: State, e: Event)
    requires SessionsOk(s)
    ensures SessionsStay(s, Next(s, e)) && SessionsOk(Next(s, e))
  {
    if e.Request? && e.c < |s.callers| && !Ended(s.callers[e.c].pc) && !e.fault {
      AnswerSessions(s, e.c);
    }
  }

  /** What a call saves hangs off the session it knows of. */
  lemma AnswerSaved(s: State, c: nat)
    requires SavedOk(s) && SessionsOk(s) && c < |s.callers| && CallerOk(s, s.callers[c])
    ensures SavedOk(Answer(s, c))
  {
    AnswerSessions(s, c);
    match s.callers[c].pc
    case Saving(id) => SaveOk(s, id, s.callers[c].data);
    case _ =>
  }

  lemma SaveOk(s: State, id: nat, data: Data)
    requires SavedOk(s) && IsSession(s, id, data.callId)
    ensures SavedOk(Save(s, id, data))
  {
    match data
    case SipMessage(_, _, _, _, _) =>
    case MediaOffer(_, _, _, _, _, _) =>
    case QosReport(_, _) =>
  }

  lemma NextSaved(s: State, e: Event)
    requires SavedOk(s) && SessionsOk(s) && forall k <- s.callers :: CallerOk(s, k)
    ensures SavedOk(Next(s, e))
  {
    if e.Request? && e.c < |s.callers| && !Ended(s.callers[e.c].pc) && !e.fault {
      assert CallerOk(s, s.callers[e.c]);
      AnswerSaved(s, e.c);
    }
  }

  /** The call that takes the step ends up in a state it can rely on. */
  lemma StepperOk(s: State, c: nat)
    requires Inv(s) && c < |s.callers| && !Ended(s.callers[c].pc)
    ensures CallerOk(Answer(s, c), Answer(s, c).callers[c])
  {
    var k, s' := s.callers[c], Answer(s, c);
    assert CallerOk(s, k);
    match k.pc
    case Creating =>
      var found := Find(s.sessions, k.data.callId, s.nextId);
      if found.Some? {
        assert IsSession(s', found.value, k.data.callId);
      }
    case Refinding =>
      var id: nat :| IsSession(s, id, k.data.callId);
      assert id < s.nextId;
    case _ =>
  }

  lemma OthersWait(s: State, c: nat, i: nat)
    requires c < |s.callers| && i < |s.callers| && i != c
    ensures |Answer(s, c).callers| == |s.callers| && Answer(s, c).callers[i] == s.callers[i]
  {
    match s.callers[c].pc
    case Saving(id) => SaveKeepsSessions(s, id, s.callers[c].data);
    case _ =>
  }

  lemma CallersLength(s: State, e: Event)
    ensures |Next(s, e).callers| == |s.callers| + if e.Arrive? then 1 else 0
  {
    if e.Request? && e.c < |s.callers| {
      match s.callers[e.c].pc
      case Saving(id) => SaveKeepsSessions(s, id, s.callers[e.c].data);
      case _ =>
    }
  }

  lemma NextKeepsCaller(s: State, e: Event, i: nat)
    requires Inv(s) && i < |Next(s, e).callers|
    ensures CallerOk(Next(s, e), Next(s, e).callers[i])
  {
    NextSessions(s, e);
    CallersLength(s, e);
    match e
    case Arrive(data) =>
      if i < |s.callers| {
        assert CallerOk(s, s.callers[i]);
        KnowledgeIsStable(s, Next(s, e), s.callers[i]);
      }
    case Request(c, fault) =>
      assert CallerOk(s, s.callers[i]);
      if c < |s.callers| && !Ended(s.callers[c].pc) {
        if i != c {
          OthersWait(s, c, i);
          KnowledgeIsStable(s, Next(s, e), s.callers[i]);
        } else if !fault {
          StepperOk(s, c);
        }
      }
  }

  lemma NextKeepsInv(s: State, e: Event)
    requires Inv(s)
    ensures Inv(Next(s, e))
  {
    NextSessions(s, e);
    NextSaved(s, e);
    forall i | 0 <= i < |Next(s, e).callers| ensures CallerOk(Next(s, e), Next(s, e).callers[i]) {
      NextKeepsCaller(s, e, i);
    }
  }

  lemma {:induction false} RunKeepsInv(s: State, events: seq<Event>)
    requires Inv(s)
    ensures Inv(Run(s, events))
    decreases events
  {
    if events != [] {
      NextKeepsInv(s, events[0]);
      RunKeepsInv(Next(s, events[0]), events[1..]);
    }
  }

  // ---- main results ----

  /** Under every interleaving there is at most one session for a call id, every
      finished call has found that one, no call ends in the rethrow of the unique
      violation, and whatever was saved hangs off the session of its own call id. */
  lemma SafeUnderEveryInterleaving(events: seq<Event>)
    ensures var s := Run(INITIAL, events);
      && (forall i, j :: i in s.sessions && j in s.sessions && s.sessions[i] == s.sessions[j] ==> i == j)
      && (forall k <- s.callers :: k.pc != Failed(UniqueViolation))
      && (forall k <- s.callers :: k.pc.Finished? ==> IsSession(s, k.pc.session, k.data.callId))
      && (forall m <- s.messages + s.offers :: IsSession(s, m.session, m.data.callId))
      && (forall id <- s.reports :: IsSession(s, id, s.reports[id].callId))
  {
    RunKeepsInv(INITIAL, events);
    var s := Run(INITIAL, events);
    forall k | k in s.callers ensures k.pc != Failed(UniqueViolation) && (k.pc.Finished? ==> IsSession(s, k.pc.session, k.data.callId)) {
      assert CallerOk(s, k);
    }
  }

  /** Two calls with the same call id that both finish agree on the session. */
  lemma FinishedCallsAgree(events: seq<Event>, a: nat, b: nat)
    requires var s := Run(INITIAL, events);
      && a < |s.callers| && b < |s.callers|
      && s.callers[a].data.callId == s.callers[b].data.callId
      && s.callers[a].pc.Finished? && s.callers[b].pc.Finished?
    ensures var s := Run(INITIAL, events); s.callers[a].pc.session == s.callers[b].pc.session
  {
    SafeUnderEveryInterleaving(events);
    var s := Run(INITIAL, events);
    assert s.callers[a] in s.callers && s.callers[b] in s.callers;
  }

  /** The requests a call still has to make, at most. */
  function Left(pc: Pc): nat {
    match pc
    case Finding => 4
    case Creating => 3
    case Refinding => 2
    case Saving(_) => 1
    case _ => 0
  }

  /** The answered requests of call `c`. */
  function Turns(events: seq<Event>, c: nat): nat {
    if events == [] then 0
    else (if events[0] == Request(c, false) then 1 else 0) + Turns(events[1..], c)
  }

  /** One step brings the call that takes it closer to its end and leaves the
      others where they are. */
  lemma StepProgress(s: State, e: Event, c: nat)
    requires Inv(s) && c < |s.callers| && !s.callers[c].pc.Failed? && e != Request(c, true)
    ensures var k := Next(s, e).callers;
      && c < |k| && !k[c].pc.Failed? && k[c].data == s.callers[c].data
      && if e == Request(c, false) && Left(s.callers[c].pc) > 0 then Left(k[c].pc) < Left(s.callers[c].pc)
         else k[c].pc == s.callers[c].pc
  {
    if e.Request? && e.c == c && !Ended(s.callers[c].pc) {
      StepperOk(s, c);
      var pc := Answer(s, c).callers[c].pc;
      if s.callers[c].pc.Refinding? {
        assert CallerOk(s, s.callers[c]);
        var id: nat :| IsSession(s, id, s.callers[c].data.callId);
        assert id < s.nextId;
      }
    }
  }

  /** No call waits for another: however the others are scheduled, a call that has
      arrived and suffers no database fault is finished after at most four requests
      of its own. */
  lemma {:induction false} WaitFree(s: State, events: seq<Event>, c: nat)
    requires Inv(s) && c < |s.callers| && !s.callers[c].pc.Failed?
    requires Request(c, true) !in events
    ensures c < |Run(s, events).callers|
    ensures var k := Run(s, events).callers[c];
      && !k.pc.Failed? && k.data == s.callers[c].data
      && (Turns(events, c) >= Left(s.callers[c].pc) ==> k.pc.Finished?)
    decreases events
  {
    if events != [] {
      var e, more := events[0], events[1..];
      assert e in events && forall x <- more :: x in events;
      NextKeepsInv(s, e);
      StepProgress(s, e, c);
      WaitFree(Next(s, e), more, c);
    }
  }

  predicate Asked(s: State, i: nat, callId: string) {
    i < |s.callers| && s.callers[i].data.callId == callId
  }

  /** Every session stands for a call id some call arrived with. */
  ghost predicate Wanted(s: State) {
    forall id <- s.sessions :: exists i: nat :: Asked(s, i, s.sessions[id])
  }

  lemma AskedStays(s: State, e: Event, i: nat, callId: string)
    requires Asked(s, i, callId)
    ensures Asked(Next(s, e), i, callId)
  {}

  /** The only session a step can add is the one its call asked for. */
  lemma AddedSession(s: State, e: Event, id: nat)
    requires id in Next(s, e).sessions
    ensures var s' := Next(s, e);
      (id in s.sessions && s'.sessions[id] == s.sessions[id]) || (e.Request? && Asked(s', e.c, s'.sessions[id]))
  {}

  lemma NextKeepsWanted(s: State, e: Event)
    requires Wanted(s)
    ensures Wanted(Next(s, e))
  {
    var s' := Next(s, e);
    forall id | id in s'.sessions ensures exists i: nat :: Asked(s', i, s'.sessions[id]) {
      AddedSession(s, e, id);
      if id in s.sessions && s'.sessions[id] == s.sessions[id] {
        var i: nat :| Asked(s, i, s.sessions[id]);
        AskedStays(s, e, i, s.sessions[id]);
      }
    }
  }

  lemma {:induction false} SessionsAreWanted(s: State, events: seq<Event>)
    requires Wanted(s)
    ensures Wanted(Run(s, events))
    decreases events
  {
    if events != [] {
      NextKeepsWanted(s, events[0]);
      SessionsAreWanted(Next(s, events[0]), events[1..]);
    }
  }
}
