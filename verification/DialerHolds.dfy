/** Customers on hold: who waits with a timer, and whom the call limit counts. */
module DialerHolds {
  import opened Text
  import opened Leads
  import opened DialerState
  import opened DialerInvariants
  import opened DialerFrames

  /** The call's hold entry has a live timer of its own. */
  predicate Timed(held: map<nat, HoldEntry>, timers: map<nat, HoldTimer>, log: nat)
    requires log in held
  {
    held[log].channelId in timers && timers[held[log].channelId] == HoldTimer(log, true)
  }

  predicate LiveTimer(s: Dialer, ch: nat) {
    ch in s.timers && s.timers[ch].live
  }

  // ---- the tables under each event ----

  /** The event enters the customer into Stasis. */
  predicate Holds(s: Dialer, e: Event, ch: nat) {
    e == EvStasis(ch) && Enabled(s, e)
  }

  /** The event bridges the customer with an agent leg. */
  predicate Bridges(s: Dialer, e: Event, ch: nat) {
    && e.EvUp? && e.ch in s.channels && s.channels[e.ch].role == Agent
    && Leg(s, s.channels[e.ch].callLogId, Customer) == Some(ch)
  }

  /** The event tries to pair the customer when no agent is free. */
  predicate Unpaired(s: Dialer, e: Event, ch: nat) {
    e.EvUp? && e.ch == ch && ch in s.channels && s.channels[ch].role == Customer && FreeAgents(s.agents, 0) == {}
  }

  lemma StasisTables(s: Dialer, ch: nat)
    requires ch in s.channels && s.channels[ch].role == Customer
    ensures var s', log := Next(s, EvStasis(ch)), s.channels[ch].callLogId;
      && s'.timers == s.timers[ch := HoldTimer(log, true)]
      && s'.held == s.held[log := Structured(ch, CompanyOf(s, log))]
  {}

  lemma AgentStasisTables(s: Dialer, ch: nat, logVar: Option<nat>)
    ensures StasisStart(s, ch, Agent, logVar, None, "").held == s.held
    ensures StasisStart(s, ch, Agent, logVar, None, "").timers == s.timers
  {}

  lemma PairTables(s: Dialer, ch: nat, pick: nat)
    requires ch in s.channels
    ensures PairCustomer(s, ch, pick).timers == s.timers
    ensures PairCustomer(s, ch, pick).held ==
      if FreeAgents(s.agents, 0) == {} then s.held[s.channels[ch].callLogId := Bare(ch)] else s.held
  {
    if FreeAgents(s.agents, 0) == {} {
    } else if s.channels[ch].callLogId !in s.logs {
    } else {
    }
  }

  lemma BridgeTables(s: Dialer, ch: nat)
    requires ch in s.channels
    ensures var log, s' := s.channels[ch].callLogId, BridgeAgent(s, ch);
      var customer := Leg(s, log, Customer);
      && s'.held == (if customer.Some? then s.held - {log} else s.held)
      && s'.timers == if customer.Some? then s.timers - {customer.value} else s.timers
  {
    var log := s.channels[ch].callLogId;
    if Leg(s, log, Customer).None? {
    } else if log !in s.logs {
    } else {
    }
  }

  lemma TimerTables(s: Dialer, ch: nat)
    requires TimersOk(s.channels, s.timers) && ch in s.timers
    ensures var log, s' := s.timers[ch].callLogId, TimerFires(s, ch);
      && s'.timers == s.timers[ch := HoldTimer(log, false)]
      && s'.held == if log in s.logs then s.held - {log} else s.held
  {
    assert IsLeg(s.channels, ch, s.timers[ch].callLogId, Customer);
    if s.timers[ch].callLogId in s.logs {
    } else {
    }
  }

  lemma DestroyedTables(s: Dialer, ch: nat)
    requires LegsOk(s)
    ensures Destroyed(s, ch).timers == s.timers - {ch}
    ensures Destroyed(s, ch).held == if ch in s.channels then s.held - {s.channels[ch].callLogId} else s.held
  {
    if ch !in s.channels {
      assert ch !in s.timers;
      assert s.timers - {ch} == s.timers;
    }
  }

  /** The channel's timers after an event. */
  function TimersAfter(s: Dialer, e: Event): map<nat, HoldTimer> {
    if !Enabled(s, e) then s.timers
    else match e
      case EvStasis(ch) => s.timers[ch := HoldTimer(s.channels[ch].callLogId, true)]
      case EvUp(ch, _) =>
        if ch !in s.channels || s.channels[ch].role == Customer then s.timers
        else
          var customer := Leg(s, s.channels[ch].callLogId, Customer);
          if customer.Some? then s.timers - {customer.value} else s.timers
      case EvDestroyed(ch) => s.timers - {ch}
      case EvTimer(ch) => s.timers[ch := HoldTimer(s.timers[ch].callLogId, false)]
      case _ => s.timers
  }

  /** The hold queue after an event. */
  function HeldAfter(s: Dialer, e: Event): map<nat, HoldEntry> {
    if !Enabled(s, e) then s.held
    else match e
      case EvStasis(ch) =>
        s.held[s.channels[ch].callLogId := Structured(ch, CompanyOf(s, s.channels[ch].callLogId))]
      case EvUp(ch, _) =>
        if ch !in s.channels then s.held
        else
          var log := s.channels[ch].callLogId;
          if s.channels[ch].role == Customer then if FreeAgents(s.agents, 0) == {} then s.held[log := Bare(ch)] else s.held
          else if Leg(s, log, Customer).Some? then s.held - {log}
          else s.held
      case EvDestroyed(ch) => if ch in s.channels then s.held - {s.channels[ch].callLogId} else s.held
      case EvTimer(ch) => if s.timers[ch].callLogId in s.logs then s.held - {s.timers[ch].callLogId} else s.held
      case _ => s.held
  }

  lemma EventHolds(s: Dialer, e: Event)
    requires LegsOk(s)
    ensures Next(s, e).timers == TimersAfter(s, e) && Next(s, e).held == HeldAfter(s, e)
  {
    EventTables(s, e);
    if Enabled(s, e) {
      match e
      case EvStasis(c) => StasisTables(s, c);
      case EvAgentStasis(c, logVar) => AgentStasisTables(s, c, logVar);
      case EvUp(c, pick) =>
        if c in s.channels {
          if s.channels[c].role == Customer {
            PairTables(s, c, pick);
          } else {
            BridgeTables(s, c);
          }
        }
      case EvDestroyed(c) => DestroyedTables(s, c);
      case EvTimer(c) => TimerTables(s, c);
      case _ =>
    }
  }

  // ---- histories ----

  /** What StasisStart gives a customer, and something else takes away. */
  datatype Gift = HasTimer | IsCounted

  /** The event takes it away: firing or bridging the timer; a failed pairing the
      place in the call limit's count. */
  predicate Takes(gift: Gift, s: Dialer, e: Event, ch: nat) {
    match gift
    case HasTimer => (e == EvTimer(ch) && Enabled(s, e)) || Bridges(s, e, ch)
    case IsCounted => Unpaired(s, e, ch)
  }

  /** Among the events of the run that give it and those that take it away, the last
      is one that gives it: the customer's StasisStart. */
  ghost predicate StasisIsLast(gift: Gift, s: Dialer, events: seq<Event>, ch: nat) {
    exists i: nat :: i < |events| && HeldSince(gift, s, events, ch, i)
  }

  ghost predicate HeldSince(gift: Gift, s: Dialer, events: seq<Event>, ch: nat, i: nat)
    requires i < |events|
  {
    && Holds(Run(s, events[..i]), events[i], ch)
    && forall j: nat :: i < j < |events| ==> !Takes(gift, Run(s, events[..j]), events[j], ch)
  }

  lemma {:induction false} RunSnoc(s: Dialer, events: seq<Event>, e: Event)
    ensures Run(s, events + [e]) == Next(Run(s, events), e)
    decreases events
  {
    if events == [] {
      assert [e][1..] == [];
      assert [] + [e] == [e];
    } else {
      assert (events + [e])[0] == events[0] && (events + [e])[1..] == events[1..] + [e];
      RunSnoc(Next(s, events[0]), events[1..], e);
    }
  }

  lemma LastSnoc(gift: Gift, s: Dialer, init: seq<Event>, e: Event, ch: nat)
    ensures var s1 := Run(s, init);
      StasisIsLast(gift, s, init + [e], ch) <==>
        Holds(s1, e, ch) || (StasisIsLast(gift, s, init, ch) && !Takes(gift, s1, e, ch))
  {
    var events, s1, n := init + [e], Run(s, init), |init|;
    assert forall j: nat :: j <= n ==> events[..j] == init[..j];
    assert init[..n] == init;
    if Holds(s1, e, ch) {
      assert HeldSince(gift, s, events, ch, n);
    } else if StasisIsLast(gift, s, init, ch) && !Takes(gift, s1, e, ch) {
      var i: nat :| i < n && HeldSince(gift, s, init, ch, i);
      assert HeldSince(gift, s, events, ch, i);
    }
    if StasisIsLast(gift, s, events, ch) && !Holds(s1, e, ch) {
      var i: nat :| i < n + 1 && HeldSince(gift, s, events, ch, i);
      assert i != n;
      assert HeldSince(gift, s, init, ch, i);
      assert !Takes(gift, Run(s, events[..n]), events[n], ch);
    }
  }

  // ---- timers ----

  lemma TimersAfterStep(s: Dialer, e: Event, ch: nat)
    requires e != EvDestroyed(ch)
    ensures ch in TimersAfter(s, e) && TimersAfter(s, e)[ch].live <==>
      Holds(s, e, ch) || (LiveTimer(s, ch) && !Takes(HasTimer, s, e, ch))
  {}

  /** A registered channel's timer is live after an event exactly when the event is
      its StasisStart, or it was live before and the event is neither its firing
      nor a bridge. */
  lemma TimerStep(s: Dialer, e: Event, ch: nat)
    requires LegsOk(s) && ch in Next(s, e).channels
    ensures LiveTimer(Next(s, e), ch) <==> Holds(s, e, ch) || (LiveTimer(s, ch) && !Takes(HasTimer, s, e, ch))
  {
    EventHolds(s, e);
    if e == EvDestroyed(ch) {
      DestroyedFrame(s, ch);
    } else {
      TimersAfterStep(s, e, ch);
    }
  }

  lemma {:induction false} TimerHistory(agents: map<nat, AgentRow>, leads: LeadState, events: seq<Event>, ch: nat)
    requires Within(leads.table, leads.nextId)
    ensures var s := Run(Start(agents, leads), events);
      && (StasisIsLast(HasTimer, Start(agents, leads), events, ch) ==> ch < s.nextChannel)
      && (ch in s.channels ==> (LiveTimer(s, ch) <==> StasisIsLast(HasTimer, Start(agents, leads), events, ch)))
    decreases |events|
  {
    if events != [] {
      var init, e := events[..|events| - 1], events[|events| - 1];
      var s := Run(Start(agents, leads), init);
      assert events == init + [e];
      TimerHistory(agents, leads, init, ch);
      RunKeepsInv(Start(agents, leads), init);
      RunSnoc(Start(agents, leads), init, e);
      LastSnoc(HasTimer, Start(agents, leads), init, e, ch);
      EventLegs(s, e);
      if ch in Next(s, e).channels {
        TimerStep(s, e, ch);
      }
    }
  }

  /** In every reachable state a held customer has a live hold timer if and only if
      the last event among its StasisStart, the firing of its timer and the bridging
      of its call is the StasisStart. */
  lemma HeldCustomerIsTimedIff(agents: map<nat, AgentRow>, leads: LeadState, events: seq<Event>, log: nat)
    requires Within(leads.table, leads.nextId)
    requires log in Run(Start(agents, leads), events).held
    ensures var s := Run(Start(agents, leads), events);
      Timed(s.held, s.timers, log) <==> StasisIsLast(HasTimer, Start(agents, leads), events, s.held[log].channelId)
  {
    var s := Run(Start(agents, leads), events);
    ReachableLegsOk(agents, leads, events);
    var ch := s.held[log].channelId;
    assert IsLeg(s.channels, ch, log, Customer);
    TimerHistory(agents, leads, events, ch);
    if ch in s.timers {
      assert IsLeg(s.channels, ch, s.timers[ch].callLogId, Customer);
    }
  }

  // ---- the call limit's count ----

  lemma HeldAfterStep(s: Dialer, e: Event, log: nat)
    requires log in HeldAfter(s, e)
    requires (e.EvStasis? || e.EvUp?) && e.ch in s.channels && s.channels[e.ch].callLogId != log && log in s.held ==>
      s.held[log].channelId != e.ch
    ensures var entry := HeldAfter(s, e)[log];
      if Holds(s, e, entry.channelId) then entry.Structured?
      else if Unpaired(s, e, entry.channelId) then entry.Bare?
      else log in s.held && entry == s.held[log]
  {}

  /** A call held after an event was held before with the same entry, unless the
      event held it. */
  lemma HeldStep(s: Dialer, e: Event, log: nat)
    requires LegsOk(s) && log in Next(s, e).held
    ensures var entry := Next(s, e).held[log];
      if Holds(s, e, entry.channelId) then entry.Structured?
      else if Unpaired(s, e, entry.channelId) then entry.Bare?
      else log in s.held && entry == s.held[log]
  {
    EventHolds(s, e);
    if (e.EvStasis? || e.EvUp?) && e.ch in s.channels {
      OtherCalls(s, e.ch, log);
    }
    HeldAfterStep(s, e, log);
  }

  /** The hold entry of another call names another channel. */
  lemma OtherCalls(s: Dialer, c: nat, log: nat)
    requires HeldOk(s.channels, s.held) && c in s.channels
    ensures log in s.held && s.channels[c].callLogId != log ==> s.held[log].channelId != c
  {
    if log in s.held {
      assert IsLeg(s.channels, s.held[log].channelId, log, Customer);
    }
  }

  /** In every reachable state the call limit counts a held customer, for the
      company of its entry, if and only if the last event among its StasisStart and
      its failed pairings is the StasisStart. */
  lemma {:induction false} HeldCustomerIsCountedIff(agents: map<nat, AgentRow>, leads: LeadState, events: seq<Event>, log: nat)
    requires Within(leads.table, leads.nextId)
    requires log in Run(Start(agents, leads), events).held
    ensures var held := Run(Start(agents, leads), events).held;
      (exists company :: log in CountedHeld(held, company)) <==>
        StasisIsLast(IsCounted, Start(agents, leads), events, held[log].channelId)
    decreases |events|
  {
    var held := Run(Start(agents, leads), events).held;
    assert held[log].Structured? <==> exists company :: log in CountedHeld(held, company) by {
      if held[log].Structured? {
        assert log in CountedHeld(held, held[log].company);
      }
    }
    if events != [] {
      var init, e := events[..|events| - 1], events[|events| - 1];
      var s, ch := Run(Start(agents, leads), init), held[log].channelId;
      assert events == init + [e];
      RunKeepsInv(Start(agents, leads), init);
      RunSnoc(Start(agents, leads), init, e);
      LastSnoc(IsCounted, Start(agents, leads), init, e, ch);
      HeldStep(s, e, log);
      if !Holds(s, e, ch) && !Unpaired(s, e, ch) {
        HeldCustomerIsCountedIff(agents, leads, init, log);
        if s.held[log].Structured? {
          assert log in CountedHeld(s.held, s.held[log].company);
        }
      }
    }
  }

  // ---- held customers time out ----

  /** A customer held by StasisStart whose call log exists has a live timer. */
  ghost predicate HoldsTimed(s: Dialer) {
    forall log <- s.held :: s.held[log].Structured? && log in s.logs ==> Timed(s.held, s.timers, log)
  }

  /** What takes a held customer's timer away ends the hold, if the log exists. */
  lemma TimerTakenEndsHold(s: Dialer, e: Event, log: nat)
    requires LegsOk(s) && log in s.held && log in s.logs && Takes(HasTimer, s, e, s.held[log].channelId)
    ensures log !in Next(s, e).held
  {
    var ch := s.held[log].channelId;
    assert IsLeg(s.channels, ch, log, Customer);
    EventHolds(s, e);
    if e == EvTimer(ch) {
      assert IsLeg(s.channels, ch, s.timers[ch].callLogId, Customer);
    }
  }

  lemma HeldKeepsTimer(s: Dialer, e: Event, log: nat)
    requires Inv(s) && HoldsTimed(s)
    requires log in Next(s, e).held && Next(s, e).held[log].Structured? && log in Next(s, e).logs
    ensures Timed(Next(s, e).held, Next(s, e).timers, log)
  {
    var s' := Next(s, e);
    var ch := s'.held[log].channelId;
    NextKeepsInv(s, e);
    assert IsLeg(s'.channels, ch, log, Customer);
    TimerStep(s, e, ch);
    HeldStep(s, e, log);
    if !Holds(s, e, ch) {
      assert IsLeg(s.channels, ch, log, Customer);
      EventLogs(s, e);
      assert Timed(s.held, s.timers, log);
      if Takes(HasTimer, s, e, ch) {
        TimerTakenEndsHold(s, e, log);
      }
    }
    assert IsLeg(s'.channels, ch, s'.timers[ch].callLogId, Customer);
  }

  lemma NextHolds(s: Dialer, e: Event)
    requires Inv(s) && HoldsTimed(s)
    ensures HoldsTimed(Next(s, e))
  {
    var s' := Next(s, e);
    forall log | log in s'.held && s'.held[log].Structured? && log in s'.logs ensures Timed(s'.held, s'.timers, log) {
      HeldKeepsTimer(s, e, log);
    }
  }

  lemma {:induction false} RunHolds(s: Dialer, events: seq<Event>)
    requires Inv(s) && HoldsTimed(s)
    ensures HoldsTimed(Run(s, events))
    decreases events
  {
    if events != [] {
      NextKeepsInv(s, events[0]);
      NextHolds(s, events[0]);
      RunHolds(Next(s, events[0]), events[1..]);
    }
  }

  /** In every reachable state a customer held by StasisStart, whose call log has not
      been deleted, has a live hold timer. It can fire, and firing it marks that
      call NO_ANSWER, asks to hang up that customer and takes that entry, and no
      other, off the hold queue. */
  lemma HeldCustomersTimeOut(agents: map<nat, AgentRow>, leads: LeadState, events: seq<Event>, log: nat)
    requires Within(leads.table, leads.nextId)
    requires var s := Run(Start(agents, leads), events); log in s.held && s.held[log].Structured? && log in s.logs
    ensures var s := Run(Start(agents, leads), events);
      var ch := s.held[log].channelId;
      var s' := Next(s, EvTimer(ch));
      && Enabled(s, EvTimer(ch))
      && s'.held == s.held - {log}
      && log in s'.logs && s'.logs[log].status == NoAnswer
      && s'.trace == s.trace + [WriteLog(log, NoAnswer), Hangup(ch)]
  {
    ReachableLegsOk(agents, leads, events);
    RunHolds(Start(agents, leads), events);
    var s := Run(Start(agents, leads), events);
    assert Timed(s.held, s.timers, log);
    FiredTimer(s, s.held[log].channelId);
  }

  lemma FiredTimer(s: Dialer, ch: nat)
    requires TimersOk(s.channels, s.timers) && ch in s.timers && s.timers[ch].callLogId in s.logs
    ensures var s', log := TimerFires(s, ch), s.timers[ch].callLogId;
      && s'.held == s.held - {log} && log in s'.logs && s'.logs[log].status == NoAnswer
      && s'.trace == s.trace + [WriteLog(log, NoAnswer), Hangup(ch)]
  {
    assert IsLeg(s.channels, ch, s.timers[ch].callLogId, Customer);
    TimerFrame(s, ch);
  }
}
