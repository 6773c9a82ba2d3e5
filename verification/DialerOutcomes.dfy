/** The outcome a call and its lead are left with once both legs are gone. The
    second destruction finds a final status in the log and falls back to
    NO_ANSWER, so which leg goes first decides what is recorded. */
module DialerOutcomes {
  import opened Text
  import opened Leads
  import opened DialerState
  import opened DialerInvariants
  import opened DialerFrames
  import opened DialerTeardown

  // ---- the call log ----

  /** The status after the destructions of a chain of `legs` legs. */
  function Settled(status: CallStatus, legs: nat): CallStatus {
    if legs == 0 then status else if legs == 1 then FinalStatus(status) else FinalStatus(FinalStatus(status))
  }

  lemma DestroyedStatus(s: Dialer, ch: nat)
    requires ch in s.channels && s.channels[ch].callLogId in s.logs
    ensures Destroyed(s, ch).logs.Keys == s.logs.Keys
    ensures var log := s.channels[ch].callLogId;
      log in Destroyed(s, ch).logs && Destroyed(s, ch).logs[log].status == FinalStatus(s.logs[log].status)
    ensures Destroyed(s, ch).channels == s.channels - {ch}
  {}

  /** A teardown leaves the log in the status its chain of destructions settles. */
  lemma {:induction false} TeardownSettles(s: Dialer, ch: nat)
    requires ch in s.channels && s.channels[ch].callLogId in s.logs
    ensures var log := s.channels[ch].callLogId;
      log in Teardown(s, ch).logs && Teardown(s, ch).logs[log].status == Settled(s.logs[log].status, |Chain(s, ch)|)
    decreases |s.channels|
  {
    DestroyedStatus(s, ch);
    Fewer(s.channels, ch);
    ChainStep(s, ch);
    if Paired(s, ch).Some? {
      PartnerStays(s, ch);
      TeardownSettles(Destroyed(s, ch), Paired(s, ch).value);
    }
  }

  /** A call that was connected ends as HUNGUP exactly when no leg in the other
      role is registered any more; otherwise the partner's destruction overwrites
      HUNGUP with NO_ANSWER. */
  lemma ConnectedEndsHungUpIff(s: Dialer, ch: nat)
    requires LegsOk(s) && ch in s.channels && s.channels[ch].callLogId in s.logs
    requires s.logs[s.channels[ch].callLogId].status == Connected
    ensures var log := s.channels[ch].callLogId;
      && log in Teardown(s, ch).logs
      && (Teardown(s, ch).logs[log].status == HungUp <==> Legs(s.channels, log, OtherRole(s.channels[ch].role)) == {})
      && (Teardown(s, ch).logs[log].status != HungUp ==> Teardown(s, ch).logs[log].status == NoAnswer)
  {
    TeardownSettles(s, ch);
    LegIff(s, s.channels[ch].callLogId, OtherRole(s.channels[ch].role));
    ChainStep(s, ch);
  }

  // ---- the lead ----

  /** Only customer legs carry a lead. */
  ghost predicate Leadless(channels: map<nat, Meta>) {
    forall c <- channels :: channels[c].role == Agent ==> channels[c].leadId == None
  }

  lemma NextLeadless(s: Dialer, e: Event)
    requires IdsOk(s) && Leadless(s.channels)
    ensures Leadless(Next(s, e).channels)
  {
    EventLegs(s, e);
  }

  lemma {:induction false} RunLeadless(s: Dialer, events: seq<Event>)
    requires Inv(s) && Leadless(s.channels)
    ensures Leadless(Run(s, events).channels)
    decreases events
  {
    if events != [] {
      NextKeepsInv(s, events[0]);
      NextLeadless(s, events[0]);
      RunLeadless(Next(s, events[0]), events[1..]);
    }
  }

  lemma AgentWritesNoLead(s: Dialer, ch: nat)
    requires ch in s.channels && s.channels[ch].leadId == None
    ensures Destroyed(s, ch).leads.table == s.leads.table
  {}

  lemma CustomerWritesLead(s: Dialer, c: nat, lead: nat)
    requires c in s.channels && s.channels[c].leadId == Some(lead) && lead in s.leads.table
    requires s.channels[c].callLogId in s.logs
    ensures lead in Destroyed(s, c).leads.table
    ensures Destroyed(s, c).leads.table[lead].contactStatus == ContactOf(FinalStatus(s.logs[s.channels[c].callLogId].status))
  {}

  /** The customer goes first: its lead gets the outcome of the log as it stands. */
  lemma CustomerFirst(s: Dialer, c: nat, lead: nat)
    requires LegsOk(s) && Leadless(s.channels) && c in s.channels && s.channels[c].role == Customer
    requires s.channels[c].callLogId in s.logs
    requires s.channels[c].leadId == Some(lead) && lead in s.leads.table
    ensures lead in Teardown(s, c).leads.table
    ensures Teardown(s, c).leads.table[lead].contactStatus ==
      ContactOf(FinalStatus(s.logs[s.channels[c].callLogId].status))
  {
    CustomerWritesLead(s, c, lead);
    Fewer(s.channels, c);
    if Paired(s, c).Some? {
      var log := s.channels[c].callLogId;
      var s1, a := Destroyed(s, c), Paired(s, c).value;
      assert s1.channels == s.channels - {c};
      assert s1.channels[a] == s.channels[a];
      OnlyCustomer(s, c);
      DestroyedRemainingLegs(s, c, log, Customer);
      DestroyedKeepsOthers(s, c);
      LegIff(s1, log, Customer);
      assert Teardown(s, c) == Teardown(s1, a) == Destroyed(s1, a);
      AgentWritesNoLead(s1, a);
    }
  }

  /** Whichever leg goes first, the lead of the call gets the outcome of the log
      as the customer's destruction finds it: the log as it stands when the
      customer goes first, the log the agent's destruction has already closed
      when the agent does. */
  lemma TeardownWritesLead(s: Dialer, ch: nat, c: nat, lead: nat)
    requires LegsOk(s) && Leadless(s.channels) && ch in s.channels
    requires IsLeg(s.channels, c, s.channels[ch].callLogId, Customer)
    requires s.channels[ch].callLogId in s.logs
    requires s.channels[c].leadId == Some(lead) && lead in s.leads.table
    ensures lead in Teardown(s, ch).leads.table
    ensures Teardown(s, ch).leads.table[lead].contactStatus ==
      ContactOf(Settled(s.logs[s.channels[ch].callLogId].status, if ch == c then 1 else 2))
  {
    if s.channels[ch].role == Customer {
      assert IsLeg(s.channels, ch, s.channels[ch].callLogId, Customer);
      assert ch == c;
      CustomerFirst(s, c, lead);
    } else {
      AgentFirst(s, ch, c, lead);
    }
  }

  lemma AgentFirst(s: Dialer, ch: nat, c: nat, lead: nat)
    requires LegsOk(s) && Leadless(s.channels) && ch in s.channels && s.channels[ch].role == Agent
    requires IsLeg(s.channels, c, s.channels[ch].callLogId, Customer)
    requires s.channels[ch].callLogId in s.logs
    requires s.channels[c].leadId == Some(lead) && lead in s.leads.table
    ensures lead in Teardown(s, ch).leads.table
    ensures Teardown(s, ch).leads.table[lead].contactStatus ==
      ContactOf(FinalStatus(FinalStatus(s.logs[s.channels[ch].callLogId].status)))
  {
    var log, s1 := s.channels[ch].callLogId, Destroyed(s, ch);
    OnlyCustomer(s, c);
    LegIff(s, log, Customer);
    assert Paired(s, ch) == Some(c);
    Fewer(s.channels, ch);
    DestroyedStatus(s, ch);
    DestroyedKeepsOthers(s, ch);
    NextLeadless(s, EvDestroyed(ch));
    AgentWritesNoLead(s, ch);
    CustomerFirst(s1, c, lead);
  }

  /** In every reachable state, the teardown of a connected call records its lead
      as answered exactly when the customer leg is the one that goes first; when
      the agent leg goes first the lead is recorded as not having answered. */
  lemma AnsweredIffCustomerFirst(agents: map<nat, AgentRow>, leads: LeadState, events: seq<Event>, ch: nat, c: nat, lead: nat)
    requires Within(leads.table, leads.nextId)
    requires var s := Run(Start(agents, leads), events);
      && ch in s.channels && IsLeg(s.channels, c, s.channels[ch].callLogId, Customer)
      && s.channels[c].leadId == Some(lead) && lead in s.leads.table
      && s.channels[ch].callLogId in s.logs && s.logs[s.channels[ch].callLogId].status == Connected
    ensures var t := Teardown(Run(Start(agents, leads), events), ch);
      && lead in t.leads.table
      && t.leads.table[lead].contactStatus == if ch == c then ContactAnswered else ContactNoAnswer
  {
    ReachableLegsOk(agents, leads, events);
    RunLeadless(Start(agents, leads), events);
    TeardownWritesLead(Run(Start(agents, leads), events), ch, c, lead);
  }

  // ---- a transferred customer ----

  /** Closing a blind transfer asks to hang up the agent leg. Whatever happens then,
      the destruction of that leg asks to hang up the transferred customer, and no
      one else, exactly when the customer is still registered by then. */
  lemma TransferredCustomerIsHungUpIff(s: Dialer, log: nat, events: seq<Event>)
    requires Inv(s) && log in s.transfers
    requires s.transfers[log].agentChannelId in Run(FinishTransfer(s, log), events).channels
    ensures var t, s2 := s.transfers[log], Run(FinishTransfer(s, log), events);
      && Hangup(t.agentChannelId) in FinishTransfer(s, log).trace
      && Destroyed(s2, t.agentChannelId).trace == s2.trace + OutcomeActs(s2, s2.channels[t.agentChannelId])
           + if t.customerChannelId in s2.channels then [Hangup(t.customerChannelId)] else []
  {
    var t, s1 := s.transfers[log], FinishTransfer(s, log);
    var s2 := Run(s1, events);
    FinishKeeps(s, log);
    FinishFrame(s, log);
    PartnerAfterRun(s1, log, t.customerChannelId, t.agentChannelId, events);
    DestroyedPartner(s2, t.agentChannelId, if t.customerChannelId in s2.channels then Some(t.customerChannelId) else None);
  }

  /** After any run an agent leg's partner is the customer its call had before, or,
      when that one is gone, no one. */
  lemma PartnerAfterRun(s: Dialer, log: nat, customer: nat, agent: nat, events: seq<Event>)
    requires Inv(s) && IsLeg(s.channels, customer, log, Customer) && IsLeg(s.channels, agent, log, Agent)
    requires agent in Run(s, events).channels
    ensures var s2 := Run(s, events);
      Paired(s2, agent) == if customer in s2.channels then Some(customer) else None
  {
    var s2 := Run(s, events);
    RunKeepsInv(s, events);
    RunLegs(s, events, agent);
    OnlyCustomer(s, customer);
    forall c: nat | IsLeg(s.channels, c, log, Customer) ensures c == customer {
      assert c in Legs(s.channels, log, Customer);
    }
    RunKeepsSole(s, events, log, customer);
    LegIff(s2, log, Customer);
    if customer in s2.channels {
      RunLegs(s, events, customer);
      assert customer in Legs(s2.channels, log, Customer);
    }
  }

  lemma DestroyedPartner(s: Dialer, ch: nat, partner: Option<nat>)
    requires ch in s.channels && Paired(s, ch) == partner
    ensures Destroyed(s, ch).trace == s.trace + OutcomeActs(s, s.channels[ch])
      + if partner.Some? then [Hangup(partner.value)] else []
  {}
}
