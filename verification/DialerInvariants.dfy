/** What holds in every reachable state of the dialer. */
module DialerInvariants {
  import opened Text
  import opened Leads
  import opened DialerState

  // ---- the registered legs ----

  ghost predicate OneCustomer(channels: map<nat, Meta>) {
    forall a: nat, b: nat, log: nat :: IsLeg(channels, a, log, Customer) && IsLeg(channels, b, log, Customer) ==> a == b
  }

  ghost predicate HeldOk(channels: map<nat, Meta>, held: map<nat, HoldEntry>) {
    forall log <- held :: IsLeg(channels, held[log].channelId, log, Customer)
  }

  ghost predicate TimersOk(channels: map<nat, Meta>, timers: map<nat, HoldTimer>) {
    forall ch <- timers :: IsLeg(channels, ch, timers[ch].callLogId, Customer)
  }

  ghost predicate TransfersOk(channels: map<nat, Meta>, transfers: map<nat, PendingTransfer>) {
    forall log <- transfers ::
      && IsLeg(channels, transfers[log].customerChannelId, log, Customer)
      && IsLeg(channels, transfers[log].agentChannelId, log, Agent)
  }

  ghost predicate IdsOk(s: Dialer) {
    && (forall ch <- s.channels :: ch < s.nextChannel && s.channels[ch].callLogId < s.nextLog)
    && (forall log <- s.logs :: log < s.nextLog)
  }

  /** A call log has at most one registered customer; the hold queue, the hold
      timers and the pending transfers only name registered legs of their call. */
  ghost predicate LegsOk(s: Dialer) {
    && IdsOk(s)
    && OneCustomer(s.channels)
    && HeldOk(s.channels, s.held)
    && TimersOk(s.channels, s.timers)
    && TransfersOk(s.channels, s.transfers)
  }

  /** Every leg of the first table is a leg of the second, in the same call and role. */
  ghost predicate LegsStay(channels: map<nat, Meta>, channels': map<nat, Meta>) {
    forall ch <- channels :: IsLeg(channels', ch, channels[ch].callLogId, channels[ch].role)
  }

  lemma TablesStay(channels: map<nat, Meta>, channels': map<nat, Meta>, s: Dialer)
    requires LegsStay(channels, channels')
    requires HeldOk(channels, s.held) && TimersOk(channels, s.timers) && TransfersOk(channels, s.transfers)
    ensures HeldOk(channels', s.held) && TimersOk(channels', s.timers) && TransfersOk(channels', s.transfers)
  {}

  /** A new customer leg with a call log of its own. */
  lemma CustomerRegistered(channels: map<nat, Meta>, ch: nat, meta: Meta)
    requires OneCustomer(channels) && ch !in channels && meta.role == Customer
    requires forall c <- channels :: channels[c].callLogId != meta.callLogId
    ensures OneCustomer(channels[ch := meta]) && LegsStay(channels, channels[ch := meta])
  {
    var channels' := channels[ch := meta];
    assert forall c: nat, log: nat :: IsLeg(channels', c, log, Customer) ==>
      if c == ch then log == meta.callLogId else IsLeg(channels, c, log, Customer) && log != meta.callLogId;
  }

  /** A customer leg is given an agent, whose new leg joins the call. */
  lemma AgentRegistered(channels: map<nat, Meta>, ch: nat, agentId: Option<nat>, agentCh: nat, meta: Meta)
    requires OneCustomer(channels) && ch in channels && agentCh !in channels && meta.role == Agent
    ensures var channels' := channels[ch := channels[ch].(agentId := agentId)][agentCh := meta];
      OneCustomer(channels') && LegsStay(channels, channels')
  {
    var channels' := channels[ch := channels[ch].(agentId := agentId)][agentCh := meta];
    assert forall c: nat, log: nat :: IsLeg(channels', c, log, Customer) ==> IsLeg(channels, c, log, Customer);
  }

  /** A leg goes, and with it what its call has in the tables. */
  lemma LegRemoved(channels: map<nat, Meta>, ch: nat, held: map<nat, HoldEntry>, timers: map<nat, HoldTimer>, transfers: map<nat, PendingTransfer>)
    requires ch in channels && OneCustomer(channels)
    requires HeldOk(channels, held) && TimersOk(channels, timers) && TransfersOk(channels, transfers)
    ensures var channels', log := channels - {ch}, channels[ch].callLogId;
      && OneCustomer(channels') && HeldOk(channels', held - {log})
      && TimersOk(channels', timers - {ch}) && TransfersOk(channels', transfers - {log})
  {
    var channels' := channels - {ch};
    assert forall c: nat, log: nat, role :: c != ch && IsLeg(channels, c, log, role) ==> IsLeg(channels', c, log, role);
    assert forall c: nat, log: nat, role :: IsLeg(channels', c, log, role) ==> IsLeg(channels, c, log, role);
  }

  // ---- what the trace tells ----

  ghost predicate WasOriginated(trace: seq<Act>, ch: nat, log: nat, role: Role) {
    match role
    case Customer => exists lead: nat :: OriginateCustomer(ch, log, lead) in trace
    case Agent => exists agent: nat :: OriginateAgent(ch, log, agent) in trace
  }

  ghost predicate Bridged(trace: seq<Act>, log: nat) {
    exists c: nat, a: nat :: Bridge(log, c, a) in trace
  }

  /** Someone other than the dialer wrote this status to the log. */
  predicate Reported(trace: seq<Act>, log: nat, status: CallStatus) {
    ReportLog(log, status) in trace
  }

  /** The log has come to be CONNECTED. */
  ghost predicate Answered(trace: seq<Act>, log: nat) {
    Bridged(trace, log) || Reported(trace, log, Connected)
  }

  /** What must have come first for the dialer to write a status. */
  ghost predicate Earned(trace: seq<Act>, log: nat, status: CallStatus) {
    && (status == Connected || status == HungUp ==> Answered(trace, log))
    && (status == Busy || status == Failed ==> Reported(trace, log, status))
  }

  /** The same for a contact status: the call was dialled to this lead, and its log
      had come to the status the contact stands for. */
  ghost predicate ContactEarned(trace: seq<Act>, lead: nat, log: nat, contact: Contact) {
    && (exists ch: nat :: OriginateCustomer(ch, log, lead) in trace)
    && (contact == ContactAnswered ==> Answered(trace, log))
    && (contact == ContactBusy ==> Reported(trace, log, Busy))
    && (contact == ContactFailed ==> Reported(trace, log, Failed))
  }

  /** A registered leg is the leg of an origination: a customer carries the lead it
      was dialled for, an agent leg the agent it was dialled to. */
  predicate Known(trace: seq<Act>, ch: nat, m: Meta) {
    match m.role
    case Customer => m.leadId.Some? && OriginateCustomer(ch, m.callLogId, m.leadId.value) in trace
    case Agent => m.leadId == None && m.agentId.Some? && OriginateAgent(ch, m.callLogId, m.agentId.value) in trace
  }

  lemma KnownWasOriginated(trace: seq<Act>, ch: nat, m: Meta)
    requires Known(trace, ch, m)
    ensures WasOriginated(trace, ch, m.callLogId, m.role)
  {}

  /** An act is sound when what came before it justifies it. */
  ghost predicate Justified(before: seq<Act>, act: Act) {
    match act
    case OriginateCustomer(ch, log, lead) =>
      forall a <- before :: a.OriginateCustomer? ==> a.channel != ch && a.log != log && a.lead != lead
    case Bridge(log, c, a) =>
      WasOriginated(before, c, log, Customer) && WasOriginated(before, a, log, Agent)
    case WriteLog(log, status) => Earned(before, log, status)
    case WriteLead(lead, log, contact) => ContactEarned(before, lead, log, contact)
    case _ => true
  }

  ghost predicate Sound(trace: seq<Act>) {
    trace == [] || (Sound(trace[..|trace| - 1]) && Justified(trace[..|trace| - 1], trace[|trace| - 1]))
  }

  lemma SoundSnoc(trace: seq<Act>, act: Act)
    requires Sound(trace) && Justified(trace, act)
    ensures Sound(trace + [act])
  {
    assert (trace + [act])[..|trace|] == trace;
  }

  lemma {:induction false} SoundAt(trace: seq<Act>, i: nat)
    requires Sound(trace) && i < |trace|
    ensures Justified(trace[..i], trace[i])
  {
    if i < |trace| - 1 {
      var t := trace[..|trace| - 1];
      SoundAt(t, i);
      assert t[..i] == trace[..i];
    }
  }

  /** What an originated call has used up is never used again. */
  ghost predicate TraceIds(s: Dialer) {
    forall a <- s.trace :: a.OriginateCustomer? ==>
      && a.channel < s.nextChannel && a.log < s.nextLog && a.lead < s.leads.nextId
      && (a.lead in s.leads.table ==> s.leads.table[a.lead].locked)
  }

  ghost predicate TraceOk(s: Dialer) {
    && Sound(s.trace)
    && Within(s.leads.table, s.leads.nextId)
    && TraceIds(s)
    && (forall ch <- s.channels :: Known(s.trace, ch, s.channels[ch]))
    && (forall log <- s.logs :: s.logs[log].status != HungUp ==> Earned(s.trace, log, s.logs[log].status))
  }

  ghost predicate Inv(s: Dialer) {
    LegsOk(s) && TraceOk(s)
  }

  ghost function Start(agents: map<nat, AgentRow>, leads: LeadState): Dialer {
    Dialer(map[], map[], map[], map[], map[], map[], 0, 0, map[], agents, leads, [])
  }

  lemma HistoryStays(trace: seq<Act>, act: Act)
    ensures forall ch, log, role :: WasOriginated(trace, ch, log, role) ==> WasOriginated(trace + [act], ch, log, role)
    ensures forall log :: Bridged(trace, log) ==> Bridged(trace + [act], log)
    ensures forall log :: Answered(trace, log) ==> Answered(trace + [act], log)
    ensures forall log, status :: Earned(trace, log, status) ==> Earned(trace + [act], log, status)
    ensures forall lead, log, contact :: ContactEarned(trace, lead, log, contact) ==> ContactEarned(trace + [act], lead, log, contact)
    ensures forall ch, m :: Known(trace, ch, m) ==> Known(trace + [act], ch, m)
  {
    forall ch, log, role | WasOriginated(trace, ch, log, role) ensures WasOriginated(trace + [act], ch, log, role) {
      if role == Customer {
        var lead: nat :| OriginateCustomer(ch, log, lead) in trace;
        assert OriginateCustomer(ch, log, lead) in trace + [act];
      } else {
        var agent: nat :| OriginateAgent(ch, log, agent) in trace;
        assert OriginateAgent(ch, log, agent) in trace + [act];
      }
    }
    forall log | Bridged(trace, log) ensures Bridged(trace + [act], log) {
      var c: nat, a: nat :| Bridge(log, c, a) in trace;
      assert Bridge(log, c, a) in trace + [act];
    }
  }

  /** An act that originates no customer keeps the trace in order. */
  lemma DidKeeps(s: Dialer, act: Act)
    requires TraceOk(s) && Justified(s.trace, act) && !act.OriginateCustomer?
    ensures TraceOk(Did(s, act))
  {
    SoundSnoc(s.trace, act);
    HistoryStays(s.trace, act);
  }

  lemma SetLogKeeps(s: Dialer, log: nat, status: CallStatus, agentId: Option<nat>)
    requires TraceOk(s) && log in s.logs && Earned(s.trace, log, status)
    ensures TraceOk(SetLog(s, log, status, agentId))
  {
    var s1 := s.(logs := s.logs[log := s.logs[log].(status := status, agentId := agentId)]);
    assert TraceOk(s1);
    DidKeeps(s1, WriteLog(log, status));
  }

  // ---- blasting ----

  /** A lead handed out leaves the trace's account in order. */
  lemma HandOutKeeps(s: Dialer, company: int)
    requires TraceOk(s)
    ensures TraceOk(s.(leads := NextLead(s.leads, company).0))
  {}

  lemma DialOneLegs(s: Dialer, company: int, agentId: nat, settings: Option<Settings>)
    requires LegsOk(s)
    ensures LegsOk(DialOne(s, company, agentId, settings).0)
  {
    var r := DialOne(s, company, agentId, settings);
    if NextLead(s.leads, company).1.Some? {
      DialOneIds(s, company, agentId, settings);
      if r.1 {
        CustomerRegistered(s.channels, s.nextChannel, r.0.channels[s.nextChannel]);
        TablesStay(s.channels, r.0.channels, s);
      }
    }
  }

  lemma DialOneIds(s: Dialer, company: int, agentId: nat, settings: Option<Settings>)
    requires IdsOk(s)
    ensures IdsOk(DialOne(s, company, agentId, settings).0)
  {
    if NextLead(s.leads, company).1.Some? {
      assert forall log <- DialOne(s, company, agentId, settings).0.logs :: log in s.logs || log == s.nextLog;
    }
  }

  /** A call log written with status WAITING and ids used up. */
  lemma LogWrittenKeeps(s: Dialer, log: CallLog, nextChannel: nat)
    requires TraceOk(s) && log.status == Waiting && nextChannel >= s.nextChannel
    ensures TraceOk(s.(logs := s.logs[s.nextLog := log], nextLog := s.nextLog + 1, nextChannel := nextChannel))
  {}

  lemma DialOneTrace(s: Dialer, company: int, agentId: nat, settings: Option<Settings>)
    requires Inv(s)
    ensures TraceOk(DialOne(s, company, agentId, settings).0)
  {
    var s' := DialOne(s, company, agentId, settings).0;
    var lead := NextLead(s.leads, company).1;
    HandOutKeeps(s, company);
    if lead.Some? {
      var s1 := s.(leads := NextLead(s.leads, company).0);
      LogWrittenKeeps(s1, s'.logs[s.nextLog], s'.nextChannel);
      if DialOne(s, company, agentId, settings).1 {
        DialledTrace(s, s', lead.value);
      }
    }
  }

  lemma DialOneKeeps(s: Dialer, company: int, agentId: nat, settings: Option<Settings>)
    requires Inv(s)
    ensures Inv(DialOne(s, company, agentId, settings).0)
  {
    DialOneLegs(s, company, agentId, settings);
    DialOneTrace(s, company, agentId, settings);
  }

  /** A customer origination with a lead not handed out before. */
  lemma DialledTrace(s: Dialer, s': Dialer, lead: nat)
    requires TraceOk(s) && TraceOk(s'.(trace := s.trace, channels := s.channels))
    requires lead in s.leads.table && !s.leads.table[lead].locked && lead in s'.leads.table && s'.leads.table[lead].locked
    requires s'.nextChannel > s.nextChannel && s'.nextLog > s.nextLog
    requires s'.trace == s.trace + [OriginateCustomer(s.nextChannel, s.nextLog, lead)]
    requires IsLeg(s'.channels, s.nextChannel, s.nextLog, Customer) && s'.channels[s.nextChannel].leadId == Some(lead)
    requires s'.channels == s.channels[s.nextChannel := s'.channels[s.nextChannel]]
    ensures TraceOk(s')
  {
    var act := OriginateCustomer(s.nextChannel, s.nextLog, lead);
    assert Justified(s.trace, act);
    SoundSnoc(s.trace, act);
    HistoryStays(s.trace, act);
    assert act in s'.trace;
    assert Known(s'.trace, s.nextChannel, s'.channels[s.nextChannel]);
    assert forall a <- s'.trace :: a in s.trace || a == act;
    assert TraceIds(s');
  }

  lemma {:induction false} DialManyKeeps(s: Dialer, company: int, agentId: nat, settings: Option<Settings>, n: nat)
    requires Inv(s)
    ensures Inv(DialMany(s, company, agentId, settings, n))
    decreases n
  {
    if n > 0 {
      DialOneKeeps(s, company, agentId, settings);
      var r := DialOne(s, company, agentId, settings);
      if r.1 {
        DialManyKeeps(r.0, company, agentId, settings, n - 1);
      }
    }
  }

  lemma BlastKeeps(s: Dialer, company: int, agentId: nat, idle: set<nat>, settings: Option<Settings>)
    requires Inv(s)
    ensures Inv(Blast(s, company, agentId, idle, settings))
  {
    var free := |FreeAgents(s.agents, company) * idle|;
    if agentId in s.running && free != 0 {
      DialManyKeeps(s, company, agentId, settings, BlastSize(free));
    }
  }

  // ---- channel events ----

  lemma HoldSet(s: Dialer, ch: nat, entry: HoldEntry)
    requires Inv(s) && ch in s.channels && s.channels[ch].role == Customer && entry.channelId == ch
    ensures var log := s.channels[ch].callLogId;
      Inv(s.(held := s.held[log := entry], timers := s.timers[ch := HoldTimer(log, true)]))
  {
    var log := s.channels[ch].callLogId;
    assert IsLeg(s.channels, ch, log, Customer);
    assert HeldOk(s.channels, s.held[log := entry]);
    assert TimersOk(s.channels, s.timers[ch := HoldTimer(log, true)]);
    TimersOnly(s, s.timers[ch := HoldTimer(log, true)], s.held[log := entry]);
  }

  lemma CustomerStasisKeeps(s: Dialer, ch: nat)
    requires Inv(s) && ch in s.channels && s.channels[ch].role == Customer
    ensures Inv(StasisStart(s, ch, Customer, Some(s.channels[ch].callLogId), None, ""))
  {
    var log := s.channels[ch].callLogId;
    if log in s.logs {
      RingingKeeps(s, log);
      var s1 := s.(logs := s.logs[log := s.logs[log].(status := Ringing)]);
      HoldSet(s1, ch, Structured(ch, CompanyOf(s1, log)));
    } else {
      HoldSet(s, ch, Structured(ch, CompanyOf(s, log)));
    }
  }

  lemma AgentStasisKeeps(s: Dialer, ch: nat, logVar: Option<nat>)
    requires Inv(s)
    ensures Inv(StasisStart(s, ch, Agent, logVar, None, ""))
  {
    var first := FirstCustomer(s.channels, 0, s.nextChannel);
    var log := if logVar.Some? then logVar else if first.Some? then Some(s.channels[first.value].callLogId) else None;
    if log.Some? && log.value in s.logs {
      RingingKeeps(s, log.value);
    }
  }

  /** A leg whose agent alone changes stays the leg it was. */
  lemma AgentLinked(channels: map<nat, Meta>, channels': map<nat, Meta>, ch: nat, agentId: Option<nat>)
    requires OneCustomer(channels) && ch in channels && channels' == channels[ch := channels[ch].(agentId := agentId)]
    ensures OneCustomer(channels') && LegsStay(channels, channels')
  {
    assert forall c: nat, log: nat :: IsLeg(channels', c, log, Customer) ==> IsLeg(channels, c, log, Customer);
  }

  lemma PairCustomerLegs(s: Dialer, ch: nat, pick: nat)
    requires LegsOk(s) && ch in s.channels && s.channels[ch].role == Customer
    ensures LegsOk(PairCustomer(s, ch, pick))
  {
    var log := s.channels[ch].callLogId;
    assert IsLeg(s.channels, ch, log, Customer);
    if FreeAgents(s.agents, 0) == {} {
      assert HeldOk(s.channels, s.held[log := Bare(ch)]);
    } else if log !in s.logs {
      UnloggedPairKeeps(s, ch, pick);
    } else {
      PairCustomerIds(s, ch, pick);
      AgentRegistered(s.channels, ch, Some(pick), s.nextChannel, Meta(log, Agent, Some(pick), "", None));
      TablesStay(s.channels, PairCustomer(s, ch, pick).channels, s);
    }
  }

  /** A pairing that ends at a deleted log. */
  lemma UnloggedPairKeeps(s: Dialer, ch: nat, pick: nat)
    requires ch in s.channels && s.channels[ch].role == Customer && FreeAgents(s.agents, 0) != {} && s.channels[ch].callLogId !in s.logs
    ensures LegsOk(s) ==> LegsOk(PairCustomer(s, ch, pick))
    ensures TraceOk(s) ==> TraceOk(PairCustomer(s, ch, pick))
  {
    var meta := s.channels[ch].(agentId := Some(pick));
    var channels := s.channels[ch := meta];
    if TraceOk(s) {
      LegsStayKnown(s.channels, channels, ch, meta, s.trace);
    }
    if LegsOk(s) {
      AgentLinked(s.channels, channels, ch, Some(pick));
      TablesStay(s.channels, channels, s);
    }
  }

  lemma PairCustomerIds(s: Dialer, ch: nat, pick: nat)
    requires IdsOk(s) && ch in s.channels && s.channels[ch].callLogId in s.logs && FreeAgents(s.agents, 0) != {}
    ensures IdsOk(PairCustomer(s, ch, pick))
  {
    var s' := PairCustomer(s, ch, pick);
    assert s'.logs.Keys == s.logs.Keys;
    assert forall c <- s'.channels :: c == s.nextChannel || c in s.channels;
  }

  lemma PairCustomerTrace(s: Dialer, ch: nat, pick: nat)
    requires Inv(s) && ch in s.channels && s.channels[ch].role == Customer
    ensures TraceOk(PairCustomer(s, ch, pick))
  {
    var log := s.channels[ch].callLogId;
    if FreeAgents(s.agents, 0) == {} {
      assert TraceOk(s.(held := s.held[log := Bare(ch)]));
    } else if log !in s.logs {
      UnloggedPairKeeps(s, ch, pick);
    } else {
      PairedTrace(s, PairCustomer(s, ch, pick), OriginateAgent(s.nextChannel, log, pick), ch);
    }
  }

  lemma PairedTrace(s: Dialer, s': Dialer, act: Act, ch: nat)
    requires Inv(s) && act.OriginateAgent? && act.channel == s.nextChannel && ch in s.channels && s.channels[ch].role == Customer
    requires s'.trace == s.trace + [act] && s'.leads == s.leads
    requires s'.nextChannel >= s.nextChannel && s'.nextLog == s.nextLog
    requires s'.channels == s.channels[ch := s.channels[ch].(agentId := Some(act.agent))]
                                      [act.channel := Meta(act.log, Agent, Some(act.agent), "", None)]
    requires s'.logs.Keys == s.logs.Keys && forall log <- s.logs :: s'.logs[log].status == s.logs[log].status
    ensures TraceOk(s')
  {
    SoundSnoc(s.trace, act);
    HistoryStays(s.trace, act);
    assert act in s'.trace;
    assert Known(s'.trace, act.channel, s'.channels[act.channel]);
    var meta := s.channels[ch].(agentId := Some(act.agent));
    LegsStayKnown(s.channels, s.channels[ch := meta], ch, meta, s'.trace);
    SameIds(s, s', act);
    assert forall log <- s'.logs :: s'.logs[log].status == s.logs[log].status;
  }

  /** A customer's agent does not matter to where its leg came from. */
  lemma LegsStayKnown(channels: map<nat, Meta>, channels': map<nat, Meta>, ch: nat, meta: Meta, trace: seq<Act>)
    requires forall c <- channels :: Known(trace, c, channels[c])
    requires ch in channels && channels[ch].role == Customer && meta == channels[ch].(agentId := meta.agentId)
    requires channels' == channels[ch := meta]
    ensures forall c <- channels' :: Known(trace, c, channels'[c])
  {}

  lemma SameIds(s: Dialer, s': Dialer, act: Act)
    requires TraceIds(s) && !act.OriginateCustomer? && s'.trace == s.trace + [act]
    requires s'.leads == s.leads && s'.nextChannel >= s.nextChannel && s'.nextLog == s.nextLog
    ensures TraceIds(s')
  {
    assert forall a <- s'.trace :: a in s.trace || a == act;
  }

  lemma HoldCleared(s: Dialer, log: nat, ch: nat)
    requires LegsOk(s)
    ensures HeldOk(s.channels, s.held - {log}) && TimersOk(s.channels, s.timers - {ch})
  {}

  lemma BridgeAgentLegs(s: Dialer, ch: nat)
    requires LegsOk(s) && ch in s.channels
    ensures LegsOk(BridgeAgent(s, ch))
  {
    var log := s.channels[ch].callLogId;
    if Leg(s, log, Customer).Some? {
      HoldCleared(s, log, Leg(s, log, Customer).value);
      if log in s.logs {
        assert IdsOk(BridgeAgent(s, ch));
      } else {
        assert IdsOk(BridgeAgent(s, ch));
      }
    }
  }

  lemma BridgeAgentTrace(s: Dialer, ch: nat)
    requires Inv(s) && ch in s.channels && s.channels[ch].role == Agent
    ensures TraceOk(BridgeAgent(s, ch))
  {
    var meta := s.channels[ch];
    var customer := Leg(s, meta.callLogId, Customer);
    if customer.None? {
      DidKeeps(s, Hangup(ch));
    } else {
      var act := Bridge(meta.callLogId, customer.value, ch);
      KnownWasOriginated(s.trace, ch, meta);
      KnownWasOriginated(s.trace, customer.value, s.channels[customer.value]);
      var s1 := Did(s, act);
      DidKeeps(s, act);
      assert act in s1.trace;
      assert Bridged(s1.trace, meta.callLogId);
      if meta.callLogId in s.logs {
        SetLogKeeps(s1, meta.callLogId, Connected, meta.agentId);
      }
    }
  }

  /** Writing a lead's outcome does not unlock it. */
  lemma LeadWritten(s: Dialer, meta: Meta)
    requires TraceOk(s)
    ensures TraceOk(s.(leads := s.leads.(table := OutcomeLeads(s, meta))))
  {}

  lemma WriteOutcomeIs(s: Dialer, meta: Meta)
    ensures var s1 := s.(leads := s.leads.(table := OutcomeLeads(s, meta)));
      WriteOutcome(s, meta) ==
        if meta.callLogId !in s.logs then s1
        else
          var final := FinalStatus(s.logs[meta.callLogId].status);
          var s2 := SetLog(s1, meta.callLogId, final, meta.agentId);
          if WritesLead(s, meta) then Did(s2, WriteLead(meta.leadId.value, meta.callLogId, ContactOf(final))) else s2
  {
    assert s.trace + [] == s.trace;
  }

  lemma WriteOutcomeKeeps(s: Dialer, ch: nat, meta: Meta)
    requires TraceOk(s) && Known(s.trace, ch, meta)
    ensures TraceOk(WriteOutcome(s, meta))
  {
    WriteOutcomeIs(s, meta);
    LeadWritten(s, meta);
    if meta.callLogId in s.logs {
      var s1 := s.(leads := s.leads.(table := OutcomeLeads(s, meta)));
      OutcomeActsKeep(s1, ch, meta, s.logs[meta.callLogId].status);
    }
  }

  lemma OutcomeActsKeep(s: Dialer, ch: nat, meta: Meta, status: CallStatus)
    requires TraceOk(s) && Known(s.trace, ch, meta) && meta.callLogId in s.logs && s.logs[meta.callLogId].status == status
    ensures var s2 := SetLog(s, meta.callLogId, FinalStatus(status), meta.agentId);
      TraceOk(s2) && (meta.leadId.Some? ==>
        TraceOk(Did(s2, WriteLead(meta.leadId.value, meta.callLogId, ContactOf(FinalStatus(status))))))
  {
    var final := FinalStatus(status);
    var s2 := SetLog(s, meta.callLogId, final, meta.agentId);
    SetLogKeeps(s, meta.callLogId, final, meta.agentId);
    if meta.leadId.Some? {
      assert OriginateCustomer(ch, meta.callLogId, meta.leadId.value) in s.trace;
      HistoryStays(s.trace, WriteLog(meta.callLogId, final));
      DidKeeps(s2, WriteLead(meta.leadId.value, meta.callLogId, ContactOf(final)));
    }
  }

  lemma DestroyedLegs(s: Dialer, ch: nat)
    requires LegsOk(s)
    ensures LegsOk(Destroyed(s, ch))
  {
    if ch in s.channels {
      LegRemoved(s.channels, ch, s.held, s.timers, s.transfers);
    }
  }

  /** What the trace tells stays true when legs and table entries go. */
  lemma FewerLegsTrace(s: Dialer, s': Dialer)
    requires TraceOk(s) && s'.trace == s.trace && s'.leads == s.leads && s'.logs == s.logs
    requires s'.nextChannel == s.nextChannel && s'.nextLog == s.nextLog
    requires forall c <- s'.channels :: c in s.channels && s'.channels[c] == s.channels[c]
    ensures TraceOk(s')
  {}

  lemma DestroyedIs(s: Dialer, s1: Dialer, ch: nat)
    requires ch in s.channels && s1 == WriteOutcome(s, s.channels[ch])
    ensures var s' := Destroyed(s, ch);
      && s'.trace == s1.trace + HangupActs(s, ch) && s'.channels == s.channels - {ch} && s1.channels == s.channels
      && s'.leads == s1.leads && s'.logs == s1.logs && s'.nextChannel == s1.nextChannel && s'.nextLog == s1.nextLog
  {}

  lemma HangupKeeps(s: Dialer, acts: seq<Act>)
    requires TraceOk(s) && (acts == [] || (|acts| == 1 && acts[0].Hangup?))
    ensures TraceOk(s.(trace := s.trace + acts))
  {
    if acts == [] {
      assert s.trace + acts == s.trace;
    } else {
      assert acts == [acts[0]];
      DidKeeps(s, acts[0]);
    }
  }

  lemma DestroyedTrace(s: Dialer, ch: nat)
    requires Inv(s)
    ensures TraceOk(Destroyed(s, ch))
  {
    if ch in s.channels {
      var s1 := WriteOutcome(s, s.channels[ch]);
      WriteOutcomeKeeps(s, ch, s.channels[ch]);
      DestroyedIs(s, s1, ch);
      HangupKeeps(s1, HangupActs(s, ch));
      FewerLegsTrace(s1.(trace := s1.trace + HangupActs(s, ch)), Destroyed(s, ch));
    }
  }

  lemma TimerLegs(s: Dialer, ch: nat)
    requires LegsOk(s) && ch in s.timers
    ensures LegsOk(TimerFires(s, ch))
  {
    var log := s.timers[ch].callLogId;
    assert TimersOk(s.channels, s.timers[ch := HoldTimer(log, false)]);
    if ch !in s.channels || s.channels[ch].role != Customer || log !in s.logs {
    } else {
      assert HeldOk(s.channels, s.held - {log});
    }
  }

  lemma TimersOnly(s: Dialer, timers: map<nat, HoldTimer>, held: map<nat, HoldEntry>)
    requires TraceOk(s)
    ensures TraceOk(s.(timers := timers, held := held))
  {}

  lemma TimerTrace(s: Dialer, ch: nat)
    requires TraceOk(s) && ch in s.timers
    ensures TraceOk(TimerFires(s, ch))
  {
    var log := s.timers[ch].callLogId;
    var fired := s.timers[ch := HoldTimer(log, false)];
    if ch !in s.channels || s.channels[ch].role != Customer || log !in s.logs {
      TimersOnly(s, fired, s.held);
    } else {
      TimersOnly(s, fired, s.held - {log});
      var s1 := s.(timers := fired, held := s.held - {log});
      SetLogKeeps(s1, log, NoAnswer, s.logs[log].agentId);
      DidKeeps(SetLog(s1, log, NoAnswer, s.logs[log].agentId), Hangup(ch));
    }
  }

  lemma TimerKeeps(s: Dialer, ch: nat)
    requires Inv(s) && ch in s.timers
    ensures Inv(TimerFires(s, ch))
  {
    TimerLegs(s, ch);
    TimerTrace(s, ch);
  }

  lemma OriginateFailedKeeps(s: Dialer, ch: nat, log: nat, lead: nat, agentId: nat)
    requires Inv(s) && OriginateCustomer(ch, log, lead) in s.trace
    ensures Inv(OriginateFailed(s, log, lead, agentId))
  {
    if log in s.logs {
      var s1 := SetLog(s, log, InternalError, Some(agentId));
      SetLogKeeps(s, log, InternalError, Some(agentId));
      if lead in s.leads.table {
        var table := s.leads.table[lead := s.leads.table[lead].(contactStatus := ContactInternalError)];
        var s2 := s1.(leads := s.leads.(table := table));
        assert TraceOk(s2);
        DidKeeps(s2, WriteLead(lead, log, ContactInternalError));
      }
    }
  }

  lemma FinishKeeps(s: Dialer, log: nat)
    requires Inv(s) && log in s.transfers
    ensures Inv(FinishTransfer(s, log))
  {
    var t := s.transfers[log];
    var act := Continue(t.customerChannelId, Extension(t.digits));
    DidKeeps(s, act);
    DidKeeps(Did(s, act), Hangup(t.agentChannelId));
    TransfersOnly(Did(Did(s, act), Hangup(t.agentChannelId)), s.transfers - {log});
    assert TransfersOk(s.channels, s.transfers - {log});
    assert LegsOk(FinishTransfer(s, log));
  }

  lemma TransfersOnly(s: Dialer, transfers: map<nat, PendingTransfer>)
    requires TraceOk(s)
    ensures TraceOk(s.(transfers := transfers))
  {}

  lemma StartTransferKeeps(s: Dialer, log: nat)
    requires LegsOk(s)
    ensures LegsOk(StartTransfer(s, log))
  {}

  lemma PushDigitKeeps(s: Dialer, log: nat, t: PendingTransfer)
    requires LegsOk(s) && log in s.transfers
    requires t.customerChannelId == s.transfers[log].customerChannelId && t.agentChannelId == s.transfers[log].agentChannelId
    ensures LegsOk(s.(transfers := s.transfers[log := t]))
  {}

  lemma DigitKeeps(s: Dialer, log: nat, digit: char)
    requires Inv(s)
    ensures Inv(Digit(s, log, digit))
  {
    if digit == '#' {
      if log in s.transfers {
        FinishKeeps(s, log);
      } else {
        StartTransferKeeps(s, log);
        TransfersOnly(s, StartTransfer(s, log).transfers);
      }
    } else if log in s.transfers {
      var t := s.transfers[log].(digits := s.transfers[log].digits + [digit]);
      PushDigitKeeps(s, log, t);
      TransfersOnly(s, s.transfers[log := t]);
    }
  }

  lemma RememberedKeeps(s: Dialer, lastDtmf: map<nat, char>)
    requires Inv(s)
    ensures Inv(s.(lastDtmf := lastDtmf))
  {
    assert LegsOk(s.(lastDtmf := lastDtmf));
    assert TraceOk(s.(lastDtmf := lastDtmf));
  }

  lemma DtmfKeeps(s: Dialer, ch: nat, digit: char)
    requires Inv(s)
    ensures Inv(Dtmf(s, ch, digit))
  {
    if Repeats(s.lastDtmf, ch, digit) {
      RememberedKeeps(s, s.lastDtmf - {ch});
    } else {
      RememberedKeeps(s, s.lastDtmf[ch := digit]);
      if ch in s.channels {
        DigitKeeps(s.(lastDtmf := s.lastDtmf[ch := digit]), s.channels[ch].callLogId, digit);
      }
    }
  }

  lemma LeadsChangeKeeps(s: Dialer, change: LeadEvent)
    requires Inv(s)
    ensures Inv(s.(leads := After(s.leads, change)))
  {
    if change.Ask? {
      HandOutKeeps(s, change.company);
    }
  }

  lemma UpKeeps(s: Dialer, ch: nat, pick: nat)
    requires Inv(s)
    ensures Inv(Up(s, ch, pick))
  {
    if ch in s.channels {
      if s.channels[ch].role == Customer {
        PairCustomerLegs(s, ch, pick);
        PairCustomerTrace(s, ch, pick);
      } else {
        BridgeAgentLegs(s, ch);
        BridgeAgentTrace(s, ch);
      }
    }
  }

  lemma StartAgentKeeps(s: Dialer, agent: nat, slots: int, idle: set<nat>, settings: Option<Settings>)
    requires Inv(s)
    ensures Inv(StartAgent(s, agent, slots, idle, settings))
  {
    if agent in s.agents && settings.Some? && settings.value.complete {
      var s1 := s.(running := s.running[agent := slots], agents := SetStatus(s.agents, agent, Available));
      BlastKeeps(s1, s.agents[agent].company, agent, idle, settings);
    }
  }

  lemma RingingKeeps(s: Dialer, log: nat)
    requires Inv(s) && log in s.logs
    ensures Inv(s.(logs := s.logs[log := s.logs[log].(status := Ringing)]))
  {}

  /** A log written from outside is on record. */
  lemma ReportKeeps(s: Dialer, log: nat, row: CallLog)
    requires Inv(s) && log < s.nextLog
    ensures Inv(Report(s, log, row))
  {
    var act := ReportLog(log, row.status);
    DidKeeps(s, act);
    assert act in s.trace + [act];
    assert LegsOk(Report(s, log, row));
  }

  lemma LogIdUsed(s: Dialer)
    requires Inv(s)
    ensures Inv(s.(nextLog := s.nextLog + 1))
  {}

  lemma LogDeletedKeeps(s: Dialer, log: nat)
    requires Inv(s)
    ensures Inv(s.(logs := s.logs - {log}))
  {}

  lemma AgentsOnly(s: Dialer, agents: map<nat, AgentRow>, running: map<nat, int>)
    requires Inv(s)
    ensures Inv(s.(agents := agents, running := running))
  {
    var s' := s.(agents := agents, running := running);
    assert LegsOk(s');
    assert TraceOk(s');
  }

  lemma NextKeepsInv(s: Dialer, e: Event)
    requires Inv(s)
    ensures Inv(Next(s, e))
  {
    if Enabled(s, e) {
      match e
      case EvStart(agent, slots, idle, settings) => StartAgentKeeps(s, agent, slots, idle, settings);
      case EvStop(agent) => AgentsOnly(s, s.agents, s.running - {agent});
      case EvBlast(company, agent, idle, settings) => BlastKeeps(s, company, agent, idle, settings);
      case EvStasis(ch) => CustomerStasisKeeps(s, ch);
      case EvAgentStasis(ch, logVar) => AgentStasisKeeps(s, ch, logVar);
      case EvUp(ch, pick) => UpKeeps(s, ch, pick);
      case EvDestroyed(ch) => DestroyedLegs(s, ch); DestroyedTrace(s, ch);
      case EvTimer(ch) => TimerKeeps(s, ch);
      case EvDtmf(ch, digit) => DtmfKeeps(s, ch, digit);
      case EvOriginateFailed(ch, log, lead, agent) => OriginateFailedKeeps(s, ch, log, lead, agent);
      case EvAgentEdited(agent, row) => AgentsOnly(s, s.agents[agent := row], s.running);
      case EvLogCreated(row) => LogIdUsed(s); ReportKeeps(s.(nextLog := s.nextLog + 1), s.nextLog, row);
      case EvLogEdited(log, row) => ReportKeeps(s, log, row);
      case EvLogDeleted(log) => LogDeletedKeeps(s, log);
      case EvLeads(change) => LeadsChangeKeeps(s, change);
    }
  }

  // ---- main results ----

  lemma {:induction false} RunKeepsInv(s: Dialer, events: seq<Event>)
    requires Inv(s)
    ensures Inv(Run(s, events))
    decreases events
  {
    if events != [] {
      NextKeepsInv(s, events[0]);
      RunKeepsInv(Next(s, events[0]), events[1..]);
    }
  }

  /** In every reachable state a call log has at most one registered customer
      channel, every held call and every hold timer belongs to a registered
      customer of its call, and every pending transfer names a registered customer
      leg and a registered agent leg of its own call. */
  lemma ReachableLegsOk(agents: map<nat, AgentRow>, leads: LeadState, events: seq<Event>)
    requires Within(leads.table, leads.nextId)
    ensures LegsOk(Run(Start(agents, leads), events))
  {
    RunKeepsInv(Start(agents, leads), events);
  }

  /** An outcome that says the call was answered. */
  predicate SaysAnswered(act: Act) {
    (act.WriteLog? && act.status == HungUp) || (act.WriteLead? && act.contact == ContactAnswered)
  }

  /** Outcome soundness over whole runs: whenever the dialer writes HUNGUP to a
      call log or "Answered" to a lead, something earlier in the run connected that
      call: a bridge of legs that still earlier acts originated as its customer and
      its agent, or someone else writing CONNECTED to its log. */
  lemma OutcomesAreEarned(agents: map<nat, AgentRow>, leads: LeadState, events: seq<Event>, i: nat)
    requires Within(leads.table, leads.nextId)
    requires var t := Run(Start(agents, leads), events).trace; i < |t| && SaysAnswered(t[i])
    ensures var t := Run(Start(agents, leads), events).trace;
      exists j: nat :: j < i && Connects(t, j, t[i].log)
  {
    RunKeepsInv(Start(agents, leads), events);
    var t := Run(Start(agents, leads), events).trace;
    var log := t[i].log;
    SoundAt(t, i);
    assert Answered(t[..i], log);
    if Reported(t[..i], log, Connected) {
      var j: nat :| j < i && t[..i][j] == ReportLog(log, Connected);
      assert Connects(t, j, log);
    } else {
      var c: nat, a: nat :| Bridge(log, c, a) in t[..i];
      var j: nat :| j < i && t[..i][j] == Bridge(log, c, a);
      assert t[j] == Bridge(log, c, a);
      SoundAt(t, j);
      assert Connects(t, j, log);
    }
  }

  /** The act at `j` connects the call: a bridge of legs originated for it before,
      or an outside report. */
  ghost predicate Connects(t: seq<Act>, j: nat, log: nat)
    requires j < |t|
  {
    || t[j] == ReportLog(log, Connected)
    || (t[j].Bridge? && t[j].log == log
        && WasOriginated(t[..j], t[j].customer, log, Customer) && WasOriginated(t[..j], t[j].agentLeg, log, Agent))
  }

  /** No lead, call log or channel is used for two customer originations of a run. */
  lemma CustomersDialledOnce(agents: map<nat, AgentRow>, leads: LeadState, events: seq<Event>, i: nat, j: nat)
    requires Within(leads.table, leads.nextId)
    requires var t := Run(Start(agents, leads), events).trace;
      i < j < |t| && t[i].OriginateCustomer? && t[j].OriginateCustomer?
    ensures var t := Run(Start(agents, leads), events).trace;
      t[i].lead != t[j].lead && t[i].log != t[j].log && t[i].channel != t[j].channel
  {
    RunKeepsInv(Start(agents, leads), events);
    var t := Run(Start(agents, leads), events).trace;
    SoundAt(t, j);
    assert t[..j][i] == t[i];
    assert t[i] in t[..j];
  }

  /** In every reachable state a registered customer leg carries the lead it was dialled
      for, and a registered agent leg the agent it was dialled to and no lead. */
  lemma LegsMatchOriginations(agents: map<nat, AgentRow>, leads: LeadState, events: seq<Event>, ch: nat)
    requires Within(leads.table, leads.nextId)
    requires ch in Run(Start(agents, leads), events).channels
    ensures var s := Run(Start(agents, leads), events);
      var m := s.channels[ch];
      if m.role == Customer then m.leadId.Some? && OriginateCustomer(ch, m.callLogId, m.leadId.value) in s.trace
      else m.leadId == None && m.agentId.Some? && OriginateAgent(ch, m.callLogId, m.agentId.value) in s.trace
  {
    RunKeepsInv(Start(agents, leads), events);
    var s := Run(Start(agents, leads), events);
    assert Known(s.trace, ch, s.channels[ch]);
  }

  /** Every outcome written to a lead belongs to a call dialled to that lead before. */
  lemma LeadWritesAreDialled(agents: map<nat, AgentRow>, leads: LeadState, events: seq<Event>, i: nat)
    requires Within(leads.table, leads.nextId)
    requires var t := Run(Start(agents, leads), events).trace; i < |t| && t[i].WriteLead?
    ensures var t := Run(Start(agents, leads), events).trace;
      exists j: nat :: j < i && t[j].OriginateCustomer? && t[j].log == t[i].log && t[j].lead == t[i].lead
  {
    RunKeepsInv(Start(agents, leads), events);
    var t := Run(Start(agents, leads), events).trace;
    SoundAt(t, i);
    assert ContactEarned(t[..i], t[i].lead, t[i].log, t[i].contact);
    var ch: nat :| OriginateCustomer(ch, t[i].log, t[i].lead) in t[..i];
    var j: nat :| j < i && t[..i][j] == OriginateCustomer(ch, t[i].log, t[i].lead);
    assert t[j].OriginateCustomer?;
  }

  /** The dialer never comes to BUSY or FAILED by itself: it writes the status to a log,
      or its contact to a lead, only after someone else wrote that status to the log. */
  lemma BusyAndFailedAreReported(agents: map<nat, AgentRow>, leads: LeadState, events: seq<Event>, i: nat, status: CallStatus)
    requires Within(leads.table, leads.nextId) && (status == Busy || status == Failed)
    requires var t := Run(Start(agents, leads), events).trace;
      && i < |t|
      && (|| (t[i].WriteLog? && t[i].status == status)
          || (t[i].WriteLead? && t[i].contact == if status == Busy then ContactBusy else ContactFailed))
    ensures var t := Run(Start(agents, leads), events).trace;
      exists j: nat :: j < i && t[j] == ReportLog(t[i].log, status)
  {
    RunKeepsInv(Start(agents, leads), events);
    var t := Run(Start(agents, leads), events).trace;
    SoundAt(t, i);
    assert Reported(t[..i], t[i].log, status);
    var j: nat :| j < i && t[..i][j] == ReportLog(t[i].log, status);
    assert t[j] == ReportLog(t[i].log, status);
  }

  /** The outcome of a destruction in every reachable state, for each status the call
      log may have: CONNECTED becomes HUNGUP, BUSY and FAILED stay, and everything else,
      a call that rang included, becomes NO_ANSWER. The log gets the leg's agent. */
  lemma DestroyedIsFinal(agents: map<nat, AgentRow>, leads: LeadState, events: seq<Event>, ch: nat)
    requires Within(leads.table, leads.nextId)
    requires ch in Run(Start(agents, leads), events).channels
    ensures var s := Run(Start(agents, leads), events);
      var s', log := Next(s, EvDestroyed(ch)), s.channels[ch].callLogId;
      && s'.logs.Keys == s.logs.Keys
      && (log in s.logs ==>
            && s'.logs[log].status == (match s.logs[log].status
                 case Connected => HungUp
                 case Busy => Busy
                 case Failed => Failed
                 case _ => NoAnswer)
            && s'.logs[log].agentId == s.channels[ch].agentId && s'.logs[log].callerId == s.logs[log].callerId
            && (s'.logs[log].status == HungUp ==> Answered(s.trace, log)))
      && forall other <- s.logs :: other != log ==> s'.logs[other] == s.logs[other]
  {
    RunKeepsInv(Start(agents, leads), events);
  }

  /** And the lead of a destroyed customer is marked as contacted, with the contact that
      goes with the status the log had; every other lead, and the lead of a call whose
      log or lead has been deleted, stays as it is. */
  lemma DestroyedWritesContact(agents: map<nat, AgentRow>, leads: LeadState, events: seq<Event>, ch: nat)
    requires Within(leads.table, leads.nextId)
    requires ch in Run(Start(agents, leads), events).channels
    ensures var s := Run(Start(agents, leads), events);
      var s', m := Next(s, EvDestroyed(ch)), s.channels[ch];
      && s'.leads.nextId == s.leads.nextId && s'.leads.table.Keys == s.leads.table.Keys
      && forall lead <- s.leads.table ::
           s'.leads.table[lead] ==
             if m.role == Customer && m.leadId == Some(lead) && m.callLogId in s.logs
             then s.leads.table[lead].(isContacted := true, contactStatus :=
                    match s.logs[m.callLogId].status
                    case Connected => ContactAnswered
                    case Busy => ContactBusy
                    case Failed => ContactFailed
                    case _ => ContactNoAnswer)
             else s.leads.table[lead]
  {
    RunKeepsInv(Start(agents, leads), events);
    var s := Run(Start(agents, leads), events);
    assert Known(s.trace, ch, s.channels[ch]);
  }
}
