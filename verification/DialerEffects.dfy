/** What every event does to agents, call logs and legs, in full, and what a whole run
    makes of it. */
module DialerEffects {
  import opened Text
  import opened Leads
  import opened DialerState
  import opened DialerInvariants
  import opened DialerFrames

  // ---- blasts ----

  /** What a turn that originates registers and writes. */
  predicate Registered(s: Dialer, a: Act, agentId: nat, table: LeadTable) {
    && a.OriginateCustomer? && a.lead in table
    && a.channel in s.channels && a.log in s.logs
    && s.channels[a.channel] == Meta(a.log, Customer, Some(agentId), table[a.lead].phone, Some(a.lead))
    && s.logs[a.log] == CallLog(Waiting, Some(agentId), table[a.lead].phone)
  }

  /** Rows and legs that were there are there unchanged. */
  ghost predicate Keeps(s: Dialer, s': Dialer) {
    && s.nextChannel <= s'.nextChannel && s.nextLog <= s'.nextLog
    && (forall c <- s.channels :: c in s'.channels && s'.channels[c] == s.channels[c])
    && (forall l <- s.logs :: l in s'.logs && s'.logs[l] == s.logs[l])
  }

  lemma KeepsAll(a: Dialer, b: Dialer, c: Dialer)
    requires Keeps(a, b) && Keeps(b, c)
    ensures Keeps(a, c)
  {}

  lemma KeepsRegistered(s: Dialer, s': Dialer, a: Act, agentId: nat, table: LeadTable)
    requires Keeps(s, s') && Registered(s, a, agentId, table)
    ensures Registered(s', a, agentId, table)
  {}

  lemma TurnKeeps(s: Dialer, company: int, agentId: nat, settings: Option<Settings>)
    requires IdsOk(s)
    ensures Keeps(s, DialOne(s, company, agentId, settings).0)
  {
    if NextLead(s.leads, company).1.None? {
    } else if DialOne(s, company, agentId, settings).1 {
    } else {
    }
  }

  lemma TurnRegisters(s: Dialer, company: int, agentId: nat, settings: Option<Settings>)
    requires DialOne(s, company, agentId, settings).1 && NextLead(s.leads, company).1.Some?
    ensures Registered(DialOne(s, company, agentId, settings).0,
      OriginateCustomer(s.nextChannel, s.nextLog, NextLead(s.leads, company).1.value), agentId, s.leads.table)
  {}

  /** A hand-out changes no phone number. */
  lemma HandOutKeepsPhones(s: LeadState, company: int)
    ensures NextLead(s, company).0.table.Keys == s.table.Keys
    ensures forall id <- s.table :: id in NextLead(s, company).0.table && NextLead(s, company).0.table[id].phone == s.table[id].phone
  {}

  ghost predicate AllRegistered(s: Dialer, acts: seq<Act>, agentId: nat, table: LeadTable) {
    forall a <- acts :: Registered(s, a, agentId, table)
  }

  lemma LaterTurns(s: Dialer, acts: seq<Act>, agentId: nat, leads: LeadState, company: int)
    requires AllRegistered(s, acts, agentId, NextLead(leads, company).0.table)
    ensures AllRegistered(s, acts, agentId, leads.table)
  {
    HandOutKeepsPhones(leads, company);
  }

  /** A turn that takes `s` to `s1`, and the later ones that take it to `s2`. */
  lemma TurnThenOthers(s: Dialer, s1: Dialer, s2: Dialer, first: Act, more: seq<Act>, company: int, agentId: nat)
    requires Keeps(s, s1) && Keeps(s1, s2) && Registered(s1, first, agentId, s.leads.table)
    requires AllRegistered(s2, more, agentId, NextLead(s.leads, company).0.table)
    ensures Keeps(s, s2) && AllRegistered(s2, [first] + more, agentId, s.leads.table)
  {
    KeepsAll(s, s1, s2);
    KeepsRegistered(s1, s2, first, agentId, s.leads.table);
    LaterTurns(s2, more, agentId, s.leads, company);
  }

  lemma NoTurns(s: Dialer, company: int, agentId: nat, settings: Option<Settings>, n: nat)
    requires n == 0 || !DialOne(s, company, agentId, settings).1
    ensures BlastActs(s, company, agentId, settings, n) == []
  {}

  lemma NextTurns(s: Dialer, company: int, agentId: nat, settings: Option<Settings>, n: nat)
    requires n > 0 && DialOne(s, company, agentId, settings).1
    ensures NextLead(s.leads, company).1.Some?
    ensures BlastActs(s, company, agentId, settings, n) ==
      [OriginateCustomer(s.nextChannel, s.nextLog, NextLead(s.leads, company).1.value)]
      + BlastActs(DialOne(s, company, agentId, settings).0, company, agentId, settings, n - 1)
    ensures DialOne(s, company, agentId, settings).0.leads == NextLead(s.leads, company).0
  {
    DialOneTurn(s, company, agentId, settings);
  }

  /** A turn that originates, in front of later ones. */
  lemma FirstTurn(s: Dialer, company: int, agentId: nat, settings: Option<Settings>, s2: Dialer, more: seq<Act>)
    requires IdsOk(s) && DialOne(s, company, agentId, settings).1 && NextLead(s.leads, company).1.Some?
    requires Keeps(DialOne(s, company, agentId, settings).0, s2)
    requires AllRegistered(s2, more, agentId, NextLead(s.leads, company).0.table)
    ensures Keeps(s, s2)
    ensures AllRegistered(s2, [OriginateCustomer(s.nextChannel, s.nextLog, NextLead(s.leads, company).1.value)] + more,
      agentId, s.leads.table)
  {
    TurnKeeps(s, company, agentId, settings);
    TurnRegisters(s, company, agentId, settings);
    TurnThenOthers(s, DialOne(s, company, agentId, settings).0, s2,
      OriginateCustomer(s.nextChannel, s.nextLog, NextLead(s.leads, company).1.value), more, company, agentId);
  }

  lemma {:induction false} TurnsRegister(s: Dialer, company: int, agentId: nat, settings: Option<Settings>, n: nat)
    requires IdsOk(s)
    ensures Keeps(s, DialMany(s, company, agentId, settings, n))
    ensures AllRegistered(DialMany(s, company, agentId, settings, n), BlastActs(s, company, agentId, settings, n), agentId, s.leads.table)
    decreases n
  {
    var r := DialOne(s, company, agentId, settings);
    if n == 0 {
      NoTurns(s, company, agentId, settings, n);
    } else {
      DialManyStep(s, company, agentId, settings, n);
      if r.1 {
        NextTurns(s, company, agentId, settings, n);
        DialOneIds(s, company, agentId, settings);
        TurnsRegister(r.0, company, agentId, settings, n - 1);
        FirstTurn(s, company, agentId, settings, DialMany(r.0, company, agentId, settings, n - 1),
          BlastActs(r.0, company, agentId, settings, n - 1));
      } else {
        TurnKeeps(s, company, agentId, settings);
        NoTurns(s, company, agentId, settings, n);
      }
    }
  }

  /** The event blasts for this agent and company. */
  predicate BlastsFor(s: Dialer, e: Event, company: int, agentId: nat) {
    || (e.EvBlast? && e.company == company && e.agent == agentId)
    || (e.EvStart? && e.agent == agentId && agentId in s.agents && s.agents[agentId].company == company)
  }

  /** Each origination of an event registers a leg that carries the lead dialled, its
      phone number and the blasting agent, under a WAITING log for that agent and
      number; a blast changes no leg and no log that was there before. */
  lemma DialRegistersCall(s: Dialer, e: Event, company: int, agentId: nat)
    requires IdsOk(s) && BlastsFor(s, e, company, agentId)
    ensures Keeps(s, Next(s, e))
    ensures forall a <- Acts(s, e) :: Registered(Next(s, e), a, agentId, s.leads.table)
  {
    match e
    case EvBlast(_, _, idle, settings) => BlastRegisters(s, company, agentId, idle, settings);
    case EvStart(_, slots, idle, settings) =>
      if settings.Some? && settings.value.complete {
        BlastRegisters(Started(s, agentId, slots), company, agentId, idle, settings);
      }
  }

  lemma BlastRegisters(s: Dialer, company: int, agentId: nat, idle: set<nat>, settings: Option<Settings>)
    requires IdsOk(s)
    ensures Keeps(s, Blast(s, company, agentId, idle, settings))
    ensures forall a <- BlastTurns(s, company, agentId, idle, settings) ::
      Registered(Blast(s, company, agentId, idle, settings), a, agentId, s.leads.table)
  {
    var n := BlastSize(|FreeAgents(s.agents, company) * idle|);
    TurnsRegister(s, company, agentId, settings, n);
    assert AllRegistered(DialMany(s, company, agentId, settings, n), BlastActs(s, company, agentId, settings, n), agentId, s.leads.table);
  }

  // ---- running agents ----

  /** The event starts the agent, with these slots, or stops it. */
  function RunningGiven(s: Dialer, e: Event, agent: nat): Option<Option<int>> {
    match e
    case EvStart(a, slots, _, settings) =>
      if a == agent && a in s.agents && settings.Some? && settings.value.complete then Some(Some(slots)) else None
    case EvStop(a) => if a == agent then Some(None) else None
    case _ => None
  }

  function Running(s: Dialer, agent: nat): Option<int> {
    if agent in s.running then Some(s.running[agent]) else None
  }

  lemma {:induction false} DialManyRunning(s: Dialer, company: int, agentId: nat, settings: Option<Settings>, n: nat)
    ensures DialMany(s, company, agentId, settings, n).running == s.running
    decreases n
  {
    if n > 0 {
      DialManyStep(s, company, agentId, settings, n);
      DialOneFrame(s, company, agentId, settings);
      if DialOne(s, company, agentId, settings).1 {
        DialManyRunning(DialOne(s, company, agentId, settings).0, company, agentId, settings, n - 1);
      }
    }
  }

  lemma BlastRunning(s: Dialer, company: int, agentId: nat, idle: set<nat>, settings: Option<Settings>)
    ensures Blast(s, company, agentId, idle, settings).running == s.running
  {
    DialManyRunning(s, company, agentId, settings, BlastSize(|FreeAgents(s.agents, company) * idle|));
  }

  lemma UpRunning(s: Dialer, ch: nat, pick: nat)
    ensures Up(s, ch, pick).running == s.running
  {
    if ch in s.channels {
      var log := s.channels[ch].callLogId;
      if s.channels[ch].role == Customer {
        if FreeAgents(s.agents, 0) == {} {
        } else if log !in s.logs {
        } else {
        }
      } else if Leg(s, log, Customer).None? {
      } else if log !in s.logs {
      } else {
      }
    }
  }

  lemma OthersRunning(s: Dialer, e: Event)
    requires !e.EvStart? && !e.EvStop? && !e.EvBlast?
    ensures Next(s, e).running == s.running
  {
    if Enabled(s, e) {
      match e
      case EvUp(ch, pick) => UpRunning(s, ch, pick);
      case EvOriginateFailed(_, log, lead, a) => FailureRunning(s, log, lead, a);
      case EvDtmf(ch, digit) => DtmfRunning(s, ch, digit);
      case EvTimer(ch) => TimerRunning(s, ch);
      case EvDestroyed(ch) => DestroyedRunning(s, ch);
      case _ =>
    }
  }

  lemma DestroyedRunning(s: Dialer, ch: nat)
    ensures Destroyed(s, ch).running == s.running
  {}

  lemma FailureRunning(s: Dialer, log: nat, lead: nat, a: nat)
    ensures OriginateFailed(s, log, lead, a).running == s.running
  {
    if log !in s.logs {
    } else if lead !in s.leads.table {
    } else {
    }
  }

  lemma TimerRunning(s: Dialer, ch: nat)
    requires ch in s.timers
    ensures TimerFires(s, ch).running == s.running
  {
    if ch !in s.channels || s.channels[ch].role != Customer || s.timers[ch].callLogId !in s.logs {
    } else {
    }
  }

  lemma DtmfRunning(s: Dialer, ch: nat, digit: char)
    ensures Dtmf(s, ch, digit).running == s.running
  {
    if !Repeats(s.lastDtmf, ch, digit) && ch in s.channels {
      var s1, log := s.(lastDtmf := s.lastDtmf[ch := digit]), s.channels[ch].callLogId;
      if digit != '#' {
      } else if log in s1.transfers {
      } else if Leg(s1, log, Customer).None? || Leg(s1, log, Agent).None? {
      } else {
      }
    }
  }

  lemma StartRunning(s: Dialer, a: nat, slots: int, idle: set<nat>, settings: Option<Settings>)
    ensures StartAgent(s, a, slots, idle, settings).running ==
      if a in s.agents && settings.Some? && settings.value.complete then s.running[a := slots] else s.running
  {
    if a in s.agents && settings.Some? && settings.value.complete {
      BlastRunning(Started(s, a, slots), s.agents[a].company, a, idle, settings);
    }
  }

  lemma EventRunning(s: Dialer, e: Event, agent: nat)
    ensures Running(Next(s, e), agent) ==
      if RunningGiven(s, e, agent).Some? then RunningGiven(s, e, agent).value else Running(s, agent)
  {
    match e
    case EvStart(a, slots, idle, settings) => StartRunning(s, a, slots, idle, settings);
    case EvBlast(company, a, idle, settings) => BlastRunning(s, company, a, idle, settings);
    case EvStop(a) =>
    case _ => OthersRunning(s, e);
  }

  function LastRunning(s: Dialer, events: seq<Event>, agent: nat): Option<Option<int>>
    decreases events
  {
    if events == [] then None
    else
      var later := LastRunning(Next(s, events[0]), events[1..], agent);
      if later.Some? then later else RunningGiven(s, events[0], agent)
  }

  /** After any run an agent runs exactly as the last start or stop of it has left it;
      one that has been stopped since its last start does not, and blasts for no one. */
  lemma {:induction false} RunningIsLastGiven(s: Dialer, events: seq<Event>, agent: nat)
    ensures Running(Run(s, events), agent) ==
      if LastRunning(s, events, agent).Some? then LastRunning(s, events, agent).value else Running(s, agent)
    decreases events
  {
    if events != [] {
      EventRunning(s, events[0], agent);
      RunningIsLastGiven(Next(s, events[0]), events[1..], agent);
    }
  }

  // ---- agent statuses ----

  predicate SomeoneAvailable(s: Dialer) {
    exists id <- s.agents :: s.agents[id].status == Available
  }

  /** The call has a registered customer. */
  ghost predicate HasCustomer(s: Dialer, log: nat) {
    exists c <- s.channels :: s.channels[c].callLogId == log && s.channels[c].role == Customer
  }

  /** The status an event gives an agent: a start AVAILABLE, a pairing RINGING, a bridge
      of one of its legs BUSY, and others what they like. */
  ghost function StatusGiven(s: Dialer, e: Event, agent: nat): Option<AgentStatus> {
    if agent !in s.agents && !e.EvAgentEdited? then None
    else match e
      case EvStart(a, _, _, settings) =>
        if a == agent && settings.Some? && settings.value.complete then Some(Available) else None
      case EvUp(ch, pick) =>
        if ch !in s.channels then None
        else
          var m := s.channels[ch];
          if m.role == Customer && pick == agent && s.agents[agent].status == Available then Some(AgentRinging)
          else if m.role == Agent && m.agentId == Some(agent) && HasCustomer(s, m.callLogId) && m.callLogId in s.logs
          then Some(AgentBusy)
          else None
      case EvAgentEdited(a, row) => if a == agent then Some(row.status) else None
      case _ => None
  }

  lemma AnyoneFree(s: Dialer)
    ensures FreeAgents(s.agents, 0) == {} <==> !SomeoneAvailable(s)
    ensures forall id :: id in FreeAgents(s.agents, 0) <==> id in s.agents && s.agents[id].status == Available
  {
    if SomeoneAvailable(s) {
      var id: nat :| id in s.agents && s.agents[id].status == Available;
      assert id in FreeAgents(s.agents, 0);
    }
    if FreeAgents(s.agents, 0) != {} {
      var id :| id in FreeAgents(s.agents, 0);
      assert IsFree(s.agents, id, 0);
    }
  }

  lemma CustomerFound(s: Dialer, log: nat)
    requires IdsOk(s)
    ensures Leg(s, log, Customer).Some? <==> HasCustomer(s, log)
  {
    if HasCustomer(s, log) {
      var c: nat :| c in s.channels && s.channels[c].callLogId == log && s.channels[c].role == Customer;
      assert IsLeg(s.channels, c, log, Customer);
    }
  }

  lemma UpAgents(s: Dialer, ch: nat, pick: nat, agent: nat)
    requires IdsOk(s) && Enabled(s, EvUp(ch, pick)) && agent in s.agents
    ensures var given := StatusGiven(s, EvUp(ch, pick), agent);
      && agent in Up(s, ch, pick).agents
      && Up(s, ch, pick).agents[agent] == if given.Some? then s.agents[agent].(status := given.value) else s.agents[agent]
  {
    AnyoneFree(s);
    if ch in s.channels {
      CustomerFound(s, s.channels[ch].callLogId);
      if s.channels[ch].role == Customer {
        PairedAgents(s, ch, pick);
      } else {
        BridgedAgents(s, ch);
      }
    }
  }

  lemma PairedAgents(s: Dialer, ch: nat, pick: nat)
    requires ch in s.channels
    ensures PairCustomer(s, ch, pick).agents ==
      if FreeAgents(s.agents, 0) == {} then s.agents else SetStatus(s.agents, pick, AgentRinging)
  {
    if FreeAgents(s.agents, 0) == {} {
    } else if s.channels[ch].callLogId !in s.logs {
    } else {
    }
  }

  lemma BridgedAgents(s: Dialer, ch: nat)
    requires ch in s.channels
    ensures var m := s.channels[ch];
      BridgeAgent(s, ch).agents ==
        if Leg(s, m.callLogId, Customer).Some? && m.callLogId in s.logs && m.agentId.Some?
        then SetStatus(s.agents, m.agentId.value, AgentBusy) else s.agents
  {
    if Leg(s, s.channels[ch].callLogId, Customer).None? {
    } else if s.channels[ch].callLogId !in s.logs {
    } else {
    }
  }

  lemma EventAgents(s: Dialer, e: Event, agent: nat)
    requires IdsOk(s) && agent in s.agents
    ensures var given := StatusGiven(s, e, agent);
      && agent in Next(s, e).agents
      && Next(s, e).agents[agent].status == if given.Some? then given.value else s.agents[agent].status
    ensures !e.EvAgentEdited? ==> Next(s, e).agents[agent].company == s.agents[agent].company
  {
    EventTables(s, e);
    match e
    case EvStart(a, slots, idle, settings) => StartFrame(s, a, slots, idle, settings);
    case EvUp(ch, pick) =>
      if Enabled(s, e) {
        UpAgents(s, ch, pick, agent);
      }
    case _ =>
  }

  ghost function LastStatus(s: Dialer, events: seq<Event>, agent: nat): Option<AgentStatus>
    decreases events
  {
    if events == [] then None
    else
      var later := LastStatus(Next(s, events[0]), events[1..], agent);
      if later.Some? then later else StatusGiven(s, events[0], agent)
  }

  /** After any run an agent has the status the last of these events gave it. */
  lemma {:induction false} StatusIsLastGiven(s: Dialer, events: seq<Event>, agent: nat)
    requires Inv(s) && agent in s.agents
    ensures agent in Run(s, events).agents
    ensures Run(s, events).agents[agent].status ==
      if LastStatus(s, events, agent).Some? then LastStatus(s, events, agent).value else s.agents[agent].status
    decreases events
  {
    if events != [] {
      EventAgents(s, events[0], agent);
      NextKeepsInv(s, events[0]);
      StatusIsLastGiven(Next(s, events[0]), events[1..], agent);
    }
  }

  // ---- call logs ----

  /** The channel of this call's customer with the smallest id of all customers. */
  ghost predicate IsFirstCustomer(s: Dialer, ch: nat) {
    && ch in s.channels && s.channels[ch].role == Customer
    && forall c <- s.channels :: s.channels[c].role == Customer ==> ch <= c
  }

  /** The agent's StasisStart rings this call: the one it names, or else that of the
      customer registered first. */
  ghost predicate Rings(s: Dialer, logVar: Option<nat>, log: nat) {
    if logVar.Some? then logVar == Some(log)
    else exists ch: nat :: IsFirstCustomer(s, ch) && s.channels[ch].callLogId == log
  }

  /** The row an event leaves in an existing call log; the deleted log is left out. */
  ghost function RowGiven(s: Dialer, e: Event, log: nat): CallLog
    requires log in s.logs
  {
    var row := s.logs[log];
    match e
    case EvStasis(ch) =>
      if ch in s.channels && s.channels[ch].role == Customer && s.channels[ch].callLogId == log
      then row.(status := Ringing) else row
    case EvAgentStasis(_, logVar) => if Rings(s, logVar, log) then row.(status := Ringing) else row
    case EvUp(ch, pick) =>
      if ch !in s.channels || s.channels[ch].callLogId != log then row
      else if s.channels[ch].role == Customer then
        if pick in s.agents && s.agents[pick].status == Available then row.(agentId := Some(pick)) else row
      else if HasCustomer(s, log) then row.(status := Connected, agentId := s.channels[ch].agentId)
      else row
    case EvDestroyed(ch) =>
      if ch !in s.channels || s.channels[ch].callLogId != log then row
      else row.(agentId := s.channels[ch].agentId, status :=
        match row.status
        case Connected => HungUp
        case Busy => Busy
        case Failed => Failed
        case _ => NoAnswer)
    case EvTimer(ch) => if ch in s.timers && s.timers[ch] == HoldTimer(log, true) then row.(status := NoAnswer) else row
    case EvOriginateFailed(ch, l, lead, agent) =>
      if l == log && OriginateCustomer(ch, l, lead) in s.trace then row.(status := InternalError, agentId := Some(agent)) else row
    case EvLogEdited(l, row') => if l == log then row' else row
    case _ => row
  }

  lemma {:induction false} FirstIsSmallest(channels: map<nat, Meta>, i: nat, n: nat)
    requires i <= n
    ensures var r := FirstCustomer(channels, i, n);
      if r.Some? then i <= r.value < n && forall c: nat | i <= c < r.value && c in channels :: channels[c].role != Customer
      else forall c: nat | i <= c < n && c in channels :: channels[c].role != Customer
    decreases n - i
  {
    if i < n && !(i in channels && channels[i].role == Customer) {
      FirstIsSmallest(channels, i + 1, n);
    }
  }

  lemma FirstFound(s: Dialer)
    requires IdsOk(s)
    ensures var r := FirstCustomer(s.channels, 0, s.nextChannel);
      forall ch: nat :: IsFirstCustomer(s, ch) <==> r == Some(ch)
  {
    FirstIsSmallest(s.channels, 0, s.nextChannel);
  }

  /** The log an agent's StasisStart rings. */
  function StasisLog(s: Dialer, logVar: Option<nat>): Option<nat> {
    var first := FirstCustomer(s.channels, 0, s.nextChannel);
    if logVar.Some? then logVar else if first.Some? then Some(s.channels[first.value].callLogId) else None
  }

  lemma AgentStasisLogs(s: Dialer, ch: nat, logVar: Option<nat>)
    ensures var log := StasisLog(s, logVar);
      StasisStart(s, ch, Agent, logVar, None, "").logs ==
        if log.Some? && log.value in s.logs then s.logs[log.value := s.logs[log.value].(status := Ringing)] else s.logs
  {}

  lemma AgentStasisRow(s: Dialer, ch: nat, logVar: Option<nat>, log: nat)
    requires IdsOk(s) && log in s.logs
    ensures var s' := StasisStart(s, ch, Agent, logVar, None, "");
      log in s'.logs && s'.logs[log] == RowGiven(s, EvAgentStasis(ch, logVar), log)
  {
    FirstFound(s);
    var first := FirstCustomer(s.channels, 0, s.nextChannel);
    AgentStasisLogs(s, ch, logVar);
    if logVar.Some? {
    } else if first.Some? {
      assert IsFirstCustomer(s, first.value);
    } else {
    }
  }

  lemma CustomerStasisRow(s: Dialer, ch: nat, log: nat)
    requires log in s.logs
    ensures log in Next(s, EvStasis(ch)).logs && Next(s, EvStasis(ch)).logs[log] == RowGiven(s, EvStasis(ch), log)
  {
    if ch in s.channels && s.channels[ch].role == Customer && s.channels[ch].callLogId !in s.logs {
    } else {
    }
  }

  lemma DestroyedRow(s: Dialer, ch: nat, log: nat)
    requires log in s.logs
    ensures log in Destroyed(s, ch).logs && Destroyed(s, ch).logs[log] == RowGiven(s, EvDestroyed(ch), log)
  {
    if ch in s.channels {
      assert Destroyed(s, ch).logs == OutcomeLogs(s, s.channels[ch]);
    }
  }

  lemma UpRow(s: Dialer, ch: nat, pick: nat, log: nat)
    requires IdsOk(s) && log in s.logs && Enabled(s, EvUp(ch, pick))
    ensures log in Up(s, ch, pick).logs && Up(s, ch, pick).logs[log] == RowGiven(s, EvUp(ch, pick), log)
  {
    AnyoneFree(s);
    if ch in s.channels {
      CustomerFound(s, s.channels[ch].callLogId);
      if s.channels[ch].role == Customer {
        if FreeAgents(s.agents, 0) == {} {
        } else if s.channels[ch].callLogId !in s.logs {
        } else {
        }
      } else if Leg(s, s.channels[ch].callLogId, Customer).None? {
      } else if s.channels[ch].callLogId !in s.logs {
      } else {
      }
    }
  }

  lemma FailureRow(s: Dialer, l: nat, lead: nat, agent: nat, log: nat)
    requires log in s.logs
    ensures var s' := OriginateFailed(s, l, lead, agent);
      log in s'.logs && s'.logs[log] == if l == log then s.logs[log].(status := InternalError, agentId := Some(agent)) else s.logs[log]
  {
    if l !in s.logs {
    } else if lead !in s.leads.table {
    } else {
    }
  }

  lemma TimerRow(s: Dialer, ch: nat, log: nat)
    requires LegsOk(s) && log in s.logs && ch in s.timers
    ensures var s' := TimerFires(s, ch);
      log in s'.logs && s'.logs[log] == if s.timers[ch].callLogId == log then s.logs[log].(status := NoAnswer) else s.logs[log]
  {
    assert IsLeg(s.channels, ch, s.timers[ch].callLogId, Customer);
    if s.timers[ch].callLogId in s.logs {
    } else {
    }
  }

  /** What every event does to an existing call log. */
  lemma EventRow(s: Dialer, e: Event, log: nat)
    requires LegsOk(s) && log in s.logs
    ensures if e == EvLogDeleted(log) then log !in Next(s, e).logs
      else log in Next(s, e).logs && Next(s, e).logs[log] == RowGiven(s, e, log)
  {
    match e
    case EvStart(a, slots, idle, settings) =>
      if a in s.agents {
        DialRegistersCall(s, e, s.agents[a].company, a);
      }
    case EvBlast(company, a, idle, settings) => DialRegistersCall(s, e, company, a);
    case EvStasis(ch) => CustomerStasisRow(s, ch, log);
    case EvAgentStasis(ch, logVar) => AgentStasisRow(s, ch, logVar, log);
    case EvDestroyed(ch) => DestroyedRow(s, ch, log);
    case EvUp(ch, pick) =>
      if Enabled(s, e) {
        UpRow(s, ch, pick, log);
      }
    case EvTimer(ch) =>
      if Enabled(s, e) {
        TimerRow(s, ch, log);
      }
    case EvDtmf(ch, digit) => DtmfLogs(s, ch, digit);
    case EvOriginateFailed(_, l, lead, agent) => FailureRow(s, l, lead, agent, log);
    case _ =>
  }

  /** Over any run in which no one else edits or deletes the log, its caller id stays. */
  lemma {:induction false} CallerIdStays(s: Dialer, events: seq<Event>, log: nat)
    requires Inv(s) && log in s.logs
    requires forall e <- events :: !(e.EvLogEdited? && e.log == log) && e != EvLogDeleted(log)
    ensures log in Run(s, events).logs && Run(s, events).logs[log].callerId == s.logs[log].callerId
    decreases events
  {
    if events != [] {
      var e := events[0];
      assert e in events && forall x <- events[1..] :: x in events;
      EventRow(s, e, log);
      NextKeepsInv(s, e);
      CallerIdStays(Next(s, e), events[1..], log);
    }
  }

  // ---- legs ----

  function LegGiven(s: Dialer, e: Event, ch: nat): Meta
    requires ch in s.channels
  {
    var m := s.channels[ch];
    if e.EvUp? && e.ch == ch && m.role == Customer && e.pick in s.agents && s.agents[e.pick].status == Available
    then m.(agentId := Some(e.pick)) else m
  }

  /** The particulars of a leg after an event: a pairing links the customer with the agent
      picked, and nothing else changes any. */
  lemma EventLeg(s: Dialer, e: Event, ch: nat)
    requires IdsOk(s) && ch in s.channels
    ensures if e == EvDestroyed(ch) then ch !in Next(s, e).channels
      else ch in Next(s, e).channels && Next(s, e).channels[ch] == LegGiven(s, e, ch)
  {
    if Enabled(s, e) {
      match e
      case EvStart(a, slots, idle, settings) =>
        if a in s.agents {
          DialRegistersCall(s, e, s.agents[a].company, a);
        }
      case EvBlast(company, a, idle, settings) => DialRegistersCall(s, e, company, a);
      case EvStasis(c) => StasisFrame(s, c, Customer, Some(s.channels[c].callLogId));
      case EvAgentStasis(c, logVar) => StasisFrame(s, c, Agent, logVar);
      case EvUp(c, pick) => UpLeg(s, c, pick, ch);
      case EvDestroyed(c) => DestroyedFrame(s, c);
      case EvTimer(c) => TimerFrame(s, c);
      case EvDtmf(c, digit) => DtmfFrame(s, c, digit);
      case EvOriginateFailed(_, log, lead, a) => FailureFrame(s, log, lead, a);
      case _ =>
    }
  }

  lemma UpLeg(s: Dialer, c: nat, pick: nat, ch: nat)
    requires IdsOk(s) && ch in s.channels && Enabled(s, EvUp(c, pick))
    ensures ch in Up(s, c, pick).channels
    ensures Up(s, c, pick).channels[ch] ==
      if c == ch && s.channels[ch].role == Customer && pick in s.agents && s.agents[pick].status == Available
      then s.channels[ch].(agentId := Some(pick)) else s.channels[ch]
  {
    AnyoneFree(s);
    if c in s.channels {
      if s.channels[c].role == Customer {
        if FreeAgents(s.agents, 0) == {} {
        } else if s.channels[c].callLogId !in s.logs {
        } else {
        }
      } else {
        BridgeFrame(s, c);
      }
    }
  }

  // ---- held calls ----

  /** A customer's StasisStart puts its call on hold for the company of the agent the call
      log names, or for company 0 when it names none. */
  lemma HeldForTheAgentsCompany(s: Dialer, ch: nat)
    requires ch in s.channels && s.channels[ch].role == Customer
    ensures var log, s' := s.channels[ch].callLogId, Next(s, EvStasis(ch));
      && log in s'.held && s'.held[log].Structured? && s'.held[log].channelId == ch
      && (forall a <- s.agents :: log in s.logs && s.logs[log].agentId == Some(a) ==> s'.held[log].company == s.agents[a].company)
      && ((log in s.logs && s.logs[log].agentId.Some? ==> s.logs[log].agentId.value !in s.agents) ==> s'.held[log].company == 0)
  {}

  /** A customer that enters Stasis without a call log gets one of its own, which rings,
      names the agent and the caller of the event, and is on hold with a timer. */
  lemma UnknownCustomerIsHeld(s: Dialer, ch: nat, agentVar: Option<nat>, caller: string)
    ensures var s' := StasisStart(s, ch, Customer, None, agentVar, caller);
      && s'.nextLog == s.nextLog + 1
      && s'.logs == s.logs[s.nextLog := CallLog(Ringing, agentVar, caller)]
      && s'.timers == s.timers[ch := HoldTimer(s.nextLog, true)]
      && s'.held == s.held[s.nextLog := Structured(ch,
           if agentVar.Some? && agentVar.value in s.agents then s.agents[agentVar.value].company else 0)]
      && s'.channels == s.channels && s'.agents == s.agents && s'.trace == s.trace
  {
    var row := CallLog(Ringing, agentVar, caller);
    var s1 := s.(logs := s.logs[s.nextLog := row], nextLog := s.nextLog + 1);
    assert row.(status := Ringing) == row;
    assert s1.logs[s.nextLog := row] == s1.logs;
    assert CompanyOf(s1, s.nextLog) ==
      if agentVar.Some? && agentVar.value in s.agents then s.agents[agentVar.value].company else 0;
  }
}
