/** What each event leaves alone, what it adds to the trace, and which legs it
    registers and removes. */
module DialerFrames {
  import opened Text
  import opened Leads
  import opened DialerState
  import opened DialerInvariants

  // ---- the acts of an event ----

  function BlastActs(s: Dialer, company: int, agentId: nat, settings: Option<Settings>, n: nat): seq<Act>
    decreases n
  {
    if n == 0 then []
    else
      var r, lead := DialOne(s, company, agentId, settings), NextLead(s.leads, company).1;
      if r.1 && lead.Some?
      then [OriginateCustomer(s.nextChannel, s.nextLog, lead.value)] + BlastActs(r.0, company, agentId, settings, n - 1)
      else []
  }

  function PairActs(s: Dialer, ch: nat, pick: nat): seq<Act>
    requires ch in s.channels
  {
    var log := s.channels[ch].callLogId;
    if FreeAgents(s.agents, 0) == {} || log !in s.logs then [] else [OriginateAgent(s.nextChannel, log, pick)]
  }

  function BridgeActs(s: Dialer, ch: nat): seq<Act>
    requires ch in s.channels
  {
    var log := s.channels[ch].callLogId;
    var customer := Leg(s, log, Customer);
    if customer.None? then [Hangup(ch)]
    else if log !in s.logs then [Bridge(log, customer.value, ch)]
    else [Bridge(log, customer.value, ch), WriteLog(log, Connected)]
  }

  function DestroyedActs(s: Dialer, ch: nat): seq<Act> {
    if ch in s.channels then OutcomeActs(s, s.channels[ch]) + HangupActs(s, ch) else []
  }

  function TimerActs(s: Dialer, ch: nat): seq<Act>
    requires ch in s.timers
  {
    var log := s.timers[ch].callLogId;
    if ch !in s.channels || s.channels[ch].role != Customer || log !in s.logs then []
    else [WriteLog(log, NoAnswer), Hangup(ch)]
  }

  function FailureActs(s: Dialer, log: nat, lead: nat): seq<Act> {
    if log !in s.logs then []
    else if lead !in s.leads.table then [WriteLog(log, InternalError)]
    else [WriteLog(log, InternalError), WriteLead(lead, log, ContactInternalError)]
  }

  function DigitActs(s: Dialer, log: nat, digit: char): seq<Act> {
    if digit == '#' && log in s.transfers then
      var t := s.transfers[log];
      [Continue(t.customerChannelId, Extension(t.digits)), Hangup(t.agentChannelId)]
    else []
  }

  function DtmfActs(s: Dialer, ch: nat, digit: char): seq<Act> {
    if Repeats(s.lastDtmf, ch, digit) || ch !in s.channels then [] else DigitActs(s, s.channels[ch].callLogId, digit)
  }

  /** The state in which the blast of a start event runs. */
  function Started(s: Dialer, agent: nat, slots: int): Dialer {
    s.(running := s.running[agent := slots], agents := SetStatus(s.agents, agent, Available))
  }

  /** What an event adds to the trace. */
  function Acts(s: Dialer, e: Event): seq<Act> {
    if !Enabled(s, e) then []
    else match e
      case EvStart(agent, slots, idle, settings) =>
        if agent !in s.agents || settings.None? || !settings.value.complete then []
        else BlastTurns(Started(s, agent, slots), s.agents[agent].company, agent, idle, settings)
      case EvBlast(company, agent, idle, settings) => BlastTurns(s, company, agent, idle, settings)
      case EvUp(ch, pick) =>
        if ch !in s.channels then []
        else if s.channels[ch].role == Customer then PairActs(s, ch, pick)
        else BridgeActs(s, ch)
      case EvDestroyed(ch) => DestroyedActs(s, ch)
      case EvTimer(ch) => TimerActs(s, ch)
      case EvDtmf(ch, digit) => DtmfActs(s, ch, digit)
      case EvOriginateFailed(_, log, lead, _) => FailureActs(s, log, lead)
      case EvLogCreated(row) => [ReportLog(s.nextLog, row.status)]
      case EvLogEdited(log, row) => [ReportLog(log, row.status)]
      case _ => []
  }

  function BlastTurns(s: Dialer, company: int, agentId: nat, idle: set<nat>, settings: Option<Settings>): seq<Act> {
    var free := |FreeAgents(s.agents, company) * idle|;
    if agentId !in s.running || free == 0 then [] else BlastActs(s, company, agentId, settings, BlastSize(free))
  }

  // ---- the tables ----

  /** The tables a blast never touches. */
  predicate SameTables(s: Dialer, s': Dialer) {
    && s'.held == s.held && s'.timers == s.timers && s'.transfers == s.transfers && s'.lastDtmf == s.lastDtmf
  }

  lemma DialOneFrame(s: Dialer, company: int, agentId: nat, settings: Option<Settings>)
    ensures SameTables(s, DialOne(s, company, agentId, settings).0)
    ensures DialOne(s, company, agentId, settings).0.agents == s.agents
    ensures DialOne(s, company, agentId, settings).0.running == s.running
  {
    if NextLead(s.leads, company).1.None? {
    } else {
    }
  }

  lemma DialOneTurn(s: Dialer, company: int, agentId: nat, settings: Option<Settings>)
    ensures var r, lead := DialOne(s, company, agentId, settings), NextLead(s.leads, company).1;
      && r.0.leads == NextLead(s.leads, company).0
      && if r.1 then lead.Some? && r.0.trace == s.trace + [OriginateCustomer(s.nextChannel, s.nextLog, lead.value)]
         else r.0.trace == s.trace
  {}

  lemma {:induction false} DialManyTables(s: Dialer, company: int, agentId: nat, settings: Option<Settings>, n: nat)
    ensures SameTables(s, DialMany(s, company, agentId, settings, n))
    ensures DialMany(s, company, agentId, settings, n).agents == s.agents
    decreases n
  {
    if n > 0 {
      DialManyStep(s, company, agentId, settings, n);
      DialOneFrame(s, company, agentId, settings);
      if DialOne(s, company, agentId, settings).1 {
        DialManyTables(DialOne(s, company, agentId, settings).0, company, agentId, settings, n - 1);
      }
    }
  }

  lemma {:induction false} DialManyTrace(s: Dialer, company: int, agentId: nat, settings: Option<Settings>, n: nat)
    ensures DialMany(s, company, agentId, settings, n).trace == s.trace + BlastActs(s, company, agentId, settings, n)
    decreases n
  {
    assert s.trace + [] == s.trace;
    if n > 0 {
      DialManyStep(s, company, agentId, settings, n);
      DialOneTurn(s, company, agentId, settings);
      var r, lead := DialOne(s, company, agentId, settings), NextLead(s.leads, company).1;
      if r.1 {
        DialManyTrace(r.0, company, agentId, settings, n - 1);
        Regroup(s.trace, OriginateCustomer(s.nextChannel, s.nextLog, lead.value),
          BlastActs(r.0, company, agentId, settings, n - 1));
      }
    }
  }

  lemma Regroup(trace: seq<Act>, act: Act, more: seq<Act>)
    ensures (trace + [act]) + more == trace + ([act] + more)
  {}

  lemma BlastFrame(s: Dialer, company: int, agentId: nat, idle: set<nat>, settings: Option<Settings>)
    ensures SameTables(s, Blast(s, company, agentId, idle, settings))
    ensures Blast(s, company, agentId, idle, settings).agents == s.agents
    ensures Blast(s, company, agentId, idle, settings).trace == s.trace + BlastTurns(s, company, agentId, idle, settings)
  {
    assert s.trace + [] == s.trace;
    DialManyTables(s, company, agentId, settings, BlastSize(|FreeAgents(s.agents, company) * idle|));
    DialManyTrace(s, company, agentId, settings, BlastSize(|FreeAgents(s.agents, company) * idle|));
  }

  lemma StartFrame(s: Dialer, a: nat, slots: int, idle: set<nat>, settings: Option<Settings>)
    ensures SameTables(s, StartAgent(s, a, slots, idle, settings))
    ensures StartAgent(s, a, slots, idle, settings).agents ==
      if settings.Some? && settings.value.complete then SetStatus(s.agents, a, Available) else s.agents
    ensures StartAgent(s, a, slots, idle, settings).trace == s.trace + Acts(s, EvStart(a, slots, idle, settings))
  {
    assert s.trace + [] == s.trace;
    if a in s.agents && settings.Some? && settings.value.complete {
      var s1 := Started(s, a, slots);
      BlastFrame(s1, s.agents[a].company, a, idle, settings);
    }
  }

  lemma StasisFrame(s: Dialer, ch: nat, role: Role, logVar: Option<nat>)
    ensures var s' := StasisStart(s, ch, role, logVar, None, "");
      && s'.channels == s.channels && s'.transfers == s.transfers && s'.lastDtmf == s.lastDtmf
      && s'.agents == s.agents && s'.leads == s.leads && s'.trace == s.trace && s'.nextChannel == s.nextChannel
      && s'.nextLog >= s.nextLog
  {}

  lemma PairFrame(s: Dialer, ch: nat, pick: nat)
    requires ch in s.channels
    ensures var s' := PairCustomer(s, ch, pick);
      && s'.transfers == s.transfers && s'.lastDtmf == s.lastDtmf && s'.timers == s.timers && s'.leads == s.leads
      && s'.trace == s.trace + PairActs(s, ch, pick)
  {
    assert s.trace + [] == s.trace;
    if FreeAgents(s.agents, 0) == {} {
    } else if s.channels[ch].callLogId !in s.logs {
    } else {
    }
  }

  lemma BridgeFrame(s: Dialer, ch: nat)
    requires ch in s.channels
    ensures var s' := BridgeAgent(s, ch);
      && s'.transfers == s.transfers && s'.lastDtmf == s.lastDtmf && s'.channels == s.channels && s'.leads == s.leads
      && s'.nextChannel == s.nextChannel && s'.nextLog == s.nextLog
      && s'.trace == s.trace + BridgeActs(s, ch)
  {
    var log := s.channels[ch].callLogId;
    if Leg(s, log, Customer).None? {
    } else if log !in s.logs {
    } else {
      var act := Bridge(log, Leg(s, log, Customer).value, ch);
      assert s.trace + [act] + [WriteLog(log, Connected)] == s.trace + [act, WriteLog(log, Connected)];
    }
  }

  lemma DestroyedFrame(s: Dialer, ch: nat)
    ensures var s' := Destroyed(s, ch);
      && s'.lastDtmf == s.lastDtmf && s'.agents == s.agents && s'.nextChannel == s.nextChannel && s'.nextLog == s.nextLog
      && s'.channels == s.channels - {ch}
      && s'.trace == s.trace + DestroyedActs(s, ch)
  {
    if ch in s.channels {
      assert s.trace + OutcomeActs(s, s.channels[ch]) + HangupActs(s, ch) == s.trace + DestroyedActs(s, ch);
    } else {
      assert s.channels - {ch} == s.channels;
      assert s.trace + [] == s.trace;
    }
  }

  lemma TimerFrame(s: Dialer, ch: nat)
    requires ch in s.timers
    ensures var s' := TimerFires(s, ch);
      && s'.lastDtmf == s.lastDtmf && s'.transfers == s.transfers && s'.channels == s.channels && s'.agents == s.agents
      && s'.leads == s.leads && s'.nextChannel == s.nextChannel && s'.nextLog == s.nextLog
      && s'.trace == s.trace + TimerActs(s, ch)
  {
    var log := s.timers[ch].callLogId;
    if ch !in s.channels || s.channels[ch].role != Customer || log !in s.logs {
      assert s.trace + [] == s.trace;
    } else {
      assert s.trace + [WriteLog(log, NoAnswer)] + [Hangup(ch)] == s.trace + [WriteLog(log, NoAnswer), Hangup(ch)];
    }
  }

  lemma FailureFrame(s: Dialer, log: nat, lead: nat, a: nat)
    ensures var s' := OriginateFailed(s, log, lead, a);
      && SameTables(s, s') && s'.channels == s.channels && s'.agents == s.agents
      && s'.nextChannel == s.nextChannel && s'.nextLog == s.nextLog
      && s'.trace == s.trace + FailureActs(s, log, lead)
  {
    if log !in s.logs {
      assert s.trace + [] == s.trace;
    } else if lead !in s.leads.table {
    } else {
      assert s.trace + [WriteLog(log, InternalError)] + [WriteLead(lead, log, ContactInternalError)]
        == s.trace + FailureActs(s, log, lead);
    }
  }

  /** What a digit leaves alone. */
  predicate SameButTransfers(s: Dialer, s': Dialer) {
    && s'.channels == s.channels && s'.agents == s.agents && s'.leads == s.leads && s'.held == s.held
    && s'.timers == s.timers && s'.lastDtmf == s.lastDtmf && s'.nextChannel == s.nextChannel && s'.nextLog == s.nextLog
  }

  lemma FinishFrame(s: Dialer, log: nat)
    requires log in s.transfers
    ensures SameButTransfers(s, FinishTransfer(s, log))
    ensures FinishTransfer(s, log).trace == s.trace + DigitActs(s, log, '#')
  {
    var t := s.transfers[log];
    assert s.trace + [Continue(t.customerChannelId, Extension(t.digits))] + [Hangup(t.agentChannelId)]
      == s.trace + DigitActs(s, log, '#');
  }

  lemma TransferFrame(s: Dialer, log: nat)
    ensures SameButTransfers(s, StartTransfer(s, log)) && StartTransfer(s, log).trace == s.trace
  {
    if Leg(s, log, Customer).None? || Leg(s, log, Agent).None? {
    } else {
    }
  }

  lemma DigitFrame(s: Dialer, log: nat, digit: char)
    ensures SameButTransfers(s, Digit(s, log, digit))
    ensures Digit(s, log, digit).trace == s.trace + DigitActs(s, log, digit)
  {
    assert s.trace + [] == s.trace;
    if digit == '#' {
      if log in s.transfers {
        FinishFrame(s, log);
      } else {
        TransferFrame(s, log);
      }
    } else if log in s.transfers {
    } else {
    }
  }

  lemma DtmfFrame(s: Dialer, ch: nat, digit: char)
    ensures var s' := Dtmf(s, ch, digit);
      && s'.channels == s.channels && s'.agents == s.agents && s'.leads == s.leads && s'.held == s.held
      && s'.timers == s.timers && s'.nextChannel == s.nextChannel && s'.nextLog == s.nextLog
      && s'.trace == s.trace + DtmfActs(s, ch, digit)
  {
    assert s.trace + [] == s.trace;
    if !Repeats(s.lastDtmf, ch, digit) && ch in s.channels {
      DigitFrame(s.(lastDtmf := s.lastDtmf[ch := digit]), s.channels[ch].callLogId, digit);
    }
  }

  // ---- every event ----

  lemma EventTrace(s: Dialer, e: Event)
    ensures Next(s, e).trace == s.trace + Acts(s, e)
  {
    assert s.trace + [] == s.trace;
    if Enabled(s, e) {
      match e
      case EvStart(a, slots, idle, settings) => StartFrame(s, a, slots, idle, settings);
      case EvBlast(company, agent, idle, settings) => BlastFrame(s, company, agent, idle, settings);
      case EvStasis(ch) => StasisFrame(s, ch, Customer, Some(s.channels[ch].callLogId));
      case EvAgentStasis(ch, logVar) => StasisFrame(s, ch, Agent, logVar);
      case EvUp(ch, pick) => UpTrace(s, ch, pick);
      case EvDestroyed(ch) => DestroyedFrame(s, ch);
      case EvTimer(ch) => TimerFrame(s, ch);
      case EvDtmf(ch, digit) => DtmfFrame(s, ch, digit);
      case EvOriginateFailed(_, log, lead, a) => FailureFrame(s, log, lead, a);
      case _ =>
    }
  }

  lemma UpTrace(s: Dialer, ch: nat, pick: nat)
    ensures Up(s, ch, pick).trace == s.trace +
      if ch !in s.channels then []
      else if s.channels[ch].role == Customer then PairActs(s, ch, pick) else BridgeActs(s, ch)
    ensures Up(s, ch, pick).transfers == s.transfers && Up(s, ch, pick).lastDtmf == s.lastDtmf
    ensures Up(s, ch, pick).leads == s.leads
  {
    assert s.trace + [] == s.trace;
    if ch in s.channels {
      if s.channels[ch].role == Customer {
        PairFrame(s, ch, pick);
      } else {
        BridgeFrame(s, ch);
      }
    }
  }

  /** Which events can change which tables. */
  lemma EventTables(s: Dialer, e: Event)
    ensures var s' := Next(s, e);
      && (!e.EvDtmf? ==> s'.lastDtmf == s.lastDtmf)
      && (!e.EvDtmf? && !e.EvDestroyed? ==> s'.transfers == s.transfers)
      && (!e.EvStasis? && !e.EvAgentStasis? && !e.EvUp? && !e.EvDestroyed? && !e.EvTimer? ==>
            s'.held == s.held && s'.timers == s.timers)
      && (!e.EvStart? && !e.EvUp? && !e.EvAgentEdited? ==> s'.agents == s.agents)
      && (!e.EvStart? && !e.EvBlast? && !e.EvDestroyed? && !e.EvOriginateFailed? && !e.EvLeads? ==> s'.leads == s.leads)
  {
    if Enabled(s, e) {
      match e
      case EvStart(a, slots, idle, settings) => StartFrame(s, a, slots, idle, settings);
      case EvBlast(company, agent, idle, settings) => BlastFrame(s, company, agent, idle, settings);
      case EvStasis(ch) => StasisFrame(s, ch, Customer, Some(s.channels[ch].callLogId));
      case EvAgentStasis(ch, logVar) => StasisFrame(s, ch, Agent, logVar);
      case EvUp(ch, pick) => UpTrace(s, ch, pick);
      case EvDestroyed(ch) => DestroyedFrame(s, ch);
      case EvTimer(ch) => TimerFrame(s, ch);
      case EvDtmf(ch, digit) => DtmfFrame(s, ch, digit);
      case EvOriginateFailed(_, log, lead, a) => FailureFrame(s, log, lead, a);
      case _ =>
    }
  }

  /** Which acts an event can add. */
  lemma ActKinds(s: Dialer, e: Event)
    ensures forall a <- Acts(s, e) ::
      && (a.OriginateCustomer? ==> e.EvStart? || e.EvBlast?)
      && (a.OriginateAgent? ==> e.EvUp?)
      && (a.Continue? ==> e.EvDtmf?)
  {
    match e
    case EvStart(agent, slots, idle, settings) =>
      if agent in s.agents && settings.Some? && settings.value.complete {
        var s1 := Started(s, agent, slots);
        var company := s.agents[agent].company;
        BlastOriginates(s1, company, agent, settings, BlastSize(|FreeAgents(s1.agents, company) * idle|));
      }
    case EvBlast(company, agent, idle, settings) =>
      BlastOriginates(s, company, agent, settings, BlastSize(|FreeAgents(s.agents, company) * idle|));
    case _ =>
  }

  lemma {:induction false} BlastOriginates(s: Dialer, company: int, agentId: nat, settings: Option<Settings>, n: nat)
    ensures |BlastActs(s, company, agentId, settings, n)| <= n
    ensures forall a <- BlastActs(s, company, agentId, settings, n) :: a.OriginateCustomer?
    decreases n
  {
    if n > 0 && DialOne(s, company, agentId, settings).1 {
      BlastOriginates(DialOne(s, company, agentId, settings).0, company, agentId, settings, n - 1);
    }
  }

  // ---- the call logs ----

  /** A log that exists now existed before or has an id not used before. */
  ghost predicate LogsGrow(s: Dialer, s': Dialer) {
    s.nextLog <= s'.nextLog && forall l <- s'.logs :: l in s.logs || l >= s.nextLog
  }

  lemma DialOneLogs(s: Dialer, company: int, agentId: nat, settings: Option<Settings>)
    ensures LogsGrow(s, DialOne(s, company, agentId, settings).0)
  {
    if NextLead(s.leads, company).1.None? {
    } else {
    }
  }

  lemma {:induction false} DialManyLogs(s: Dialer, company: int, agentId: nat, settings: Option<Settings>, n: nat)
    ensures LogsGrow(s, DialMany(s, company, agentId, settings, n))
    decreases n
  {
    if n > 0 {
      DialManyStep(s, company, agentId, settings, n);
      DialOneLogs(s, company, agentId, settings);
      if DialOne(s, company, agentId, settings).1 {
        DialManyLogs(DialOne(s, company, agentId, settings).0, company, agentId, settings, n - 1);
      }
    }
  }

  lemma BlastLogs(s: Dialer, company: int, agentId: nat, idle: set<nat>, settings: Option<Settings>)
    ensures LogsGrow(s, Blast(s, company, agentId, idle, settings))
  {
    DialManyLogs(s, company, agentId, settings, BlastSize(|FreeAgents(s.agents, company) * idle|));
  }

  lemma StartLogs(s: Dialer, a: nat, slots: int, idle: set<nat>, settings: Option<Settings>)
    ensures LogsGrow(s, StartAgent(s, a, slots, idle, settings))
  {
    if a in s.agents && settings.Some? && settings.value.complete {
      BlastLogs(Started(s, a, slots), s.agents[a].company, a, idle, settings);
    }
  }

  lemma StasisLogs(s: Dialer, ch: nat, role: Role, logVar: Option<nat>)
    ensures LogsGrow(s, StasisStart(s, ch, role, logVar, None, ""))
  {}

  lemma UpLogs(s: Dialer, ch: nat, pick: nat)
    ensures LogsGrow(s, Up(s, ch, pick))
  {
    if ch in s.channels {
      var log := s.channels[ch].callLogId;
      if s.channels[ch].role == Customer {
        if FreeAgents(s.agents, 0) == {} {
        } else if log !in s.logs {
        } else {
        }
      } else if Leg(s, log, Customer).None? {
      } else if log !in s.logs {
      } else {
      }
    }
  }

  lemma FailureLogs(s: Dialer, log: nat, lead: nat, a: nat)
    ensures LogsGrow(s, OriginateFailed(s, log, lead, a))
  {
    if log !in s.logs {
    } else if lead !in s.leads.table {
    } else {
    }
  }

  lemma TimerLogs(s: Dialer, ch: nat)
    requires ch in s.timers
    ensures LogsGrow(s, TimerFires(s, ch))
  {
    if ch !in s.channels || s.channels[ch].role != Customer || s.timers[ch].callLogId !in s.logs {
    } else {
    }
  }

  lemma DtmfLogs(s: Dialer, ch: nat, digit: char)
    ensures Dtmf(s, ch, digit).logs == s.logs && Dtmf(s, ch, digit).nextLog == s.nextLog
  {
    if !Repeats(s.lastDtmf, ch, digit) && ch in s.channels {
      var s1, log := s.(lastDtmf := s.lastDtmf[ch := digit]), s.channels[ch].callLogId;
      if digit != '#' {
      } else if log in s1.transfers {
      } else if Leg(s1, log, Customer).None? || Leg(s1, log, Agent).None? {
      } else {
      }
    }
  }

  /** A deleted call log never comes back. */
  lemma EventLogs(s: Dialer, e: Event)
    ensures LogsGrow(s, Next(s, e))
  {
    if Enabled(s, e) {
      match e
      case EvStart(a, slots, idle, settings) => StartLogs(s, a, slots, idle, settings);
      case EvBlast(company, agent, idle, settings) => BlastLogs(s, company, agent, idle, settings);
      case EvStasis(ch) => StasisLogs(s, ch, Customer, Some(s.channels[ch].callLogId));
      case EvAgentStasis(ch, logVar) => StasisLogs(s, ch, Agent, logVar);
      case EvUp(ch, pick) => UpLogs(s, ch, pick);
      case EvTimer(ch) => TimerLogs(s, ch);
      case EvDtmf(ch, digit) => DtmfLogs(s, ch, digit);
      case EvOriginateFailed(_, log, lead, a) => FailureLogs(s, log, lead, a);
      case _ =>
    }
  }

  // ---- the legs ----

  /** The particulars of a leg that never change. */
  predicate SameLeg(m: Meta, m': Meta) {
    m'.callLogId == m.callLogId && m'.role == m.role && m'.leadId == m.leadId
  }

  /** A leg registered now: under a channel id not used before, a customer under a
      call log id not used before, an agent without a lead. */
  predicate IsNew(s: Dialer, c: nat, m: Meta) {
    && c >= s.nextChannel
    && (m.role == Customer ==> m.callLogId >= s.nextLog)
    && (m.role == Agent ==> m.leadId == None)
  }

  /** The legs `before` are kept as they are, and all others are new. */
  ghost predicate LegsGrow(s: Dialer, before: map<nat, Meta>, s': Dialer) {
    && s.nextChannel <= s'.nextChannel && s.nextLog <= s'.nextLog
    && (forall c <- before :: c in s'.channels && SameLeg(before[c], s'.channels[c]))
    && (forall c <- s'.channels :: c in before || IsNew(s, c, s'.channels[c]))
  }

  /** The legs that are left when the event removes its own. */
  function Left(s: Dialer, e: Event): map<nat, Meta> {
    if e.EvDestroyed? then s.channels - {e.ch} else s.channels
  }

  lemma DialOneGrows(s: Dialer, company: int, agentId: nat, settings: Option<Settings>)
    requires IdsOk(s)
    ensures LegsGrow(s, s.channels, DialOne(s, company, agentId, settings).0)
  {
    if NextLead(s.leads, company).1.None? {
    } else if DialOne(s, company, agentId, settings).1 {
      assert forall c <- DialOne(s, company, agentId, settings).0.channels :: c in s.channels || c == s.nextChannel;
    } else {
    }
  }

  lemma {:induction false} DialManyGrows(s: Dialer, company: int, agentId: nat, settings: Option<Settings>, n: nat)
    requires IdsOk(s)
    ensures LegsGrow(s, s.channels, DialMany(s, company, agentId, settings, n))
    decreases n
  {
    if n > 0 {
      DialManyStep(s, company, agentId, settings, n);
      DialOneGrows(s, company, agentId, settings);
      DialOneIds(s, company, agentId, settings);
      if DialOne(s, company, agentId, settings).1 {
        DialManyGrows(DialOne(s, company, agentId, settings).0, company, agentId, settings, n - 1);
      }
    }
  }

  lemma BlastGrows(s: Dialer, company: int, agentId: nat, idle: set<nat>, settings: Option<Settings>)
    requires IdsOk(s)
    ensures LegsGrow(s, s.channels, Blast(s, company, agentId, idle, settings))
  {
    DialManyGrows(s, company, agentId, settings, BlastSize(|FreeAgents(s.agents, company) * idle|));
  }

  lemma StartGrows(s: Dialer, a: nat, slots: int, idle: set<nat>, settings: Option<Settings>)
    requires IdsOk(s)
    ensures LegsGrow(s, s.channels, StartAgent(s, a, slots, idle, settings))
  {
    if a in s.agents && settings.Some? && settings.value.complete {
      var s1 := Started(s, a, slots);
      BlastGrows(s1, s.agents[a].company, a, idle, settings);
    }
  }

  lemma PairGrows(s: Dialer, ch: nat, pick: nat)
    requires IdsOk(s) && ch in s.channels
    ensures LegsGrow(s, s.channels, PairCustomer(s, ch, pick))
  {
    if FreeAgents(s.agents, 0) == {} {
    } else if s.channels[ch].callLogId !in s.logs {
    } else {
    }
  }

  lemma UpGrows(s: Dialer, ch: nat, pick: nat)
    requires IdsOk(s)
    ensures LegsGrow(s, s.channels, Up(s, ch, pick))
  {
    if ch in s.channels {
      if s.channels[ch].role == Customer {
        PairGrows(s, ch, pick);
      } else {
        BridgeFrame(s, ch);
      }
    }
  }

  /** No event but its destruction removes or changes a leg, and no channel or
      customer's call log is ever used again. */
  lemma EventLegs(s: Dialer, e: Event)
    requires IdsOk(s)
    ensures LegsGrow(s, Left(s, e), Next(s, e))
  {
    if Enabled(s, e) {
      match e
      case EvStart(a, slots, idle, settings) => StartGrows(s, a, slots, idle, settings);
      case EvBlast(company, a, idle, settings) => BlastGrows(s, company, a, idle, settings);
      case EvStasis(ch) => StasisFrame(s, ch, Customer, Some(s.channels[ch].callLogId));
      case EvAgentStasis(ch, logVar) => StasisFrame(s, ch, Agent, logVar);
      case EvUp(ch, pick) => UpGrows(s, ch, pick);
      case EvDestroyed(ch) => DestroyedFrame(s, ch);
      case EvTimer(ch) => TimerFrame(s, ch);
      case EvDtmf(ch, digit) => DtmfFrame(s, ch, digit);
      case EvOriginateFailed(_, log, lead, a) => FailureFrame(s, log, lead, a);
      case _ =>
    }
  }

  /** A leg registered after a run under an old channel id was registered before
      it, as the same leg: channels are not used again. */
  lemma {:induction false} RunLegs(s: Dialer, events: seq<Event>, c: nat)
    requires Inv(s) && c < s.nextChannel && c in Run(s, events).channels
    ensures c in s.channels && SameLeg(s.channels[c], Run(s, events).channels[c])
    decreases events
  {
    if events != [] {
      EventLegs(s, events[0]);
      NextKeepsInv(s, events[0]);
      RunLegs(Next(s, events[0]), events[1..], c);
    }
  }

  /** The call has had its customer leg, `customer`: it has no other, and gets none. */
  ghost predicate SoleCustomer(s: Dialer, log: nat, customer: nat) {
    log < s.nextLog && forall c: nat :: IsLeg(s.channels, c, log, Customer) ==> c == customer
  }

  lemma NextKeepsSole(s: Dialer, e: Event, log: nat, customer: nat)
    requires IdsOk(s) && SoleCustomer(s, log, customer)
    ensures SoleCustomer(Next(s, e), log, customer)
  {
    EventLegs(s, e);
    forall c: nat | IsLeg(Next(s, e).channels, c, log, Customer) ensures c == customer {
      assert c in Left(s, e);
      assert IsLeg(s.channels, c, log, Customer);
    }
  }

  lemma {:induction false} RunKeepsSole(s: Dialer, events: seq<Event>, log: nat, customer: nat)
    requires Inv(s) && SoleCustomer(s, log, customer)
    ensures SoleCustomer(Run(s, events), log, customer)
    decreases events
  {
    if events != [] {
      NextKeepsSole(s, events[0], log, customer);
      NextKeepsInv(s, events[0]);
      RunKeepsSole(Next(s, events[0]), events[1..], log, customer);
    }
  }
}
