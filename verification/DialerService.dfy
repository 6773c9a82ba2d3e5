/** The dialer service: the handlers as the source writes them, each proved to
    have exactly the effect its function in DialerState describes. */
module DialerServices {
  import opened Text
  import opened Leads
  import opened DialerState

  class DialerService {
    var agentRunning: map<nat, int>
    var channelToMeta: map<nat, Meta>
    var onHoldTimers: map<nat, HoldTimer>
    var holdQueue: map<nat, HoldEntry>
    var pendingTransfers: map<nat, PendingTransfer>
    var lastDtmf: map<nat, char>
    var nextChannel: nat
    var nextLog: nat
    var callLogs: map<nat, CallLog>
    var agents: map<nat, AgentRow>
    var leads: LeadState
    var trace: seq<Act>

    ghost function View(): Dialer
      reads this
    {
      Dialer(agentRunning, channelToMeta, onHoldTimers, holdQueue, pendingTransfers, lastDtmf,
             nextChannel, nextLog, callLogs, agents, leads, trace)
    }

    constructor (agents: map<nat, AgentRow>, leads: LeadState)
      ensures View() == Dialer(map[], map[], map[], map[], map[], map[], 0, 0, map[], agents, leads, [])
    {
      agentRunning, channelToMeta, onHoldTimers, holdQueue := map[], map[], map[], map[];
      pendingTransfers, lastDtmf, nextChannel, nextLog, callLogs := map[], map[], 0, 0, map[];
      this.agents, this.leads, trace := agents, leads, [];
    }

    // ---- helpers ----

    method MarkStatus(agent: nat, status: AgentStatus)
      modifies this`agents
      ensures agents == SetStatus(old(agents), agent, status)
    {
      if agent in agents {
        agents := agents[agent := agents[agent].(status := status)];
      }
    }

    method ClearHoldTimeout(ch: nat)
      modifies this`onHoldTimers
      ensures onHoldTimers == old(onHoldTimers) - {ch}
    {
      if ch in onHoldTimers {
        onHoldTimers := onHoldTimers - {ch};
      }
    }

    method SetHoldTimeout(ch: nat, log: nat)
      modifies this`onHoldTimers
      ensures onHoldTimers == old(onHoldTimers)[ch := HoldTimer(log, true)]
    {
      ClearHoldTimeout(ch);
      onHoldTimers := onHoldTimers[ch := HoldTimer(log, true)];
    }

    method UpdateLog(log: nat, status: CallStatus, agentId: Option<nat>)
      requires log in callLogs
      modifies this`callLogs, this`trace
      ensures View() == SetLog(old(View()), log, status, agentId)
    {
      callLogs := callLogs[log := callLogs[log].(status := status, agentId := agentId)];
      trace := trace + [WriteLog(log, status)];
    }

    method CountHeld(company: int) returns (n: nat)
      ensures n == |CountedHeld(holdQueue, company)|
    {
      var keys := holdQueue.Keys;
      ghost var seen: set<nat> := {};
      n := 0;
      while keys != {}
        invariant keys <= holdQueue.Keys && keys !! seen
        invariant seen == CountedHeld(holdQueue, company) - keys
        invariant n == |seen|
        decreases keys
      {
        var log :| log in keys;
        if holdQueue[log].Structured? && holdQueue[log].company == company {
          n := n + 1;
          seen := seen + {log};
        }
        keys := keys - {log};
      }
      assert seen == CountedHeld(holdQueue, company);
    }

    // ---- public controls ----

    method StartAgentDial(agent: nat, slots: int, idle: set<nat>, settings: Option<Settings>)
      modifies this
      ensures View() == StartAgent(old(View()), agent, slots, idle, settings)
    {
      if agent !in agents || settings.None? || !settings.value.complete {
        return;
      }
      var company := agents[agent].company;
      agentRunning := agentRunning[agent := slots];
      MarkStatus(agent, Available);
      BlastDial(company, agent, idle, settings);
    }

    method StopAgentDial(agent: nat)
      modifies this
      ensures View() == StopAgent(old(View()), agent)
    {
      agentRunning := agentRunning - {agent};
    }

    method BlastDial(company: int, agent: nat, idle: set<nat>, settings: Option<Settings>)
      modifies this
      ensures View() == Blast(old(View()), company, agent, idle, settings)
    {
      if agent !in agentRunning {
        return;
      }
      var freeCount := |FreeAgents(agents, company) * idle|;
      if freeCount == 0 {
        return;
      }
      var blast := if freeCount < 1 then 1 else freeCount;
      blast := if blast > 5 then 5 else blast;
      ghost var goal := DialMany(View(), company, agent, settings, blast);
      for i := 0 to blast
        invariant DialMany(View(), company, agent, settings, blast - i) == goal
      {
        DialManyStep(View(), company, agent, settings, blast - i);
        var go := DialLead(company, agent, settings);
        if !go {
          return;
        }
      }
    }

    /** The call limit's test. */
    method BelowLimit(company: int, settings: Settings) returns (below: bool)
      ensures below <==> WithinLimit(View(), company, settings)
    {
      below := true;
      if settings.callLimit > 0 {
        var heldNow := CountHeld(company);
        below := heldNow < settings.callLimit;
      }
    }

    /** The body of the blast loop; false where the source returns from the blast. */
    method DialLead(company: int, agent: nat, settings: Option<Settings>) returns (go: bool)
      modifies this
      ensures (View(), go) == DialOne(old(View()), company, agent, settings)
    {
      var (table, lead) := NextLead(leads, company);
      if lead.None? {
        return false;
      }
      leads := table;
      var phone := leads.table[lead.value].phone;
      var log := nextLog;
      callLogs := callLogs[log := CallLog(Waiting, Some(agent), phone)];
      nextLog := nextLog + 1;
      if settings.None? {
        return false;
      }
      var below := BelowLimit(company, settings.value);
      if !below {
        return false;
      }
      var ch := nextChannel;
      nextChannel := nextChannel + 1;
      if !settings.value.complete {
        return false;
      }
      trace := trace + [OriginateCustomer(ch, log, lead.value)];
      channelToMeta := channelToMeta[ch := Meta(log, Customer, Some(agent), phone, Some(lead.value))];
      return true;
    }

    // ---- channel events ----

    method OnStasisStart(ch: nat, role: Role, logVar: Option<nat>, agentVar: Option<nat>, caller: string)
      modifies this
      ensures View() == StasisStart(old(View()), ch, role, logVar, agentVar, caller)
    {
      var log := logVar;
      if log.None? && role == Customer {
        callLogs := callLogs[nextLog := CallLog(Ringing, agentVar, caller)];
        log := Some(nextLog);
        nextLog := nextLog + 1;
      }
      if log.None? && role == Agent {
        var first := FirstCustomer(channelToMeta, 0, nextChannel);
        if first.Some? {
          log := Some(channelToMeta[first.value].callLogId);
        }
      }
      if log.Some? && log.value in callLogs {
        callLogs := callLogs[log.value := callLogs[log.value].(status := Ringing)];
      }
      if role == Customer && log.Some? {
        var company := 0;
        if log.value in callLogs && callLogs[log.value].agentId.Some? && callLogs[log.value].agentId.value in agents {
          company := agents[callLogs[log.value].agentId.value].company;
        }
        holdQueue := holdQueue[log.value := Structured(ch, company)];
        SetHoldTimeout(ch, log.value);
      }
    }

    method OnChannelStateChange(ch: nat, pick: nat)
      modifies this
      ensures View() == Up(old(View()), ch, pick)
    {
      if ch !in channelToMeta {
        return;
      }
      if channelToMeta[ch].role == Customer {
        PairWithAgent(ch, pick);
      } else {
        BridgeWithCustomer(ch);
      }
    }

    /** The customer branch of the state change; it ends early where the update of
        a deleted call log throws. */
    method PairWithAgent(ch: nat, pick: nat)
      requires ch in channelToMeta
      modifies this
      ensures View() == PairCustomer(old(View()), ch, pick)
    {
      var meta := channelToMeta[ch];
      if FreeAgents(agents, 0) == {} {
        holdQueue := holdQueue[meta.callLogId := Bare(ch)];
        return;
      }
      MarkStatus(pick, AgentRinging);
      meta := meta.(agentId := Some(pick));
      channelToMeta := channelToMeta[ch := meta];
      if meta.callLogId !in callLogs {
        return;
      }
      callLogs := callLogs[meta.callLogId := callLogs[meta.callLogId].(agentId := Some(pick))];
      var agentCh := nextChannel;
      nextChannel := nextChannel + 1;
      channelToMeta := channelToMeta[agentCh := Meta(meta.callLogId, Agent, Some(pick), "", None)];
      trace := trace + [OriginateAgent(agentCh, meta.callLogId, pick)];
    }

    /** The agent branch of the state change, ending early likewise. */
    method BridgeWithCustomer(ch: nat)
      requires ch in channelToMeta
      modifies this
      ensures View() == BridgeAgent(old(View()), ch)
    {
      var meta := channelToMeta[ch];
      var customer := FindLeg(channelToMeta, meta.callLogId, Customer, 0, nextChannel);
      if customer.None? {
        trace := trace + [Hangup(ch)];
        return;
      }
      trace := trace + [Bridge(meta.callLogId, customer.value, ch)];
      holdQueue := holdQueue - {meta.callLogId};
      ClearHoldTimeout(customer.value);
      if meta.callLogId !in callLogs {
        return;
      }
      UpdateLog(meta.callLogId, Connected, meta.agentId);
      if meta.agentId.Some? {
        MarkStatus(meta.agentId.value, AgentBusy);
      }
    }

    method OnChannelDestroyed(ch: nat)
      modifies this
      ensures View() == Destroyed(old(View()), ch)
    {
      if ch !in channelToMeta {
        return;
      }
      var meta := channelToMeta[ch];
      ClearHoldTimeout(ch);
      pendingTransfers := pendingTransfers - {meta.callLogId};
      RecordOutcome(meta);
      var paired := FindLeg(channelToMeta, meta.callLogId, OtherRole(meta.role), 0, nextChannel);
      if paired.Some? {
        trace := trace + [Hangup(paired.value)];
      }
      holdQueue := holdQueue - {meta.callLogId};
      channelToMeta := channelToMeta - {ch};
    }

    /** The outcome of the call, written to its log and its lead. */
    method RecordOutcome(meta: Meta)
      modifies this`callLogs, this`leads, this`trace
      ensures View() == WriteOutcome(old(View()), meta)
    {
      if meta.callLogId !in callLogs {
        return;
      }
      var status := callLogs[meta.callLogId].status;
      var final: CallStatus;
      var contact: Contact;
      if status == Ringing {
        final, contact := NoAnswer, ContactNoAnswer;
      } else if status == Connected {
        final, contact := HungUp, ContactAnswered;
      } else if status == Busy {
        final, contact := Busy, ContactBusy;
      } else if status == Failed {
        final, contact := Failed, ContactFailed;
      } else {
        final, contact := NoAnswer, ContactNoAnswer;
      }
      assert final == FinalStatus(status) && contact == ContactOf(final);
      UpdateLog(meta.callLogId, final, meta.agentId);
      if meta.leadId.Some? && meta.leadId.value in leads.table {
        var lead := meta.leadId.value;
        leads := leads.(table := leads.table[lead := leads.table[lead].(contactStatus := contact, isContacted := true)]);
        trace := trace + [WriteLead(lead, meta.callLogId, contact)];
      }
    }

    method OnHoldTimeout(ch: nat)
      requires ch in onHoldTimers
      modifies this
      ensures View() == DialerState.TimerFires(old(View()), ch)
    {
      var log := onHoldTimers[ch].callLogId;
      onHoldTimers := onHoldTimers[ch := HoldTimer(log, false)];
      if ch !in channelToMeta || channelToMeta[ch].role != Customer || log !in callLogs {
        return;
      }
      UpdateLog(log, NoAnswer, callLogs[log].agentId);
      trace := trace + [Hangup(ch)];
      holdQueue := holdQueue - {log};
    }

    method OnOriginateFailed(log: nat, lead: nat, agent: nat)
      modifies this
      ensures View() == DialerState.OriginateFailed(old(View()), log, lead, agent)
    {
      if log !in callLogs {
        return;
      }
      UpdateLog(log, InternalError, Some(agent));
      if lead in leads.table {
        leads := leads.(table := leads.table[lead := leads.table[lead].(contactStatus := ContactInternalError)]);
        trace := trace + [WriteLead(lead, log, ContactInternalError)];
      }
    }

    // ---- DTMF ----

    method OnDtmfReceived(ch: nat, digit: char)
      modifies this
      ensures View() == Dtmf(old(View()), ch, digit)
    {
      if ch in lastDtmf && lastDtmf[ch] == digit {
        lastDtmf := lastDtmf - {ch};
        return;
      }
      lastDtmf := lastDtmf[ch := digit];
      if ch !in channelToMeta {
        return;
      }
      var log := channelToMeta[ch].callLogId;
      if digit == '#' {
        if log !in pendingTransfers {
          HandleBlindTransfer(log);
        } else {
          var transfer := pendingTransfers[log];
          trace := trace + [Continue(transfer.customerChannelId, if transfer.digits == "" then "200" else transfer.digits)];
          trace := trace + [Hangup(transfer.agentChannelId)];
          pendingTransfers := pendingTransfers - {log};
        }
        return;
      }
      if log in pendingTransfers {
        var transfer := pendingTransfers[log];
        pendingTransfers := pendingTransfers[log := transfer.(digits := transfer.digits + [digit])];
      }
    }

    method HandleBlindTransfer(log: nat)
      modifies this`pendingTransfers
      ensures View() == StartTransfer(old(View()), log)
    {
      var customer := FindLeg(channelToMeta, log, Customer, 0, nextChannel);
      if customer.None? {
        return;
      }
      var agent := FindLeg(channelToMeta, log, Agent, 0, nextChannel);
      if agent.None? {
        return;
      }
      pendingTransfers := pendingTransfers[log := PendingTransfer("", agent.value, customer.value)];
    }
  }
}
