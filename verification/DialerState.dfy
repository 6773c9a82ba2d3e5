/** The predictive dialer's state and the effect of every handler on it
    (src/dialer/dialer.service.ts). Ids of channels and call logs are numbers given
    out in order, so the insertion order of the dialer's records is id order. */
module DialerState {
  import opened Text
  import opened Leads

  datatype Role = Customer | Agent

  datatype Meta = Meta(callLogId: nat, role: Role, agentId: Option<nat>, phone: string, leadId: Option<nat>)

  /** The hold queue holds a record after StasisStart and a bare channel id after
      a pairing attempt that found no agent. */
  datatype HoldEntry = Structured(channelId: nat, company: int) | Bare(channelId: nat)

  /** A hold timer; it stays in the table after it has fired. */
  datatype HoldTimer = HoldTimer(callLogId: nat, live: bool)

  datatype PendingTransfer = PendingTransfer(digits: string, agentChannelId: nat, customerChannelId: nat)

  /** The statuses the dialer writes or asks for, and any other. */
  datatype CallStatus = Waiting | Ringing | Connected | HungUp | NoAnswer | Busy | Failed | InternalError | OtherStatus

  datatype CallLog = CallLog(status: CallStatus, agentId: Option<nat>, callerId: string)

  datatype AgentStatus = Available | AgentRinging | AgentBusy | Offline

  datatype AgentRow = AgentRow(status: AgentStatus, company: int)

  datatype Settings = Settings(complete: bool, callLimit: int)

  /** What the dialer asks of the telephone system, the outcomes it writes, and the
      statuses others write to a call log. */
  datatype Act =
    | OriginateCustomer(channel: nat, log: nat, lead: nat)
    | OriginateAgent(channel: nat, log: nat, agent: nat)
    | Hangup(channel: nat)
    | Bridge(log: nat, customer: nat, agentLeg: nat)
    | Continue(channel: nat, extension: string)
    | WriteLog(log: nat, status: CallStatus)
    | WriteLead(lead: nat, log: nat, contact: Contact)
    | ReportLog(log: nat, status: CallStatus)

  datatype Dialer = Dialer(
    running: map<nat, int>,             // agent -> slots
    channels: map<nat, Meta>,           // channelToMeta
    timers: map<nat, HoldTimer>,        // onHoldTimers, by channel
    held: map<nat, HoldEntry>,          // holdQueue, by call log
    transfers: map<nat, PendingTransfer>,  // pendingTransfers, by call log
    lastDtmf: map<nat, char>,
    nextChannel: nat,
    nextLog: nat,
    logs: map<nat, CallLog>,
    agents: map<nat, AgentRow>,
    leads: LeadState,
    trace: seq<Act>)

  // ---- look-ups ----

  predicate IsLeg(channels: map<nat, Meta>, ch: nat, log: nat, role: Role) {
    ch in channels && channels[ch].callLogId == log && channels[ch].role == role
  }

  /** The first registered leg of the call in that role, from channel `i` on. */
  function FindLeg(channels: map<nat, Meta>, log: nat, role: Role, i: nat, n: nat): (r: Option<nat>)
    requires i <= n
    ensures r.Some? ==> i <= r.value < n && IsLeg(channels, r.value, log, role)
    ensures r.Some? ==> forall c: nat | i <= c < r.value :: !IsLeg(channels, c, log, role)
    ensures r.None? ==> forall c: nat | i <= c < n :: !IsLeg(channels, c, log, role)
    decreases n - i
  {
    if i == n then None
    else if IsLeg(channels, i, log, role) then Some(i)
    else FindLeg(channels, log, role, i + 1, n)
  }

  function Leg(s: Dialer, log: nat, role: Role): Option<nat> {
    FindLeg(s.channels, log, role, 0, s.nextChannel)
  }

  /** The first registered customer leg of any call. */
  function FirstCustomer(channels: map<nat, Meta>, i: nat, n: nat): (r: Option<nat>)
    requires i <= n
    ensures r.Some? ==> r.value in channels && channels[r.value].role == Customer
    decreases n - i
  {
    if i == n then None
    else if i in channels && channels[i].role == Customer then Some(i)
    else FirstCustomer(channels, i + 1, n)
  }

  predicate IsFree(agents: map<nat, AgentRow>, id: nat, company: int) {
    id in agents && agents[id].status == Available && (company != 0 ==> agents[id].company == company)
  }

  /** `findAllFreeAgents(company)`; company 0 stands for no filter. */
  function FreeAgents(agents: map<nat, AgentRow>, company: int): (r: set<nat>)
    ensures forall id :: id in r <==> IsFree(agents, id, company)
  {
    set id | id in agents && IsFree(agents, id, company)
  }

  /** The held calls the call limit counts: bare entries carry no company. */
  function CountedHeld(held: map<nat, HoldEntry>, company: int): set<nat> {
    set log | log in held && held[log].Structured? && held[log].company == company
  }

  // ---- small updates ----

  function Did(s: Dialer, act: Act): Dialer {
    s.(trace := s.trace + [act])
  }

  function SetStatus(agents: map<nat, AgentRow>, id: nat, status: AgentStatus): map<nat, AgentRow> {
    if id in agents then agents[id := agents[id].(status := status)] else agents
  }

  function SetLog(s: Dialer, log: nat, status: CallStatus, agentId: Option<nat>): Dialer
    requires log in s.logs
  {
    Did(s.(logs := s.logs[log := s.logs[log].(status := status, agentId := agentId)]), WriteLog(log, status))
  }

  // ---- blastDial ----

  /** The call limit lets the blast go on. */
  predicate WithinLimit(s: Dialer, company: int, settings: Settings) {
    settings.callLimit <= 0 || |CountedHeld(s.held, company)| < settings.callLimit
  }

  /** One turn of the blast loop; false ends the blast. A lead taken stays taken
      and its call log stays written even when the turn then gives up. */
  function DialOne(s: Dialer, company: int, agentId: nat, settings: Option<Settings>): (Dialer, bool) {
    var lead := NextLead(s.leads, company).1;
    if lead.None? then (s, false)
    else
      var phone := s.leads.table[lead.value].phone;
      var log, ch := s.nextLog, s.nextChannel;
      var open := settings.Some? && WithinLimit(s, company, settings.value);
      var dial := open && settings.value.complete;
      (s.(leads := NextLead(s.leads, company).0,
          logs := s.logs[log := CallLog(Waiting, Some(agentId), phone)],
          nextLog := log + 1,
          nextChannel := if open then ch + 1 else ch,
          channels := if dial then s.channels[ch := Meta(log, Customer, Some(agentId), phone, lead)] else s.channels,
          trace := if dial then s.trace + [OriginateCustomer(ch, log, lead.value)] else s.trace),
       dial)
  }

  function DialMany(s: Dialer, company: int, agentId: nat, settings: Option<Settings>, n: nat): Dialer
    decreases n
  {
    if n == 0 then s
    else
      var r := DialOne(s, company, agentId, settings);
      if r.1 then DialMany(r.0, company, agentId, settings, n - 1) else r.0
  }

  lemma DialManyStep(s: Dialer, company: int, agentId: nat, settings: Option<Settings>, n: nat)
    requires n > 0
    ensures DialMany(s, company, agentId, settings, n) ==
      if DialOne(s, company, agentId, settings).1
      then DialMany(DialOne(s, company, agentId, settings).0, company, agentId, settings, n - 1)
      else DialOne(s, company, agentId, settings).0
  {}

  function BlastSize(free: nat): (n: nat)
    ensures free > 0 ==> n <= free && n <= 5 && (n == free || n == 5)
  {
    if free < 1 then 1 else if free > 5 then 5 else free
  }

  /** `idle` are the agents whose endpoint reports "Not in use". */
  function Blast(s: Dialer, company: int, agentId: nat, idle: set<nat>, settings: Option<Settings>): Dialer {
    var free := |FreeAgents(s.agents, company) * idle|;
    if agentId !in s.running || free == 0 then s
    else DialMany(s, company, agentId, settings, BlastSize(free))
  }

  function StartAgent(s: Dialer, agentId: nat, slots: int, idle: set<nat>, settings: Option<Settings>): Dialer {
    if agentId !in s.agents || settings.None? || !settings.value.complete then s
    else
      var s1 := s.(running := s.running[agentId := slots], agents := SetStatus(s.agents, agentId, Available));
      Blast(s1, s.agents[agentId].company, agentId, idle, settings)
  }

  function StopAgent(s: Dialer, agentId: nat): Dialer {
    s.(running := s.running - {agentId})
  }

  // ---- channel events ----

  /** `onStasisStart` with the variables of the event. */
  function StasisStart(s: Dialer, ch: nat, role: Role, logVar: Option<nat>, agentVar: Option<nat>, caller: string): Dialer {
    var first := FirstCustomer(s.channels, 0, s.nextChannel);
    var log :=
      if logVar.Some? then logVar
      else if role == Customer then Some(s.nextLog)
      else if first.Some? then Some(s.channels[first.value].callLogId)
      else None;
    var s1 :=
      if logVar.None? && role == Customer
      then s.(logs := s.logs[s.nextLog := CallLog(Ringing, agentVar, caller)], nextLog := s.nextLog + 1)
      else s;
    if log.None? then s1
    else
      var s2 :=
        if log.value in s1.logs
        then s1.(logs := s1.logs[log.value := s1.logs[log.value].(status := Ringing)])
        else s1;
      if role == Agent then s2
      else
        var company := CompanyOf(s2, log.value);
        s2.(held := s2.held[log.value := Structured(ch, company)], timers := s2.timers[ch := HoldTimer(log.value, true)])
  }

  /** The company of the agent a call log belongs to, or 0. */
  function CompanyOf(s: Dialer, log: nat): int {
    if log in s.logs && s.logs[log].agentId.Some? && s.logs[log].agentId.value in s.agents
    then s.agents[s.logs[log].agentId.value].company else 0
  }

  /** `onChannelStateChange` to Up on a customer leg: pair it with agent `pick`.
      When the call log has been deleted, its update throws, and the agent is left
      ringing without a leg. */
  function PairCustomer(s: Dialer, ch: nat, pick: nat): Dialer
    requires ch in s.channels
  {
    var meta := s.channels[ch];
    if FreeAgents(s.agents, 0) == {} then s.(held := s.held[meta.callLogId := Bare(ch)])
    else if meta.callLogId !in s.logs then
      s.(agents := SetStatus(s.agents, pick, AgentRinging), channels := s.channels[ch := meta.(agentId := Some(pick))])
    else
      var log := s.logs[meta.callLogId].(agentId := Some(pick));
      var agentCh := s.nextChannel;
      s.(agents := SetStatus(s.agents, pick, AgentRinging),
         logs := s.logs[meta.callLogId := log],
         channels := s.channels[ch := meta.(agentId := Some(pick))]
                               [agentCh := Meta(meta.callLogId, Agent, Some(pick), "", None)],
         nextChannel := agentCh + 1,
         trace := s.trace + [OriginateAgent(agentCh, meta.callLogId, pick)])
  }

  /** `onChannelStateChange` to Up on an agent leg: bridge it with its customer.
      When the call log has been deleted, its update throws after the bridge. */
  function BridgeAgent(s: Dialer, ch: nat): Dialer
    requires ch in s.channels
  {
    var meta := s.channels[ch];
    var log := meta.callLogId;
    var customer := Leg(s, log, Customer);
    if customer.None? then Did(s, Hangup(ch))
    else if log !in s.logs then
      s.(trace := s.trace + [Bridge(log, customer.value, ch)],
         held := s.held - {log},
         timers := s.timers - {customer.value})
    else
      s.(trace := s.trace + [Bridge(log, customer.value, ch)] + [WriteLog(log, Connected)],
         held := s.held - {log},
         timers := s.timers - {customer.value},
         logs := s.logs[log := s.logs[log].(status := Connected, agentId := meta.agentId)],
         agents := if meta.agentId.Some? then SetStatus(s.agents, meta.agentId.value, AgentBusy) else s.agents)
  }

  /** A state change to Up; a channel without meta is only queued. */
  function Up(s: Dialer, ch: nat, pick: nat): Dialer {
    if ch !in s.channels then s
    else if s.channels[ch].role == Customer then PairCustomer(s, ch, pick)
    else BridgeAgent(s, ch)
  }

  function FinalStatus(status: CallStatus): CallStatus {
    match status
    case Connected => HungUp
    case Busy => Busy
    case Failed => Failed
    case _ => NoAnswer
  }

  function ContactOf(status: CallStatus): Contact {
    match status
    case HungUp => ContactAnswered
    case Busy => ContactBusy
    case Failed => ContactFailed
    case _ => ContactNoAnswer
  }

  function OtherRole(role: Role): Role {
    if role == Customer then Agent else Customer
  }

  /** The leg a destroyed leg asks to hang up. */
  function Paired(s: Dialer, ch: nat): Option<nat>
    requires ch in s.channels
  {
    Leg(s, s.channels[ch].callLogId, OtherRole(s.channels[ch].role))
  }

  function OutcomeLogs(s: Dialer, meta: Meta): map<nat, CallLog> {
    var log := meta.callLogId;
    if log !in s.logs then s.logs
    else s.logs[log := s.logs[log].(status := FinalStatus(s.logs[log].status), agentId := meta.agentId)]
  }

  predicate WritesLead(s: Dialer, meta: Meta) {
    meta.callLogId in s.logs && meta.leadId.Some? && meta.leadId.value in s.leads.table
  }

  function OutcomeLeads(s: Dialer, meta: Meta): LeadTable {
    var table := s.leads.table;
    if !WritesLead(s, meta) then table
    else
      var contact := ContactOf(FinalStatus(s.logs[meta.callLogId].status));
      table[meta.leadId.value := table[meta.leadId.value].(contactStatus := contact, isContacted := true)]
  }

  function OutcomeActs(s: Dialer, meta: Meta): seq<Act> {
    if meta.callLogId !in s.logs then []
    else
      var final := FinalStatus(s.logs[meta.callLogId].status);
      [WriteLog(meta.callLogId, final)]
      + (if WritesLead(s, meta) then [WriteLead(meta.leadId.value, meta.callLogId, ContactOf(final))] else [])
  }

  /** The outcome written when a leg is destroyed: to the call log if it exists,
      and then to the lead if there is one. */
  function WriteOutcome(s: Dialer, meta: Meta): Dialer {
    s.(logs := OutcomeLogs(s, meta),
       leads := s.leads.(table := OutcomeLeads(s, meta)),
       trace := s.trace + OutcomeActs(s, meta))
  }

  /** The hangup a destroyed leg asks for. */
  function HangupActs(s: Dialer, ch: nat): seq<Act>
    requires ch in s.channels
  {
    if Paired(s, ch).Some? then [Hangup(Paired(s, ch).value)] else []
  }

  /** `onChannelDestroyed` */
  function Destroyed(s: Dialer, ch: nat): Dialer {
    if ch !in s.channels then s
    else
      var meta := s.channels[ch];
      var s1 := WriteOutcome(s, meta);
      s1.(timers := s.timers - {ch},
          transfers := s.transfers - {meta.callLogId},
          held := s.held - {meta.callLogId},
          channels := s.channels - {ch},
          trace := s1.trace + HangupActs(s, ch))
  }

  /** The hold timer of a channel fires: `setHoldTimeout`'s callback. */
  function TimerFires(s: Dialer, ch: nat): Dialer
    requires ch in s.timers
  {
    var log := s.timers[ch].callLogId;
    var fired := s.timers[ch := HoldTimer(log, false)];
    if ch !in s.channels || s.channels[ch].role != Customer || log !in s.logs then s.(timers := fired)
    else
      s.(timers := fired,
         held := s.held - {log},
         logs := s.logs[log := s.logs[log].(status := NoAnswer)],
         trace := s.trace + [WriteLog(log, NoAnswer)] + [Hangup(ch)])
  }

  /** The error callback of a customer origination. */
  function OriginateFailed(s: Dialer, log: nat, lead: nat, agentId: nat): Dialer {
    if log !in s.logs then s
    else
      var logs := s.logs[log := s.logs[log].(status := InternalError, agentId := Some(agentId))];
      var written := s.trace + [WriteLog(log, InternalError)];
      if lead !in s.leads.table then s.(logs := logs, trace := written)
      else
        s.(logs := logs,
           leads := s.leads.(table := s.leads.table[lead := s.leads.table[lead].(contactStatus := ContactInternalError)]),
           trace := written + [WriteLead(lead, log, ContactInternalError)])
  }

  // ---- DTMF ----

  /** The last digit seen on the channel is this one again. */
  predicate Repeats(lastDtmf: map<nat, char>, ch: nat, digit: char) {
    ch in lastDtmf && lastDtmf[ch] == digit
  }

  function StartTransfer(s: Dialer, log: nat): Dialer {
    var customer, agent := Leg(s, log, Customer), Leg(s, log, Agent);
    if customer.None? || agent.None? then s
    else s.(transfers := s.transfers[log := PendingTransfer("", agent.value, customer.value)])
  }

  /** The extension a transfer goes to. */
  function Extension(digits: string): string {
    if digits == "" then "200" else digits
  }

  function FinishTransfer(s: Dialer, log: nat): Dialer
    requires log in s.transfers
  {
    var t := s.transfers[log];
    s.(trace := s.trace + [Continue(t.customerChannelId, Extension(t.digits))] + [Hangup(t.agentChannelId)],
       transfers := s.transfers - {log})
  }

  /** An accepted digit on a leg of call `log`. */
  function Digit(s: Dialer, log: nat, digit: char): Dialer {
    if digit == '#' then
      if log in s.transfers then FinishTransfer(s, log) else StartTransfer(s, log)
    else if log in s.transfers then
      var t := s.transfers[log];
      s.(transfers := s.transfers[log := t.(digits := t.digits + [digit])])
    else s
  }

  /** `onDtmfReceived` */
  function Dtmf(s: Dialer, ch: nat, digit: char): Dialer {
    if Repeats(s.lastDtmf, ch, digit) then s.(lastDtmf := s.lastDtmf - {ch})
    else
      var s1 := s.(lastDtmf := s.lastDtmf[ch := digit]);
      if ch in s.channels then Digit(s1, s.channels[ch].callLogId, digit) else s1
  }

  // ---- call logs written by others ----

  /** `PUT /call-logs/:id` and `POST /call-logs` */
  function Report(s: Dialer, log: nat, row: CallLog): Dialer {
    s.(logs := s.logs[log := row], trace := s.trace + [ReportLog(log, row.status)])
  }

  // ---- steps ----

  datatype Event =
    | EvStart(agent: nat, slots: int, idle: set<nat>, settings: Option<Settings>)
    | EvStop(agent: nat)
    | EvBlast(company: int, agent: nat, idle: set<nat>, settings: Option<Settings>)
    | EvStasis(ch: nat)
    | EvAgentStasis(ch: nat, logVar: Option<nat>)
    | EvUp(ch: nat, pick: nat)
    | EvDestroyed(ch: nat)
    | EvTimer(ch: nat)
    | EvDtmf(ch: nat, digit: char)
    | EvOriginateFailed(channel: nat, log: nat, lead: nat, agent: nat)
    | EvAgentEdited(agent: nat, agentRow: AgentRow)
    | EvLogCreated(row: CallLog)
    | EvLogEdited(log: nat, row: CallLog)
    | EvLogDeleted(log: nat)
    | EvLeads(change: LeadEvent)

  /** The events that can come: a customer enters Stasis as a registered leg with
      its own call log, a pairing picks a free agent, a timer fires once, an
      origination that was made can fail. Others may create, edit and delete call
      logs and leads, and create and edit agents, as they like. */
  predicate Enabled(s: Dialer, e: Event) {
    match e
    case EvStasis(ch) => ch in s.channels && s.channels[ch].role == Customer
    case EvUp(ch, pick) =>
      ch in s.channels && s.channels[ch].role == Customer && FreeAgents(s.agents, 0) != {} ==>
        pick in FreeAgents(s.agents, 0)
    case EvTimer(ch) => ch in s.timers && s.timers[ch].live
    case EvOriginateFailed(channel, log, lead, _) => OriginateCustomer(channel, log, lead) in s.trace
    case EvLogEdited(log, _) => log in s.logs
    case _ => true
  }

  function Next(s: Dialer, e: Event): Dialer {
    if !Enabled(s, e) then s
    else match e
      case EvStart(agent, slots, idle, settings) => StartAgent(s, agent, slots, idle, settings)
      case EvStop(agent) => StopAgent(s, agent)
      case EvBlast(company, agent, idle, settings) => Blast(s, company, agent, idle, settings)
      case EvStasis(ch) => StasisStart(s, ch, Customer, Some(s.channels[ch].callLogId), None, "")
      case EvAgentStasis(ch, logVar) => StasisStart(s, ch, Agent, logVar, None, "")
      case EvUp(ch, pick) => Up(s, ch, pick)
      case EvDestroyed(ch) => Destroyed(s, ch)
      case EvTimer(ch) => TimerFires(s, ch)
      case EvDtmf(ch, digit) => Dtmf(s, ch, digit)
      case EvOriginateFailed(_, log, lead, agent) => OriginateFailed(s, log, lead, agent)
      case EvAgentEdited(agent, row) => s.(agents := s.agents[agent := row])
      case EvLogCreated(row) => Report(s.(nextLog := s.nextLog + 1), s.nextLog, row)
      case EvLogEdited(log, row) => Report(s, log, row)
      case EvLogDeleted(log) => s.(logs := s.logs - {log})
      case EvLeads(change) => s.(leads := After(s.leads, change))
  }

  function Run(s: Dialer, events: seq<Event>): Dialer
    decreases events
  {
    if events == [] then s else Run(Next(s, events[0]), events[1..])
  }
}
