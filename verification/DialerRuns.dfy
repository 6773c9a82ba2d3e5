/** Facts about whole runs of the dialer: agents paired no more often than they
    become available, and blasts that dial the oldest leads within their bound. */
module DialerRuns {
  import opened Text
  import opened Leads
  import opened DialerState
  import opened DialerInvariants
  import opened DialerFrames

  // ---- pairings and releases ----

  /** How often a leg was originated to the agent. */
  function Pairings(trace: seq<Act>, agent: nat): nat {
    if trace == [] then 0
    else
      var last := trace[|trace| - 1];
      Pairings(trace[..|trace| - 1], agent) + if last.OriginateAgent? && last.agent == agent then 1 else 0
  }

  lemma {:induction false} PairingsAdd(trace: seq<Act>, acts: seq<Act>, agent: nat)
    ensures Pairings(trace + acts, agent) == Pairings(trace, agent) + Pairings(acts, agent)
    decreases |acts|
  {
    if acts == [] {
      assert trace + acts == trace;
    } else {
      var init, last := acts[..|acts| - 1], acts[|acts| - 1];
      PairingsAdd(trace, init, agent);
      assert trace + acts == (trace + init) + [last];
      assert ((trace + init) + [last])[..|trace + init|] == trace + init;
    }
  }

  lemma {:induction false} NoPairings(acts: seq<Act>, agent: nat)
    requires forall a <- acts :: !a.OriginateAgent?
    ensures Pairings(acts, agent) == 0
  {
    if acts != [] {
      NoPairings(acts[..|acts| - 1], agent);
    }
  }

  predicate IsAvailable(agents: map<nat, AgentRow>, agent: nat) {
    agent in agents && agents[agent].status == Available
  }

  /** The event sets the agent AVAILABLE. */
  predicate Releases(s: Dialer, e: Event, agent: nat) {
    || (e.EvAgentEdited? && e.agent == agent && e.agentRow.status == Available)
    || (e.EvStart? && e.agent == agent && e.settings.Some? && e.settings.value.complete)
  }

  function Count(b: bool): nat {
    if b then 1 else 0
  }

  /** The event pairs a customer with this agent. */
  predicate PairsWith(s: Dialer, e: Event, agent: nat) {
    && e.EvUp? && Enabled(s, e) && e.pick == agent
    && e.ch in s.channels && s.channels[e.ch].role == Customer && s.channels[e.ch].callLogId in s.logs
    && FreeAgents(s.agents, 0) != {}
  }

  lemma BridgeAgents(s: Dialer, ch: nat, agent: nat)
    requires ch in s.channels
    ensures IsAvailable(BridgeAgent(s, ch).agents, agent) ==> IsAvailable(s.agents, agent)
    ensures Pairings(BridgeActs(s, ch), agent) == 0
  {
    NoPairings(BridgeActs(s, ch), agent);
    var log := s.channels[ch].callLogId;
    if Leg(s, log, Customer).None? {
    } else if log !in s.logs {
    } else {
    }
  }

  /** Pairing takes the picked agent's availability, and originates a leg to it
      unless the call log is gone. */
  lemma PairAgents(s: Dialer, ch: nat, pick: nat, agent: nat)
    requires ch in s.channels && (FreeAgents(s.agents, 0) != {} ==> pick in FreeAgents(s.agents, 0))
    ensures var agents := PairCustomer(s, ch, pick).agents;
      && (FreeAgents(s.agents, 0) != {} && pick == agent ==> IsAvailable(s.agents, agent) && !IsAvailable(agents, agent))
      && (IsAvailable(agents, agent) ==> IsAvailable(s.agents, agent))
    ensures Pairings(PairActs(s, ch, pick), agent) ==
      Count(FreeAgents(s.agents, 0) != {} && s.channels[ch].callLogId in s.logs && pick == agent)
  {
    assert FreeAgents(s.agents, 0) != {} ==> IsFree(s.agents, pick, 0);
    var acts := PairActs(s, ch, pick);
    assert acts != [] ==> acts[..0] == [];
    if FreeAgents(s.agents, 0) == {} {
    } else if s.channels[ch].callLogId !in s.logs {
    } else {
    }
  }

  /** One event: a pairing takes an available agent and uses its availability up;
      only a release gives it back. */
  lemma EventEffect(s: Dialer, e: Event, agent: nat)
    ensures Pairings(Next(s, e).trace, agent) == Pairings(s.trace, agent) + Count(PairsWith(s, e, agent))
    ensures PairsWith(s, e, agent) ==> IsAvailable(s.agents, agent) && !IsAvailable(Next(s, e).agents, agent)
    ensures IsAvailable(Next(s, e).agents, agent) ==> IsAvailable(s.agents, agent) || Releases(s, e, agent)
  {
    EventTrace(s, e);
    PairingsAdd(s.trace, Acts(s, e), agent);
    if e.EvUp? {
      if Enabled(s, e) && e.ch in s.channels {
        if s.channels[e.ch].role == Customer {
          PairAgents(s, e.ch, e.pick, agent);
        } else {
          BridgeAgents(s, e.ch, agent);
        }
      }
    } else {
      ActKinds(s, e);
      NoPairings(Acts(s, e), agent);
      EventTables(s, e);
      if e.EvStart? {
        StartFrame(s, e.agent, e.slots, e.idle, e.settings);
      }
    }
  }

  /** How many events of the run release the agent. */
  function ReleaseCount(s: Dialer, events: seq<Event>, agent: nat): nat
    decreases events
  {
    if events == [] then 0
    else Count(Releases(s, events[0], agent)) + ReleaseCount(Next(s, events[0]), events[1..], agent)
  }

  /** Over any run, the legs originated to an agent never exceed the times the
      agent became available, counting an availability at the start. */
  lemma {:induction false} PairingsNeedReleases(s: Dialer, events: seq<Event>, agent: nat)
    ensures Pairings(Run(s, events).trace, agent) + Count(IsAvailable(Run(s, events).agents, agent))
      <= Pairings(s.trace, agent) + Count(IsAvailable(s.agents, agent)) + ReleaseCount(s, events, agent)
    decreases events
  {
    if events != [] {
      EventEffect(s, events[0], agent);
      PairingsNeedReleases(Next(s, events[0]), events[1..], agent);
    }
  }

  /** Between two pairings that pick the same agent some event set it AVAILABLE. */
  lemma ReleaseBetweenPairings(s: Dialer, first: Event, between: seq<Event>, second: Event, agent: nat)
    requires PairsWith(s, first, agent)
    requires PairsWith(Run(Next(s, first), between), second, agent)
    ensures ReleaseCount(Next(s, first), between, agent) >= 1
  {
    var s1 := Next(s, first);
    EventEffect(s, first, agent);
    EventEffect(Run(s1, between), second, agent);
    PairingsNeedReleases(s1, between, agent);
    PairingsGrow(s1, between, agent);
  }

  lemma {:induction false} PairingsGrow(s: Dialer, events: seq<Event>, agent: nat)
    ensures Pairings(Run(s, events).trace, agent) >= Pairings(s.trace, agent)
    decreases events
  {
    if events != [] {
      EventEffect(s, events[0], agent);
      PairingsGrow(Next(s, events[0]), events[1..], agent);
    }
  }

  // ---- blasts ----

  /** The leads of the customer originations of a trace, in order. */
  function Dialled(trace: seq<Act>): seq<nat> {
    if trace == [] then []
    else (if trace[0].OriginateCustomer? then [trace[0].lead] else []) + Dialled(trace[1..])
  }

  function Asks(company: int, n: nat): (r: seq<LeadEvent>)
    ensures |r| == n
  {
    if n == 0 then [] else [Ask(company)] + Asks(company, n - 1)
  }

  /** Settings and call limit let the company's blasts originate. */
  predicate Willing(s: Dialer, company: int, settings: Option<Settings>) {
    settings.Some? && settings.value.complete && WithinLimit(s, company, settings.value)
  }

  /** A turn goes on exactly when it found a lead and may originate, and nothing
      a turn does changes whether the next one may. */
  lemma DialOneWilling(s: Dialer, company: int, agentId: nat, settings: Option<Settings>)
    ensures DialOne(s, company, agentId, settings).1 <==> NextLead(s.leads, company).1.Some? && Willing(s, company, settings)
    ensures Willing(DialOne(s, company, agentId, settings).0, company, settings) <==> Willing(s, company, settings)
    ensures NextLead(s.leads, company).1.None? ==> DialOne(s, company, agentId, settings).0 == s
  {}

  lemma {:induction false} NoneLeft(s: LeadState, company: int, n: nat)
    requires NextLead(s, company).1.None?
    ensures HandedOut(s, Asks(company, n)) == []
    decreases n
  {
    if n > 0 {
      assert Asks(company, n)[1..] == Asks(company, n - 1);
      NoneLeft(s, company, n - 1);
    }
  }

  lemma AskMore(s: LeadState, company: int, n: nat)
    requires n > 0 && NextLead(s, company).1.Some?
    ensures HandedOut(s, Asks(company, n)) ==
      [NextLead(s, company).1.value] + HandedOut(NextLead(s, company).0, Asks(company, n - 1))
  {
    assert Asks(company, n)[1..] == Asks(company, n - 1);
  }

  lemma DialledCons(act: Act, more: seq<Act>)
    requires act.OriginateCustomer?
    ensures Dialled([act] + more) == [act.lead] + Dialled(more)
  {
    assert ([act] + more)[1..] == more;
  }

  /** A blast that may originate dials every lead it takes: exactly those the
      lead table hands out when asked once per turn, in that order. */
  lemma {:induction false} WillingBlastDialsAll(s: Dialer, company: int, agentId: nat, settings: Option<Settings>, n: nat)
    requires Willing(s, company, settings)
    ensures Dialled(BlastActs(s, company, agentId, settings, n)) == HandedOut(s.leads, Asks(company, n))
    decreases n
  {
    if n > 0 {
      DialOneTurn(s, company, agentId, settings);
      DialOneWilling(s, company, agentId, settings);
      var r, lead := DialOne(s, company, agentId, settings), NextLead(s.leads, company).1;
      if r.1 {
        WillingBlastDialsAll(r.0, company, agentId, settings, n - 1);
        AskMore(s.leads, company, n);
        DialledCons(OriginateCustomer(s.nextChannel, s.nextLog, lead.value), BlastActs(r.0, company, agentId, settings, n - 1));
      } else {
        NoneLeft(s.leads, company, n);
      }
    }
  }

  lemma {:induction false} HandOutsCount(s: LeadState, company: int, n: nat)
    requires Within(s.table, s.nextId)
    ensures |HandedOut(s, Asks(company, n))| == if n <= |Open(s.table, company)| then n else |Open(s.table, company)|
    decreases n
  {
    if n > 0 {
      HandOutIsOldest(s, company);
      if NextLead(s, company).1.Some? {
        AskMore(s, company, n);
        HandOutsCount(NextLead(s, company).0, company, n - 1);
      } else {
        NoneLeft(s, company, n);
      }
    }
  }

  lemma {:induction false} DialledAll(acts: seq<Act>)
    requires forall a <- acts :: a.OriginateCustomer?
    ensures |Dialled(acts)| == |acts|
  {
    if acts != [] {
      DialledAll(acts[1..]);
    }
  }

  /** The agents of the company, or of all companies for 0, whose status is AVAILABLE. */
  function AvailableOf(agents: map<nat, AgentRow>, company: int): set<nat> {
    set a | a in agents && agents[a].status == Available && (company == 0 || agents[a].company == company)
  }

  /** The calls of the company in the hold queue since their StasisStart. */
  function HeldOf(held: map<nat, HoldEntry>, company: int): set<nat> {
    set log | log in held && held[log].Structured? && held[log].company == company
  }

  function Least(a: nat, b: nat, c: nat): nat {
    if a <= b && a <= c then a else if b <= c then b else c
  }

  /** How many calls a blast originates, in every case: none for an agent that is not
      running, for want of complete settings or when the company's held calls have
      reached a positive call limit; otherwise as many as agents of the company are
      available and idle, but not more than five or than leads are open. */
  lemma BlastCount(s: Dialer, company: int, agentId: nat, idle: set<nat>, settings: Option<Settings>)
    requires Within(s.leads.table, s.leads.nextId)
    ensures var acts := Acts(s, EvBlast(company, agentId, idle, settings));
      |acts| ==
        if agentId !in s.running || settings.None? || !settings.value.complete then 0
        else if settings.value.callLimit > 0 && |HeldOf(s.held, company)| >= settings.value.callLimit then 0
        else Least(|AvailableOf(s.agents, company) * idle|, 5, |Open(s.leads.table, company)|)
  {
    var free := |FreeAgents(s.agents, company) * idle|;
    assert FreeAgents(s.agents, company) == AvailableOf(s.agents, company);
    assert CountedHeld(s.held, company) == HeldOf(s.held, company);
    BlastIsBounded(s, company, agentId, idle, settings);
    if agentId in s.running && free != 0 && Willing(s, company, settings) {
      WillingBlastDialsAll(s, company, agentId, settings, BlastSize(free));
      HandOutsCount(s.leads, company, BlastSize(free));
      DialledAll(BlastTurns(s, company, agentId, idle, settings));
    }
  }

  /** One blast originates at most as many calls as there are free agents, and at
      most five; none at all for an agent that is not running or a blast that may
      not originate. What it dials are the leads handed out first. */
  lemma BlastIsBounded(s: Dialer, company: int, agentId: nat, idle: set<nat>, settings: Option<Settings>)
    ensures var acts := BlastTurns(s, company, agentId, idle, settings);
      && Blast(s, company, agentId, idle, settings).trace == s.trace + acts
      && |acts| <= 5 && |acts| <= |FreeAgents(s.agents, company) * idle|
      && (agentId !in s.running || !Willing(s, company, settings) ==> acts == [])
      && (forall a <- acts :: a.OriginateCustomer?)
      && Dialled(acts) <= HandedOut(s.leads, Asks(company, 5))
  {
    var free := |FreeAgents(s.agents, company) * idle|;
    BlastFrame(s, company, agentId, idle, settings);
    if agentId in s.running && free != 0 {
      BlastOriginates(s, company, agentId, settings, BlastSize(free));
      DialOneWilling(s, company, agentId, settings);
      if Willing(s, company, settings) {
        WillingBlastDialsAll(s, company, agentId, settings, BlastSize(free));
        MoreAsks(s.leads, company, BlastSize(free), 5);
      }
    }
  }

  lemma {:induction false} MoreAsks(s: LeadState, company: int, n: nat, m: nat)
    requires n <= m
    ensures HandedOut(s, Asks(company, n)) <= HandedOut(s, Asks(company, m))
    decreases n
  {
    if n > 0 {
      assert Asks(company, n)[1..] == Asks(company, n - 1) && Asks(company, m)[1..] == Asks(company, m - 1);
      MoreAsks(After(s, Ask(company)), company, n - 1, m - 1);
    }
  }

  // ---- the lead table under a run ----

  /** How often a blast of `n` turns asks for a lead. */
  function Turns(s: Dialer, company: int, settings: Option<Settings>, n: nat): nat {
    if n == 0 || Willing(s, company, settings) then n else 1
  }

  lemma {:induction false} AskInVain(s: LeadState, company: int, n: nat)
    requires NextLead(s, company).1.None?
    ensures AfterAll(s, Asks(company, n)) == s
    decreases n
  {
    if n > 0 {
      assert Asks(company, n)[1..] == Asks(company, n - 1);
      AskInVain(s, company, n - 1);
    }
  }

  lemma AskOnce(s: LeadState, company: int, n: nat)
    requires n > 0
    ensures AfterAll(s, Asks(company, n)) == AfterAll(NextLead(s, company).0, Asks(company, n - 1))
  {
    assert Asks(company, n)[1..] == Asks(company, n - 1);
  }

  lemma {:induction false} DialManyLeads(s: Dialer, company: int, agentId: nat, settings: Option<Settings>, n: nat)
    ensures DialMany(s, company, agentId, settings, n).leads == AfterAll(s.leads, Asks(company, Turns(s, company, settings, n)))
    decreases n
  {
    if n > 0 {
      var r := DialOne(s, company, agentId, settings);
      DialManyStep(s, company, agentId, settings, n);
      DialOneTurn(s, company, agentId, settings);
      DialOneWilling(s, company, agentId, settings);
      AskOnce(s.leads, company, Turns(s, company, settings, n));
      if r.1 {
        DialManyLeads(r.0, company, agentId, settings, n - 1);
      } else {
        AskInVainOrOnce(s, company, settings, n);
      }
    }
  }

  lemma AskInVainOrOnce(s: Dialer, company: int, settings: Option<Settings>, n: nat)
    requires n > 0 && (NextLead(s.leads, company).1.None? || !Willing(s, company, settings))
    ensures AfterAll(NextLead(s.leads, company).0, Asks(company, Turns(s, company, settings, n) - 1)) == NextLead(s.leads, company).0
  {
    if NextLead(s.leads, company).1.None? {
      AskInVain(s.leads, company, Turns(s, company, settings, n) - 1);
    }
  }

  function BlastAsks(s: Dialer, company: int, agentId: nat, idle: set<nat>, settings: Option<Settings>): seq<LeadEvent> {
    var free := |FreeAgents(s.agents, company) * idle|;
    if agentId !in s.running || free == 0 then [] else Asks(company, Turns(s, company, settings, BlastSize(free)))
  }

  /** What an event does to the lead table, in the lead table's own terms. */
  function LeadChanges(s: Dialer, e: Event): seq<LeadEvent> {
    match e
    case EvBlast(company, agent, idle, settings) => BlastAsks(s, company, agent, idle, settings)
    case EvStart(agent, slots, idle, settings) =>
      if agent !in s.agents || settings.None? || !settings.value.complete then []
      else BlastAsks(Started(s, agent, slots), s.agents[agent].company, agent, idle, settings)
    case EvDestroyed(ch) =>
      if ch !in s.channels || !WritesLead(s, s.channels[ch]) then []
      else
        var meta := s.channels[ch];
        var lead := meta.leadId.value;
        [Edit(lead, s.leads.table[lead].phone, true, ContactOf(FinalStatus(s.logs[meta.callLogId].status)))]
    case EvOriginateFailed(_, log, lead, _) =>
      if !Enabled(s, e) || log !in s.logs || lead !in s.leads.table then []
      else [Edit(lead, s.leads.table[lead].phone, s.leads.table[lead].isContacted, ContactInternalError)]
    case EvLeads(change) => [change]
    case _ => []
  }

  lemma ChangeOnce(s: LeadState, change: LeadEvent)
    ensures AfterAll(s, [change]) == After(s, change)
  {
    assert [change][1..] == [];
  }

  lemma BlastLeads(s: Dialer, company: int, agentId: nat, idle: set<nat>, settings: Option<Settings>)
    ensures Blast(s, company, agentId, idle, settings).leads == AfterAll(s.leads, BlastAsks(s, company, agentId, idle, settings))
  {
    DialManyLeads(s, company, agentId, settings, BlastSize(|FreeAgents(s.agents, company) * idle|));
  }

  lemma DestroyedLeads(s: Dialer, ch: nat)
    ensures Destroyed(s, ch).leads == AfterAll(s.leads, LeadChanges(s, EvDestroyed(ch)))
  {
    if ch in s.channels {
      assert Destroyed(s, ch).leads == s.leads.(table := OutcomeLeads(s, s.channels[ch]));
      if WritesLead(s, s.channels[ch]) {
        ChangeOnce(s.leads, LeadChanges(s, EvDestroyed(ch))[0]);
      }
    }
  }

  lemma FailureLeads(s: Dialer, ch: nat, log: nat, lead: nat, a: nat)
    requires Enabled(s, EvOriginateFailed(ch, log, lead, a))
    ensures OriginateFailed(s, log, lead, a).leads == AfterAll(s.leads, LeadChanges(s, EvOriginateFailed(ch, log, lead, a)))
  {
    if log !in s.logs {
    } else if lead !in s.leads.table {
    } else {
      ChangeOnce(s.leads, LeadChanges(s, EvOriginateFailed(ch, log, lead, a))[0]);
    }
  }

  /** The dialer touches leads only through hand-outs and edits that unlock none. */
  lemma EventLeads(s: Dialer, e: Event)
    ensures Next(s, e).leads == AfterAll(s.leads, LeadChanges(s, e))
  {
    match e
    case EvBlast(company, agent, idle, settings) => BlastLeads(s, company, agent, idle, settings);
    case EvStart(agent, slots, idle, settings) =>
      if agent in s.agents && settings.Some? && settings.value.complete {
        BlastLeads(Started(s, agent, slots), s.agents[agent].company, agent, idle, settings);
      }
    case EvDestroyed(ch) => DestroyedLeads(s, ch);
    case EvOriginateFailed(ch, log, lead, a) =>
      if Enabled(s, e) {
        FailureLeads(s, ch, log, lead, a);
      }
    case EvLeads(change) => ChangeOnce(s.leads, change);
    case _ => EventTables(s, e);
  }

  function RunChanges(s: Dialer, events: seq<Event>): seq<LeadEvent>
    decreases events
  {
    if events == [] then [] else LeadChanges(s, events[0]) + RunChanges(Next(s, events[0]), events[1..])
  }

  /** The leads a run takes, dialled or not, in order. */
  function Taken(s: Dialer, events: seq<Event>): seq<nat> {
    HandedOut(s.leads, RunChanges(s, events))
  }

  /** A run of the dialer is a run of the lead table. */
  lemma {:induction false} RunLeads(s: Dialer, events: seq<Event>)
    ensures Run(s, events).leads == AfterAll(s.leads, RunChanges(s, events))
    decreases events
  {
    if events != [] {
      EventLeads(s, events[0]);
      RunLeads(Next(s, events[0]), events[1..]);
      RunConcat(s.leads, LeadChanges(s, events[0]), RunChanges(Next(s, events[0]), events[1..]));
    }
  }

  /** Over any run of the dialer no lead is taken twice, whichever agents blast and
      whatever others do to the leads. */
  lemma NoLeadTakenTwice(s: Dialer, events: seq<Event>)
    ensures Distinct(Taken(s, events))
    ensures Run(s, events).leads == AfterAll(s.leads, RunChanges(s, events))
  {
    NoLeadTwice(s.leads, RunChanges(s, events));
    RunLeads(s, events);
  }

  /** What a run adds to the trace. */
  function RunActs(s: Dialer, events: seq<Event>): seq<Act>
    decreases events
  {
    if events == [] then [] else Acts(s, events[0]) + RunActs(Next(s, events[0]), events[1..])
  }

  lemma Concat3(a: seq<Act>, b: seq<Act>, c: seq<Act>)
    ensures (a + b) + c == a + (b + c)
  {}

  lemma {:induction false} RunTrace(s: Dialer, events: seq<Event>)
    ensures Run(s, events).trace == s.trace + RunActs(s, events)
    decreases events
  {
    if events == [] {
      assert s.trace + [] == s.trace;
    } else {
      EventTrace(s, events[0]);
      RunTrace(Next(s, events[0]), events[1..]);
      Concat3(s.trace, Acts(s, events[0]), RunActs(Next(s, events[0]), events[1..]));
    }
  }

  /** No turn of a blast dials a lead that has been taken. */
  lemma {:induction false} BlastSpares(s: Dialer, company: int, agentId: nat, settings: Option<Settings>, n: nat, lead: nat)
    requires Spent(s.leads, lead)
    ensures forall a <- BlastActs(s, company, agentId, settings, n) :: a.OriginateCustomer? ==> a.lead != lead
    decreases n
  {
    if n > 0 && DialOne(s, company, agentId, settings).1 {
      DialOneTurn(s, company, agentId, settings);
      BlastSpares(DialOne(s, company, agentId, settings).0, company, agentId, settings, n - 1, lead);
    }
  }

  lemma EventSpares(s: Dialer, e: Event, lead: nat)
    requires Spent(s.leads, lead)
    ensures Spent(Next(s, e).leads, lead)
    ensures forall a <- Acts(s, e) :: a.OriginateCustomer? ==> a.lead != lead
  {
    EventLeads(s, e);
    SpentStays(s.leads, LeadChanges(s, e), lead);
    ActKinds(s, e);
    match e
    case EvBlast(company, agent, idle, settings) =>
      BlastSpares(s, company, agent, settings, BlastSize(|FreeAgents(s.agents, company) * idle|), lead);
    case EvStart(agent, slots, idle, settings) =>
      if agent in s.agents {
        var s1, company := Started(s, agent, slots), s.agents[agent].company;
        BlastSpares(s1, company, agent, settings, BlastSize(|FreeAgents(s1.agents, company) * idle|), lead);
      }
    case _ =>
  }

  /** A lead that has been taken is never dialled, taken or freed again. */
  lemma {:induction false} RunSpares(s: Dialer, events: seq<Event>, lead: nat)
    requires Spent(s.leads, lead)
    ensures Spent(Run(s, events).leads, lead) && lead !in Taken(s, events)
    ensures forall a <- RunActs(s, events) :: a.OriginateCustomer? ==> a.lead != lead
    decreases events
  {
    SpentStays(s.leads, RunChanges(s, events), lead);
    if events != [] {
      EventSpares(s, events[0], lead);
      RunSpares(Next(s, events[0]), events[1..], lead);
    }
  }

  // ---- the lead a refused blast loses ----

  /** What a refused blast does: it dials no one, but takes one lead and writes a
      WAITING call log for it. */
  lemma RefusedBlast(s: Dialer, company: int, agentId: nat, idle: set<nat>, settings: Option<Settings>)
    requires agentId in s.running && FreeAgents(s.agents, company) * idle != {}
    requires !Willing(s, company, settings) && NextLead(s.leads, company).1.Some?
    ensures var s', lead := Blast(s, company, agentId, idle, settings), NextLead(s.leads, company).1.value;
      && s'.trace == s.trace && s'.channels == s.channels && s'.leads == NextLead(s.leads, company).0
      && s'.logs == s.logs[s.nextLog := CallLog(Waiting, Some(agentId), s.leads.table[lead].phone)]
  {
    DialManyStep(s, company, agentId, settings, BlastSize(|FreeAgents(s.agents, company) * idle|));
    DialOneWilling(s, company, agentId, settings);
    DialOneRefused(s, company, agentId, settings);
  }

  lemma DialOneRefused(s: Dialer, company: int, agentId: nat, settings: Option<Settings>)
    requires !Willing(s, company, settings) && NextLead(s.leads, company).1.Some?
    ensures var s', lead := DialOne(s, company, agentId, settings).0, NextLead(s.leads, company).1.value;
      && s'.trace == s.trace && s'.channels == s.channels && s'.leads == NextLead(s.leads, company).0
      && s'.logs == s.logs[s.nextLog := CallLog(Waiting, Some(agentId), s.leads.table[lead].phone)]
  {}

  /** A blast that may not originate, for want of settings or because the hold
      queue is full, loses the lead it takes: whatever run came before and whatever
      run comes after, the lead stays locked as long as it exists, and no call to
      it is ever originated. */
  lemma RefusedBlastLosesLead(agents: map<nat, AgentRow>, leads: LeadState, before: seq<Event>, blast: Event, after: seq<Event>)
    requires Within(leads.table, leads.nextId) && blast.EvBlast?
    requires var s := Run(Start(agents, leads), before);
      && blast.agent in s.running && FreeAgents(s.agents, blast.company) * blast.idle != {}
      && !Willing(s, blast.company, blast.settings) && NextLead(s.leads, blast.company).1.Some?
    ensures var s := Run(Start(agents, leads), before);
      var lead, t := NextLead(s.leads, blast.company).1.value, Run(Next(s, blast), after);
      && (lead in t.leads.table ==> t.leads.table[lead].locked)
      && lead !in Taken(Next(s, blast), after)
      && forall a <- t.trace :: a.OriginateCustomer? ==> a.lead != lead
  {
    var s := Run(Start(agents, leads), before);
    var lead, s' := NextLead(s.leads, blast.company).1.value, Next(s, blast);
    RunKeepsInv(Start(agents, leads), before);
    RefusedBlast(s, blast.company, blast.agent, blast.idle, blast.settings);
    assert Spent(s'.leads, lead);
    RunSpares(s', after, lead);
    RunTrace(s', after);
    assert !s.leads.table[lead].locked;
  }
}
