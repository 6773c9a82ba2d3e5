/** Short runs from the start that reach the states the other results are about. */
module DialerExamples {
  import opened Text
  import opened Leads
  import opened DialerState
  import opened DialerInvariants
  import opened DialerFrames
  import opened DialerRuns
  import opened DialerTeardown
  import opened DialerOutcomes
  import opened DialerHolds

  // ---- one customer dialled ----

  const AGENTS := map[7 := AgentRow(Offline, 1), 8 := AgentRow(Available, 1)]

  const LEAD := Lead(1, 0, "555", false, false, ContactText(""))

  const LEADS := LeadState(map[0 := LEAD], 1)

  const SETTINGS := Some(Settings(true, 0))

  const DIAL := EvStart(7, 1, {7}, SETTINGS)

  /** Agent 7 has started and its blast has dialled the one lead. */
  function Dialling(): Dialer {
    Dialer(map[7 := 1], map[0 := Meta(0, Customer, Some(7), "555", Some(0))], map[], map[], map[], map[], 1, 1,
           map[0 := CallLog(Waiting, Some(7), "555")], AGENTS[7 := AgentRow(Available, 1)],
           LeadState(map[0 := LEAD.(locked := true)], 1), [OriginateCustomer(0, 0, 0)])
  }

  lemma TheLeadIsNext()
    ensures NextLead(LEADS, 1) == (LeadState(map[0 := LEAD.(locked := true)], 1), Some(0))
  {
    assert Oldest(LEADS.table, 1, 0) == None;
    assert Eligible(LEADS.table, 0, 1);
    assert Oldest(LEADS.table, 1, 1) == Some(0);
    assert LEADS.table[0 := LEAD.(locked := true)] == map[0 := LEAD.(locked := true)];
  }

  lemma FirstDial()
    ensures Next(Start(AGENTS, LEADS), DIAL) == Dialling()
  {
    var s1 := Started(Start(AGENTS, LEADS), 7, 1);
    TheLeadIsNext();
    assert FreeAgents(s1.agents, 1) * {7} == {7};
    assert CountedHeld(s1.held, 1) == {};
    var r := DialOne(s1, 1, 7, SETTINGS);
    assert r.1 && r.0.leads == Dialling().leads;
    assert r.0.running == map[7 := 1];
    assert r.0.channels == Dialling().channels;
    assert r.0.logs == Dialling().logs;
    assert r.0.trace == [] + [OriginateCustomer(0, 0, 0)];
    assert r.0 == Dialling();
    DialManyStep(s1, 1, 7, SETTINGS, 1);
  }

  /** A run is its first event and then the rest. */
  lemma RunCons(s: Dialer, e: Event, more: seq<Event>)
    ensures Run(s, [e] + more) == Run(Next(s, e), more)
  {
    assert ([e] + more)[1..] == more;
  }

  lemma RunThree(s: Dialer, a: Event, b: Event, c: Event)
    ensures Run(s, [a, b, c]) == Next(Next(Next(s, a), b), c)
  {
    RunCons(s, a, [b, c]);
    RunCons(Next(s, a), b, [c]);
    RunCons(Next(Next(s, a), b), c, []);
    assert [a] + [b, c] == [a, b, c] && [b] + [c] == [b, c] && [c] + [] == [c];
  }

  // ---- a connected call ----

  const CONNECT := [DIAL, EvUp(0, 7), EvUp(1, 0)]

  /** Its customer is up and agent 7 is being called. */
  function Pairing(): Dialer {
    var s := Dialling();
    s.(agents := s.agents[7 := AgentRow(AgentRinging, 1)],
       channels := s.channels[1 := Meta(0, Agent, Some(7), "", None)],
       nextChannel := 2,
       trace := s.trace + [OriginateAgent(1, 0, 7)])
  }

  lemma FirstPairing()
    ensures Next(Dialling(), EvUp(0, 7)) == Pairing()
  {
    var s := Dialling();
    assert IsFree(s.agents, 7, 0);
    assert 7 in FreeAgents(s.agents, 0);
  }

  lemma PairedLegs()
    ensures Leg(Pairing(), 0, Customer) == Some(0)
    ensures Leg(Pairing(), 0, Agent) == Some(1)
  {
    var s := Pairing();
    assert IsLeg(s.channels, 0, 0, Customer) && !IsLeg(s.channels, 0, 0, Agent) && IsLeg(s.channels, 1, 0, Agent);
  }

  /** A connected call with both its legs and a lead is reached; from there the log
      ends as NO_ANSWER, and the lead as answered or not by who goes first. */
  lemma ConnectedCallIsReached()
    ensures Within(LEADS.table, LEADS.nextId)
    ensures var s := Run(Start(AGENTS, LEADS), CONNECT);
      && IsLeg(s.channels, 0, 0, Customer) && IsLeg(s.channels, 1, 0, Agent) && s.channels[0].leadId == Some(0)
      && 0 in s.logs && s.logs[0].status == Connected && 0 in s.leads.table
      && 0 in Teardown(s, 0).logs && Teardown(s, 0).logs[0].status == NoAnswer
      && 0 in Teardown(s, 0).leads.table && Teardown(s, 0).leads.table[0].contactStatus == ContactAnswered
      && 0 in Teardown(s, 1).leads.table && Teardown(s, 1).leads.table[0].contactStatus == ContactNoAnswer
  {
    FirstDial();
    FirstPairing();
    PairedLegs();
    RunThree(Start(AGENTS, LEADS), DIAL, EvUp(0, 7), EvUp(1, 0));
    var s := Run(Start(AGENTS, LEADS), CONNECT);
    assert s == BridgeAgent(Pairing(), 1);
    BridgeFrame(Pairing(), 1);
    ReachableLegsOk(AGENTS, LEADS, CONNECT);
    assert 1 in Legs(s.channels, 0, Agent);
    ConnectedEndsHungUpIff(s, 0);
    AnsweredIffCustomerFirst(AGENTS, LEADS, CONNECT, 0, 0, 0);
    AnsweredIffCustomerFirst(AGENTS, LEADS, CONNECT, 1, 0, 0);
  }

  // ---- a call with two agent legs ----

  const PAIR_TWICE := [DIAL, EvUp(0, 7), EvUp(0, 8)]

  /** Two Up events of one customer give its call two agent legs; when the customer
      goes, one of them is left behind. */
  lemma TwoAgentLegsAreReached()
    ensures var s := Run(Start(AGENTS, LEADS), PAIR_TWICE);
      && 0 in s.channels && Legs(s.channels, 0, Agent) == {1, 2}
      && !Gone(Teardown(s, 0), 0)
  {
    FirstDial();
    FirstPairing();
    RunThree(Start(AGENTS, LEADS), DIAL, EvUp(0, 7), EvUp(0, 8));
    SecondPairing();
    var s := Run(Start(AGENTS, LEADS), PAIR_TWICE);
    ReachableLegsOk(AGENTS, LEADS, PAIR_TWICE);
    TeardownIsComplete(s, 0);
    assert |{1, 2}| == 2;
  }

  lemma SecondPairing()
    ensures var s := Next(Pairing(), EvUp(0, 8));
      0 in s.channels && s.channels[0].callLogId == 0 && s.channels[0].role == Customer
      && Legs(s.channels, 0, Agent) == {1, 2}
  {
    var s1 := Pairing();
    assert IsFree(s1.agents, 8, 0);
    assert 8 in FreeAgents(s1.agents, 0);
    var s := PairCustomer(s1, 0, 8);
    assert s.channels == s1.channels[0 := s1.channels[0].(agentId := Some(8))][2 := Meta(0, Agent, Some(8), "", None)];
  }

  // ---- a log connected from outside ----

  const REPORT := [DIAL, EvLogEdited(0, CallLog(Connected, Some(7), "555")), EvDestroyed(0)]

  /** Once someone else has written CONNECTED to its log, a call no bridge was ever
      made for ends as HUNGUP, with its lead answered. */
  lemma ReportedCallEndsHungUp()
    ensures Run(Start(AGENTS, LEADS), REPORT).trace ==
      [OriginateCustomer(0, 0, 0), ReportLog(0, Connected), WriteLog(0, HungUp), WriteLead(0, 0, ContactAnswered)]
  {
    var row := CallLog(Connected, Some(7), "555");
    var s := Report(Dialling(), 0, row);
    FirstDial();
    RunThree(Start(AGENTS, LEADS), DIAL, EvLogEdited(0, row), EvDestroyed(0));
    ReportStep(row);
    ReportedActs(s);
    EventTrace(s, EvDestroyed(0));
    assert s.trace == [OriginateCustomer(0, 0, 0), ReportLog(0, Connected)];
  }

  lemma ReportStep(row: CallLog)
    ensures Next(Dialling(), EvLogEdited(0, row)) == Report(Dialling(), 0, row)
  {}

  lemma ReportedActs(s: Dialer)
    requires s == Report(Dialling(), 0, CallLog(Connected, Some(7), "555"))
    ensures DestroyedActs(s, 0) == [WriteLog(0, HungUp), WriteLead(0, 0, ContactAnswered)]
  {
    assert !IsLeg(s.channels, 0, 0, Agent);
    assert Paired(s, 0) == None;
    assert OutcomeActs(s, s.channels[0]) == [WriteLog(0, HungUp), WriteLead(0, 0, ContactAnswered)];
  }

  // ---- a customer up before Stasis ----

  const UP_FIRST := [DIAL, EvAgentEdited(7, AgentRow(AgentBusy, 1)), EvAgentEdited(8, AgentRow(AgentBusy, 1))]

  /** A customer that is up before it enters Stasis, with no agent free, is held
      without a timer and uncounted; StasisStart then gives it both. */
  lemma UpBeforeStasis()
    ensures var s := Next(Run(Start(AGENTS, LEADS), UP_FIRST), EvUp(0, 0));
      && 0 in s.held && s.held[0] == Bare(0) && !Timed(s.held, s.timers, 0)
      && 0 in Next(s, EvStasis(0)).held && Timed(Next(s, EvStasis(0)).held, Next(s, EvStasis(0)).timers, 0)
      && 0 in CountedHeld(Next(s, EvStasis(0)).held, 1)
  {
    FirstDial();
    RunThree(Start(AGENTS, LEADS), DIAL, UP_FIRST[1], UP_FIRST[2]);
    var s := Dialling().(agents := Dialling().agents[7 := AgentRow(AgentBusy, 1)][8 := AgentRow(AgentBusy, 1)]);
    assert Run(Start(AGENTS, LEADS), UP_FIRST) == s;
    assert FreeAgents(s.agents, 0) == {};
    PairTables(s, 0, 0);
    var s1 := PairCustomer(s, 0, 0);
    assert Next(s, EvUp(0, 0)) == s1;
    StasisTables(s1, 0);
    assert CompanyOf(s1, 0) == 1;
  }

  // ---- a refused blast ----

  const IDLE_START := EvStart(7, 1, {}, SETTINGS)

  /** A running agent's blast without settings loses the one lead there is. */
  lemma RefusedBlastIsReached(after: seq<Event>)
    ensures var t := Run(Next(Run(Start(AGENTS, LEADS), [IDLE_START]), EvBlast(1, 7, {7}, None)), after);
      && (0 in t.leads.table ==> t.leads.table[0].locked)
      && forall a <- t.trace :: a.OriginateCustomer? ==> a.lead != 0
  {
    var s := Started(Start(AGENTS, LEADS), 7, 1);
    assert FreeAgents(s.agents, 1) * {} == {};
    RunCons(Start(AGENTS, LEADS), IDLE_START, []);
    assert [IDLE_START] + [] == [IDLE_START];
    assert Run(Start(AGENTS, LEADS), [IDLE_START]) == s;
    TheLeadIsNext();
    assert IsFree(s.agents, 7, 1);
    assert 7 in FreeAgents(s.agents, 1) * {7};
    RefusedBlastLosesLead(AGENTS, LEADS, [IDLE_START], EvBlast(1, 7, {7}, None), after);
  }
}
