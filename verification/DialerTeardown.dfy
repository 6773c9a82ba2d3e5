/** Tearing a call down: a destroyed leg asks to hang up its partner, whose
    destruction follows, and so on. */
module DialerTeardown {
  import opened Text
  import opened Leads
  import opened DialerState
  import opened DialerInvariants

  /** The destruction of `ch` and of every leg whose hangup it brings about; each
      round unregisters a channel. */
  function Teardown(s: Dialer, ch: nat): Dialer
    decreases |s.channels|
  {
    if ch !in s.channels then s
    else
      Fewer(s.channels, ch);
      var paired := Paired(s, ch);
      if paired.Some? then Teardown(Destroyed(s, ch), paired.value) else Destroyed(s, ch)
  }

  lemma Fewer(channels: map<nat, Meta>, ch: nat)
    requires ch in channels
    ensures |channels - {ch}| < |channels|
  {
    assert (channels - {ch}).Keys == channels.Keys - {ch};
  }

  /** The legs a teardown destroys, in order. */
  function Chain(s: Dialer, ch: nat): (legs: seq<nat>)
    ensures legs != [] && legs[0] == ch
    decreases |s.channels|
  {
    if ch !in s.channels || Paired(s, ch).None? then [ch]
    else
      Fewer(s.channels, ch);
      [ch] + Chain(Destroyed(s, ch), Paired(s, ch).value)
  }

  lemma ChainStep(s: Dialer, ch: nat)
    requires ch in s.channels
    ensures Chain(s, ch) ==
      if Paired(s, ch).None? then [ch] else [ch] + Chain(Destroyed(s, ch), Paired(s, ch).value)
  {}

  lemma RunDestroys(s: Dialer, ch: nat, legs: seq<nat>)
    ensures Run(s, DestroyEvents([ch] + legs)) == Run(Destroyed(s, ch), DestroyEvents(legs))
  {
    var events := DestroyEvents([ch] + legs);
    assert events[1..] == DestroyEvents(legs);
    assert Next(s, events[0]) == Destroyed(s, ch);
  }

  /** A teardown is a run of the dialer: the destroy events of its legs. */
  lemma {:induction false} TeardownIsRun(s: Dialer, ch: nat)
    ensures Run(s, DestroyEvents(Chain(s, ch))) == Teardown(s, ch)
    decreases |s.channels|
  {
    if ch !in s.channels || Paired(s, ch).None? {
      assert [ch] == [ch] + [];
      RunDestroys(s, ch, []);
    } else {
      Fewer(s.channels, ch);
      var s1, p := Destroyed(s, ch), Paired(s, ch).value;
      TeardownIsRun(s1, p);
      RunDestroys(s, ch, Chain(s1, p));
    }
  }

  /** Every leg of the chain but the first has been asked to hang up when it goes. */
  lemma {:induction false} ChainIsAskedFor(s: Dialer, ch: nat, i: nat)
    requires 0 < i < |Chain(s, ch)|
    ensures Hangup(Chain(s, ch)[i]) in Run(s, DestroyEvents(Chain(s, ch)[..i])).trace
    decreases |s.channels|
  {
    Fewer(s.channels, ch);
    var s1, p := Destroyed(s, ch), Paired(s, ch).value;
    var more := Chain(s1, p);
    ChainStep(s, ch);
    assert ([ch] + more)[..i] == [ch] + more[..i - 1];
    RunDestroys(s, ch, more[..i - 1]);
    if i == 1 {
      AsksPartner(s, ch);
      assert more[..i - 1] == [] && DestroyEvents([]) == [];
    } else {
      ChainIsAskedFor(s1, p, i - 1);
    }
  }

  lemma AsksPartner(s: Dialer, ch: nat)
    requires ch in s.channels && Paired(s, ch).Some?
    ensures Hangup(Paired(s, ch).value) in Destroyed(s, ch).trace
  {
    var trace := Destroyed(s, ch).trace;
    assert trace[|trace| - 1] == Hangup(Paired(s, ch).value);
  }

  function DestroyEvents(legs: seq<nat>): (r: seq<Event>)
    ensures |r| == |legs| && forall i :: 0 <= i < |r| ==> r[i] == EvDestroyed(legs[i])
  {
    seq(|legs|, i requires 0 <= i < |legs| => EvDestroyed(legs[i]))
  }

  /** The registered legs of a call in a role. */
  function Legs(channels: map<nat, Meta>, log: nat, role: Role): set<nat> {
    set c | c in channels && IsLeg(channels, c, log, role)
  }

  lemma LegIff(s: Dialer, log: nat, role: Role)
    requires IdsOk(s)
    ensures Leg(s, log, role).Some? <==> Legs(s.channels, log, role) != {}
    ensures Leg(s, log, role).Some? ==> Leg(s, log, role).value in Legs(s.channels, log, role)
  {
    if Leg(s, log, role).Some? {
      assert Leg(s, log, role).value in Legs(s.channels, log, role);
    }
  }

  /** The destruction of a leg asks to hang up at most one channel: a leg of the
      same call in the other role, whenever one is registered. */
  lemma HangsUpOnlyThePartner(s: Dialer, ch: nat) returns (acts: seq<Act>)
    requires IdsOk(s) && ch in s.channels
    ensures Destroyed(s, ch).trace == s.trace + acts
    ensures var log, other := s.channels[ch].callLogId, OtherRole(s.channels[ch].role);
      && (forall a <- acts :: a.Hangup? ==> IsLeg(s.channels, a.channel, log, other))
      && (forall i, j :: 0 <= i < j < |acts| ==> !(acts[i].Hangup? && acts[j].Hangup?))
      && ((exists a :: a in acts && a.Hangup?) <==> Legs(s.channels, log, other) != {})
  {
    var meta := s.channels[ch];
    acts := OutcomeActs(s, meta) + HangupActs(s, ch);
    assert s.trace + OutcomeActs(s, meta) + HangupActs(s, ch) == s.trace + acts;
    LegIff(s, meta.callLogId, OtherRole(meta.role));
    if Paired(s, ch).Some? {
      assert acts[|acts| - 1].Hangup? && acts[|acts| - 1] in acts;
    }
  }

  /** All that is kept of other calls than `log`. */
  ghost predicate OthersKept(s: Dialer, s': Dialer, log: nat) {
    && (forall c: nat :: c in s.channels && s.channels[c].callLogId != log ==> c in s'.channels && s'.channels[c] == s.channels[c])
    && (forall c <- s'.channels :: c in s.channels && s'.channels[c] == s.channels[c])
    && (forall l: nat :: l != log ==> (l in s'.held <==> l in s.held) && (l in s.held ==> s'.held[l] == s.held[l]))
    && (forall l: nat :: l != log ==> (l in s'.transfers <==> l in s.transfers) && (l in s.transfers ==> s'.transfers[l] == s.transfers[l]))
    && (forall c: nat :: c in s.timers && s.timers[c].callLogId != log ==> c in s'.timers && s'.timers[c] == s.timers[c])
    && (forall c <- s'.timers :: c in s.timers && s'.timers[c] == s.timers[c])
  }

  lemma DestroyedKeepsOthers(s: Dialer, ch: nat)
    requires LegsOk(s) && ch in s.channels
    ensures OthersKept(s, Destroyed(s, ch), s.channels[ch].callLogId)
    ensures LegsOk(Destroyed(s, ch))
  {
    DestroyedLegs(s, ch);
  }

  lemma {:induction false} TeardownKeepsOthers(s: Dialer, ch: nat)
    requires LegsOk(s) && ch in s.channels
    ensures OthersKept(s, Teardown(s, ch), s.channels[ch].callLogId)
    ensures LegsOk(Teardown(s, ch))
    decreases |s.channels|
  {
    DestroyedKeepsOthers(s, ch);
    Fewer(s.channels, ch);
    if Paired(s, ch).Some? {
      TeardownKeepsOthers(Destroyed(s, ch), Paired(s, ch).value);
    }
  }

  /** Nothing of the call is left in any table. */
  ghost predicate Gone(s: Dialer, log: nat) {
    && (forall c <- s.channels :: s.channels[c].callLogId != log)
    && log !in s.held && log !in s.transfers
    && (forall c <- s.timers :: s.timers[c].callLogId != log)
  }

  lemma GoneIff(s: Dialer, log: nat)
    requires LegsOk(s)
    ensures Gone(s, log) <==> Legs(s.channels, log, Customer) == {} && Legs(s.channels, log, Agent) == {}
  {
    forall c | c in s.channels ensures c in Legs(s.channels, s.channels[c].callLogId, s.channels[c].role) {}
    if Legs(s.channels, log, Customer) == {} && Legs(s.channels, log, Agent) == {} {
      forall c | c in s.channels ensures s.channels[c].callLogId != log {
        assert s.channels[c].role == Customer || s.channels[c].role == Agent;
      }
    }
  }

  lemma DestroyedRemainingLegs(s: Dialer, ch: nat, log: nat, role: Role)
    requires ch in s.channels
    ensures Legs(Destroyed(s, ch).channels, log, role) == Legs(s.channels, log, role) - {ch}
  {
    assert Destroyed(s, ch).channels == s.channels - {ch};
  }

  /** The customer's destruction takes one agent leg along, if there is one. */
  lemma CustomerTeardown(s: Dialer, ch: nat)
    requires LegsOk(s) && ch in s.channels && s.channels[ch].role == Customer
    ensures var log := s.channels[ch].callLogId;
      Gone(Teardown(s, ch), log) <==> |Legs(s.channels, log, Agent)| <= 1
  {
    var log := s.channels[ch].callLogId;
    var agents := Legs(s.channels, log, Agent);
    var s1 := Destroyed(s, ch);
    DestroyedKeepsOthers(s, ch);
    OnlyCustomer(s, ch);
    DestroyedRemainingLegs(s, ch, log, Customer);
    DestroyedRemainingLegs(s, ch, log, Agent);
    LegIff(s, log, Agent);
    assert ch !in agents;
    assert Legs(s1.channels, log, Agent) == agents;
    if agents == {} {
      GoneIff(s1, log);
    } else {
      var a := Paired(s, ch).value;
      var s2 := Destroyed(s1, a);
      DestroyedKeepsOthers(s1, a);
      LegIff(s1, log, Customer);
      DestroyedRemainingLegs(s1, a, log, Customer);
      DestroyedRemainingLegs(s1, a, log, Agent);
      assert Teardown(s, ch) == Teardown(s1, a) == s2;
      GoneIff(s2, log);
      OneMember(agents, a);
    }
  }

  lemma OnlyCustomer(s: Dialer, ch: nat)
    requires OneCustomer(s.channels) && ch in s.channels && s.channels[ch].role == Customer
    ensures Legs(s.channels, s.channels[ch].callLogId, Customer) == {ch}
  {
    var log := s.channels[ch].callLogId;
    assert IsLeg(s.channels, ch, log, Customer);
  }

  lemma OneMember(a: set<nat>, x: nat)
    requires x in a
    ensures a - {x} == {} <==> |a| <= 1
    ensures |a - {x}| == |a| - 1
  {
    assert a == (a - {x}) + {x};
  }

  /** How many agent legs the destruction of this leg can take along or be. */
  function Reach(s: Dialer, ch: nat): nat
    requires ch in s.channels
  {
    if s.channels[ch].role == Agent && Leg(s, s.channels[ch].callLogId, Customer).Some? then 2 else 1
  }

  /** Destroying a leg, with the hangups that follow, removes everything of its
      call and nothing of any other call exactly when the call has no more agent
      legs than the chain of hangups reaches: one, or two when an agent leg goes
      first while the customer is there. */
  lemma TeardownIsComplete(s: Dialer, ch: nat)
    requires LegsOk(s) && ch in s.channels
    ensures var log := s.channels[ch].callLogId;
      && (Gone(Teardown(s, ch), log) <==> |Legs(s.channels, log, Agent)| <= Reach(s, ch))
      && OthersKept(s, Teardown(s, ch), log)
  {
    TeardownKeepsOthers(s, ch);
    if s.channels[ch].role == Customer {
      CustomerTeardown(s, ch);
    } else {
      AgentTeardown(s, ch);
    }
  }

  lemma AgentTeardown(s: Dialer, ch: nat)
    requires LegsOk(s) && ch in s.channels && s.channels[ch].role == Agent
    ensures var log := s.channels[ch].callLogId;
      Gone(Teardown(s, ch), log) <==> |Legs(s.channels, log, Agent)| <= Reach(s, ch)
  {
    var log := s.channels[ch].callLogId;
    var agents := Legs(s.channels, log, Agent);
    var s1 := Destroyed(s, ch);
    DestroyedKeepsOthers(s, ch);
    DestroyedRemainingLegs(s, ch, log, Customer);
    DestroyedRemainingLegs(s, ch, log, Agent);
    LegIff(s, log, Customer);
    assert ch in agents;
    OneMember(agents, ch);
    if Paired(s, ch).Some? {
      var c := Paired(s, ch).value;
      assert s1.channels[c] == s.channels[c];
      CustomerTeardown(s1, c);
    } else {
      GoneIff(s1, log);
    }
  }

  /** With one agent leg, the usual case, either leg brings the whole call down. */
  lemma OneAgentLegIsEnough(s: Dialer, ch: nat)
    requires LegsOk(s) && ch in s.channels
    requires |Legs(s.channels, s.channels[ch].callLogId, Agent)| <= 1
    ensures Gone(Teardown(s, ch), s.channels[ch].callLogId)
  {
    TeardownIsComplete(s, ch);
  }

  // ---- how far the hangups reach ----

  lemma CustomerChain(s: Dialer, ch: nat)
    requires LegsOk(s) && ch in s.channels && s.channels[ch].role == Customer
    ensures Chain(s, ch) == if Paired(s, ch).None? then [ch] else [ch, Paired(s, ch).value]
  {
    Fewer(s.channels, ch);
    if Paired(s, ch).Some? {
      var log, s1, a := s.channels[ch].callLogId, Destroyed(s, ch), Paired(s, ch).value;
      DestroyedKeepsOthers(s, ch);
      OnlyCustomer(s, ch);
      DestroyedRemainingLegs(s, ch, log, Customer);
      LegIff(s1, log, Customer);
      assert s1.channels[a] == s.channels[a];
      assert Chain(s1, a) == [a];
    }
  }

  lemma PartnerStays(s: Dialer, ch: nat)
    requires ch in s.channels && Paired(s, ch).Some?
    ensures var p, channels := Paired(s, ch).value, Destroyed(s, ch).channels;
      p != ch && p in s.channels && p in channels && channels[p] == s.channels[p]
  {
    assert Destroyed(s, ch).channels == s.channels - {ch};
  }

  /** The legs are distinct, all the customers and `reach` of the agents at most. */
  ghost predicate Covers(legs: seq<nat>, customers: set<nat>, agents: set<nat>, reach: nat) {
    && (forall l <- legs :: l in customers || l in agents)
    && (forall i, j :: 0 <= i < j < |legs| ==> legs[i] != legs[j])
    && (forall c <- customers :: c in legs)
    && |legs| == |customers| + if |agents| <= reach then |agents| else reach
  }

  /** The teardown of a call takes its customer leg if there is one, and of its agent
      legs the one it starts with and one more the customer takes along, each once:
      it never has more than three legs, however many the call has. */
  lemma ChainReaches(s: Dialer, ch: nat)
    requires LegsOk(s) && ch in s.channels
    ensures var log := s.channels[ch].callLogId;
      Covers(Chain(s, ch), Legs(s.channels, log, Customer), Legs(s.channels, log, Agent), Reach(s, ch))
  {
    var log := s.channels[ch].callLogId;
    var customers, agents := Legs(s.channels, log, Customer), Legs(s.channels, log, Agent);
    assert customers !! agents;
    if s.channels[ch].role == Customer {
      CustomerReaches(s, ch);
      CustomerCovers(Chain(s, ch), customers, agents);
    } else {
      AgentReaches(s, ch);
      AgentCovers(Chain(s, ch), customers, agents);
    }
  }

  lemma SizeOne(a: set<nat>, x: nat)
    requires x in a
    ensures |a| >= 1 && (|a| == 1 <==> a == {x})
  {
    OneMember(a, x);
    assert a - {x} == {} <==> a == {x};
  }

  lemma CustomerCovers(legs: seq<nat>, customers: set<nat>, agents: set<nat>)
    requires customers !! agents && |legs| == 1 + (if agents == {} then 0 else 1)
    requires customers == {legs[0]} && (agents != {} ==> legs[1] in agents)
    ensures Covers(legs, customers, agents, 1)
  {
    if agents != {} {
      SizeOne(agents, legs[1]);
    }
  }

  lemma AgentCovers(legs: seq<nat>, customers: set<nat>, agents: set<nat>)
    requires customers !! agents && |legs| >= 1 && legs[0] in agents
    requires if customers == {} then |legs| == 1
      else |legs| == 2 + (if agents == {legs[0]} then 0 else 1) && customers == {legs[1]}
           && (|legs| == 3 ==> legs[2] in agents && legs[2] != legs[0])
    ensures Covers(legs, customers, agents, if customers == {} then 1 else 2)
  {
    SizeOne(agents, legs[0]);
  }

  lemma CustomerReaches(s: Dialer, ch: nat)
    requires LegsOk(s) && ch in s.channels && s.channels[ch].role == Customer
    ensures var log, legs := s.channels[ch].callLogId, Chain(s, ch);
      var agents := Legs(s.channels, log, Agent);
      && Legs(s.channels, log, Customer) == {ch}
      && |legs| == 1 + (if agents == {} then 0 else 1) && legs[0] == ch && (agents != {} ==> legs[1] in agents)
  {
    CustomerChain(s, ch);
    OnlyCustomer(s, ch);
    LegIff(s, s.channels[ch].callLogId, Agent);
  }

  lemma AgentReaches(s: Dialer, ch: nat)
    requires LegsOk(s) && ch in s.channels && s.channels[ch].role == Agent
    ensures var log, legs := s.channels[ch].callLogId, Chain(s, ch);
      var customers, agents := Legs(s.channels, log, Customer), Legs(s.channels, log, Agent);
      && legs[0] == ch && ch in agents
      && if customers == {} then |legs| == 1 && Reach(s, ch) == 1
         else
           && Reach(s, ch) == 2 && |legs| == 2 + (if agents == {ch} then 0 else 1)
           && customers == {legs[1]} && (|legs| == 3 ==> legs[2] in agents && legs[2] != ch)
  {
    var log := s.channels[ch].callLogId;
    ChainStep(s, ch);
    LegIff(s, log, Customer);
    if Paired(s, ch).Some? {
      var s1, c := Destroyed(s, ch), Paired(s, ch).value;
      OnlyCustomer(s, c);
      DestroyedKeepsOthers(s, ch);
      DestroyedRemainingLegs(s, ch, log, Agent);
      LegIff(s1, log, Agent);
      PartnerStays(s, ch);
      CustomerChain(s1, c);
      var agents := Legs(s.channels, log, Agent);
      assert agents - {ch} == {} <==> agents == {ch};
    }
  }
}
