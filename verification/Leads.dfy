/** The lead table and the hand-out of leads (src/customer-crm/customer-crm.service.ts, nextLead). */
module Leads {
  import opened Text

  /** A contact status: one of the texts the dialer writes ("Answered",
      "No Answer", "Busy", "Failed", "INTERNAL_ERROR"), or any other. */
  datatype Contact =
    | ContactAnswered | ContactNoAnswer | ContactBusy | ContactFailed | ContactInternalError
    | ContactText(text: string)

  datatype Lead = Lead(
    company: int, createdAt: int, phone: string,
    isContacted: bool, locked: bool, contactStatus: Contact)

  type LeadTable = map<nat, Lead>

  predicate Eligible(t: LeadTable, id: nat, company: int) {
    id in t && t[id].company == company && !t[id].isContacted && !t[id].locked
  }

  /** The oldest eligible lead of `company` with an id below `n`; among leads
      created at the same time the one with the smallest id. */
  function Oldest(t: LeadTable, company: int, n: nat): (r: Option<nat>)
    ensures r.Some? ==> r.value < n && Eligible(t, r.value, company)
    ensures r.Some? ==> forall id: nat | id < n && Eligible(t, id, company) :: t[r.value].createdAt <= t[id].createdAt
    ensures r.None? ==> forall id: nat | id < n :: !Eligible(t, id, company)
  {
    if n == 0 then None
    else
      var best := Oldest(t, company, n - 1);
      if !Eligible(t, n - 1, company) then best
      else if best.None? || t[n - 1].createdAt < t[best.value].createdAt then Some(n - 1)
      else best
  }

  function Lock(t: LeadTable, id: nat): LeadTable
    requires id in t
  {
    t[id := t[id].(locked := true)]
  }

  /** Only ids below `n` have been given to leads. */
  ghost predicate Within(t: LeadTable, n: nat) {
    forall id <- t :: id < n
  }

  /** What may happen to the table: a lead is asked for, added, edited or removed.
      No edit unlocks a lead. */
  datatype LeadEvent =
    | Ask(company: int)
    | Add(lead: Lead)
    | Edit(id: nat, phone: string, isContacted: bool, contactStatus: Contact)
    | Remove(id: nat)

  datatype LeadState = LeadState(table: LeadTable, nextId: nat)

  /** `nextLead` taken as one step: the oldest eligible lead, now locked. */
  function NextLead(s: LeadState, company: int): (LeadState, Option<nat>) {
    var best := Oldest(s.table, company, s.nextId);
    if best.None? then (s, None) else (s.(table := Lock(s.table, best.value)), best)
  }

  function After(s: LeadState, e: LeadEvent): LeadState {
    match e
    case Ask(company) => NextLead(s, company).0
    case Add(lead) => LeadState(s.table[s.nextId := lead.(locked := false)], s.nextId + 1)
    case Edit(id, phone, isContacted, contactStatus) =>
      if id !in s.table then s
      else
        var row := s.table[id].(phone := phone, isContacted := isContacted, contactStatus := contactStatus);
        s.(table := s.table[id := row])
    case Remove(id) => s.(table := map i | i in s.table && i != id :: s.table[i])
  }

  function AfterAll(s: LeadState, events: seq<LeadEvent>): LeadState
    decreases events
  {
    if events == [] then s else AfterAll(After(s, events[0]), events[1..])
  }

  /** The leads handed out over a run, in order. */
  function HandedOut(s: LeadState, events: seq<LeadEvent>): seq<nat>
    decreases events
  {
    if events == [] then []
    else
      (if events[0].Ask? && NextLead(s, events[0].company).1.Some? then [NextLead(s, events[0].company).1.value] else [])
      + HandedOut(After(s, events[0]), events[1..])
  }

  lemma {:induction false} RunConcat(s: LeadState, a: seq<LeadEvent>, b: seq<LeadEvent>)
    ensures AfterAll(s, a + b) == AfterAll(AfterAll(s, a), b)
    ensures HandedOut(s, a + b) == HandedOut(s, a) + HandedOut(AfterAll(s, a), b)
    decreases a
  {
    if a == [] {
      assert a + b == b;
      assert [] + HandedOut(s, b) == HandedOut(s, b);
    } else {
      assert (a + b)[0] == a[0] && (a + b)[1..] == a[1..] + b;
      RunConcat(After(s, a[0]), a[1..], b);
    }
  }

  /** The lead has been taken: it is gone or locked. */
  predicate Spent(s: LeadState, lead: nat) {
    lead < s.nextId && (lead in s.table ==> s.table[lead].locked)
  }

  /** A lead that has been taken is never free again. */
  lemma {:induction false} SpentStays(s: LeadState, events: seq<LeadEvent>, lead: nat)
    requires Spent(s, lead)
    ensures Spent(AfterAll(s, events), lead) && lead !in HandedOut(s, events)
    decreases events
  {
    if events != [] {
      SpentStays(After(s, events[0]), events[1..], lead);
    }
  }

  ghost predicate Distinct(ids: seq<nat>) {
    forall i, j :: 0 <= i < j < |ids| ==> ids[i] != ids[j]
  }

  /** Over any run no lead is handed out twice. */
  lemma {:induction false} NoLeadTwice(s: LeadState, events: seq<LeadEvent>)
    ensures Distinct(HandedOut(s, events))
    decreases events
  {
    if events != [] {
      var e, more := events[0], events[1..];
      NoLeadTwice(After(s, e), more);
      if e.Ask? && NextLead(s, e.company).1.Some? {
        var id := NextLead(s, e.company).1.value;
        SpentStays(After(s, e), more, id);
        assert HandedOut(s, events) == [id] + HandedOut(After(s, e), more);
      } else {
        assert HandedOut(s, events) == HandedOut(After(s, e), more);
      }
    }
  }

  /** The leads of a company that may be handed out: neither contacted nor locked. */
  function Open(t: LeadTable, company: int): set<nat> {
    set id | id in t && t[id].company == company && !t[id].isContacted && !t[id].locked
  }

  /** What is handed out is the oldest open lead of the company asked for, the first
      registered among the oldest; it is locked and nothing else changes. Nothing is
      handed out only when no lead is open. */
  lemma HandOutIsOldest(s: LeadState, company: int)
    requires Within(s.table, s.nextId)
    ensures var r, open := NextLead(s, company), Open(s.table, company);
      if r.1.None? then r.0 == s && open == {}
      else
        var lead := r.1.value;
        && lead in open
        && (forall id <- open :: s.table[lead].createdAt < s.table[id].createdAt
              || (s.table[lead].createdAt == s.table[id].createdAt && lead <= id))
        && r.0.nextId == s.nextId && r.0.table == s.table[lead := s.table[lead].(locked := true)]
        && Open(r.0.table, company) == open - {lead}
  {
    var r := NextLead(s, company);
    if r.1.None? {
      assert forall id <- Open(s.table, company) :: Eligible(s.table, id, company);
    } else {
      assert Eligible(s.table, r.1.value, company);
      assert forall id <- Open(s.table, company) :: Eligible(s.table, id, company);
      FirstOfOldest(s.table, company, s.nextId);
    }
  }

  lemma {:induction false} FirstOfOldest(t: LeadTable, company: int, n: nat)
    ensures var r := Oldest(t, company, n);
      r.Some? ==> forall id: nat | id < n && Eligible(t, id, company) && t[id].createdAt == t[r.value].createdAt :: r.value <= id
  {
    if n > 0 {
      FirstOfOldest(t, company, n - 1);
    }
  }
}
