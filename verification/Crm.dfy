/** Appointment statuses, appointments and the lead hand-out
    (src/customer-crm/customer-crm.service.ts). Each operation is taken as atomic;
    its database requests follow one another as in the source, so an operation
    that fails half way keeps what it has already written. */
module Crm {
  import opened Text
  import opened Leads

  datatype Status = Status(name: string, isDefault: bool, company: int)

  datatype Appointment = Appointment(status: nat, note: string)

  datatype Db = Db(
    statuses: map<nat, Status>, appointments: map<nat, Appointment>, nextId: nat, leads: LeadState)

  datatype Answer = Ok | NotFound | BadReference | InUse

  datatype Op =
    | CreateStatus(name: string, isDefault: bool, company: int)
    | UpdateStatus(id: nat, name: string, isDefault: bool)
    | DeleteStatus(id: nat)
    | CreateAppointment(status: nat, note: string)
    | UpdateAppointment(id: nat, newStatus: Option<nat>, newNote: Option<string>)
    | DeleteAppointment(id: nat)

  // ---- the operations as functions of the database ----

  /** `updateMany({ data: { isDefault: false }, where: { isDefault: true, NOT: keep } })` */
  function ClearDefaults(statuses: map<nat, Status>, keep: Option<nat>): map<nat, Status> {
    map i | i in statuses :: if keep == Some(i) then statuses[i] else statuses[i].(isDefault := false)
  }

  /** `findFirst({ where: { isDefault: true, NOT: { id } } })` */
  function OtherDefault(statuses: map<nat, Status>, id: nat, n: nat): (r: Option<nat>)
    ensures r.Some? ==> r.value < n && r.value != id && r.value in statuses && statuses[r.value].isDefault
    ensures r.None? ==> forall i: nat | i < n && i != id && i in statuses :: !statuses[i].isDefault
  {
    if n == 0 then None
    else if n - 1 != id && n - 1 in statuses && statuses[n - 1].isDefault then Some(n - 1)
    else OtherDefault(statuses, id, n - 1)
  }

  predicate Used(db: Db, status: nat) {
    exists i <- db.appointments :: db.appointments[i].status == status
  }

  /** `updateMany({ where: status from, data: status to })` */
  function Reassign(appointments: map<nat, Appointment>, from: nat, to: nat): map<nat, Appointment> {
    map i | i in appointments ::
      if appointments[i].status == from then appointments[i].(status := to) else appointments[i]
  }

  /** The row deletion; the foreign key of the appointments restricts it. */
  function RemoveStatus(db: Db, id: nat): (Db, Answer) {
    if id !in db.statuses then (db, NotFound)
    else if Used(db, id) then (db, BadReference)
    else (db.(statuses := map i | i in db.statuses && i != id :: db.statuses[i]), Ok)
  }

  function Perform(db: Db, op: Op): (Db, Answer) {
    match op
    case CreateStatus(name, isDefault, company) =>
      var cleared := if isDefault then ClearDefaults(db.statuses, None) else db.statuses;
      (db.(statuses := cleared[db.nextId := Status(name, isDefault, company)], nextId := db.nextId + 1), Ok)
    case UpdateStatus(id, name, isDefault) =>
      var cleared := if isDefault then ClearDefaults(db.statuses, Some(id)) else db.statuses;
      if id !in cleared then (db.(statuses := cleared), NotFound)
      else (db.(statuses := cleared[id := cleared[id].(name := name, isDefault := isDefault)]), Ok)
    case DeleteStatus(id) =>
      var other := OtherDefault(db.statuses, id, db.nextId);
      if other.None? then
        if Used(db, id) then (db, InUse) else RemoveStatus(db, id)
      else RemoveStatus(db.(appointments := Reassign(db.appointments, id, other.value)), id)
    case CreateAppointment(status, note) =>
      if status !in db.statuses then (db, BadReference)
      else (db.(appointments := db.appointments[db.nextId := Appointment(status, note)], nextId := db.nextId + 1), Ok)
    case UpdateAppointment(id, status, note) =>
      if id !in db.appointments then (db, NotFound)
      else if status.Some? && status.value !in db.statuses then (db, BadReference)
      else
        var a := db.appointments[id];
        var a' := Appointment(if status.Some? then status.value else a.status, if note.Some? then note.value else a.note);
        (db.(appointments := db.appointments[id := a']), Ok)
    case DeleteAppointment(id) =>
      if id !in db.appointments then (db, NotFound)
      else (db.(appointments := map i | i in db.appointments && i != id :: db.appointments[i]), Ok)
  }

  function Run(db: Db, ops: seq<Op>): Db
    decreases ops
  {
    if ops == [] then db else Run(Perform(db, ops[0]).0, ops[1..])
  }

  // ---- the service ----

  class CustomerCrmService {
    var statuses: map<nat, Status>
    var appointments: map<nat, Appointment>
    var nextId: nat
    var leads: LeadState

    ghost function View(): Db
      reads this
    {
      Db(statuses, appointments, nextId, leads)
    }

    constructor ()
      ensures View() == Db(map[], map[], 0, LeadState(map[], 0))
    {
      statuses, appointments, nextId, leads := map[], map[], 0, LeadState(map[], 0);
    }

    method NextLead(company: int) returns (lead: Option<nat>)
      modifies this`leads
      ensures (leads, lead) == Leads.NextLead(old(leads), company)
    {
      lead := Oldest(leads.table, company, leads.nextId);
      if lead.None? {
        return;
      }
      leads := leads.(table := leads.table[lead.value := leads.table[lead.value].(locked := true)]);
    }

    method CreateStatus(name: string, isDefault: bool, company: int) returns (answer: Answer)
      modifies this
      ensures (View(), answer) == Perform(old(View()), Op.CreateStatus(name, isDefault, company))
    {
      if isDefault {
        statuses := ClearDefaults(statuses, None);
      }
      statuses := statuses[nextId := Status(name, isDefault, company)];
      nextId := nextId + 1;
      return Ok;
    }

    method UpdateStatus(id: nat, name: string, isDefault: bool) returns (answer: Answer)
      modifies this
      ensures (View(), answer) == Perform(old(View()), Op.UpdateStatus(id, name, isDefault))
    {
      if isDefault {
        statuses := ClearDefaults(statuses, Some(id));
      }
      if id !in statuses {
        return NotFound;
      }
      statuses := statuses[id := statuses[id].(name := name, isDefault := isDefault)];
      return Ok;
    }

    method DeleteStatus(id: nat) returns (answer: Answer)
      modifies this
      ensures (View(), answer) == Perform(old(View()), Op.DeleteStatus(id))
    {
      var defaultStatus := OtherDefault(statuses, id, nextId);
      if defaultStatus.None? {
        if exists i <- appointments :: appointments[i].status == id {
          return InUse;
        }
      } else {
        appointments := Reassign(appointments, id, defaultStatus.value);
      }
      if id !in statuses {
        return NotFound;
      }
      if exists i <- appointments :: appointments[i].status == id {
        return BadReference;
      }
      statuses := map i | i in statuses && i != id :: statuses[i];
      return Ok;
    }

    method CreateAppointment(status: nat, note: string) returns (answer: Answer)
      modifies this
      ensures (View(), answer) == Perform(old(View()), Op.CreateAppointment(status, note))
    {
      if status !in statuses {
        return BadReference;
      }
      appointments := appointments[nextId := Appointment(status, note)];
      nextId := nextId + 1;
      return Ok;
    }

    method UpdateAppointment(id: nat, status: Option<nat>, note: Option<string>) returns (answer: Answer)
      modifies this
      ensures (View(), answer) == Perform(old(View()), Op.UpdateAppointment(id, status, note))
    {
      if id !in appointments {
        return NotFound;
      }
      if status.Some? && status.value !in statuses {
        return BadReference;
      }
      var a := appointments[id];
      if status.Some? {
        a := a.(status := status.value);
      }
      if note.Some? {
        a := a.(note := note.value);
      }
      appointments := appointments[id := a];
      return Ok;
    }

    method DeleteAppointment(id: nat) returns (answer: Answer)
      modifies this
      ensures (View(), answer) == Perform(old(View()), Op.DeleteAppointment(id))
    {
      if id !in appointments {
        return NotFound;
      }
      appointments := map i | i in appointments && i != id :: appointments[i];
      return Ok;
    }
  }

  // ---- the invariant ----

  ghost predicate OneDefault(statuses: map<nat, Status>) {
    forall i, j :: i in statuses && j in statuses && statuses[i].isDefault && statuses[j].isDefault ==> i == j
  }

  ghost predicate Inv(db: Db) {
    && OneDefault(db.statuses)
    && (forall i <- db.statuses :: i < db.nextId)
    && (forall i <- db.appointments :: i < db.nextId && db.appointments[i].status in db.statuses)
  }

  /** Clearing every default but one leaves at most that one. */
  lemma ClearedDefaults(statuses: map<nat, Status>, keep: Option<nat>)
    ensures ClearDefaults(statuses, keep).Keys == statuses.Keys
    ensures forall i <- ClearDefaults(statuses, keep) :: ClearDefaults(statuses, keep)[i].isDefault ==> keep == Some(i)
  {}

  lemma StatusWritten(statuses: map<nat, Status>, id: nat, status: Status)
    requires OneDefault(statuses)
    requires status.isDefault ==> forall i <- statuses :: i != id ==> !statuses[i].isDefault
    ensures OneDefault(statuses[id := status])
  {}

  lemma ReassignKeeps(db: Db, from: nat, to: nat)
    requires Inv(db) && to in db.statuses
    ensures Inv(db.(appointments := Reassign(db.appointments, from, to)))
  {}

  lemma RemoveStatusKeeps(db: Db, id: nat)
    requires Inv(db)
    ensures Inv(RemoveStatus(db, id).0)
  {}

  lemma PerformKeepsInv(db: Db, op: Op)
    requires Inv(db)
    ensures Inv(Perform(db, op).0)
  {
    match op
    case CreateStatus(name, isDefault, company) =>
      ClearedDefaults(db.statuses, None);
      var cleared := if isDefault then ClearDefaults(db.statuses, None) else db.statuses;
      StatusWritten(cleared, db.nextId, Status(name, isDefault, company));
    case UpdateStatus(id, name, isDefault) =>
      ClearedDefaults(db.statuses, Some(id));
      var cleared := if isDefault then ClearDefaults(db.statuses, Some(id)) else db.statuses;
      if id in cleared {
        StatusWritten(cleared, id, cleared[id].(name := name, isDefault := isDefault));
      }
    case DeleteStatus(id) =>
      var other := OtherDefault(db.statuses, id, db.nextId);
      if other.None? {
        RemoveStatusKeeps(db, id);
      } else {
        ReassignKeeps(db, id, other.value);
        RemoveStatusKeeps(db.(appointments := Reassign(db.appointments, id, other.value)), id);
      }
    case _ =>
  }

  /** Over every sequence of operations, failing ones included, at most one status
      is the default and every appointment refers to an existing status. */
  lemma {:induction false} RunKeepsInv(db: Db, ops: seq<Op>)
    requires Inv(db)
    ensures Inv(Run(db, ops))
    decreases ops
  {
    if ops != [] {
      PerformKeepsInv(db, ops[0]);
      RunKeepsInv(Perform(db, ops[0]).0, ops[1..]);
    }
  }

  // ---- deleting a status ----

  ghost predicate IsDefault(db: Db, id: nat) {
    id in db.statuses && db.statuses[id].isDefault
  }

  /** Deleting a status loses no appointment, moves exactly those that pointed at
      it, and moves them to the default; it is refused exactly when there is no
      other default to move them to and some exist. The foreign key never has to
      stop it. */
  lemma DeletingStatus(db: Db, id: nat)
    requires Inv(db)
    ensures var r := Perform(db, DeleteStatus(id));
      && r.1 != BadReference
      && (r.1 == Ok <==> id in db.statuses && (Used(db, id) ==> exists d: nat :: d != id && IsDefault(db, d)))
      && (r.1 == InUse <==> Used(db, id) && forall d: nat :: IsDefault(db, d) ==> d == id)
      && (r.1 != Ok ==> r.0 == db)
      && (r.1 == Ok ==> r.0.statuses == db.statuses - {id})
      && r.0.appointments.Keys == db.appointments.Keys
      && forall i <- db.appointments ::
        && r.0.appointments[i].note == db.appointments[i].note
        && if r.1 == Ok && db.appointments[i].status == id
           then r.0.appointments[i].status != id && IsDefault(db, r.0.appointments[i].status)
           else r.0.appointments[i] == db.appointments[i]
  {
    var other := OtherDefault(db.statuses, id, db.nextId);
    if other.Some? {
      assert IsDefault(db, other.value);
      if id !in db.statuses {
        assert Reassign(db.appointments, id, other.value) == db.appointments;
      }
    }
  }

  /** The default status cannot be deleted while an appointment has it. */
  lemma DefaultInUseStays(db: Db, id: nat)
    requires Inv(db) && IsDefault(db, id) && Used(db, id)
    ensures Perform(db, DeleteStatus(id)) == (db, InUse)
  {
    DeletingStatus(db, id);
  }

  // ---- when the default is lost ----

  ghost predicate HasDefault(db: Db) {
    exists d: nat :: IsDefault(db, d)
  }

  /** An operation takes the default away without naming another. The first case
      is an update of a status that does not exist: the others are cleared before
      the update fails. */
  ghost predicate LosesDefault(db: Db, op: Op) {
    || (op.UpdateStatus? && op.isDefault && op.id !in db.statuses)
    || (op.UpdateStatus? && !op.isDefault && IsDefault(db, op.id))
    || (op.DeleteStatus? && IsDefault(db, op.id) && !Used(db, op.id))
  }

  /** A default, once there is one, survives an operation exactly when the
      operation is not one of those three. */
  lemma DefaultSurvivesIff(db: Db, op: Op)
    requires Inv(db) && HasDefault(db)
    ensures HasDefault(Perform(db, op).0) <==> !LosesDefault(db, op)
  {
    var d: nat :| IsDefault(db, d);
    var db' := Perform(db, op).0;
    match op
    case CreateStatus(_, isDefault, _) =>
      assert IsDefault(db', if isDefault then db.nextId else d);
    case UpdateStatus(id, _, isDefault) =>
      if isDefault && id in db.statuses {
        assert IsDefault(db', id);
      } else if !LosesDefault(db, op) {
        assert IsDefault(db', d);
      }
    case DeleteStatus(id) =>
      DeletingStatus(db, id);
      if !LosesDefault(db, op) {
        assert IsDefault(db', d);
      }
    case _ =>
      assert IsDefault(db', d);
  }

  // ---- what each operation does to each row ----

  /** The answer of each operation but the deletion of a status, which `DeletingStatus` is
      about. None touches the leads. */
  lemma Answers(db: Db, op: Op)
    requires !op.DeleteStatus?
    ensures Perform(db, op).0.leads == db.leads
    ensures Perform(db, op).1 ==
      match op
      case CreateStatus(_, _, _) => Ok
      case UpdateStatus(id, _, _) => if id in db.statuses then Ok else NotFound
      case CreateAppointment(status, _) => if status in db.statuses then Ok else BadReference
      case UpdateAppointment(id, status, _) =>
        if id !in db.appointments then NotFound
        else if status.Some? && status.value !in db.statuses then BadReference
        else Ok
      case DeleteAppointment(id) => if id in db.appointments then Ok else NotFound
      case DeleteStatus(_) => Ok
  {}

  /** An operation names a new default: every other status is cleared, also when the one
      named does not exist. */
  predicate NamesDefault(op: Op, other: nat) {
    (op.CreateStatus? && op.isDefault) || (op.UpdateStatus? && op.isDefault && op.id != other)
  }

  /** An existing status keeps its company; its name changes by an update of it alone, and
      whether it is the default by an update of it or by another becoming the default. It
      goes only by a deletion of it. */
  lemma StatusRow(db: Db, op: Op, id: nat)
    requires id in db.statuses && (forall i <- db.statuses :: i < db.nextId)
    ensures var db' := Perform(db, op).0;
      if id !in db'.statuses then op == DeleteStatus(id)
      else db'.statuses[id] == Status(
        if op.UpdateStatus? && op.id == id then op.name else db.statuses[id].name,
        if op.UpdateStatus? && op.id == id then op.isDefault else db.statuses[id].isDefault && !NamesDefault(op, id),
        db.statuses[id].company)
  {
    match op
    case CreateStatus(_, _, _) => ClearedDefaults(db.statuses, None);
    case UpdateStatus(i, _, _) => ClearedDefaults(db.statuses, Some(i));
    case _ =>
  }

  /** A status comes only by a create, with the name, the flag and the company given. */
  lemma NewStatus(db: Db, op: Op, id: nat)
    requires id !in db.statuses
    ensures var db' := Perform(db, op).0;
      id in db'.statuses <==> op.CreateStatus? && id == db.nextId
    ensures op.CreateStatus? && id == db.nextId ==>
      Perform(db, op).0.statuses[id] == Status(op.name, op.isDefault, op.company) && Perform(db, op).0.nextId == id + 1
  {
    match op
    case CreateStatus(_, _, _) => ClearedDefaults(db.statuses, None);
    case UpdateStatus(i, _, _) => ClearedDefaults(db.statuses, Some(i));
    case _ =>
  }

  /** An existing appointment changes by an accepted update of it, which sets what it was
      given and leaves the rest; it goes by its deletion alone. `DeletingStatus` says what a
      deleted status does to it. */
  lemma AppointmentRow(db: Db, op: Op, id: nat)
    requires id in db.appointments && id < db.nextId && !op.DeleteStatus?
    ensures var db', a := Perform(db, op).0, db.appointments[id];
      if op == DeleteAppointment(id) then id !in db'.appointments
      else
        && id in db'.appointments
        && db'.appointments[id] ==
             if op.UpdateAppointment? && op.id == id && (op.newStatus.Some? ==> op.newStatus.value in db.statuses)
             then Appointment(if op.newStatus.Some? then op.newStatus.value else a.status,
                              if op.newNote.Some? then op.newNote.value else a.note)
             else a
  {}

  /** An appointment comes only by an accepted create, with the status and note given. */
  lemma NewAppointment(db: Db, op: Op, id: nat)
    requires id !in db.appointments
    ensures var db' := Perform(db, op).0;
      id in db'.appointments <==> op.CreateAppointment? && id == db.nextId && op.status in db.statuses
    ensures id in Perform(db, op).0.appointments ==>
      Perform(db, op).0.appointments[id] == Appointment(op.status, op.note) && Perform(db, op).0.nextId == id + 1
  {}
}
