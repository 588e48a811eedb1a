/** The decisions of the appointment controller, as functions of the stored records and
    the request: which answer each request gets, in the order the controller checks,
    and the record it writes. */
module AppointmentController {
  import opened Wrappers
  import opened Strings
  import opened TimeOfDay
  import opened Calendar
  import opened AppointmentModel
  import opened Environment
  import opened Outcomes
  import opened RequestValidation
  import opened Slots

  /** What the controller reads of a dentist: the working hours per weekday; a day
      without an entry has no hours. */
  datatype Dentist = Dentist(workingHours: map<Weekday, Hours>)

  /** What the controller reads of a service: its duration in minutes. */
  datatype Service = Service(duration: int)

  /** The moment a checked body asks for: its day, at its time. */
  function ScheduledAt(c: Checked): (at: DateTime)
    requires IsTimeString(c.time)
    ensures at.date == c.date && Some(at.minute) == ParseTime(c.time)
  {
    DateTime(c.date, ParseTime(c.time).value)
  }

  /** The three ids of a checked body cast to object ids. */
  predicate IdsCast(c: Checked, env: Env) {
    Casts(env, c.patientId) && Casts(env, c.dentistId) && Casts(env, c.serviceId)
  }

  /** The document `createAppointment` builds: the checked fields with the ids cast,
      the service's duration, the default status and the caller as creator. */
  function NewAppointment(c: Checked, env: Env, duration: int, actorId: string): (a: Appointment)
    requires IdsCast(c, env)
    ensures Some(a.patientId) == env.castId(c.patientId) && Some(a.dentistId) == env.castId(c.dentistId)
    ensures Some(a.serviceId) == env.castId(c.serviceId)
    ensures a.date == c.date && a.time == c.time && a.reason == c.reason && a.notes == c.notes
    ensures a.duration == duration && a.status == DefaultStatus && a.createdBy == actorId
  {
    Appointment(env.castId(c.patientId).value, env.castId(c.dentistId).value, env.castId(c.serviceId).value,
      c.date, c.time, duration, DefaultStatus, c.notes, c.reason, actorId)
  }

  /** The patient, the dentist and the service of a checked body all exist. */
  predicate LookupsPass(
    patients: set<string>, dentists: map<string, Dentist>, services: map<string, Service>, c: Checked, env: Env)
  {
    Found(env, c.patientId, patients) && Found(env, c.dentistId, dentists.Keys)
    && Found(env, c.serviceId, services.Keys)
  }

  /** The document a checked body whose lookups pass is saved as: its duration is the
      found service's, whatever the body says, it is scheduled, and the caller created it. */
  function Created(services: map<string, Service>, c: Checked, actorId: string, env: Env): (a: Appointment)
    requires IdsCast(c, env) && Found(env, c.serviceId, services.Keys)
    ensures Some(a.serviceId) == env.castId(c.serviceId) && a.duration == services[a.serviceId].duration
    ensures a.status == Scheduled && a.createdBy == actorId
    ensures Some(a.patientId) == env.castId(c.patientId) && Some(a.dentistId) == env.castId(c.dentistId)
    ensures a.date == c.date && a.time == c.time && a.reason == c.reason && a.notes == c.notes
  {
    NewAppointment(c, env, services[env.castId(c.serviceId).value].duration, actorId)
  }

  /** The create step after validation. Checks, in order: the patient, the dentist
      and the service, each looked up by its cast id (500 when the id does not cast,
      404 when nothing has it); a moment before `now` (400); then the save, whose
      schema validation and pre-save hook both end in 500. `now` is the clock rounded
      up to the next whole minute. */
  function CreateChecked(
    patients: set<string>, dentists: map<string, Dentist>, services: map<string, Service>,
    store: map<nat, Appointment>, newId: nat,
    c: Checked, actorId: string, now: DateTime, env: Env): (r: Result<Appointment>)
    requires newId !in store && IsTimeString(c.time)
    ensures !Casts(env, c.patientId) ==> r == Err(ServerError(InvalidIdCast))
    ensures Casts(env, c.patientId) && !Found(env, c.patientId, patients) ==> r == Err(NotFound(PatientEntity))
    ensures Found(env, c.patientId, patients) ==>
      && (!Casts(env, c.dentistId) ==> r == Err(ServerError(InvalidIdCast)))
      && (Casts(env, c.dentistId) && !Found(env, c.dentistId, dentists.Keys) ==> r == Err(NotFound(DentistEntity)))
    ensures Found(env, c.patientId, patients) && Found(env, c.dentistId, dentists.Keys) ==>
      && (!Casts(env, c.serviceId) ==> r == Err(ServerError(InvalidIdCast)))
      && (Casts(env, c.serviceId) && !Found(env, c.serviceId, services.Keys) ==> r == Err(NotFound(ServiceEntity)))
    ensures LookupsPass(patients, dentists, services, c, env) ==>
      && (Before(ScheduledAt(c), now) ==> r == Err(InPast))
      && (!Before(ScheduledAt(c), now) ==>
        var a := Created(services, c, actorId, env);
        && (!SchemaValid(a) ==> r == Err(ServerError(SchemaViolation)))
        && (SchemaValid(a) && HasConflict(store, newId, a.dentistId, a.date, a.time) ==>
          r == Err(ServerError(SlotTakenOnSave)))
        && (SchemaValid(a) && !HasConflict(store, newId, a.dentistId, a.date, a.time) ==> r == Ok(a)))
    ensures r.Ok? ==>
      && LookupsPass(patients, dentists, services, c, env)
      && !Before(ScheduledAt(c), now)
      && r.value == Created(services, c, actorId, env)
      && SchemaValid(r.value)
      && !HasConflict(store, newId, r.value.dentistId, r.value.date, r.value.time)
    ensures r.Err? && r.failure.ServerError? ==> r.failure.cause in {InvalidIdCast, SchemaViolation, SlotTakenOnSave}
  {
    if !Casts(env, c.patientId) then Err(ServerError(InvalidIdCast))
    else if !Found(env, c.patientId, patients) then Err(NotFound(PatientEntity))
    else if !Casts(env, c.dentistId) then Err(ServerError(InvalidIdCast))
    else if !Found(env, c.dentistId, dentists.Keys) then Err(NotFound(DentistEntity))
    else if !Casts(env, c.serviceId) then Err(ServerError(InvalidIdCast))
    else if !Found(env, c.serviceId, services.Keys) then Err(NotFound(ServiceEntity))
    else if Before(ScheduledAt(c), now) then Err(InPast)
    else
      var a := Created(services, c, actorId, env);
      if !SchemaValid(a) then Err(ServerError(SchemaViolation))
      else if !PreSaveAllows(store, newId, a, true, {}) then Err(ServerError(SlotTakenOnSave))
      else Ok(a)
  }

  /** POST /appointments: the rules (400), then the create step. */
  function CreateAppointment(
    patients: set<string>, dentists: map<string, Dentist>, services: map<string, Service>,
    store: map<nat, Appointment>, newId: nat,
    body: Body, actorId: string, now: DateTime, env: Env): (r: Result<Appointment>)
    requires newId !in store
    ensures Validate(body, env).Rejected? ==> r == Err(ValidationFailed(Validate(body, env).errors))
    ensures Validate(body, env).Accepted? ==>
      r == CreateChecked(patients, dentists, services, store, newId, Validate(body, env).checked, actorId, now, env)
  {
    match Validate(body, env)
    case Rejected(errs) => Err(ValidationFailed(errs))
    case Accepted(c) => CreateChecked(patients, dentists, services, store, newId, c, actorId, now, env)
  }

  /** A created appointment is stored with nothing double-booked. */
  lemma CreateKeepsNoDoubleBooking(
    patients: set<string>, dentists: map<string, Dentist>, services: map<string, Service>,
    store: map<nat, Appointment>, newId: nat,
    body: Body, actorId: string, now: DateTime, env: Env)
    requires newId !in store && NoDoubleBooking(store)
    requires CreateAppointment(patients, dentists, services, store, newId, body, actorId, now, env).Ok?
    ensures var a := CreateAppointment(patients, dentists, services, store, newId, body, actorId, now, env).value;
      NoDoubleBooking(store[newId := a]) && a.status == Scheduled
  {
    var a := CreateAppointment(patients, dentists, services, store, newId, body, actorId, now, env).value;
    PreSaveKeepsNoDoubleBooking(store, newId, a, true, {});
  }

  /** A request for a moment strictly before `now` is refused once the body and the
      referenced records pass; the minute `now` itself is accepted. Since `now` is the
      clock rounded up to a whole minute, that minute is never before the clock. */
  lemma PastRefused(
    patients: set<string>, dentists: map<string, Dentist>, services: map<string, Service>,
    store: map<nat, Appointment>, newId: nat,
    body: Body, actorId: string, now: DateTime, env: Env)
    requires newId !in store
    requires Validate(body, env).Accepted?
    requires LookupsPass(patients, dentists, services, Validate(body, env).checked, env)
    ensures var r := CreateAppointment(patients, dentists, services, store, newId, body, actorId, now, env);
      var at := ScheduledAt(Validate(body, env).checked);
      (r == Err(InPast) <==> Before(at, now)) && (at == now ==> r != Err(InPast))
  {
    var at := ScheduledAt(Validate(body, env).checked);
    if at == now {
      LexLessIrreflexive("");
    }
  }

  /** A reason the rules accept can still be too long for the schema, which counts
      UTF-16 code units: the save then fails with 500. */
  lemma AstralReasonFailsOnSave(
    patients: set<string>, dentists: map<string, Dentist>, services: map<string, Service>,
    store: map<nat, Appointment>, newId: nat,
    body: Body, actorId: string, now: DateTime, env: Env)
    requires newId !in store
    requires body.reason == Some(seq(300, _ => '\U{1F600}'))
    requires Validate(body, env).Accepted?
    requires var c := Validate(body, env).checked;
      LookupsPass(patients, dentists, services, c, env) && !Before(ScheduledAt(c), now)
    ensures CreateAppointment(patients, dentists, services, store, newId, body, actorId, now, env)
      == Err(ServerError(SchemaViolation))
  {
    RulesAndSchemaCountDifferently(body, env);
  }

  /** GET /appointments/:id. */
  function GetAppointmentById(store: map<nat, Appointment>, id: nat): (r: Result<Appointment>)
    ensures r.Ok? <==> id in store
    ensures r.Ok? ==> r.value == store[id]
    ensures r.Err? ==> r.failure == NotFound(AppointmentEntity)
  {
    if id in store then Ok(store[id]) else Err(NotFound(AppointmentEntity))
  }

  /** The fields `findByIdAndUpdate` sets: the ones the body carries. */
  datatype Patch = Patch(
    patientId: Option<string>,
    dentistId: Option<string>,
    serviceId: Option<string>,
    date: Option<Date>,
    time: Option<string>,
    reason: Option<string>,
    notes: Option<string>,
    duration: Option<int>,
    status: Option<string>)

  /** An accepted PUT body as an update: every checked field is set; duration and status
      only when the body carries them. */
  function PatchOf(c: Checked): (p: Patch)
    ensures p.patientId == Some(c.patientId) && p.dentistId == Some(c.dentistId) && p.serviceId == Some(c.serviceId)
    ensures p.date == Some(c.date) && p.time == Some(c.time)
    ensures p.reason == Some(c.reason) && p.notes == c.notes
    ensures p.duration == c.duration && p.status == c.status
  {
    Patch(Some(c.patientId), Some(c.dentistId), Some(c.serviceId), Some(c.date), Some(c.time),
      Some(c.reason), c.notes, c.duration, c.status)
  }

  function TextOr(v: Option<string>, fallback: string): string {
    if Truthy(v) then v.value else fallback
  }

  /** The update carries a date or a time, so the controller looks for a clash. */
  predicate TouchesSlot(p: Patch) {
    p.date.Some? || Truthy(p.time)
  }

  /** Every id the update sets casts to an object id. */
  predicate PatchCasts(p: Patch, env: Env) {
    && (p.patientId.Some? ==> Casts(env, p.patientId.value))
    && (p.dentistId.Some? ==> Casts(env, p.dentistId.value))
    && (p.serviceId.Some? ==> Casts(env, p.serviceId.value))
  }

  /** The update with each id it sets replaced by its cast. */
  function CastPatch(p: Patch, env: Env): (q: Patch)
    requires PatchCasts(p, env)
    ensures q.patientId == (if p.patientId.Some? then env.castId(p.patientId.value) else None)
    ensures q.dentistId == (if p.dentistId.Some? then env.castId(p.dentistId.value) else None)
    ensures q.serviceId == (if p.serviceId.Some? then env.castId(p.serviceId.value) else None)
    ensures q.date == p.date && q.time == p.time && q.reason == p.reason && q.notes == p.notes
    ensures q.duration == p.duration && q.status == p.status
  {
    p.(patientId := if p.patientId.Some? then env.castId(p.patientId.value) else None,
       dentistId := if p.dentistId.Some? then env.castId(p.dentistId.value) else None,
       serviceId := if p.serviceId.Some? then env.castId(p.serviceId.value) else None)
  }

  /** The update validators: each value the update sets meets its path's rules; a
      required id must not be empty. */
  predicate PatchValid(p: Patch) {
    && (p.patientId.Some? ==> Truthy(p.patientId))
    && (p.dentistId.Some? ==> Truthy(p.dentistId))
    && (p.serviceId.Some? ==> Truthy(p.serviceId))
    && (p.time.Some? ==> ValidTime(p.time.value))
    && (p.reason.Some? ==> ValidReason(p.reason.value))
    && (p.notes.Some? ==> Utf16Length(p.notes.value) <= MaxNotesLength)
    && (p.duration.Some? ==> ValidDuration(p.duration.value))
    && (p.status.Some? ==> ParseStatus(p.status.value).Some?)
  }

  /** The status after the update: the one the update names, or the current one. */
  function PatchedStatus(current: Status, name: Option<string>): (s: Status)
    requires name.Some? ==> ParseStatus(name.value).Some?
    ensures StatusName(s) == (if name.Some? then name.value else StatusName(current))
  {
    if name.Some? then ParseStatus(name.value).value else current
  }

  /** The record after the update: every field the update carries replaced, the others
      kept. */
  function ApplyPatch(a: Appointment, p: Patch): (b: Appointment)
    requires p.status.Some? ==> ParseStatus(p.status.value).Some?
    ensures b.patientId == (if p.patientId.Some? then p.patientId.value else a.patientId)
    ensures b.dentistId == (if p.dentistId.Some? then p.dentistId.value else a.dentistId)
    ensures b.serviceId == (if p.serviceId.Some? then p.serviceId.value else a.serviceId)
    ensures b.date == (if p.date.Some? then p.date.value else a.date)
    ensures b.time == (if p.time.Some? then p.time.value else a.time)
    ensures b.reason == (if p.reason.Some? then p.reason.value else a.reason)
    ensures b.notes == (if p.notes.Some? then p.notes else a.notes)
    ensures b.duration == (if p.duration.Some? then p.duration.value else a.duration)
    ensures StatusName(b.status) == (if p.status.Some? then p.status.value else StatusName(a.status))
    ensures b.createdBy == a.createdBy
  {
    Appointment(
      if p.patientId.Some? then p.patientId.value else a.patientId,
      if p.dentistId.Some? then p.dentistId.value else a.dentistId,
      if p.serviceId.Some? then p.serviceId.value else a.serviceId,
      if p.date.Some? then p.date.value else a.date,
      if p.time.Some? then p.time.value else a.time,
      if p.duration.Some? then p.duration.value else a.duration,
      PatchedStatus(a.status, p.status),
      if p.notes.Some? then p.notes else a.notes,
      if p.reason.Some? then p.reason.value else a.reason,
      a.createdBy)
  }

  /** The update carries a date or a time and a dentist id that does not cast. */
  predicate BadDentistCast(p: Patch, env: Env) {
    TouchesSlot(p) && Truthy(p.dentistId) && !Casts(env, p.dentistId.value)
  }

  /** The dentist, date and time the controller checks for a clash: the ones the
      update gives, or else the stored ones; a falsy text counts as not given, and
      the query compares the dentist by its cast id. */
  function RequestedSlot(a: Appointment, p: Patch, env: Env): (slot: (string, Date, string))
    requires !BadDentistCast(p, env)
    ensures TouchesSlot(p) ==>
      slot.0 == (if Truthy(p.dentistId) then env.castId(p.dentistId.value).value else a.dentistId)
    ensures slot.1 == (if p.date.Some? then p.date.value else a.date)
    ensures slot.2 == (if Truthy(p.time) then p.time.value else a.time)
  {
    (if TouchesSlot(p) && Truthy(p.dentistId) then env.castId(p.dentistId.value).value else a.dentistId,
     if p.date.Some? then p.date.value else a.date,
     TextOr(p.time, a.time))
  }

  /** The update carries a date or a time and another record holds the slot it asks for. */
  predicate Clashes(store: map<nat, Appointment>, id: nat, p: Patch, env: Env)
    requires id in store && !BadDentistCast(p, env)
  {
    var slot := RequestedSlot(store[id], p, env);
    TouchesSlot(p) && HasConflict(store, id, slot.0, slot.1, slot.2)
  }

  /** The update step after validation. Checks, in order: the record exists (404), it
      is not completed (400), and, when the update carries a date or a time, that a
      dentist id it carries casts to an object id (500) and that no other record holds
      the slot it asks for (400); then the update's own casts (500) and validators
      (500). The record is updated with the cast ids. */
  function UpdatePatch(store: map<nat, Appointment>, id: nat, p: Patch, env: Env): (r: Result<Appointment>)
    ensures id !in store ==> r == Err(NotFound(AppointmentEntity))
    ensures id in store && store[id].status == Completed ==> r == Err(CompletedLocked)
    ensures r == Err(SlotTaken) <==>
      id in store && store[id].status != Completed && !BadDentistCast(p, env) && Clashes(store, id, p, env)
    ensures r == Err(ServerError(InvalidIdCast)) <==>
      id in store && store[id].status != Completed
      && (BadDentistCast(p, env) || (!Clashes(store, id, p, env) && !PatchCasts(p, env)))
    ensures r.Err? && r.failure.ServerError? ==> r.failure.cause in {InvalidIdCast, SchemaViolation}
    ensures (id in store && store[id].status != Completed && !BadDentistCast(p, env) && !Clashes(store, id, p, env)
      && PatchCasts(p, env) && !PatchValid(p)) ==> r == Err(ServerError(SchemaViolation))
    ensures (id in store && store[id].status != Completed && PatchCasts(p, env) && PatchValid(p)
      && !Clashes(store, id, p, env)) ==> r == Ok(ApplyPatch(store[id], CastPatch(p, env)))
    ensures r.Ok? ==>
      && id in store && store[id].status != Completed && PatchCasts(p, env) && PatchValid(p)
      && !Clashes(store, id, p, env)
      && r.value == ApplyPatch(store[id], CastPatch(p, env))
  {
    if id !in store then Err(NotFound(AppointmentEntity))
    else if store[id].status == Completed then Err(CompletedLocked)
    else if BadDentistCast(p, env) then Err(ServerError(InvalidIdCast))
    else if Clashes(store, id, p, env) then Err(SlotTaken)
    else if !PatchCasts(p, env) then Err(ServerError(InvalidIdCast))
    else if !PatchValid(p) then Err(ServerError(SchemaViolation))
    else Ok(ApplyPatch(store[id], CastPatch(p, env)))
  }

  /** PUT /appointments/:id: the rules, then the update step. */
  function UpdateAppointment(store: map<nat, Appointment>, id: nat, body: Body, env: Env): (r: Result<Appointment>)
    ensures Validate(body, env).Rejected? ==> r == Err(ValidationFailed(Validate(body, env).errors))
    ensures Validate(body, env).Accepted? ==> r == UpdatePatch(store, id, PatchOf(Validate(body, env).checked), env)
  {
    match Validate(body, env)
    case Rejected(errs) => Err(ValidationFailed(errs))
    case Accepted(c) => UpdatePatch(store, id, PatchOf(c), env)
  }

  /** An update that carries a date or a time and succeeds keeps the store free of
      double bookings. */
  lemma UpdatePatchKeepsNoDoubleBooking(store: map<nat, Appointment>, id: nat, p: Patch, env: Env)
    requires NoDoubleBooking(store) && TouchesSlot(p)
    requires UpdatePatch(store, id, p, env).Ok?
    ensures NoDoubleBooking(store[id := UpdatePatch(store, id, p, env).value])
  {
    var b := UpdatePatch(store, id, p, env).value;
    assert (b.dentistId, b.date, b.time) == RequestedSlot(store[id], p, env);
    assert DateField in SlotFields * SlotFields;
    PreSaveKeepsNoDoubleBooking(store, id, b, false, SlotFields);
  }

  /** Every successful PUT keeps the store free of double bookings: its body always
      carries a date and a time, so the clash check always runs. */
  lemma UpdateKeepsNoDoubleBooking(store: map<nat, Appointment>, id: nat, body: Body, env: Env)
    requires NoDoubleBooking(store)
    requires UpdateAppointment(store, id, body, env).Ok?
    ensures NoDoubleBooking(store[id := UpdateAppointment(store, id, body, env).value])
  {
    UpdatePatchKeepsNoDoubleBooking(store, id, PatchOf(Validate(body, env).checked), env);
  }

  /** A successful update leaves a record the schema accepts. */
  lemma UpdateKeepsSchemaValid(store: map<nat, Appointment>, id: nat, p: Patch, env: Env)
    requires id in store && SchemaValid(store[id])
    requires UpdatePatch(store, id, p, env).Ok?
    ensures SchemaValid(UpdatePatch(store, id, p, env).value)
  {
  }

  /** The controller's clash check depends on the rules requiring a date and a time: an
      update carrying only a status skips it, and reviving a cancelled appointment
      whose slot is now held double-books it. */
  lemma StatusOnlyUpdateCanDoubleBook(env: Env)
    ensures var day: Date := Ymd(2025, 3, 10);
      var held := Appointment("p1", "d1", "s1", day, "09:00", 30, Scheduled, None, "checkup", "u1");
      var released := held.(patientId := "p2", status := Cancelled);
      var store := map[0 := held, 1 := released];
      var p := Patch(None, None, None, None, None, None, None, None, Some("scheduled"));
      var r := UpdatePatch(store, 1, p, env);
      NoDoubleBooking(store) && r.Ok? && !NoDoubleBooking(store[1 := r.value])
  {
    var day: Date := Ymd(2025, 3, 10);
    var held := Appointment("p1", "d1", "s1", day, "09:00", 30, Scheduled, None, "checkup", "u1");
    var released := held.(patientId := "p2", status := Cancelled);
    var store := map[0 := held, 1 := released];
    var p := Patch(None, None, None, None, None, None, None, None, Some("scheduled"));
    assert !TouchesSlot(p);
    assert PatchCasts(p, env) && PatchValid(p);
    var b := UpdatePatch(store, 1, p, env).value;
    assert b == released.(status := Scheduled);
    var store' := store[1 := b];
    assert 1 in store' && 0 in store' && OccupiesSlot(store'[1].status);
    assert Blocks(store'[0], store'[1].dentistId, store'[1].date, store'[1].time);
  }

  /** DELETE /appointments/:id: refused for a missing (404) or completed (400) record;
      otherwise the record is removed. */
  function DeleteAppointment(store: map<nat, Appointment>, id: nat): (r: Result<map<nat, Appointment>>)
    ensures r.Ok? <==> id in store && store[id].status != Completed
    ensures id !in store ==> r == Err(NotFound(AppointmentEntity))
    ensures id in store && store[id].status == Completed ==> r == Err(CompletedLocked)
    ensures r.Ok? ==> r.value.Keys == store.Keys - {id} && forall k :: k in r.value ==> r.value[k] == store[k]
  {
    if id !in store then Err(NotFound(AppointmentEntity))
    else if store[id].status == Completed then Err(CompletedLocked)
    else Ok(store - {id})
  }

  /** A completed appointment is final: no PUT body changes it and no DELETE removes
      it; only the rules' own 400 can come first. */
  lemma CompletedIsFinal(store: map<nat, Appointment>, id: nat, body: Body, env: Env)
    requires id in store && store[id].status == Completed
    ensures UpdateAppointment(store, id, body, env).Err?
    ensures Validate(body, env).Accepted? ==> UpdateAppointment(store, id, body, env) == Err(CompletedLocked)
    ensures DeleteAppointment(store, id) == Err(CompletedLocked)
  {
  }

  /** Only `completed` locks a record: any other record, cancelled ones included, is
      updated by a valid update whose ids cast and which asks for a free slot. */
  lemma OnlyCompletedIsLocked(store: map<nat, Appointment>, id: nat, p: Patch, env: Env)
    requires id in store && store[id].status != Completed
    requires PatchCasts(p, env) && PatchValid(p)
    requires !Clashes(store, id, p, env)
    ensures UpdatePatch(store, id, p, env) == Ok(ApplyPatch(store[id], CastPatch(p, env)))
  {
  }

  /** Removing a record keeps the store free of double bookings. */
  lemma DeleteKeepsNoDoubleBooking(store: map<nat, Appointment>, id: nat)
    requires NoDoubleBooking(store)
    requires DeleteAppointment(store, id).Ok?
    ensures NoDoubleBooking(DeleteAppointment(store, id).value)
  {
  }

  /** GET /appointments/available-slots. Checks, in order: both query values present
      and not empty (400), the dentist id an object id (500) and a known dentist
      (404). An unreadable date or a day without working hours offers nothing;
      otherwise the free half-hour slots of the day's window. */
  function GetAvailableTimeSlots(
    dentists: map<string, Dentist>, store: map<nat, Appointment>,
    dentistId: Option<string>, date: Option<string>, env: Env): (r: Result<seq<string>>)
    ensures r == Err(QueryIncomplete) <==> !Truthy(dentistId) || !Truthy(date)
    ensures r == Err(ServerError(InvalidIdCast)) <==>
      Truthy(dentistId) && Truthy(date) && !Casts(env, dentistId.value)
    ensures r == Err(NotFound(DentistEntity)) <==>
      Truthy(dentistId) && Truthy(date) && Casts(env, dentistId.value) && !Found(env, dentistId.value, dentists.Keys)
    ensures r.Ok? <==> Truthy(dentistId) && Truthy(date) && Found(env, dentistId.value, dentists.Keys)
    ensures r.Ok? ==> env.readDate(date.value).None? ==> r.value == []
    ensures r.Ok? && env.readDate(date.value).Some? ==>
      var did := env.castId(dentistId.value).value;
      var day := env.readDate(date.value).value;
      var hours := dentists[did].workingHours;
      var weekday := env.weekdayOf(day);
      r.value == DaySlots(if weekday in hours then Some(hours[weekday]) else None,
        BookedTimes(store, did, day))
  {
    if !Truthy(dentistId) || !Truthy(date) then Err(QueryIncomplete)
    else if !Casts(env, dentistId.value) then Err(ServerError(InvalidIdCast))
    else if !Found(env, dentistId.value, dentists.Keys) then Err(NotFound(DentistEntity))
    else
      var did := env.castId(dentistId.value).value;
      match env.readDate(date.value)
      case None => Ok([])
      case Some(day) =>
        var hours := dentists[did].workingHours;
        var weekday := env.weekdayOf(day);
        Ok(DaySlots(if weekday in hours then Some(hours[weekday]) else None,
          BookedTimes(store, did, day)))
  }

  /** No offered slot is the stored time of an appointment holding a slot of that
      dentist on that day, and every offered slot is a padded time inside the day's
      working hours. */
  lemma OfferedSlotsAreFree(
    dentists: map<string, Dentist>, store: map<nat, Appointment>,
    dentistId: Option<string>, date: Option<string>, env: Env, s: string)
    requires GetAvailableTimeSlots(dentists, store, dentistId, date, env).Ok?
    requires s in GetAvailableTimeSlots(dentists, store, dentistId, date, env).value
    ensures env.readDate(date.value).Some? && Found(env, dentistId.value, dentists.Keys)
    ensures forall id :: id in store ==>
      !Blocks(store[id], env.castId(dentistId.value).value, env.readDate(date.value).value, s)
    ensures |s| == 5 && IsTimeString(s)
    ensures var day := env.readDate(date.value).value;
      var hours := dentists[env.castId(dentistId.value).value].workingHours;
      var weekday := env.weekdayOf(day);
      weekday in hours && Window(Some(hours[weekday])).Some?
      && var w := Window(Some(hours[weekday])).value;
      OnGrid(w.0, w.1, ParseTime(s).value)
  {
    var did := env.castId(dentistId.value).value;
    var day := env.readDate(date.value).value;
    var hours := dentists[did].workingHours;
    var weekday := env.weekdayOf(day);
    var w := Window(Some(hours[weekday])).value;
    var booked := BookedTimes(store, did, day);
    FreeSlotsSound(w.0, w.1, booked);
    assert SlotOf(w.0, w.1, booked, s);
  }
}
