/** The appointments collection and the records the controller looks up, as one object
    whose methods carry out the requests and keep the collection's invariant. */
module AppointmentStore {
  import opened Wrappers
  import opened Strings
  import opened Calendar
  import opened AppointmentModel
  import opened Environment
  import opened Outcomes
  import opened RequestValidation
  import opened Slots
  import opened AppointmentController
  import Listing

  /** Every id is below the counter, every record is one the schema accepts, and no two
      records holding a slot hold the same one. */
  ghost predicate StoreInvariant(appointments: map<nat, Appointment>, nextId: nat) {
    && (forall id :: id in appointments ==> id < nextId)
    && (forall id :: id in appointments ==> SchemaValid(appointments[id]))
    && NoDoubleBooking(appointments)
  }

  /** A successful create keeps the invariant, the counter moving past the new id. */
  lemma CreateKeepsInvariant(
    patients: set<string>, dentists: map<string, Dentist>, services: map<string, Service>,
    appointments: map<nat, Appointment>, nextId: nat, body: Body, actorId: string, now: DateTime, env: Env)
    requires StoreInvariant(appointments, nextId)
    requires CreateAppointment(patients, dentists, services, appointments, nextId, body, actorId, now, env).Ok?
    ensures StoreInvariant(
      appointments[nextId := CreateAppointment(patients, dentists, services, appointments, nextId, body, actorId, now, env).value],
      nextId + 1)
  {
    var a := CreateAppointment(patients, dentists, services, appointments, nextId, body, actorId, now, env).value;
    assert SchemaValid(a) by {
      var c := Validate(body, env).checked;
      assert a == CreateChecked(patients, dentists, services, appointments, nextId, c, actorId, now, env).value;
    }
    CreateKeepsNoDoubleBooking(patients, dentists, services, appointments, nextId, body, actorId, now, env);
    var created := appointments[nextId := a];
    forall k | k in created ensures k < nextId + 1 && SchemaValid(created[k]) {
      if k != nextId {
        assert created[k] == appointments[k];
      }
    }
  }

  /** A successful update keeps the invariant. */
  lemma UpdateKeepsInvariant(appointments: map<nat, Appointment>, nextId: nat, id: nat, body: Body, env: Env)
    requires StoreInvariant(appointments, nextId)
    requires UpdateAppointment(appointments, id, body, env).Ok?
    ensures StoreInvariant(appointments[id := UpdateAppointment(appointments, id, body, env).value], nextId)
  {
    var p := PatchOf(Validate(body, env).checked);
    var b := UpdatePatch(appointments, id, p, env).value;
    assert UpdateAppointment(appointments, id, body, env).value == b;
    UpdateKeepsNoDoubleBooking(appointments, id, body, env);
    UpdateKeepsSchemaValid(appointments, id, p, env);
    var updated := appointments[id := b];
    forall k | k in updated ensures k < nextId && SchemaValid(updated[k]) {
      if k != id {
        assert updated[k] == appointments[k];
      }
    }
  }

  /** A successful delete keeps the invariant. */
  lemma DeleteKeepsInvariant(appointments: map<nat, Appointment>, nextId: nat, id: nat)
    requires StoreInvariant(appointments, nextId)
    requires DeleteAppointment(appointments, id).Ok?
    ensures StoreInvariant(DeleteAppointment(appointments, id).value, nextId)
  {
    DeleteKeepsNoDoubleBooking(appointments, id);
  }

  class Store {
    /** The ids of the known patients, dentists and services, in their canonical
        object-id form. */
    var patients: set<string>
    var dentists: map<string, Dentist>
    var services: map<string, Service>
    /** The stored appointments by id. */
    var appointments: map<nat, Appointment>
    /** The id the next created appointment gets. */
    var nextId: nat

    ghost predicate Valid()
      reads this
    {
      StoreInvariant(appointments, nextId)
    }

    constructor(patients: set<string>, dentists: map<string, Dentist>, services: map<string, Service>)
      ensures this.patients == patients && this.dentists == dentists && this.services == services
      ensures appointments == map[] && nextId == 0
      ensures Valid()
    {
      this.patients := patients;
      this.dentists := dentists;
      this.services := services;
      appointments := map[];
      nextId := 0;
    }

    /** POST /appointments: stores the created record under a fresh id. */
    method Create(body: Body, actorId: string, now: DateTime, env: Env) returns (r: Result<Appointment>, id: nat)
      requires Valid()
      modifies this`appointments, this`nextId
      ensures id == old(nextId) && id !in old(appointments)
      ensures r == CreateAppointment(patients, dentists, services, old(appointments), id, body, actorId, now, env)
      ensures r.Ok? ==> appointments == old(appointments)[id := r.value] && nextId == id + 1
      ensures r.Err? ==> appointments == old(appointments) && nextId == old(nextId)
      ensures Valid()
    {
      id := nextId;
      r := CreateAppointment(patients, dentists, services, appointments, id, body, actorId, now, env);
      if r.Ok? {
        CreateKeepsInvariant(patients, dentists, services, appointments, id, body, actorId, now, env);
        appointments := appointments[id := r.value];
        nextId := nextId + 1;
      }
    }

    /** GET /appointments/:id. */
    method GetById(id: nat) returns (r: Result<Appointment>)
      ensures r.Ok? <==> id in appointments
      ensures r.Ok? ==> r.value == appointments[id]
      ensures r.Err? ==> r.failure == NotFound(AppointmentEntity)
    {
      r := GetAppointmentById(appointments, id);
    }

    /** GET /appointments: one page of the matching records. */
    method ListAll(q: Listing.ListQuery, env: Env) returns (r: Result<Listing.Listed>)
      requires Valid()
      ensures r == Listing.List(appointments, nextId, q, env)
      ensures r.Ok? ==> forall x :: x in r.value.records ==>
        x.id in appointments && appointments[x.id] == x.appointment
      ensures r.Ok? ==> r.value.pagination.totalAppointments == |Listing.MatchingIds(appointments, Listing.FilterOf(q, env))|
    {
      r := Listing.List(appointments, nextId, q, env);
    }

    /** PUT /appointments/:id: replaces the record by its updated form. */
    method Update(id: nat, body: Body, env: Env) returns (r: Result<Appointment>)
      requires Valid()
      modifies this`appointments
      ensures r == UpdateAppointment(old(appointments), id, body, env)
      ensures r.Ok? ==> id in old(appointments) && appointments == old(appointments)[id := r.value]
      ensures r.Err? ==> appointments == old(appointments)
      ensures Valid()
    {
      r := UpdateAppointment(appointments, id, body, env);
      if r.Ok? {
        UpdateKeepsInvariant(appointments, nextId, id, body, env);
        appointments := appointments[id := r.value];
      }
    }

    /** DELETE /appointments/:id: removes the record unless it is missing or completed. */
    method Delete(id: nat) returns (r: Result<()>)
      requires Valid()
      modifies this`appointments
      ensures r.Ok? <==> id in old(appointments) && old(appointments)[id].status != Completed
      ensures r.Err? ==> r.failure == DeleteAppointment(old(appointments), id).failure
      ensures r.Ok? ==> appointments == old(appointments) - {id}
      ensures r.Err? ==> appointments == old(appointments)
      ensures Valid()
    {
      match DeleteAppointment(appointments, id)
      case Err(f) =>
        r := Err(f);
      case Ok(rest) =>
        DeleteKeepsInvariant(appointments, nextId, id);
        appointments := rest;
        r := Ok(());
    }

    /** GET /appointments/available-slots: walks the dentist's window for the day in
        half-hour steps, skipping the booked times. */
    method AvailableTimeSlots(dentistId: Option<string>, date: Option<string>, env: Env)
      returns (r: Result<seq<string>>)
      ensures r == GetAvailableTimeSlots(dentists, appointments, dentistId, date, env)
    {
      if !Truthy(dentistId) || !Truthy(date) {
        return Err(QueryIncomplete);
      }
      var did := env.castId(dentistId.value);
      if did.None? {
        return Err(ServerError(InvalidIdCast));
      }
      if did.value !in dentists {
        return Err(NotFound(DentistEntity));
      }
      var day := env.readDate(date.value);
      if day.None? {
        return Ok([]);
      }
      var hours := dentists[did.value].workingHours;
      var weekday := env.weekdayOf(day.value);
      var entry := if weekday in hours then Some(hours[weekday]) else None;
      var window := Window(entry);
      if window.None? {
        return Ok([]);
      }
      var booked := BookedTimes(appointments, did.value, day.value);
      var slots := GenerateSlots(window.value.0, window.value.1, booked);
      r := Ok(slots);
    }
  }
}
