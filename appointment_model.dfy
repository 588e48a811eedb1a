/** The appointment record and its schema: field constraints, the status values,
    the `formattedDateTime` virtual and the pre-save hook that refuses a booked slot. */
module AppointmentModel {
  import opened Wrappers
  import opened Strings
  import opened TimeOfDay
  import opened Calendar

  datatype Status = Scheduled | Completed | Cancelled | NoShow | Rescheduled

  /** The status a new appointment gets when none is given. */
  const DefaultStatus: Status := Scheduled

  function StatusName(s: Status): string {
    match s
    case Scheduled => "scheduled"
    case Completed => "completed"
    case Cancelled => "cancelled"
    case NoShow => "no-show"
    case Rescheduled => "rescheduled"
  }

  /** The enum validator: the status a name stands for, absent for any other text. */
  function ParseStatus(name: string): (r: Option<Status>)
    ensures r.Some? ==> StatusName(r.value) == name
    ensures forall s: Status :: StatusName(s) == name ==> r == Some(s)
  {
    if name == "scheduled" then Some(Scheduled)
    else if name == "completed" then Some(Completed)
    else if name == "cancelled" then Some(Cancelled)
    else if name == "no-show" then Some(NoShow)
    else if name == "rescheduled" then Some(Rescheduled)
    else None
  }

  /** The statuses that hold a slot; the other three release it. */
  predicate OccupiesSlot(s: Status) {
    s == Scheduled || s == Rescheduled
  }

  /** The paths of an appointment document, also used to name request fields in
      validation errors. */
  datatype Field =
    | PatientIdField | DentistIdField | ServiceIdField | DateField | TimeField
    | DurationField | StatusField | NotesField | ReasonField | CreatedByField

  datatype Appointment = Appointment(
    patientId: string,
    dentistId: string,
    serviceId: string,
    date: Date,
    time: string,
    duration: int,
    status: Status,
    notes: Option<string>,
    reason: string,
    createdBy: string)

  const MinDuration: int := 15
  const MaxDuration: int := 240
  const MaxReasonLength: nat := 500
  const MaxNotesLength: nat := 1000

  predicate ValidTime(t: string) {
    IsTimeString(t)
  }

  predicate ValidDuration(d: int) {
    MinDuration <= d <= MaxDuration
  }

  /** Optional, at most 1000 UTF-16 code units. */
  predicate ValidNotes(n: Option<string>) {
    n.None? || Utf16Length(n.value) <= MaxNotesLength
  }

  /** Required (an empty string does not satisfy Mongoose's `required`), at most 500
      UTF-16 code units. */
  predicate ValidReason(r: string) {
    r != "" && Utf16Length(r) <= MaxReasonLength
  }

  /** The schema validators that can fail on a document the model builds. */
  predicate SchemaValid(a: Appointment) {
    ValidTime(a.time) && ValidDuration(a.duration) && ValidNotes(a.notes) && ValidReason(a.reason)
  }

  /** The `formattedDateTime` virtual: the ISO date, a space, the stored time. The text
      before its first space reads back as the appointment's date and the text after
      it is the stored time. */
  function FormattedDateTime(a: Appointment): (r: string)
    ensures var k := |IsoDatePart(a.date)|;
      k < |r| && r[k] == ' ' && (forall i :: 0 <= i < k ==> r[i] != ' ')
      && ReadIsoDatePart(r[..k]) == Some(a.date) && r[k + 1..] == a.time
  {
    var d := IsoDatePart(a.date);
    var r := d + " " + a.time;
    assert r[..|d|] == d && r[|d| + 1..] == a.time;
    r
  }

  /** `a` holds the slot of `dentistId` on `date`, at whatever time. */
  predicate OccupiesDay(a: Appointment, dentistId: string, date: Date) {
    a.dentistId == dentistId && a.date == date && OccupiesSlot(a.status)
  }

  /** `a` holds exactly this slot: the conflict query's dentist, date, time and status
      conditions. */
  predicate Blocks(a: Appointment, dentistId: string, date: Date, time: string) {
    OccupiesDay(a, dentistId, date) && a.time == time
  }

  /** Some record other than `self` holds the slot. */
  predicate HasConflict(store: map<nat, Appointment>, self: nat, dentistId: string, date: Date, time: string) {
    exists id :: id in store && id != self && Blocks(store[id], dentistId, date, time)
  }

  /** No two different records that hold a slot hold the same one. */
  predicate NoDoubleBooking(store: map<nat, Appointment>) {
    forall i, j :: i in store && j in store && i != j && OccupiesSlot(store[i].status) ==>
      !Blocks(store[j], store[i].dentistId, store[i].date, store[i].time)
  }

  /** The stored times of the records holding a slot of `dentistId` on `date`. */
  function BookedTimes(store: map<nat, Appointment>, dentistId: string, date: Date): (r: set<string>)
    ensures forall t :: t in r <==> exists id :: id in store && Blocks(store[id], dentistId, date, t)
  {
    set id | id in store && OccupiesDay(store[id], dentistId, date) :: store[id].time
  }

  /** The paths whose modification makes the hook look for a clash. */
  const SlotFields: set<Field> := {DateField, TimeField, DentistIdField}

  /** The pre-save hook: a new document, or one whose date, time or dentist changed,
      may be saved only if no other record holds its slot. */
  predicate PreSaveAllows(store: map<nat, Appointment>, id: nat, doc: Appointment, isNew: bool, modified: set<Field>) {
    !(isNew || modified * SlotFields != {}) || !HasConflict(store, id, doc.dentistId, doc.date, doc.time)
  }

  /** Saving an existing document whose date, time and dentist are untouched skips the
      check, whatever the store holds. */
  lemma PreSaveSkipsUntouchedSlot(store: map<nat, Appointment>, id: nat, doc: Appointment, modified: set<Field>)
    requires modified * SlotFields == {}
    ensures PreSaveAllows(store, id, doc, false, modified)
  {
  }

  /** When the hook checks, a record with another id in the same held slot refuses the
      save. */
  lemma PreSaveRejectsClash(store: map<nat, Appointment>, id: nat, doc: Appointment, isNew: bool, modified: set<Field>, other: nat)
    requires isNew || modified * SlotFields != {}
    requires other in store && other != id && Blocks(store[other], doc.dentistId, doc.date, doc.time)
    ensures !PreSaveAllows(store, id, doc, isNew, modified)
  {
  }

  /** A save the hook checked and allowed keeps the store free of double bookings. */
  lemma PreSaveKeepsNoDoubleBooking(store: map<nat, Appointment>, id: nat, doc: Appointment, isNew: bool, modified: set<Field>)
    requires NoDoubleBooking(store)
    requires isNew || modified * SlotFields != {}
    requires PreSaveAllows(store, id, doc, isNew, modified)
    ensures NoDoubleBooking(store[id := doc])
  {
    var s := store[id := doc];
    forall i, j | i in s && j in s && i != j && OccupiesSlot(s[i].status)
      ensures !Blocks(s[j], s[i].dentistId, s[i].date, s[i].time)
    {
      if i == id {
        assert !Blocks(store[j], doc.dentistId, doc.date, doc.time);
      } else if j == id {
        if Blocks(doc, s[i].dentistId, s[i].date, s[i].time) {
          assert Blocks(store[i], doc.dentistId, doc.date, doc.time);
        }
      }
    }
  }

  /** The clash rule compares the stored time text, not the minute it denotes: with one
      scheduled booking at `09:00`, the hook lets a second booking of the same dentist,
      day and minute spelt `9:00` be saved, and the store it leaves still counts as free
      of double bookings. */
  lemma UnpaddedTwinBooking()
    ensures var day: Date := Ymd(2025, 3, 10);
      var padded := Appointment("p1", "d1", "s1", day, "09:00", 30, Scheduled, None, "checkup", "u1");
      var unpadded := padded.(patientId := "p2", time := "9:00");
      var store := map[0 := padded];
      && ValidTime(unpadded.time) && ParseTime(unpadded.time) == ParseTime(padded.time)
      && PreSaveAllows(store, 1, unpadded, true, {})
      && NoDoubleBooking(store[1 := unpadded])
  {
    var day: Date := Ymd(2025, 3, 10);
    var padded := Appointment("p1", "d1", "s1", day, "09:00", 30, Scheduled, None, "checkup", "u1");
    var unpadded := padded.(patientId := "p2", time := "9:00");
    assert IsTimeString("9:00");
    UnpaddedSameMinute("9:00");
    assert "0" + "9:00" == "09:00";
    assert !Blocks(padded, unpadded.dentistId, unpadded.date, unpadded.time);
  }

  /** The hook does not watch `status`: re-activating a cancelled appointment whose slot
      another scheduled appointment now holds passes the hook and double-books it. */
  lemma StatusOnlySaveCanDoubleBook()
    ensures var day: Date := Ymd(2025, 3, 10);
      var held := Appointment("p1", "d1", "s1", day, "09:00", 30, Scheduled, None, "checkup", "u1");
      var released := held.(patientId := "p2", status := Cancelled);
      var store := map[0 := held, 1 := released];
      var revived := released.(status := Scheduled);
      NoDoubleBooking(store)
      && PreSaveAllows(store, 1, revived, false, {StatusField})
      && !NoDoubleBooking(store[1 := revived])
  {
    var day: Date := Ymd(2025, 3, 10);
    var held := Appointment("p1", "d1", "s1", day, "09:00", 30, Scheduled, None, "checkup", "u1");
    var released := held.(patientId := "p2", status := Cancelled);
    var store := map[0 := held, 1 := released];
    var revived := released.(status := Scheduled);
    assert {StatusField} * SlotFields == {};
    var store' := store[1 := revived];
    assert 1 in store' && 0 in store' && OccupiesSlot(store'[1].status);
    assert Blocks(store'[0], store'[1].dentistId, store'[1].date, store'[1].time);
  }
}
