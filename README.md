# Dental appointment scheduling, modelled in Dafny

A model of the appointment core of a dental clinic's REST back end. The model is a
store of appointments keyed by id, owned by the class `AppointmentStore.Store`. It
covers the requests made on that store:

- **Create** (`POST /appointments`): validate the body, look up the patient, dentist
  and service, refuse a moment in the past, then save through the schema validators
  and the pre-save clash hook.
- **List** (`GET /appointments`): filter, sort by day and time, cut one page, and
  compute the pagination block.
- **Read one** (`GET /appointments/:id`).
- **Update** (`PUT /appointments/:id`): a completed appointment is locked.
  Rescheduling is checked for a clash with another appointment that holds the slot.
- **Delete** (`DELETE /appointments/:id`).
- **Free slots** (`GET /appointments/available-slots`): half-hour slots across a
  dentist's working hours for one day, minus the booked ones.

The model also covers the request body rules shared by POST and PUT, the schema's
field constraints, the `formattedDateTime` virtual, and the role gate.

The central invariant is `AppointmentModel.NoDoubleBooking`: no two records that
hold a slot (status `scheduled` or `rescheduled`) hold the same dentist, day and
time text. The text, not the minute: the time pattern admits both `9:00` and
`09:00`, and the pre-save hook and the controller's clash query compare the texts
exactly, so one dentist can hold two bookings of the same minute on the same day
(`AppointmentModel.UnpaddedTwinBooking`). The store's `Valid()` includes this invariant along with schema validity of
every record, and every state-changing method keeps `Valid()`.

That invariant rests on the route's rules. A PUT body must carry a date and a time,
so the controller's clash check always runs. `AppointmentController.StatusOnlyUpdateCanDoubleBook`
and `AppointmentModel.StatusOnlySaveCanDoubleBook` show what happens without that: an
update or a save that only revives a cancelled appointment double-books its slot.

Things the model takes as inputs rather than computing:

- **`Environment.Env`**: whether a text passes `isMongoId`, which object id a text
  casts to (if any), which day an ISO-8601 date text denotes, and which weekday a
  day is. The known patients, dentists and services are keyed by their cast ids,
  and created or updated records store cast ids, so two spellings of one id (say,
  upper- and lower-case hex) find the same record.
- **The clock**: the current moment `now` is a parameter, at minute precision. It
  stands for the clock rounded up to the next whole minute (unchanged when the clock
  is on a whole minute). The code compares a moment at `HH:mm:00.000` with the
  millisecond clock, and such a moment is before the clock exactly when it is
  before the clock rounded up.
- **The acting user**: the user id is a parameter. The role gate takes the
  authenticated user as an option.

Modules, one per file, in dependency order:

| file | module | models |
|---|---|---|
| `wrappers.dfy` | `Wrappers` | `Option` |
| `digits.dfy` | `Digits` | fixed-width decimal text |
| `strings.dfy` | `Strings` | `trim`, UTF-16 length, MongoDB's string order |
| `time_of_day.dfy` | `TimeOfDay` | the `HH:MM` pattern, `HH:mm` rendering and its order |
| `calendar.dfy` | `Calendar` | days, moments, the date part of `toISOString` |
| `appointment_model.dfy` | `AppointmentModel` | the schema, the conflict rule, the pre-save hook |
| `outcomes.dfy` | `Outcomes` | failures and their status codes |
| `environment.dfy` | `Environment` | the oracles above |
| `role_auth.dfy` | `RoleAuth` | `authorizeRoles` |
| `request_validation.dfy` | `RequestValidation` | `appointmentValidation` |
| `slots.dfy` | `Slots` | the free-slot loop |
| `listing.dfy` | `Listing` | `getAllAppointments` |
| `appointment_controller.dfy` | `AppointmentController` | the other controller decisions |
| `appointment_store.dfy` | `AppointmentStore` | the store class |

Where the documentation and the code differ, the model follows the code:

- **Past check.** The code refuses a moment only when it is *strictly before* the
  clock (`PastRefused`), although the documentation says appointments must be in the
  future. With the clock at 10:00:25, a booking for 10:00 is refused and one for
  10:01 is accepted, although less than a minute remains. A booking for 10:00 is
  accepted only when the clock reads exactly 10:00:00.000.
- **Clash at creation.** A clash found when creating an appointment comes from the
  pre-save hook's exception, so it is answered with 500, not 400. A clash found
  when updating comes from the controller's own check and is answered with 400.
- **Length limits.** The request rules use validator.js `isLength`, which (from
  validator.js 13.7 on) counts characters other than the presentation selectors
  U+FE0E and U+FE0F (`Strings.ValidatorLength`). The schema counts UTF-16 code
  units. A reason of 300 astral characters therefore passes the rules and then
  fails at save with 500 (`AstralReasonFailsOnSave`). A reason made of U+FE0F
  alone survives the trim but has length 0 and is refused with 400
  (`SelectorOnlyReasonRejected`).

## Model

| member | source | states |
|---|---|---|
| AppointmentStore.Store.constructor | controllers/appointmentController.js:1-6 | the store starts empty with id counter 0 and satisfies `Valid()` |
| AppointmentStore.Store.Valid | models/Appointment.js:70-93 | the store object keeps `StoreInvariant` of its records and counter |
| AppointmentStore.Store.Create | controllers/appointmentController.js:9-91 | the answer is the create decision on the old store; on success exactly one record is added under the fresh id and the counter advances; on any failure nothing changes; `Valid()` (no double booking, schema-valid records) is kept |
| AppointmentStore.Store.GetById | controllers/appointmentController.js:142-161 | found exactly when the id is stored, with the stored record; otherwise 404 appointment |
| AppointmentStore.Store.ListAll | controllers/appointmentController.js:93-139 | the answer is the listing of the current records: every listed record is a stored one under its id, and the total is the number of stored records the filter matches |
| AppointmentStore.Store.Update | controllers/appointmentController.js:165-229 | the answer is the update decision; on success only that id's record is replaced; on any failure (including a clash) nothing changes; `Valid()` is kept |
| AppointmentStore.Store.Delete | controllers/appointmentController.js:232-256 | succeeds exactly when the record exists and is not completed; then exactly that record is removed and all others are untouched; otherwise nothing changes, with 404 or 400 as the delete decision says; `Valid()` is kept |
| AppointmentStore.Store.AvailableTimeSlots | controllers/appointmentController.js:259-321 | the imperative walk (guards, then the slot loop) returns exactly the free-slot decision |
| AppointmentStore.StoreInvariant | models/Appointment.js:3-93 | every id is below the counter, every record passes the schema, and no slot is double-booked |
| AppointmentStore.CreateKeepsInvariant | models/Appointment.js:71-93 | a successful create leaves every id below the advanced counter, every record schema-valid and nothing double-booked |
| AppointmentStore.UpdateKeepsInvariant | controllers/appointmentController.js:188-213 | a successful update keeps every id below the counter, every record schema-valid and nothing double-booked |
| AppointmentStore.DeleteKeepsInvariant | controllers/appointmentController.js:246 | a successful delete keeps every id below the counter, every record schema-valid and nothing double-booked |
| AppointmentController.ScheduledAt | controllers/appointmentController.js:48-51 | the moment asked for is the body's day at the minute its time reads as |
| AppointmentController.IdsCast | controllers/appointmentController.js:30-46 | the patient, dentist and service ids of the body all cast to object ids |
| AppointmentController.LookupsPass | controllers/appointmentController.js:29-46 | the cast patient id is a known patient, the cast dentist id a known dentist and the cast service id a known service |
| AppointmentController.Created | controllers/appointmentController.js:58-68 | the document built for a body whose lookups pass takes the found service's duration whatever the body says, status `scheduled`, the caller as creator, the cast ids and the checked date, time, reason and notes |
| AppointmentController.NewAppointment | controllers/appointmentController.js:58-68 | the new document takes the cast patient, dentist and service ids, the checked date, time, trimmed reason and notes, the service's duration whatever the body says, status `scheduled`, and the acting user as creator |
| AppointmentController.CreateChecked | controllers/appointmentController.js:19-91 | in order, each of patient, dentist and service gives 500 when its id does not cast and 404 when no record has the cast id, each only once the earlier lookups passed; with all lookups passing, a moment before now gives 400 "past"; otherwise the built document gives 500 when the schema refuses it, 500 when another record holds its slot, and is created as is when neither happens; a 500 is only a failed cast, a schema violation or the hook's clash |
| AppointmentController.CreateAppointment | controllers/appointmentController.js:9-17 | a rejected body gives 400 with the rule errors before any lookup; an accepted body gives the create step on its checked fields |
| AppointmentController.CreateKeepsNoDoubleBooking | models/Appointment.js:71-93 | a successful create keeps the store free of double bookings, and the record is `scheduled` |
| AppointmentController.PastRefused | controllers/appointmentController.js:47-56 | once the body and lookups pass, the answer is 400 "past" exactly when the moment is strictly before `now`; the minute `now` itself (the clock rounded up to a whole minute) is accepted |
| AppointmentController.AstralReasonFailsOnSave | routes/appointments.js:18-21 | a reason of 300 astral characters passes the rules but the save fails with a schema violation (500) |
| AppointmentController.GetAppointmentById | controllers/appointmentController.js:142-161 | found exactly when the id is stored, with that record; otherwise 404 appointment |
| AppointmentController.PatchOf | controllers/appointmentController.js:208-212 | an accepted PUT body sets the patient, dentist and service ids, the date, the time, the trimmed reason and the notes as given, plus duration and status when given |
| AppointmentController.PatchedStatus | models/Appointment.js:35-39 | the status after an update is the one the update names, or else the current one |
| AppointmentController.TouchesSlot | controllers/appointmentController.js:188 | the update carries a date or a truthy time, so the controller looks for a clash |
| AppointmentController.PatchCasts | controllers/appointmentController.js:208-212 | every id the update sets casts to an object id, as `findByIdAndUpdate` needs |
| AppointmentController.CastPatch | controllers/appointmentController.js:208-212 | the update with each id it sets replaced by its cast id, every other field as given |
| AppointmentController.PatchValid | controllers/appointmentController.js:208-211 | the update validators: ids set are not empty, a time matches the pattern, a reason is non-empty and within 500 UTF-16 units, notes within 1000, a duration within 15 to 240, a status one of the five names |
| AppointmentController.BadDentistCast | controllers/appointmentController.js:188-198 | the update touches the slot and carries a truthy dentist id that does not cast, so the clash query throws |
| AppointmentController.ApplyPatch | controllers/appointmentController.js:208-212 | every field the update carries is replaced and every other field is kept; the creator never changes |
| AppointmentController.RequestedSlot | controllers/appointmentController.js:189-191 | the slot checked takes each of dentist, date and time from the body when given (truthy), else from the stored record; a given dentist is compared by its cast id |
| AppointmentController.Clashes | controllers/appointmentController.js:188-204 | the update touches the slot and a record with another id, holding a slot, has the requested dentist, date and time |
| AppointmentController.UpdatePatch | controllers/appointmentController.js:175-213 | a missing id gives 404; a completed record gives 400; the answer is "slot taken" exactly when the record exists, is not completed, the dentist id casts, and the update touches date or time and clashes; it is a cast 500 exactly when a touched slot's dentist id does not cast or, with no clash, some id of the update does not cast; an existing non-completed record with an update whose ids cast, which the validators accept and which does not clash, is updated to the patched record with the cast ids, and only then is the answer success; such an update that the validators refuse gives a validator 500; a 500 is an id cast or a validator failure |
| AppointmentController.UpdateAppointment | controllers/appointmentController.js:165-173 | a rejected body gives 400 with the rule errors before any lookup; an accepted body gives the update step on its fields |
| AppointmentController.UpdatePatchKeepsNoDoubleBooking | controllers/appointmentController.js:188-206 | an update that touches date or time and succeeds keeps the store free of double bookings |
| AppointmentController.UpdateKeepsNoDoubleBooking | routes/appointments.js:42-47 | every successful PUT keeps the store free of double bookings, because the shared rules force a date and a time |
| AppointmentController.UpdateKeepsSchemaValid | models/Appointment.js:24-48 | a successful update of a schema-valid record leaves a schema-valid record |
| AppointmentController.StatusOnlyUpdateCanDoubleBook | controllers/appointmentController.js:188 | an update that carries only a status skips the clash check; reviving a cancelled appointment whose slot is held then double-books |
| AppointmentController.DeleteAppointment | controllers/appointmentController.js:232-256 | succeeds exactly when the record exists and is not completed; 404 or 400 otherwise; the remaining store is the old one without that id, all other records unchanged |
| AppointmentController.CompletedIsFinal | controllers/appointmentController.js:181-185 | a completed appointment: every PUT fails (400 locked for any accepted body), and DELETE answers 400 locked |
| AppointmentController.OnlyCompletedIsLocked | controllers/appointmentController.js:180-185 | only `completed` locks a record: any other record, cancelled ones included, with a valid, clash-free update whose ids cast, is updated to the patched record |
| AppointmentController.DeleteKeepsNoDoubleBooking | controllers/appointmentController.js:246 | removing a record keeps the store free of double bookings |
| AppointmentController.GetAvailableTimeSlots | controllers/appointmentController.js:259-321 | 400 exactly when either query value is missing or empty; 500 exactly when the dentist id does not cast; 404 exactly when no dentist has the cast id; success exactly when both query values are given and the dentist exists; an unreadable date offers nothing; otherwise the day's free slots for that weekday's entry and the booked times of the dentist with the cast id |
| AppointmentController.OfferedSlotsAreFree | controllers/appointmentController.js:284-308 | every offered slot is a padded `HH:mm` time on the half-hour grid of that weekday's window, and no record holding a slot of the dentist with the cast id on that day has that time |
| AppointmentModel.ParseStatus | models/Appointment.js:35-39 | a name is accepted exactly when it names one of the five statuses, and then gives that status |
| AppointmentModel.ValidTime | models/Appointment.js:24-28 | a time must match `^([01]?[0-9]\|2[0-3]):[0-5][0-9]$` |
| AppointmentModel.ValidDuration | models/Appointment.js:29-34 | a duration lies between 15 and 240 |
| AppointmentModel.ValidNotes | models/Appointment.js:40-43 | notes are absent or at most 1000 UTF-16 units |
| AppointmentModel.ValidReason | models/Appointment.js:44-48 | a reason is non-empty and at most 500 UTF-16 units |
| AppointmentModel.SchemaValid | models/Appointment.js:3-58 | the schema validators the model's documents can fail: time pattern, duration bounds, notes and reason lengths |
| AppointmentModel.FormattedDateTime | models/Appointment.js:65-68 | the text before the first space reads back as the appointment's day, and the text after it is the stored time |
| AppointmentModel.BookedTimes | controllers/appointmentController.js:284-288 | a time is booked exactly when a record of that dentist and day, scheduled or rescheduled, is stored at it |
| AppointmentModel.HasConflict | models/Appointment.js:78-86 | some record with another id, holding a slot (scheduled or rescheduled), has this dentist, day and time |
| AppointmentModel.NoDoubleBooking | models/Appointment.js:70-93 | no two different records that hold a slot share dentist, day and time text |
| AppointmentModel.PreSaveAllows | models/Appointment.js:71-93 | a save passes the hook when the document is neither new nor has a modified date, time or dentist, or when no other record holds its slot |
| AppointmentModel.PreSaveSkipsUntouchedSlot | models/Appointment.js:72-77 | saving an existing document with date, time and dentist untouched passes the hook whatever the store holds |
| AppointmentModel.PreSaveRejectsClash | models/Appointment.js:71-90 | a new or rescheduled document is refused when another id holds its dentist, day and time with an active status |
| AppointmentModel.PreSaveKeepsNoDoubleBooking | models/Appointment.js:71-93 | a save the hook checked and allowed keeps the store free of double bookings |
| AppointmentModel.UnpaddedTwinBooking | models/Appointment.js:78-90 | with `09:00` held, the hook lets a booking of the same dentist, day and minute spelt `9:00` be saved, and the store still has no double booking by text |
| AppointmentModel.StatusOnlySaveCanDoubleBook | models/Appointment.js:72-77 | the hook ignores `status`, so a save reviving a cancelled appointment whose slot is held passes and double-books |
| Outcomes.HttpStatus | controllers/appointmentController.js:83-89 | 404 exactly for "not found", 500 exactly for the catch-all server errors, 400 for every other refusal |
| Environment.Casts | controllers/appointmentController.js:30 | the text casts to an object id |
| Environment.Found | controllers/appointmentController.js:30-46 | the text casts to the id of one of the given records |
| RoleAuth.Includes | middleware/roleAuth.js:4 | true exactly when the role is in the list |
| RoleAuth.AuthorizeRoles | middleware/roleAuth.js:2-11 | the request proceeds exactly when a user is present and their role is in the allowed list; otherwise it is denied (403) |
| RoleAuth.NoUserDenied | middleware/roleAuth.js:4-7 | without a user every gate denies |
| RoleAuth.EmptyRolesDenyAll | middleware/roleAuth.js:2-4 | a gate listing no role denies every caller |
| RoleAuth.MoreRolesAdmitMore | middleware/roleAuth.js:2-9 | adding roles to a gate never shuts out a caller it admitted |
| RequestValidation.Failing | routes/appointments.js:8-26 | a field is reported exactly when it is checked and fails its rule, and the reported fields are the rule list with the passing fields left out, in rule order |
| RequestValidation.RuleHolds | routes/appointments.js:8-26 | the rule for each field: the ids pass `isMongoId`, the date is ISO-8601, the time matches the pattern, the trimmed reason has `isLength` 1 to 500, the notes are absent or have `isLength` at most 1000 (characters, presentation selectors not counted) |
| RequestValidation.ReportedOnceInRuleOrder | routes/appointments.js:8-26 | a rejected body's errors are the rule list with passing fields left out, so each failing field appears once, in rule order |
| RequestValidation.Validate | routes/appointments.js:8-26 | rejected exactly when some rule fails, with exactly the failing fields, in rule order; an accepted body yields its ids, its date read as a day, its time, its trimmed in-bounds reason and its notes |
| RequestValidation.WhitespaceReasonRejected | routes/appointments.js:18-21 | a whitespace-only reason is rejected with a reason error |
| RequestValidation.AbsentNotesAllowed | routes/appointments.js:22-25 | absent notes never cause a notes error |
| RequestValidation.MissingFieldRejected | routes/appointments.js:9-21 | a body missing any required field is rejected naming it |
| RequestValidation.AcceptedMeetsPattern | routes/appointments.js:15-21 | an accepted time matches the schema pattern, and an accepted reason has no whitespace at either end |
| RequestValidation.SelectorOnlyReasonRejected | routes/appointments.js:18-21 | a reason of U+FE0F alone is kept by the trim and would suit the schema, but its `isLength` is 0, so the body is rejected with a reason error |
| RequestValidation.RulesAndSchemaCountDifferently | routes/appointments.js:18-21 | 300 astral characters pass the 500-character rule but exceed the schema's 500 UTF-16 units |
| Slots.Window | controllers/appointmentController.js:277-296 | a window exists exactly when the entry exists, both texts are truthy and both read as times; its ends are those times |
| Slots.FreeSlots | controllers/appointmentController.js:298-311 | a window that has already ended offers nothing |
| Slots.FreeSlotsSound | controllers/appointmentController.js:298-311 | every offered slot renders a minute start + 30·k strictly before the end and is not booked |
| Slots.FreeSlotsComplete | controllers/appointmentController.js:298-311 | every grid minute of the window whose rendering is not booked is offered |
| Slots.FreeSlotsAscending | controllers/appointmentController.js:298-311 | the offered slots strictly ascend in time, so there are no duplicates |
| Slots.FreeSlotsAscendAsText | controllers/appointmentController.js:299 | the offered slots also ascend as strings |
| Slots.DaySlots | controllers/appointmentController.js:279-281 | no window (missing entry, missing or empty start or end) offers nothing |
| Slots.GenerateSlots | controllers/appointmentController.js:291-311 | the while loop over minutes returns exactly the free slots of the window |
| Slots.FreeMorning | controllers/appointmentController.js:298-311 | a free 09:00 to 11:00 morning offers 09:00, 09:30, 10:00 and 10:30 |
| Slots.BookedSlotRemoved | controllers/appointmentController.js:302-308 | a 09:30 booking removes that slot and no other |
| Slots.UnpaddedBookingDoesNotBlock | controllers/appointmentController.js:302-304 | a booking stored as "9:30" does not block the "09:30" slot |
| Slots.EmptyWindow | controllers/appointmentController.js:298 | an end at or before the start offers nothing |
| Listing.IntOr | controllers/appointmentController.js:95-96 | a non-zero number is kept; a missing (NaN) or zero value gives the default |
| Listing.Page | controllers/appointmentController.js:95 | the page is `parseInt(page) \|\| 1` |
| Listing.Limit | controllers/appointmentController.js:96 | the limit is `parseInt(limit) \|\| 10` |
| Listing.Skip | controllers/appointmentController.js:97 | the records skipped are (page − 1) · limit |
| Listing.CastFails | controllers/appointmentController.js:101-109 | the query cannot run when a truthy dentist or patient filter does not cast or a truthy date filter is not a date |
| Listing.FilterDay | controllers/appointmentController.js:104-109 | the day the date filter selects, when the date filter is truthy |
| Listing.FilterOf | controllers/appointmentController.js:100-110 | the filter object: each truthy status, dentist and patient value (ids cast), and the day of a truthy date; falsy values do not filter |
| Listing.Matches | controllers/appointmentController.js:100-112 | a record matches when its status name, dentist id, patient id and day equal each entry the filter has |
| Listing.Collect | controllers/appointmentController.js:113 | the list holds exactly the stored records, in increasing id order |
| Listing.Select | controllers/appointmentController.js:99-113 | the records kept are exactly those that pass every active filter |
| Listing.Insert | controllers/appointmentController.js:116 | inserting keeps the list sorted and adds exactly the one record |
| Listing.KeyLess | controllers/appointmentController.js:116 | the sort key: earlier day first, then the smaller time text |
| Listing.Sort | controllers/appointmentController.js:116 | the output is a permutation of the input, sorted by day then time text |
| Listing.PageOf | controllers/appointmentController.js:117-118 | the page holds min(count, remaining) records, starting at the skipped offset |
| Listing.CeilDiv | controllers/appointmentController.js:126 | `Math.ceil(a / b)` bounds: (q−1)·b < a ≤ q·b for b > 0, mirrored for b < 0 |
| Listing.Paginate | controllers/appointmentController.js:123-130 | current page and total as given; total pages is the ceiling; there is a next page exactly when page·limit < total (> total for a negative limit); there is a previous page exactly when page > 1 |
| Listing.NextPageMeaning | controllers/appointmentController.js:128 | page < ceil(total/limit) exactly when page·limit < total (> total for a negative limit) |
| Listing.IncreasingIdsCount | controllers/appointmentController.js:120 | a list with increasing ids has as many records as ids |
| Listing.TotalCountsMatchingIds | controllers/appointmentController.js:120 | the count of filtered records equals the number of matching stored ids |
| Listing.PageSorted | controllers/appointmentController.js:116-118 | a page cut from a sorted list is sorted |
| Listing.PageWithin | controllers/appointmentController.js:117-118 | every record of a page comes from the list it is cut from |
| Listing.ListsMatching | controllers/appointmentController.js:112-120 | a list holds each stored record matching the filter exactly once, sorted by day and time |
| Listing.MatchingListsMatching | controllers/appointmentController.js:112-120 | the sorted filtered records are such a list |
| Listing.PageAt | controllers/appointmentController.js:116-118 | record i of the page is record skip + i of a list holding each matching stored record once, sorted by day and time |
| Listing.PageOfListing | controllers/appointmentController.js:117-118 | a page cut from such a list is cut at its offset and holds only stored, matching records |
| Listing.PageFacts | controllers/appointmentController.js:113-118 | every record on the page is stored and matches the filter; the page is sorted; its size is min(count, total − skip) |
| Listing.List | controllers/appointmentController.js:93-139 | a 500 exactly when a filter does not cast or the skip is negative; otherwise record i of the page is record `Skip(q)` + i of a list holding each matching stored record exactly once, sorted by day and time (the filter being the query's, with ids cast); so every record is a stored, matching record, the page is sorted, it holds min(abs(limit), total − skip) records, and the pagination block is that of the page, the limit and the matching count |
| Strings.TrimStart | routes/appointments.js:19 | the result is a suffix of the input, the dropped prefix is whitespace, and it does not start with whitespace |
| Strings.Truthy | controllers/appointmentController.js:188-191 | a JavaScript truthy text: present and not empty |
| Strings.TrimEnd | routes/appointments.js:19 | the result is a prefix of the input, the dropped suffix is whitespace, and it does not end with whitespace |
| Strings.Trim | routes/appointments.js:19 | a slice of the input with only whitespace before and after it, and no whitespace at either of its own ends |
| Strings.TrimEmptyIffAllSpace | routes/appointments.js:18-20 | trimming leaves nothing exactly when the input is whitespace only |
| Strings.TrimIdempotent | routes/appointments.js:19 | trimming twice is trimming once |
| Strings.Utf16Length | models/Appointment.js:42-47 | the number of characters plus the number of astral characters; so one to two units per character, and exactly one per character when none is astral |
| Strings.ValidatorLength | routes/appointments.js:18-25 | validator.js `isLength`: the UTF-16 length less the surrogate pairs and the presentation selectors; at most the number of characters, and equal to it exactly when no selector occurs |
| Strings.LexLessIrreflexive | controllers/appointmentController.js:116 | no string sorts before itself |
| Strings.LexLessTransitive | controllers/appointmentController.js:116 | the string order is transitive |
| Strings.LexTotal | controllers/appointmentController.js:116 | any two strings are equal or ordered |
| Strings.LexLessAsymmetric | controllers/appointmentController.js:116 | the string order is asymmetric |
| Strings.LexLessAppend | controllers/appointmentController.js:116 | with equal-length first parts, concatenations compare by first part, then second |
| TimeOfDay.ParseTime | models/Appointment.js:27 | a reading exists exactly when the text matches `^([01]?[0-9]\|2[0-3]):[0-5][0-9]$`, and it is below 24·60 |
| TimeOfDay.IsTimeString | models/Appointment.js:27 | the text matches `^([01]?[0-9]\|2[0-3]):[0-5][0-9]$`: one or two hour digits up to 23, a colon, and two minute digits up to 59 |
| TimeOfDay.FormatTime | controllers/appointmentController.js:299 | the `HH:mm` rendering has five characters and matches the pattern |
| TimeOfDay.ParseFormatTime | controllers/appointmentController.js:299 | reading a rendering gives back its minute |
| TimeOfDay.FormatTimeInjective | controllers/appointmentController.js:299 | two minutes render alike exactly when they are equal |
| TimeOfDay.TimeStringIffRendering | models/Appointment.js:27 | the pattern accepts exactly the padded renderings and their one-digit-hour spellings |
| TimeOfDay.RenderParsed | models/Appointment.js:27 | a five-character match is the rendering of the minute it reads as |
| TimeOfDay.UnpaddedSameMinute | models/Appointment.js:27 | `H:MM` and `0H:MM` are different strings for the same minute |
| TimeOfDay.FormatTimeOrder | controllers/appointmentController.js:116 | padded renderings sort as strings exactly in chronological order |
| TimeOfDay.UnpaddedSortsOutOfOrder | controllers/appointmentController.js:116 | "10:00" sorts before "9:00" although it is later |
| Calendar.DateLessTransitive | controllers/appointmentController.js:116 | the day order is transitive |
| Calendar.DateTotal | controllers/appointmentController.js:116 | any two days are equal or ordered |
| Calendar.IsoDatePart | models/Appointment.js:66 | the date part of `toISOString` reads back as the day and contains no space or `T` |
| Digits.DecimalValueOfDecimal | controllers/appointmentController.js:299 | a zero-padded decimal reads back as its number |
| Digits.DecimalOfDecimalValue | models/Appointment.js:27 | a digit string is the padded decimal of its value |

## Left out

- HTTP and Express plumbing: the request and response objects, the JSON bodies, the
  `populate` joins and the logging. Outcomes are the `Outcomes.Result` datatype with a
  status code per failure.
- Token verification in `middleware/auth.js`: the acting user id is a parameter, and
  the role gate takes the authenticated user as given.
- Persistence: Mongoose and MongoDB are an in-memory map from id to record. A
  malformed `/:id` path value, which would make `findById` throw a cast error (500),
  is not modelled: ids are natural numbers.
- Concurrency: the read-then-write race between a clash check and the write is outside
  a sequential model.
- Environment.Env.readDate stands for three different readings of a date text:
  validator.js `isISO8601` in the rules, Mongoose's `Date` cast when the record is
  saved or queried, and `moment`'s parse in the past check and the weekday lookup.
  It is one oracle, so a text that one of them accepts and another rejects or
  reads as a different day (a week date such as `2025-W11-1`, a date with a time
  and an offset) is not modelled. Such a text would, for instance, pass the rules
  and then fail the save with 500.
- Environment.Env.castId is an oracle: which texts cast to an object id, and to
  which, is not computed, and nothing ties it to `isMongoId`. So a text may pass
  the rules and still fail the cast, as `0x` followed by 22 hex digits does; the
  lookups and queries then answer 500 (`InvalidIdCast`).
- The `moment` library: the current moment is a parameter; the weekday of a day and
  the reading of date texts are oracles in `Environment.Env`. Time zones, `moment`'s
  lax parsing (a date text carrying a time part, an hour `24:00`) and the
  millisecond window of the date filter are left out. The date filter matches on
  the same day.
- Body fields other than the ones the rules check, plus `duration` and `status`
  (for example `createdBy` or `_id` in a PUT body), and JSON values that are not
  strings, are not modelled.
- Listing.Sort: records with equal day and time may come back in any order in
  MongoDB; the model fixes one order (stable by id) and states only sortedness and
  permutation.
- The dentist, patient and service controllers, and the schemas of those records
  beyond what the controller reads (a dentist's working hours, a service's
  duration), are not modelled: they are pass-through CRUD.
- `middleware/validation.js`, `routes/auth.js` and `routes/user.js` validate fields
  the core never reads and are not part of this model.
- Listing.List and AppointmentStore.Store.ListAll require that every stored id is
  below the store's counter, which the store's `Valid()` guarantees.
- Listing.ListQuery and Listing.IntOr take `page` and `limit` as numbers already
  read: how `parseInt` reads the query text (`"2abc"` gives 2, `"1e3"` gives 1) is
  not modelled. Numbers are unbounded integers, so the rounding of JavaScript
  doubles (a 20-digit page, a skip beyond 2^53) and MongoDB's refusal of a skip or
  limit outside 64 bits (a 500) are left out.
- Listing.ListQuery filters are plain texts: Express's query parser turning
  `?status[$ne]=cancelled` into an operator object is not modelled.
- RequestValidation.Body duration is an integer: a fractional JSON duration such as
  30.5, which Mongoose's bounds accept, is not modelled.
