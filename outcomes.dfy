/** What an operation answers: a value, or one of the failures the controller turns
    into an HTTP status. */
module Outcomes {
  import opened AppointmentModel

  /** The record a lookup did not find. */
  datatype Entity = PatientEntity | DentistEntity | ServiceEntity | AppointmentEntity

  /** Why a request ended in the controllers' catch-all 500 answer. */
  datatype Cause =
    | SchemaViolation   // a Mongoose validator refused the document or the update
    | SlotTakenOnSave   // the pre-save hook threw
    | InvalidIdCast     // a text that is not an object id was used as one in a query
    | InvalidDateCast   // an unreadable date was used in a query
    | NegativeSkip      // the page arithmetic asked the database to skip a negative count

  datatype Failure =
    | ValidationFailed(errors: seq<Field>)  // "Validation failed", with one entry per failing field
    | NotFound(entity: Entity)
    | InPast                                // "Appointment must be scheduled for a future date and time"
    | CompletedLocked                       // "Cannot update/delete completed appointment"
    | SlotTaken                             // "This time slot is already booked"
    | QueryIncomplete                       // "Dentist ID and date are required"
    | ServerError(cause: Cause)

  datatype Result<T> = Ok(value: T) | Err(failure: Failure)

  /** The status code the controller sends with each failure. */
  function HttpStatus(f: Failure): (code: nat)
    ensures code == 404 <==> f.NotFound?
    ensures code == 500 <==> f.ServerError?
    ensures code == 400 <==> !f.NotFound? && !f.ServerError?
  {
    match f
    case NotFound(_) => 404
    case ServerError(_) => 500
    case _ => 400
  }
}
