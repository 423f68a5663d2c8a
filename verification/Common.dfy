/** Vocabulary shared by every service model. */
module Common {

  datatype Option<+T> = None | Some(value: T)
  {
    function GetOr(default: T): T {
      match this
      case Some(v) => v
      case None => default
    }
  }

  /** A service call either answers with a value or is refused with one of the API's error kinds. */
  datatype Result<+T> = Ok(value: T) | Err(error: Error)

  /** The error classes of src/errors/AppError.ts, and `Internal` for a bare `throw error`. */
  datatype Error = Forbidden | NotFound | Validation | Conflict | Internal

  datatype BookingStatus = Requested | Confirmed | Rejected | Completed | CancelledBooking

  /** A half-open stretch of time. */
  datatype Window = Window(start: int, end: int)

  predicate Distinct<T(==)>(items: seq<T>) {
    forall i, j | 0 <= i < j < |items| :: items[i] != items[j]
  }
}
