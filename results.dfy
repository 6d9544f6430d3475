/** Values shared by both services: the outcome of a dispatch and the
    per-recipient record it carries. */
module Results {

  /** A memoised slot: `None` is Ruby's `nil` before `||=` fills it. */
  datatype Option<T> = None | Some(value: T)

  /** The only error a dispatch reports (`:cant_send_empty_message`). */
  datatype ErrorKind = CantSendEmptyMessage

  /** The two strings a record's `status` can hold: `'delivered'` and `'error'`. */
  datatype Status = Delivered | Error

  /** The per-recipient hash of an id and a status. */
  datatype Record = Record(id: int, status: Status)

  /** The library's `Success(value)` / `Failure(error)` result. */
  datatype Result<T> = Success(value: T) | Failure(error: ErrorKind) {

    /** `bind`: a failure passes through unchanged, a success is handed to `f`. */
    function Bind<U>(f: T -> Result<U>): Result<U> {
      match this
      case Success(v) => f(v)
      case Failure(e) => Failure(e)
    }
  }
}
