/** Shared value types of the feedback portal model: optional values, the
    shapes in which request parameters arrive after express-validator has
    looked at them, and the route results (a status and a body, or an error
    status and its message). */
module Common {

  datatype Option<T> = None | Some(value: T)

  /** Document ids (Mongo ObjectIds) are modelled as naturals handed out by the store. */
  type Id = nat

  /** A query or body parameter checked with `isInt`: not sent, an integer
      literal, or text that is not an integer. */
  datatype IntParam = Absent | Int(n: int) | Malformed {

    /** `.optional().isInt({ min: lo, max: hi })` */
    predicate OptionalIntIn(lo: int, hi: int) {
      Absent? || (Int? && lo <= n <= hi)
    }

    /** `.isInt({ min: lo, max: hi })` on a required field */
    predicate RequiredIntIn(lo: int, hi: int) {
      Int? && lo <= n <= hi
    }

    /** `Number.parseInt(p) || d`: NaN (absent or malformed) and 0 are falsy. */
    function OrDefault(d: int): int {
      if Int? && n != 0 then n else d
    }
  }

  /** A parameter checked with `isMongoId`: not sent, a well-formed id, or malformed text. */
  datatype IdParam = NoId | GivenId(id: Id) | BadId

  /** A `:id` path segment: an id the store can cast, or text whose cast
      throws inside the handler (a `CastError`, answered with 500). */
  datatype PathId = WellFormedId(id: Id) | CastFailure

  /** The JSON result of a route: a success status with its body, or an error
      status with the `message` of `{ success: false, message }`. */
  datatype Response<T> = Ok(status: int, body: T) | Fail(status: int, message: string)

  const BadRequest := 400
  const Unauthorized := 401
  const Forbidden := 403
  const NotFound := 404
  const ServerError := 500
}
