/** Small value types shared by every module: optional values, the raw
    values a request body can carry, and handler replies. */
module Common {

  datatype Option<+T> = None | Some(value: T)

  /** What a field of a JSON request body holds, as the document schema
      sees it before casting: nothing (the key is missing; when saving, also
      a null, and for numbers and dates the empty string), a value of the
      right kind, or a value the schema cannot cast to the field's type. A
      null in an update body, which would unset the field, has no case. */
  datatype Field<+T> = Absent | Given(value: T) | Junk

  /** A computation that either yields a value or fails with a message. */
  datatype Result<+T> = Success(value: T) | Failure(message: string)

  /** A handler's answer: an HTTP status with either a payload or a message. */
  datatype Reply<+T> = Ok(status: int, data: T) | Fail(status: int, message: string)
}
