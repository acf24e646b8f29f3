/** Values shared by every component: Java's nullable references and the service's error kinds. */
module Common {

  /** A Java reference that may be null. */
  datatype Option<+T> = None | Some(value: T)

  /** The error kinds the service raises. The REST layer maps an IllegalArgumentException to
      HTTP 400 and an IllegalStateException to HTTP 409; the model keeps the kinds apart. */
  datatype Error =
    | NotFound          // IllegalArgumentException: unknown car or payment code
    | BadRequest        // IllegalArgumentException: webhook status other than PAID / CANCELED
    | Conflict          // IllegalStateException: car already sold / reserved, entity already sold
    | StorageRejected   // the database refuses the row (a column constraint is violated)

  /** The outcome of an operation that returns a value or throws. */
  datatype Result<+T> = Success(value: T) | Failure(error: Error)

  /** The outcome of a void operation that may throw. */
  datatype Outcome = Pass | Fail(error: Error)
}
