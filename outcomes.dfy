/** Option and Result types shared by the whole model, and the failures the
    application raises. */
module Outcomes {

  /** A value that may be absent (`undefined` or `null` in the application). */
  datatype Option<+T> = None | Some(value: T)

  /** The exceptions the modelled code throws. */
  datatype Failure =
    | BadRequest    // NestJS BadRequestException, HTTP 400
    | NotFound      // NestJS NotFoundException, HTTP 404
    | DuplicateKey  // the database's unique-index violation on `email`

  /** The outcome of an operation that either returns a value or throws. */
  datatype Result<+T> = Ok(value: T) | Err(error: Failure)
}
