/** Outcomes of the services' operations.  The NestJS services throw the HTTP
    exception classes of the framework; here each operation returns a Result
    whose error names the exception class and, where the TypeScript code
    distinguishes the cases only by message, the record or the reason. */
module Results {

  datatype Option<+T> = None | Some(value: T)

  /** Which record a NotFound exception reports as missing. */
  datatype Missing = MissingBag | MissingCustomer | MissingOrder | MissingStore

  /** Why a BadRequest exception was raised. */
  datatype Reason =
    | NotConfirmed      // pickup validated on an order that is not CONFIRMED
    | WrongPickupCode   // supplied pickup code differs from the stored one
    | AlreadyCancelled  // cancelling an order that is already CANCELLED
    | TooLateToCancel   // less than 30 minutes before the pickup window opens
    | NotPending        // confirming an order that is not PENDING

  datatype Error =
    | NotFound(missing: Missing)
    | Conflict
    | BadRequest(reason: Reason)
    | Unauthorized
    | Forbidden
    | Internal          // the persistence layer failed to commit

  datatype Result<+T> = Ok(value: T) | Err(error: Error)
}
