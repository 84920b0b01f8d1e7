/** The response shapes the handlers send, and the outcome of a validation chain. */
module Http {
  import opened Wrappers
  import opened Accounts

  /**
   * A response: its status and which of message, token and user it carries.
   * `Failure` is `{ success: false, message }`; `ValidationFailure` is the 400
   * `{ success: false, errors }`; `Listing` is the body of the user listing.
   */
  datatype Reply =
    | Failure(status: int, message: string)
    | ValidationFailure
    | Success(status: int, successMessage: Option<string>, token: Option<string>, user: Option<PublicUser>)
    | Listing(count: nat, total: nat, page: int, pages: int, users: seq<PublicUser>)
  {
    function Status(): int {
      match this
      case Failure(s, _) => s
      case ValidationFailure => 400
      case Success(s, _, _, _) => s
      case Listing(_, _, _, _, _) => 200
    }
  }

  /**
   * What `validationResult(req)` tells a handler: there were errors, or there
   * were none and the body, as the chain's sanitizers left it, is `value`.
   */
  datatype Checked<T> = Rejected | Accepted(value: T)

  /** The body of the catch-all 500 response. */
  const ServerError := "Server error"
}
