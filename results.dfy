/** Outcomes of the leave-management handlers: the error kinds the handlers
    return, the HTTP status each one is answered with, and the Option and
    Result wrappers used throughout the model. */
module Results {

  datatype Option<+T> = None | Some(value: T)

  /** One constructor per `return jsonify({'error': ...}), code` in the
      handlers, plus the two unhandled exceptions (status 500) that the
      handlers raise when a row they dereference is absent. */
  datatype Error =
    | MissingRegistrationFields   // register: name, email or password missing or empty
    | EmailAlreadyRegistered      // register: another user has this email
    | MissingCredentials          // login: email or password missing or empty
    | InvalidCredentials          // login: unknown email or wrong password, one message for both
    | MissingLeaveFields          // create: start date, end date or reason missing or empty
    | EmptyReason                 // create: the reason is whitespace only
    | InvalidDateFormat           // create: a date does not parse
    | EndBeforeStart              // create: end date earlier than start date
    | NotAdmin                    // update: the caller is not an admin
    | InvalidStatus               // update: status is neither approved nor rejected
    | LeaveNotFound               // update: no leave request with that id
    | UnknownCaller               // list, update: the token's user id has no row
    | DanglingOwner               // create, update, list: to_dict on a record whose owner has no row

  datatype Result<+T> = Ok(value: T) | Err(error: Error)

  /** The HTTP status code the application answers an error with. */
  function Code(e: Error): (c: int)
    ensures c in {400, 401, 403, 404, 500}
    ensures c == 401 <==> e == InvalidCredentials
    ensures c == 403 <==> e == NotAdmin
    ensures c == 404 <==> e == LeaveNotFound
    ensures c == 500 <==> e == UnknownCaller || e == DanglingOwner
  {
    match e
    case InvalidCredentials => 401
    case NotAdmin => 403
    case LeaveNotFound => 404
    case UnknownCaller => 500
    case DanglingOwner => 500
    case _ => 400
  }
}
