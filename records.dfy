/** The two tables of the application, `User` and `LeaveRequest`, their JSON
    projections (`to_dict`), and the pure checks the handlers apply to the
    fields of a request body before touching the store. */
module Records {
  import opened Results
  import opened Text

  /** The stored role. Registration coerces every other string to Employee,
      so no other value ever reaches the table. */
  datatype Role = Employee | Admin

  datatype LeaveStatus = Pending | Approved | Rejected

  /** A row of the users table without its id, which is the key it is
      stored under. `password` holds the salted hash, not the plaintext. */
  datatype User = User(name: string, email: string, password: string, role: Role)

  /** A row of the leave_requests table without its id. Dates are ordinal
      day numbers and `createdAt` is a timestamp, both totally ordered. */
  datatype LeaveRequest = LeaveRequest(
    userId: nat,
    startDate: int,
    endDate: int,
    reason: string,
    status: LeaveStatus,
    createdAt: int)

  /** What `User.to_dict` returns: there is no password field. */
  datatype UserView = UserView(id: nat, name: string, email: string, role: Role)

  /** What `LeaveRequest.to_dict` returns: the record joined with its
      owner's name. */
  datatype LeaveView = LeaveView(
    id: nat,
    userId: nat,
    userName: string,
    startDate: int,
    endDate: int,
    reason: string,
    status: LeaveStatus,
    createdAt: int)

  /** The accepted fields of a leave request body, after parsing. */
  datatype LeaveDraft = LeaveDraft(startDate: int, endDate: int, reason: string)

  /** Python's `not data.get(field)` for a string field: the field is absent,
      null or the empty string. */
  predicate Blank(field: Option<string>) {
    field.None? || field.value == ""
  }

  /** `User.to_dict`. */
  function UserToDict(id: nat, u: User): (v: UserView)
    ensures v.id == id && v.role == u.role
    ensures v.name == u.name && v.email == u.email
  {
    UserView(id, u.name, u.email, u.role)
  }

  /** The projection does not depend on the stored password hash, so no
      response built from it can reveal the hash. */
  lemma UserToDictHidesPassword(id: nat, u: User, otherHash: string)
    ensures UserToDict(id, u) == UserToDict(id, u.(password := otherHash))
  {
  }

  /** `LeaveRequest.to_dict`. It reads the owner's name through the lazy
      `user` relationship; when the owner has no row that attribute is None
      and the projection raises, which the model reports as None. */
  function LeaveToDict(id: nat, l: LeaveRequest, users: map<nat, User>): (v: Option<LeaveView>)
    ensures v.Some? <==> l.userId in users
    ensures v.Some? ==> v.value.userName == users[l.userId].name
    ensures v.Some? ==> v.value.id == id && v.value.userId == l.userId && v.value.status == l.status
    ensures v.Some? ==> v.value.startDate == l.startDate && v.value.endDate == l.endDate
    ensures v.Some? ==> v.value.reason == l.reason && v.value.createdAt == l.createdAt
  {
    if l.userId in users then
      Some(LeaveView(id, l.userId, users[l.userId].name, l.startDate, l.endDate,
                     l.reason, l.status, l.createdAt))
    else
      None
  }

  /** Role coercion at registration: the role defaults to employee, and any
      value other than "admin" or "employee" becomes employee, so the new
      user is an admin exactly when "admin" was asked for. */
  function CoerceRole(requested: Option<string>): (r: Role)
    ensures r == Admin <==> requested == Some("admin")
    ensures r == Employee <==> requested != Some("admin")
  {
    match requested
    case None => Employee
    case Some(s) =>
      if s == "admin" then Admin
      else if s == "employee" then Employee
      else Employee
  }

  /** The status check of the update handler: only "approved" and
      "rejected" are accepted, so a record can never be set back to
      pending. */
  function ParseStatus(requested: Option<string>): (r: Option<LeaveStatus>)
    ensures r == Some(Approved) <==> requested == Some("approved")
    ensures r == Some(Rejected) <==> requested == Some("rejected")
    ensures r.Some? <==> requested == Some("approved") || requested == Some("rejected")
    ensures r != Some(Pending)
  {
    if requested == Some("approved") then Some(Approved)
    else if requested == Some("rejected") then Some(Rejected)
    else None
  }

  /** The checks of the create-leave handler, in the order it makes them:
      presence of all three fields, a reason that is not whitespace only,
      two dates that parse, then end not before start. `parseDate` stands
      for `datetime.fromisoformat(...).date()`, None where it raises
      ValueError. */
  function ValidateLeave(
    startDate: Option<string>, endDate: Option<string>, reason: Option<string>,
    parseDate: string -> Option<int>): (r: Result<LeaveDraft>)
    ensures (Blank(startDate) || Blank(endDate) || Blank(reason)) ==> r == Err(MissingLeaveFields)
    ensures !Blank(startDate) && !Blank(endDate) && !Blank(reason) ==>
      if AllSpace(reason.value) then r == Err(EmptyReason)
      else if parseDate(startDate.value).None? || parseDate(endDate.value).None?
        then r == Err(InvalidDateFormat)
      else if parseDate(endDate.value).value < parseDate(startDate.value).value
        then r == Err(EndBeforeStart)
      else r == Ok(LeaveDraft(parseDate(startDate.value).value,
                              parseDate(endDate.value).value,
                              Strip(reason.value)))
    ensures r.Ok? ==> r.value.startDate <= r.value.endDate
    ensures r.Ok? ==> r.value.reason != [] && r.value.reason == Strip(r.value.reason)
  {
    if Blank(startDate) || Blank(endDate) || Blank(reason) then
      Err(MissingLeaveFields)
    else
      var trimmed := Strip(reason.value);
      StripEmptyIffAllSpace(reason.value);
      if trimmed == [] then
        Err(EmptyReason)
      else
        match (parseDate(startDate.value), parseDate(endDate.value))
        case (Some(s), Some(e)) =>
          if e < s then Err(EndBeforeStart)
          else
            StripIdempotent(reason.value);
            Ok(LeaveDraft(s, e, trimmed))
        case _ => Err(InvalidDateFormat)
  }
}
