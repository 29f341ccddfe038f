/** The application's shared state, the users and leave_requests tables, as
    one object whose methods are the HTTP handlers that change it and whose
    functions are the handlers that only read it. Flask's request decoding
    is already done: a handler receives the body's fields, each None when
    absent or null, and the caller's user id from the verified token. */
module Store {
  import opened Results
  import opened Text
  import opened Records
  import opened Listing

  /** The account that `create_tables` seeds before every request. */
  const AdminName: string := "Admin User"
  const AdminEmail: string := "admin@example.com"
  const AdminPassword: string := "admin123"

  /** The claims of the access token issued by login: the user's id as the
      token identity and the user's role as an additional claim. */
  datatype Claims = Claims(identity: nat, role: Role)

  /** A successful login answer: the token claims and the user's projection. */
  datatype Session = Session(claims: Claims, user: UserView)

  /** Some stored user has this email. */
  ghost predicate EmailInUse(users: map<nat, User>, email: string) {
    exists id :: id in users && users[id].email == email
  }

  /** `User.query.filter_by(email=email).first()` over the ids below `n`. */
  function FindByEmail(users: map<nat, User>, email: string, n: nat): (r: Option<nat>)
    ensures r.Some? ==> r.value < n && r.value in users && users[r.value].email == email
    ensures r.None? ==> forall id | id in users && id < n :: users[id].email != email
  {
    if n == 0 then None
    else if n - 1 in users && users[n - 1].email == email then Some(n - 1)
    else FindByEmail(users, email, n - 1)
  }

  /** The users table holds rows 1 .. next-1 (ids are assigned in order and
      rows are never deleted), its emails are unique, and every row has the
      non-empty name and email that registration demands. */
  ghost predicate UsersOk(users: map<nat, User>, next: nat) {
    && 1 <= next
    && (forall id: nat :: id in users <==> 1 <= id < next)
    && (forall a, b | a in users && b in users && users[a].email == users[b].email :: a == b)
    && (forall id | id in users :: users[id].name != "" && users[id].email != "")
  }

  /** A leave request that passed the checks of the create handler. */
  ghost predicate LeaveOk(l: LeaveRequest) {
    l.startDate <= l.endDate && l.reason != [] && l.reason == Strip(l.reason)
  }

  /** The leave_requests table holds rows 1 .. next-1, each well formed. */
  ghost predicate LeavesOk(leaves: map<nat, LeaveRequest>, next: nat) {
    && 1 <= next
    && (forall id: nat :: id in leaves <==> 1 <= id < next)
    && (forall id | id in leaves :: LeaveOk(leaves[id]))
  }

  /** Inserting a user with a fresh email under the next id keeps the users
      table well formed. */
  lemma InsertUserOk(users: map<nat, User>, next: nat, u: User)
    requires UsersOk(users, next)
    requires u.name != "" && u.email != ""
    requires forall id | id in users :: users[id].email != u.email
    ensures next !in users && UsersOk(users[next := u], next + 1)
  {
  }

  /** Inserting a well-formed record under the next id keeps the
      leave_requests table well formed. */
  lemma InsertLeaveOk(leaves: map<nat, LeaveRequest>, next: nat, l: LeaveRequest)
    requires LeavesOk(leaves, next) && LeaveOk(l)
    ensures next !in leaves && LeavesOk(leaves[next := l], next + 1)
  {
  }

  /** Every record's owner has a row in `users`. */
  ghost predicate OwnersIn(leaves: map<nat, LeaveRequest>, users: map<nat, User>) {
    forall id | id in leaves :: leaves[id].userId in users
  }

  /** Inserting a record whose owner exists keeps every owner existing. */
  lemma InsertOwnedOk(leaves: map<nat, LeaveRequest>, users: map<nat, User>, id: nat, l: LeaveRequest)
    requires OwnersIn(leaves, users) && l.userId in users
    ensures OwnersIn(leaves[id := l], users)
  {
  }

  /** Overwriting the status of a stored record keeps the table well formed. */
  lemma SetStatusOk(leaves: map<nat, LeaveRequest>, next: nat, id: nat, status: LeaveStatus)
    requires LeavesOk(leaves, next) && id in leaves
    ensures LeavesOk(leaves[id := leaves[id].(status := status)], next)
  {
  }

  class LeaveStore {
    /** The users table, keyed by id. */
    var users: map<nat, User>
    /** The leave_requests table, keyed by id. */
    var leaves: map<nat, LeaveRequest>
    /** The ids the next inserted rows receive. */
    var nextUserId: nat
    var nextLeaveId: nat

    /** `generate_password_hash(password)`, its random salt made a parameter. */
    const hash: (string, string) -> string
    /** `check_password_hash(stored, candidate)`. */
    const checkPassword: (string, string) -> bool
    /** `datetime.fromisoformat(text).date()` as an ordinal day, None where
        it raises ValueError. */
    const parseDate: string -> Option<int>

    /** Both tables are well formed (see UsersOk and LeavesOk). */
    ghost predicate Valid()
      reads this
    {
      UsersOk(users, nextUserId) && LeavesOk(leaves, nextLeaveId)
    }

    /** Every leave request's owner has a user row. The handlers do not check
        that the token's user exists, so only create-leave with an unknown
        caller can break this. */
    ghost predicate OwnersExist()
      reads this
    {
      OwnersIn(leaves, users)
    }

    /** A fresh, empty database. */
    constructor (
      hash: (string, string) -> string,
      checkPassword: (string, string) -> bool,
      parseDate: string -> Option<int>)
      ensures Valid() && OwnersExist()
      ensures users == map[] && leaves == map[] && nextUserId == 1 && nextLeaveId == 1
      ensures this.hash == hash && this.checkPassword == checkPassword && this.parseDate == parseDate
    {
      users, leaves := map[], map[];
      nextUserId, nextLeaveId := 1, 1;
      this.hash, this.checkPassword, this.parseDate := hash, checkPassword, parseDate;
    }

    /** `POST /auth/register`. */
    method Register(
      name: Option<string>, email: Option<string>, password: Option<string>,
      role: Option<string>, salt: string)
      returns (r: Result<UserView>)
      requires Valid()
      modifies this
      ensures Valid()
      ensures leaves == old(leaves) && nextLeaveId == old(nextLeaveId)
      ensures (Blank(name) || Blank(email) || Blank(password)) ==>
        r == Err(MissingRegistrationFields) && users == old(users) && nextUserId == old(nextUserId)
      ensures !Blank(name) && !Blank(email) && !Blank(password) && EmailInUse(old(users), email.value) ==>
        r == Err(EmailAlreadyRegistered) && users == old(users) && nextUserId == old(nextUserId)
      ensures !Blank(name) && !Blank(email) && !Blank(password) && !EmailInUse(old(users), email.value) ==>
        var u := User(name.value, email.value, hash(password.value, salt), CoerceRole(role));
        && old(nextUserId) !in old(users)
        && users == old(users)[old(nextUserId) := u]
        && nextUserId == old(nextUserId) + 1
        && r == Ok(UserToDict(old(nextUserId), u))
      ensures old(OwnersExist()) ==> OwnersExist()
    {
      if Blank(name) || Blank(email) || Blank(password) {
        return Err(MissingRegistrationFields);
      }
      if FindByEmail(users, email.value, nextUserId).Some? {
        return Err(EmailAlreadyRegistered);
      }
      var u := User(name.value, email.value, hash(password.value, salt), CoerceRole(role));
      var id := nextUserId;
      InsertUserOk(users, id, u);
      users := users[id := u];
      nextUserId := nextUserId + 1;
      r := Ok(UserToDict(id, u));
    }

    /** `POST /auth/login`. An unknown email and a wrong password give the
        same answer. */
    function Login(email: Option<string>, password: Option<string>): (r: Result<Session>)
      reads this
      requires Valid()
      ensures (Blank(email) || Blank(password)) ==> r == Err(MissingCredentials)
      ensures r.Ok? ==>
        && !Blank(email) && !Blank(password)
        && r.value.claims.identity in users
        && users[r.value.claims.identity].email == email.value
        && checkPassword(users[r.value.claims.identity].password, password.value)
        && r.value.claims.role == users[r.value.claims.identity].role
        && r.value.user == UserToDict(r.value.claims.identity, users[r.value.claims.identity])
      ensures !Blank(email) && !Blank(password) && r.Err? ==>
        && r == Err(InvalidCredentials)
        && forall id | id in users && users[id].email == email.value ::
             !checkPassword(users[id].password, password.value)
    {
      if Blank(email) || Blank(password) then Err(MissingCredentials)
      else
        match FindByEmail(users, email.value, nextUserId)
        case None => Err(InvalidCredentials)
        case Some(id) =>
          if !checkPassword(users[id].password, password.value) then Err(InvalidCredentials)
          else Ok(Session(Claims(id, users[id].role), UserToDict(id, users[id])))
    }

    /** `POST /leaves`, with `now` standing for the `datetime.utcnow` default
        of created_at. The handler does not look the caller up: with an
        unknown caller the row is committed and the `to_dict` of the answer
        then raises. */
    method CreateLeave(
      caller: nat, startDate: Option<string>, endDate: Option<string>, reason: Option<string>,
      now: int)
      returns (r: Result<LeaveView>)
      requires Valid()
      modifies this
      ensures Valid()
      ensures users == old(users) && nextUserId == old(nextUserId)
      ensures var check := ValidateLeave(startDate, endDate, reason, parseDate);
        check.Err? ==>
          r == Err(check.error) && leaves == old(leaves) && nextLeaveId == old(nextLeaveId)
      ensures var check := ValidateLeave(startDate, endDate, reason, parseDate);
        check.Ok? ==>
          var l := LeaveRequest(caller, check.value.startDate, check.value.endDate,
                                check.value.reason, Pending, now);
          && old(nextLeaveId) !in old(leaves)
          && leaves == old(leaves)[old(nextLeaveId) := l]
          && nextLeaveId == old(nextLeaveId) + 1
          && r == (if caller in users then Ok(LeaveToDict(old(nextLeaveId), l, users).value)
                   else Err(DanglingOwner))
      ensures old(OwnersExist()) && caller in users ==> OwnersExist()
    {
      var check := ValidateLeave(startDate, endDate, reason, parseDate);
      if check.Err? {
        return Err(check.error);
      }
      var l := LeaveRequest(caller, check.value.startDate, check.value.endDate,
                            check.value.reason, Pending, now);
      var id := nextLeaveId;
      InsertLeaveOk(leaves, id, l);
      if caller in users && OwnersExist() {
        InsertOwnedOk(leaves, users, id, l);
      }
      leaves := leaves[id := l];
      nextLeaveId := nextLeaveId + 1;
      var view := LeaveToDict(id, l, users);
      if view.None? {
        return Err(DanglingOwner);
      }
      r := Ok(view.value);
    }

    /** `GET /leaves`: an admin sees every record, anyone else exactly the
        records they own, each once and newest first. Nothing changes. */
    function ListLeaves(caller: nat): (r: Result<seq<LeaveView>>)
      reads this
      requires Valid()
      ensures caller !in users ==> r == Err(UnknownCaller)
      ensures caller in users ==>
        (r.Ok? <==> forall id | id in leaves && Visible(leaves[id], caller, users[caller].role) ::
                      leaves[id].userId in users)
      ensures caller in users && r.Err? ==> r == Err(DanglingOwner)
      ensures r.Ok? ==> caller in users && forall v | v in r.value ::
        && v.id in leaves
        && Visible(leaves[v.id], caller, users[caller].role)
        && LeaveToDict(v.id, leaves[v.id], users) == Some(v)
      ensures r.Ok? ==> forall id | id in leaves && Visible(leaves[id], caller, users[caller].role) ::
        LeaveToDict(id, leaves[id], users).Some? && LeaveToDict(id, leaves[id], users).value in r.value
      ensures r.Ok? ==> forall i, j | 0 <= i < j < |r.value| ::
        r.value[i].createdAt >= r.value[j].createdAt && r.value[i].id != r.value[j].id
    {
      if caller !in users then Err(UnknownCaller)
      else
        var role := users[caller].role;
        VisibleViewsSpec(leaves, users, caller, role, nextLeaveId);
        match VisibleViews(leaves, users, caller, role, nextLeaveId)
        case None => Err(DanglingOwner)
        case Some(views) => Ok(views)
    }

    /** `PATCH /leaves/<id>/status`. The checks come in a fixed order: the
        caller's row, the admin role, the status value, then the record.
        The new status overwrites the old one whatever it was. */
    method UpdateStatus(caller: nat, leaveId: nat, status: Option<string>)
      returns (r: Result<LeaveView>)
      requires Valid()
      modifies this
      ensures Valid()
      ensures users == old(users) && nextUserId == old(nextUserId) && nextLeaveId == old(nextLeaveId)
      ensures caller !in users ==> r == Err(UnknownCaller) && leaves == old(leaves)
      ensures caller in users && users[caller].role != Admin ==>
        r == Err(NotAdmin) && leaves == old(leaves)
      ensures caller in users && users[caller].role == Admin && ParseStatus(status).None? ==>
        r == Err(InvalidStatus) && leaves == old(leaves)
      ensures caller in users && users[caller].role == Admin && ParseStatus(status).Some?
              && leaveId !in old(leaves) ==>
        r == Err(LeaveNotFound) && leaves == old(leaves)
      ensures caller in users && users[caller].role == Admin && ParseStatus(status).Some?
              && leaveId in old(leaves) ==>
        var l := old(leaves)[leaveId].(status := ParseStatus(status).value);
        && leaves == old(leaves)[leaveId := l]
        && r == (if l.userId in users then Ok(LeaveToDict(leaveId, l, users).value)
                 else Err(DanglingOwner))
      ensures old(OwnersExist()) ==> OwnersExist()
    {
      if caller !in users {
        return Err(UnknownCaller);
      }
      if users[caller].role != Admin {
        return Err(NotAdmin);
      }
      var newStatus := ParseStatus(status);
      if newStatus.None? {
        return Err(InvalidStatus);
      }
      if leaveId !in leaves {
        return Err(LeaveNotFound);
      }
      var l := leaves[leaveId].(status := newStatus.value);
      SetStatusOk(leaves, nextLeaveId, leaveId, newStatus.value);
      leaves := leaves[leaveId := l];
      var view := LeaveToDict(leaveId, l, users);
      if view.None? {
        return Err(DanglingOwner);
      }
      r := Ok(view.value);
    }

    /** `create_tables`: inserts the default admin unless some user already
        has the admin email. */
    method SeedAdmin(salt: string)
      requires Valid()
      modifies this
      ensures Valid()
      ensures EmailInUse(users, AdminEmail)
      ensures leaves == old(leaves) && nextLeaveId == old(nextLeaveId)
      ensures old(EmailInUse(users, AdminEmail)) ==>
        users == old(users) && nextUserId == old(nextUserId)
      ensures !old(EmailInUse(users, AdminEmail)) ==>
        && old(nextUserId) !in old(users)
        && users == old(users)[old(nextUserId) := User(AdminName, AdminEmail, hash(AdminPassword, salt), Admin)]
        && nextUserId == old(nextUserId) + 1
      ensures old(OwnersExist()) ==> OwnersExist()
    {
      if FindByEmail(users, AdminEmail, nextUserId).None? {
        var id := nextUserId;
        InsertUserOk(users, id, User(AdminName, AdminEmail, hash(AdminPassword, salt), Admin));
        users := users[id := User(AdminName, AdminEmail, hash(AdminPassword, salt), Admin)];
        nextUserId := nextUserId + 1;
        assert users[id].email == AdminEmail;
      }
    }
  }
}
