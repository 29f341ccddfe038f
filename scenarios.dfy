/** Clients of the store: sequences of requests and what the handlers'
    contracts let a caller conclude about them. */
module Scenarios {
  import opened Results
  import opened Records
  import opened Listing
  import opened Store

  /** A user who registers can log in with the same password, and the token
      claims name the new user with the coerced role. */
  method RegisterThenLogin(
    store: LeaveStore, name: string, email: string, password: string,
    role: Option<string>, salt: string)
    returns (registered: Result<UserView>, session: Result<Session>)
    requires store.Valid()
    requires forall p, s :: store.checkPassword(store.hash(p, s), p)
    modifies store
    ensures store.Valid()
    ensures name != "" && email != "" && password != "" && !EmailInUse(old(store.users), email) ==>
      && registered.Ok? && session.Ok?
      && session.value.claims == Claims(registered.value.id, CoerceRole(role))
      && session.value.user == registered.value
  {
    registered := store.Register(Some(name), Some(email), Some(password), role, salt);
    session := store.Login(Some(email), Some(password));
  }

  /** Seeding twice adds the admin at most once: the second call changes
      nothing, whatever salt it draws. */
  method SeedTwice(store: LeaveStore, salt1: string, salt2: string)
    requires store.Valid()
    modifies store
    ensures store.Valid()
    ensures store.leaves == old(store.leaves)
    ensures store.users ==
      if old(EmailInUse(store.users, AdminEmail)) then old(store.users)
      else old(store.users)[old(store.nextUserId) :=
             User(AdminName, AdminEmail, store.hash(AdminPassword, salt1), Admin)]
  {
    store.SeedAdmin(salt1);
    ghost var once := store.users;
    store.SeedAdmin(salt2);
    assert store.users == once;
  }

  /** A record an employee creates is pending, owned by them, and shows up
      in their own listing. */
  method CreateThenList(
    store: LeaveStore, caller: nat, startDate: Option<string>, endDate: Option<string>,
    reason: Option<string>, now: int)
    returns (created: Result<LeaveView>, listed: Result<seq<LeaveView>>)
    requires store.Valid() && store.OwnersExist() && caller in store.users
    modifies store
    ensures store.Valid() && store.OwnersExist()
    ensures created.Err? ==> store.leaves == old(store.leaves)
    ensures created.Ok? ==>
      && created.value.userId == caller && created.value.status == Pending
      && listed.Ok? && created.value in listed.value
  {
    created := store.CreateLeave(caller, startDate, endDate, reason, now);
    listed := store.ListLeaves(caller);
  }

  /** There is no guard on the prior status: an admin may approve a record
      and then reject it, and the second decision overwrites the first. */
  method ApproveThenReject(store: LeaveStore, admin: nat, leaveId: nat)
    returns (first: Result<LeaveView>, second: Result<LeaveView>)
    requires store.Valid() && store.OwnersExist()
    requires admin in store.users && store.users[admin].role == Admin
    requires leaveId in store.leaves
    modifies store
    ensures store.Valid() && store.OwnersExist()
    ensures first.Ok? && first.value.status == Approved
    ensures second.Ok? && second.value.status == Rejected
    ensures store.leaves == old(store.leaves)[leaveId := old(store.leaves)[leaveId].(status := Rejected)]
  {
    ghost var l := store.leaves[leaveId];
    assert l.userId in store.users;
    first := store.UpdateStatus(admin, leaveId, Some("approved"));
    ghost var approved := store.leaves;
    assert approved == old(store.leaves)[leaveId := l.(status := Approved)];
    second := store.UpdateStatus(admin, leaveId, Some("rejected"));
    assert store.leaves == approved[leaveId := l.(status := Rejected)];
  }

  /** One employee's request is invisible to another employee and visible
      to an admin. */
  method OwnerIsolation(
    store: LeaveStore, owner: nat, other: nat, admin: nat,
    startDate: Option<string>, endDate: Option<string>, reason: Option<string>, now: int)
    returns (created: Result<LeaveView>, otherList: Result<seq<LeaveView>>, adminList: Result<seq<LeaveView>>)
    requires store.Valid() && store.OwnersExist()
    requires owner in store.users && other in store.users && admin in store.users
    requires owner != other && store.users[other].role == Employee && store.users[admin].role == Admin
    modifies store
    ensures store.Valid() && store.OwnersExist()
    ensures otherList.Ok? && adminList.Ok?
    ensures created.Ok? ==> created.value !in otherList.value && created.value in adminList.value
  {
    created := store.CreateLeave(owner, startDate, endDate, reason, now);
    assert OwnersIn(store.leaves, store.users);
    otherList := store.ListLeaves(other);
    adminList := store.ListLeaves(admin);
    if created.Ok? {
      var id := old(store.nextLeaveId);
      assert id in store.leaves && store.leaves[id].userId == owner;
      assert LeaveToDict(id, store.leaves[id], store.users) == Some(created.value);
    }
  }

  /** Every request is preceded by the admin seeding. Once it has run, a
      registration cannot take the admin email away or reuse it. */
  method SeededRegister(
    store: LeaveStore, seedSalt: string,
    name: Option<string>, email: Option<string>, password: Option<string>, role: Option<string>, salt: string)
    returns (registered: Result<UserView>)
    requires store.Valid()
    modifies store
    ensures store.Valid()
    ensures EmailInUse(store.users, AdminEmail)
    ensures !Blank(name) && !Blank(password) && email == Some(AdminEmail) ==>
      registered == Err(EmailAlreadyRegistered)
  {
    store.SeedAdmin(seedSalt);
    ghost var admin := FindByEmail(store.users, AdminEmail, store.nextUserId).value;
    registered := store.Register(name, email, password, role, salt);
    assert admin in store.users && store.users[admin].email == AdminEmail;
  }

  /** The leave handlers never touch the users table, so a seeded admin
      stays in place across them. */
  method SeededLeaveRequests(
    store: LeaveStore, caller: nat, startDate: Option<string>, endDate: Option<string>,
    reason: Option<string>, now: int, leaveId: nat, status: Option<string>)
    returns (created: Result<LeaveView>, updated: Result<LeaveView>)
    requires store.Valid() && EmailInUse(store.users, AdminEmail)
    modifies store
    ensures store.Valid() && EmailInUse(store.users, AdminEmail)
  {
    created := store.CreateLeave(caller, startDate, endDate, reason, now);
    updated := store.UpdateStatus(caller, leaveId, status);
  }
}
