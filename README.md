# Leave-request management: a Dafny model of the Flask backend

The backend is a small HTTP service with two tables:
- `users`: name, unique email, salted password hash, role `employee` or `admin`.
- `leave_requests`: owner, start and end date, reason, status, creation time.

Users register and log in, which gives them a token carrying their id and role. Employees file leave requests and list their own. Admins list every request and set a request's status to approved or rejected. Before every request, the service seeds a default admin account unless one with that email already exists.

The model follows the program's structure:

- `Results` (`results.dfy`): the handlers' error answers and the HTTP status code each one gets. It also defines `Option` and `Result`.
- `Text` (`text.dfy`): Python's `str.strip()` with no argument. It strips the full set of characters that `str.isspace` accepts.
- `Records` (`records.dfy`):
  - the two row types and their `to_dict` projections;
  - role coercion at registration;
  - status parsing;
  - the ordered field checks of the create-leave handler.
- `Listing` (`listing.dfy`): the read side of `GET /leaves`:
  - the ownership filter;
  - `ORDER BY created_at DESC`, as an insertion sort proved to be a permutation that is ordered newest first;
  - the projection of every row.
- `Store` (`store.dfy`): the class `LeaveStore`:
  - it holds both tables as maps from ids to rows, plus the next id of each table;
  - the handlers that change the database are methods (`Register`, `CreateLeave`, `UpdateStatus`, `SeedAdmin`);
  - the handlers that only read it are functions (`Login`, `ListLeaves`);
  - every handler keeps the invariant `Valid()`: ids are 1 .. next-1, emails are unique, names and emails are non-empty, and every stored leave is well formed.
- `Scenarios` (`scenarios.dfy`): short request sequences and what the handlers' contracts let a client conclude about them.

Each handler receives its inputs as parameters:
- the already-decoded body fields, each `None` when absent or null;
- for the token-protected routes, the caller's id from the verified token.

Three library calls are opaque functions fixed when the store is built:
- `generate_password_hash`, whose random salt is an explicit parameter;
- `check_password_hash`;
- `datetime.fromisoformat(...).date()`, as an ordinal day number, or `None` where it raises.

`created_at` is the `now` parameter of `CreateLeave`.

The code does not check that the id in the token still names a user, and the model keeps that behaviour:
- list and update crash with a 500 when the lookup returns nothing (`UnknownCaller`);
- create commits the row, then crashes in `to_dict` on the missing owner (`DanglingOwner`, also a 500).

Every error answer `Err(e)` of a handler is sent with the HTTP status `Code(e)`. `Results.Code` fixes that status for each error, so the status codes named in the table below come from it.

`OwnersExist()` (every leave's owner has a user row) is therefore an extra invariant. Every handler keeps it except `CreateLeave` called by an unknown caller.

The model follows the code where one might expect otherwise: a decided request can be decided again, so approved may become rejected and back. The status update (backend/app.py:186-195) has no guard on the prior status.

## Model

| member | source | states |
|---|---|---|
| Results.Code | backend/app.py:64-192 | Every error gets 400, 401, 403, 404 or 500. 401 exactly for bad credentials, 403 exactly for a non-admin status update, 404 exactly for a missing leave request, 500 exactly for the two crashes on a missing user row. |
| Text.IsSpace | backend/app.py:127 | The characters Python's `str.isspace` accepts, which `strip()` removes: ASCII tab to carriage return, the four separators 0x1c-0x1f, space, and the Unicode spaces and line/paragraph separators. |
| Text.Strip | backend/app.py:127-128 | The result neither starts nor ends with whitespace. It is the slice of the input that starts at its first non-space character, with only whitespace around it. |
| Text.StripEmptyIffAllSpace | backend/app.py:127-128 | `strip()` leaves nothing exactly when every character is whitespace, so the reason check rejects exactly the all-whitespace reasons. |
| Text.StripIdempotent | backend/app.py:144 | Stripping twice equals stripping once, so the stored reason is already stripped. |
| Records.Blank | backend/app.py:65 | Python's `not data.get(field)` for a string field: the field is absent, null or the empty string. The same test guards login (app.py:98) and create-leave (app.py:124). |
| Records.UserToDict | backend/app.py:30-36 | The projection carries id, name, email and role of the row. |
| Records.UserToDictHidesPassword | backend/app.py:30-36 | The projection does not depend on the stored password hash, so no answer built from it exposes the hash. |
| Records.LeaveToDict | backend/app.py:47-57 | The projection exists exactly when the owner has a user row. It copies every field and joins the owner's name. |
| Records.CoerceRole | backend/app.py:73-77 | The new user is an admin exactly when the role "admin" was asked for. A missing role or any other string gives an employee. |
| Records.ParseStatus | backend/app.py:184-187 | Only "approved" and "rejected" are accepted, each mapped to its status. Pending can never be set. |
| Records.ValidateLeave | backend/app.py:123-137 | The checks fire in this order: missing field, all-whitespace reason, unparsable date, end before start. Equal start and end dates are accepted. A draft that passes has start <= end and a non-empty stripped reason. |
| Listing.Visible | backend/app.py:162-167 | The ownership filter: an admin sees every record, anyone else only the records whose owner is their own id. |
| Listing.VisibleRows | backend/app.py:162-167 | A row is selected exactly when it is stored below the id bound and the viewer is an admin or owns it. Ids are strictly increasing. |
| Listing.InsertNewest | backend/app.py:164 | Inserting a row in front of the first row not newer than it lengthens the sequence by one; its order and contents are stated by the next two lemmas. |
| Listing.InsertNewestPermutes | backend/app.py:164 | Insertion adds exactly the one row: the multiset grows by it. |
| Listing.InsertNewestKeepsOrder | backend/app.py:164 | Inserting into a newest-first sequence keeps it newest first. |
| Listing.SortNewestFirst | backend/app.py:164 | The sort keeps the number of rows. |
| Listing.SortNewestFirstSorts | backend/app.py:164 | The sorted rows are a permutation of the input and are ordered by created_at, newest first. |
| Listing.PermutationKeepsDistinctIds | backend/app.py:164 | Reordering rows with distinct ids keeps the ids distinct. |
| Listing.ToViews | backend/app.py:169-171 | The list of projections exists exactly when every row's owner exists. Element i is the projection of row i. |
| Listing.VisibleViews | backend/app.py:162-171 | The body of the listing handler: the visible rows, newest first, each projected. When it succeeds it has one entry per visible row. |
| Listing.VisibleViewsSpec | backend/app.py:158-171 | An admin gets every stored record and anyone else exactly their own, each once and newest first. The listing fails only when a visible record's owner has no user row. |
| Store.FindByEmail | backend/app.py:68 | It finds a stored user with the given email, or reports that none exists. |
| Store.InsertUserOk | backend/app.py:79-87 | Adding a user with a fresh email under the next id keeps the users table well formed. |
| Store.InsertLeaveOk | backend/app.py:140-149 | Adding a checked request under the next id keeps the leave_requests table well formed. |
| Store.InsertOwnedOk | backend/app.py:140-149 | Adding a request whose owner has a user row keeps every stored request's owner existing. |
| Store.SetStatusOk | backend/app.py:194-195 | Overwriting a stored request's status keeps the table well formed. |
| Store.LeaveStore.constructor | backend/app.py:12-17 | A freshly created database file: both tables empty, both id counters at 1, both invariants hold. |
| Store.LeaveStore.Register | backend/app.py:60-92 | Missing field → 400 and nothing changes. Email in use → 400 and nothing changes. Otherwise exactly one user row is added under the next id, holding the salted hash and the coerced role. The answer is its projection. |
| Store.LeaveStore.Login | backend/app.py:94-114 | Missing field → 400. Success only for a stored user with that email whose hash matches the password; the claims carry that user's id and role. Any other failure is the same 401, and then no user with that email has a matching password. |
| Store.LeaveStore.CreateLeave | backend/app.py:117-154 | A failed check gives its error and adds nothing. Otherwise exactly one pending request owned by the caller is added under the next id, with the parsed dates, the stripped reason and `now`. The answer is its projection, or a 500 when the caller has no user row (the row is kept). |
| Store.LeaveStore.ListLeaves | backend/app.py:156-171 | An unknown caller gets a 500. Otherwise an admin sees every stored record and an employee exactly their own, each once and newest first. The listing fails only when a visible record's owner is missing. |
| Store.LeaveStore.UpdateStatus | backend/app.py:173-200 | Checks in order: unknown caller (500), non-admin (403), status other than approved or rejected (400), unknown id (404). Each failure leaves the store unchanged. Otherwise only the status of that one request changes, whatever it was before. |
| Store.LeaveStore.SeedAdmin | backend/app.py:203-216 | Afterwards a user with the admin email exists. If one already existed nothing changes; otherwise exactly one admin row is added. |
| Scenarios.RegisterThenLogin | backend/app.py:60-114 | A fresh registration followed by a login with the same password succeeds. The token names the new user with the coerced role. |
| Scenarios.SeedTwice | backend/app.py:207-216 | Seeding twice gives the same users table as seeding once. |
| Scenarios.SeededRegister | backend/app.py:203-216 | With the seeding hook run before a registration, the admin email stays taken afterwards, and registering with it is refused with "Email already registered". |
| Scenarios.SeededLeaveRequests | backend/app.py:117-200 | Once the admin has been seeded, creating a request and updating a status leave the admin email in use. |
| Scenarios.CreateThenList | backend/app.py:117-171 | A request a user creates is pending, owned by them, and in their own listing. |
| Scenarios.ApproveThenReject | backend/app.py:186-195 | Approving then rejecting the same request both succeed. The second decision overwrites the first. |
| Scenarios.OwnerIsolation | backend/app.py:162-167 | A request is absent from another employee's listing and present in an admin's listing. |

## Left out

- HTTP, JSON decoding and CORS are not modelled:
  - every body field is a string or absent;
  - a non-string JSON value, or a request with no JSON body at all, is outside the model.
- Token issuance, signing, verification and the 24-hour expiry are not modelled. A handler receives the verified caller id; `Login` returns the claims it would sign.
- Password hashing and date parsing are opaque functions:
  - nothing is proved about them beyond what the handlers do with their results;
  - in particular, the model does not state that a hash differs from the plaintext.
- The `isoformat` rendering of dates and timestamps is not modelled: dates are ordinal day numbers and timestamps are integers.
- `datetime.utcnow` is not modelled: the creation time is the `now` parameter.
- The `@app.before_request` hook `create_tables` is not woven into the handlers. `SeedAdmin` models it as a separate step. A client of the model must call `SeedAdmin` before each handler to obtain the source's behaviour:
  - `Scenarios.SeededRegister` shows the first request in that order;
  - called without that step, `Register` on an empty store accepts the admin email as an ordinary employee, which the source never does.
- A persistent SQLite file that outlives the process is not modelled: the constructor stands for a freshly created database file, and a `LeaveStore` for its contents between requests.
- Database sessions, transactions and concurrent requests are not modelled: each handler is one atomic step.
- Column length limits are not modelled.
- `db.create_all` is not modelled.
- The `__main__` block is not modelled: it repeats the admin seeding of `create_tables` and starts the server.
- Error message texts are not modelled. The success codes 200 and 201 are implicit in `Ok`.
- Listing.SortNewestFirst: SQL leaves the order of equal `created_at` values unspecified. The model's insertion sort fixes one admissible order, and only the newest-first property is stated about it.
- The test script and the two front-end login pages call the backend over HTTP. They are not part of this model.
