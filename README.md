# Account credentials of the Jansetu backend, modelled in Dafny

The backend keeps one table, `auth`, of account rows. Each row holds:

- a uuid primary key;
- a creation time;
- a password digest;
- a unique email;
- a role, `user` or `admin`, which defaults to `user`.

Two routes work on that table:

- `POST /auth/signup` looks the email up and refuses it if it is already present. Otherwise it inserts one row with the hashed password and the role, then answers `{token, id, role}`. The token's claims are `{id, role}` and it expires after `ACCESS_TOKEN_EXPIRE_MINUTES` (60).
- `POST /auth/signin` looks the email up. Whether the email is unknown or the password does not verify, it answers with the same "Invalid credentials" error. Otherwise it answers `{token, id, role}` for the stored row.

Layout:

- `models.dfy` (module `Models`): `Role`, the `Auth` record and the invariant the table's constraints keep (unique emails, unique ids).
  - No column of `Auth` is optional. Every field has a plain, non-`Option` type, so the non-null declarations are enforced by typing.
- `table.dfy` (module `Table`): what the routes do through their database session.
  - The email query followed by `scalar_one_or_none()`.
  - The reload by primary key that `refresh` performs.
  - The insert that `add` + `commit` perform, which the constraints guard. The class `AuthTable` is the table and its rows are updated in place.
- `routes.dfy` (module `Routes`): the two routes as methods (`Signup` changes the table, `Signin` only reads it).
  - Each method is proved equal to a pure function of the table (`SignupOutcome`, `SigninOutcome`).
  - The lemmas about those functions state what the routes promise.
- `wrappers.dfy`: `Option` and `Result`.

How the model handles collaborators whose code is not shown:

- The password helpers (`hash_password`, `verify_password`) and the token helper (`create_access_token`) are imported from modules that are not part of this model. They are fields of a `Crypto` value of plain functions and stay uninterpreted. The hashing round trip (a digest verifies against its own password) is an explicit hypothesis, `HashRoundTrip`, and only the end-to-end lemma uses it.
- The uuid and creation-time default factories are parameters (`newId`, `now`).
- Route outcomes are the datatype `AuthError`:
  - `EmailAlreadyRegistered` (the 400 exception);
  - `InvalidCredentials` (the 401 exception);
  - `Unhandled(cause)` for a database exception the routes do not catch. This is `MultipleResultsFound` from `scalar_one_or_none`, or `IntegrityError` from a commit that violates a constraint.

The routes have no handler for a failed commit. A constraint violation at commit time therefore surfaces as `Unhandled(IntegrityError)`, not as "Email already registered". In sequential use only a repeated id causes it (`SignupIdCollision`).

Unknown role strings are refused by the enum's own parsing, `RoleFromValue`.

## Model

| member | source | states |
|---|---|---|
| Models.RoleFromValue | backend/src/models/auth.py:7-9 | a string names a role exactly when it is "user" or "admin", and the role found has that string as its value |
| Models.Role.Value | backend/src/models/auth.py:7-9 | the enum member's `.value`, read by the routes when they build claims and answers; its round trip with parsing is `RoleValueRoundTrip` |
| Models.RoleValueRoundTrip | backend/src/models/auth.py:7-9 | every role's value parses back to that role; only "user" and "admin" parse at all |
| Models.NewAuthRoleDefaultsToUser | backend/src/models/auth.py:17 | a record built without a role has role `user`, value "user" |
| Models.NewAuth | backend/src/models/auth.py:12-17 | the `Auth(...)` constructor as the signup route calls it (routes/auth.py:34-38): the id and creation time come from the default factories, and the role defaults to `user` (see `NewAuthRoleDefaultsToUser`) |
| Models.SameEmailSameRow | backend/src/models/auth.py:16 | in a table with unique emails, two stored rows with the same email are the same row |
| Models.InsertPreservesInvariant | backend/src/models/auth.py:13-16 | inserting a row whose id and email are both new keeps ids and emails unique and adds exactly that email and that id |
| Table.SelectByEmail | backend/src/routes/auth.py:28 | a row is in the result exactly when it is stored and has that email; the result is empty exactly when the email is not stored |
| Table.SelectByEmailAtMostOne | backend/src/models/auth.py:16 | with unique emails the email query returns at most one row |
| Table.ScalarOneOrNone | backend/src/routes/auth.py:29 | no row gives none, exactly one row gives that row, and more than one row raises `MultipleResultsFound` |
| Table.LookupEmail | backend/src/routes/auth.py:28-29 | the email lookup both routes start with (also lines 65-66): the query followed by `scalar_one_or_none()`; what it yields under the table invariant is `LookupEmailUnderInvariant` |
| Table.LookupEmailUnderInvariant | backend/src/routes/auth.py:28-29 | under the table invariant `scalar_one_or_none` never raises; it finds nothing exactly when the email is unknown, otherwise the stored row with that email |
| Table.GetById | backend/src/routes/auth.py:42 | the reload by primary key finds a stored row with that id, and finds nothing exactly when no row has it |
| Table.GetByIdFindsRow | backend/src/models/auth.py:13 | with unique ids, reloading a stored row by its id gives back that row |
| Table.AuthTable.Commit | backend/src/routes/auth.py:40-41 | the commit succeeds exactly when the constraints admit the row; it then appends just that row, otherwise the table is unchanged; the invariant is kept |
| Routes.AuthError.Detail | backend/src/routes/auth.py:31 | the `detail` text of each HTTP exception identifies it: "Email already registered" exactly for the duplicate-email error (line 31), "Invalid credentials" exactly for the credentials error (line 68) |
| Routes.IssueResponse | backend/src/routes/auth.py:45-54 | the answer carries the row's id and a role string that parses back to the row's role; its token is issued for claims equal to the answer's id and role, with window `AccessTokenExpireMinutes` |
| Routes.SignupOutcome | backend/src/routes/auth.py:20-54 | a failed signup leaves the table unchanged and is never `InvalidCredentials`. A successful one appends exactly one row, which the constraints admitted; that row holds the requested email and role, the new id and the password's digest, and the answer is issued for it |
| Routes.SigninOutcome | backend/src/routes/auth.py:60-80 | signin fails only with `InvalidCredentials` or the lookup's multiple-rows error. On success the answer is issued for a stored row with that email whose digest verifies the password |
| Routes.Signup | backend/src/routes/auth.py:20-54 | the answer and the new table are those of `SignupOutcome` on the old table; the invariant is kept |
| Routes.Signin | backend/src/routes/auth.py:60-80 | the answer is `SigninOutcome` on the unchanged table; its only handled failure is `InvalidCredentials` |
| Routes.SignupDuplicateEmail | backend/src/routes/auth.py:28-31 | an email already stored is refused with `EmailAlreadyRegistered` and the table is unchanged |
| Routes.SignupFreshEmail | backend/src/routes/auth.py:33-54 | a fresh email with a fresh id appends exactly one row: the email, the password's digest, the role, the id and the time. Earlier rows are unchanged. The answer has that id, the role's value and a token for claims {id, role} with a 60-minute window |
| Routes.SignupIdCollision | backend/src/routes/auth.py:40-41 | a repeated id makes the commit fail with an unhandled `IntegrityError`, not `EmailAlreadyRegistered`, and nothing is stored |
| Routes.SignupDefaultRole | backend/src/routes/auth.py:24 | a signup without a role that succeeds stores role `user` and answers "user" |
| Routes.SignupPreservesInvariant | backend/src/routes/auth.py:20-54 | any signup keeps unique ids and emails and never hits the multiple-rows error. On success it appends one row and keeps the earlier ones; on failure the table is unchanged |
| Routes.GetByIdAfterSignup | backend/src/routes/auth.py:40-45 | after a successful signup, the row with the returned id is the new account, which is what `refresh` reloads |
| Routes.SignupTwiceSameEmail | backend/src/routes/auth.py:28-42 | signing the same email up twice: the first call succeeds, the second gets `EmailAlreadyRegistered`, and exactly one row holds the email |
| Routes.SigninSucceedsIff | backend/src/routes/auth.py:65-80 | signin succeeds iff a stored row has the email and its digest verifies the password. It then answers that row's id, its role's value and a token for claims {id, role} with a 60-minute window; every failure is `InvalidCredentials` |
| Routes.SigninFailuresIndistinguishable | backend/src/routes/auth.py:65-68 | an unknown email and a wrong password for a known email get the identical `InvalidCredentials` outcome |
| Routes.SignupThenSignin | backend/src/routes/auth.py:20-80 | if digests verify their own password, a fresh signup succeeds with the new id and the role's value. Signin with the same password then answers the same id and role and a token for those claims with the 60-minute window; any password the new digest does not verify is refused with `InvalidCredentials` |

## Left out

- Password hashing internals: salting, cost and constant-time comparison are not modelled. `hash_password` is one fixed function, so hashing the same password twice gives the same digest here.
- Token internals: `create_access_token` reads the clock and signs. It is modelled as a function of the claims and the window only, so two tokens for the same claims are equal here. Token verification and decoding happen outside these routes and are not part of this model.
- HTTP status codes (400, 401) and transport: outcomes are `AuthError` values. `AuthError.Detail` keeps the two `detail` texts.
- Concurrency: two signups racing for the same email are not modelled. Requests run one at a time, so the email check always sees the committed rows.
- `session.refresh` is not a separate step. It reloads the row just committed, whose columns are those of the new record (`GetByIdAfterSignup`).
- Session and engine wiring (`backend/src/database.py`), app bootstrap and the `/ping` endpoint (`backend/src/main.py`), and the frontend files carry no credential logic.
- uuid randomness and the `datetime.utcnow` clock are parameters, not modelled.
