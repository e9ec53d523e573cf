# Users-and-cats request pipeline, modelled in Dafny

The service manages user accounts and cat records over HTTP. This project
models its request decision pipeline: each handler runs a fixed chain of
guards that fail fast, then makes at most one store call. The model covers
the validation gate and its error messages, `userPost`'s field checks
(including the email regex), the role and principal guards, and how the
record passed to the store is built. It also covers the user table: each
operation is one statement whose outcome is read from a row count or an
affected-row count.

Modules, one per source file plus two shared ones:

- `Types` (`types.dfy`): `Option`, `Outcome = Ok(body) | Err(message, status)`,
  `MessageResponse`, `Principal`.
- `Validation` (`validation.dfy`): aggregation of validator errors into one
  message. Each error becomes `msg: param` and the entries are joined by `, `.
- `EmailRegex` (`email_regex.dfy`): the unanchored `/\S+@\S+\.\S+/` test.
  It is defined as a regex semantics (some substring splits into three `\S+`
  runs around an `@` and a later `.`). An executable index check is proved
  equal to it.
- `UserModel` (`user_model.dfy`): the `sssf_user` table as a class
  `UserStore` with a `map<int, UserRow>` and a fresh-id counter. Each
  operation is a method. Its new state and reply are tied to functions of the
  old table, and the lemmas are stated about those functions.
- `UserController` (`user_controller.dfy`): each handler's guard chain is a
  decision function (`Reject(message, status)` or `Proceed(argument)`). The
  handler method runs the decision and then makes the one store call. In the
  `Reject` branch the store is `unchanged`.
- `CatController` (`cat_controller.dfy`): the cat store's code is not part of
  this model. It is an abstract repository: a record of five functions about
  which nothing is assumed except their types. Each handler is a function
  that returns its outcome together with the log of repository calls it
  made. "No call behind a failed guard" therefore means an empty log.

Inputs from outside the core are parameters:

- the validator's result: a list of `(msg, param)` pairs;
- the principal: `Option<Principal>`;
- the uploaded file: `Option<Upload>`;
- the coordinate pair;
- the password hash: a function `hash: string -> string`.

Consequences of the code that are easy to miss:

- Updating or deleting a user by id is not admin-only. A present non-admin
  principal gets 403, and an absent principal passes the role guard
  (`AdminDecision`, `AdminOnlyForAnyTarget`).
- `catPost` has no principal guard. Without a principal, destructuring
  `req.user` throws; the model maps that to a generic internal error, still
  after the validation and file guards (`CatPost`).
- The update's affected-row count is the number of matched rows (the
  found-rows behaviour of the mysql2 driver), so an update that changes
  nothing still answers 'User updated'. Only an absent id gives
  'No users updated' (`WriteOutcome`, `UserModel.UserStore.UpdateUser`).
- `catPut` and `catDelete` check no principal and no ownership at all
  (`NoAuthorizationOnCatWrites`).

## Model

| member | source | states |
|---|---|---|
| `Validation.JoinAppend` | src/api/controllers/userController.ts:50-53 | joining a concatenation of two non-empty lists is the two joins glued by the separator |
| `Validation.MessagesOne` | src/api/controllers/userController.ts:50-53 | the message of one validator error is exactly `msg: param` |
| `Validation.MessagesAppend` | src/api/controllers/userController.ts:50-53 | the message of two groups of errors is their messages joined by `, `: every error is reported, in order |
| `Validation.MessagesCons` | src/api/controllers/catController.ts:30-33 | the message starts with the first error's `msg: param`, then `, ` and the rest's message |
| `Validation.MessagesNonEmpty` | src/api/controllers/catController.ts:55-58 | a failed validation gate never reports an empty message |
| `EmailRegex.EmailValidIsRegexTest` | src/api/controllers/userController.ts:60-69 | the executable check (non-space before `@`, non-empty space-free run up to a later `.`, non-space after it) accepts exactly the strings in which some substring matches `\S+@\S+\.\S+` |
| `EmailRegex.ShortestMatch` | src/api/controllers/userController.ts:60 | a position pair accepted by the executable check gives a matching substring |
| `EmailRegex.MatchGivesWitness` | src/api/controllers/userController.ts:60 | a matching substring gives a position pair the executable check accepts |
| `UserModel.Listing` | src/api/models/userModel.ts:8-13 | the scan holds exactly the projections of the rows below the bound, each once; its ascending id order is the model's choice, since the query has no `ORDER BY` |
| `UserModel.AllUsers` | src/api/models/userModel.ts:7-18 | an empty table is 'No users found' 404 (never an empty list); otherwise every row appears, projected to a type without password, every element is the projection of a row, and no id appears twice; no order is promised |
| `UserModel.FindUser` | src/api/models/userModel.ts:20-33 | succeeds iff the id is present, with that row's projection; otherwise 'No users found' 404 |
| `UserModel.UpdatedTable` | src/api/models/userModel.ts:51-59 | an update changes at most the row with that id, whose named columns take the patch's values while the others and the id keep theirs; an absent id leaves the table as it was; the key set never changes |
| `UserModel.WriteOutcome` | src/api/models/userModel.ts:60-75 | the reply of an update or delete is its success message iff the id is present, otherwise its error ('No users updated' / 'No users deleted') with 400 |
| `UserModel.DeletedTable` | src/api/models/userModel.ts:66-71 | a delete removes exactly that id and keeps every other row as it was |
| `UserModel.UserStore.GetAllUsers` | src/api/models/userModel.ts:7-18 | the list operation's reply is `AllUsers` of the current table |
| `UserModel.UserStore.GetUser` | src/api/models/userModel.ts:20-33 | the get operation's reply is `FindUser` of the current table |
| `UserModel.UserStore.AddUser` | src/api/models/userModel.ts:35-48 | inserts under a fresh id (one not in the table), advances the counter, keeps the invariant, and replies 'User added' with that id |
| `UserModel.UserStore.UpdateUser` | src/api/models/userModel.ts:51-64 | the new table is `UpdatedTable` of the old one and the reply is `WriteOutcome` with 'User updated' / 'No users updated'; the counter is unchanged |
| `UserModel.UserStore.DeleteUser` | src/api/models/userModel.ts:66-76 | the new table is `DeletedTable` of the old one and the reply is `WriteOutcome` with 'User deleted' / 'No users deleted'; the counter is unchanged |
| `UserModel.UserStore.GetUserLogin` | src/api/models/userModel.ts:78-90 | fails iff no row has that email, with 'Invalid username/password' and status 200; otherwise returns a full row (password included) of the table with that email |
| `UserModel.FreshId` | src/api/models/userModel.ts:46 | the id the insert generates is not in use |
| `UserModel.AddThenGet` | src/api/models/userModel.ts:20-48 | on any table, the empty one included, fetching a just-created user by its id gives the name and email sent, the default role and no password; every other id reads as before |
| `UserModel.DeleteTwice` | src/api/models/userModel.ts:66-76 | after a delete the id reads as 404, and deleting or updating it again is the same 400 as for an id that never existed |
| `UserModel.UpdateIdempotent` | src/api/models/userModel.ts:51-64 | applying the same patch twice gives the table of applying it once |
| `UserModel.WritesKeepInvariant` | src/api/models/userModel.ts:35-76 | insert, update and delete keep every row under its own id and every id within the generated range |
| `UserController.OwnId` | src/api/controllers/userController.ts:138-144 | gives an id iff a principal is present and carries a `user_id`, and then that id |
| `UserController.PostDecision` | src/api/controllers/userController.ts:48-80 | validation errors win with their message and 400; then username length < 3, then email check, then password length < 5, each a 400 with its fixed message; it proceeds iff all pass, with `user_id` 0, the body's fields and the hashed password |
| `UserController.AdminDecision` | src/api/controllers/userController.ts:95-113 | validation errors give the handler's message and 400; otherwise a present non-admin principal gives 'Admin only' 403; it proceeds iff neither, always with the path id |
| `UserController.CurrentDecision` | src/api/controllers/userController.ts:126-144 | validation errors give their message and 400; otherwise a missing principal or missing `user_id` gives 'User missing' 400; it proceeds iff neither, with the principal's own id |
| `UserController.CheckToken` | src/api/controllers/userController.ts:202-208 | fails iff there is no principal, with 'token not valid' 403; otherwise returns the principal unchanged |
| `UserController.UserListGet` | src/api/controllers/userController.ts:16-27 | the handler's reply is the store's list reply, unchanged |
| `UserController.UserGet` | src/api/controllers/userController.ts:29-41 | no gate; the handler's reply is the store's reply for the path id |
| `UserController.UserPost` | src/api/controllers/userController.ts:43-88 | a rejected request leaves the store unchanged and returns the guard's error; otherwise exactly the insert of the built record happens and its reply is returned unchanged |
| `UserController.UserPut` | src/api/controllers/userController.ts:90-119 | a rejected request leaves the store unchanged; otherwise the one update of the path id happens and its reply is returned |
| `UserController.UserPutCurrent` | src/api/controllers/userController.ts:121-150 | a rejected request leaves the store unchanged; otherwise the one update of the principal's own row happens |
| `UserController.UserDelete` | src/api/controllers/userController.ts:152-172 | validation errors give the fixed 'Invalid input' 400 and delete nothing; a rejected request leaves the store unchanged; otherwise the one delete of the path id happens |
| `UserController.UserDeleteCurrent` | src/api/controllers/userController.ts:174-200 | a rejected request leaves the store unchanged; otherwise the one delete of the principal's own row happens |
| `UserController.PostRejectionsAre400` | src/api/controllers/userController.ts:55-72 | every `userPost` rejection is a 400, and once the username passes, 'Invalid email' is returned iff the regex test fails |
| `UserController.PostBoundaries` | src/api/controllers/userController.ts:61-74 | a username of length 2 is refused; length 3 with a valid email and a 5-character password reaches the store |
| `UserController.MissingEmailIsInvalid` | src/api/controllers/userController.ts:66-69 | a missing email, which the regex tests as the string "undefined", gives 'Invalid email' 400 once the user name passes |
| `UserController.PostStoresHashAndDefaultRole` | src/api/controllers/userController.ts:76-82 | the stored row holds the hash of the password and the default role, whatever role the client sent |
| `UserController.AdminStatuses` | src/api/controllers/userController.ts:95-109 | a rejection of `userPut`/`userDelete` is 400 iff validation failed and 403 iff a non-admin principal is present |
| `UserController.AdminOnlyForAnyTarget` | src/api/controllers/userController.ts:162-164 | a non-admin is refused for any id, their own included; an anonymous request passes the role guard |
| `UserController.CurrentTargetsSelf` | src/api/controllers/userController.ts:191-194 | the "current" handlers reach the store only with the principal's own id, and every rejection is a 400 |
| `CatController.CatRecord` | src/api/controllers/catController.ts:67-88 | the record has the body's keys plus owner, filename, lat, lng, user_id, role and cat_id. Owner and user_id are the principal's id, role is the principal's role, filename is the upload's, lat/lng are the coordinates, and cat_id is the body's (or undefined). Every other body field is kept |
| `CatController.CatGet` | src/api/controllers/catController.ts:27-46 | validation errors give 400 and no call; otherwise one get call with the path id, its reply unchanged |
| `CatController.CatPost` | src/api/controllers/catController.ts:48-95 | validation errors give 400 and no call. A missing file gives 'File is missing' 400 and no call. A missing principal is an error with no call. A call is made iff all three pass: one add call with the built record, its reply unchanged |
| `CatController.CatPut` | src/api/controllers/catController.ts:97-120 | validation errors give 400 and no call; otherwise one update call with the body and path id, its reply unchanged |
| `CatController.CatDelete` | src/api/controllers/catController.ts:122-144 | validation errors give 400 and no call; otherwise one delete call with the path id, answered 'Cat deleted' whatever the repository replied on success, and its error passed on otherwise |
| `CatController.ValidationBlocksEveryCall` | src/api/controllers/catController.ts:28-136 | with validation errors, the get, post, put and delete handlers make no call and give the aggregated message with 400, whatever the repository |
| `CatController.FileRequired` | src/api/controllers/catController.ts:64-66 | a create request without a file is a 400 with no call, whatever the body, principal or repository |
| `CatController.RecordIgnoresOverridden` | src/api/controllers/catController.ts:80-86 | a body value in a field the record overrides does not change the record |
| `CatController.OwnerAndSideInputsOverrideBody` | src/api/controllers/catController.ts:67-90 | forging the body's owner, filename, lat and lng does not change the call `catPost` makes |
| `CatController.NoAuthorizationOnCatWrites` | src/api/controllers/catController.ts:112-143 | the principal, present or absent, does not change what `catPut` or `catDelete` do |
| `CatController.AtMostOneCall` | src/api/controllers/catController.ts:14-143 | every cat handler makes at most one repository call; the list handler (no gate) makes exactly one and returns its list or error unchanged |

## Left out

- Password hashing and salt generation: bcrypt is a foreign library. The hash is a function parameter about which nothing is assumed.
- The validator's rule definitions: the routes that declare them are not part of this model. The validator's result is an input list of `(msg, param)` pairs.
- SQL text, the connection pool, statement formatting, async/await and connection handling. The table is an in-memory map.
- Storage constraints and storage errors (uniqueness of email and name, connection failures). The code forwards these as thrown errors, and the schema is not part of this model.
- UserModel.UserStore.AddUser: the 'No users added' 400 branch is not modelled. An in-memory insert always affects one row, and a real insert either affects one row or throws a storage error.
- UserModel.UpdatedTable: the update takes a patch restricted to the four known columns instead of an open field map. An id in the body (which would move the row) and unknown keys are not modelled. An empty patch, which the database rejects as malformed SQL, is modelled as a no-op on an existing row.
- UserModel.UserStore.GetUserLogin: emails are compared exactly. `WHERE email = ?` compares under the column's collation, which is case-insensitive by MySQL's defaults; the schema and its collation are not part of this model. When several rows match, the model may return any of them; which one the storage returns first is not modelled.
- Path ids are integers. `userPut` passes the raw id string, which the database coerces to a number; the model takes it as that integer. `Number(...)` giving NaN (which the statement formatter writes as a bare `NaN`, a storage error) and fractional ids are not modelled.
- UserController.PostDecision: lengths are counted in Unicode scalar values, not JavaScript's UTF-16 code units, so they differ for characters outside the Basic Multilingual Plane. A body missing the user name or the password (reading `.length` of undefined throws) is not modelled. A missing email is not a crash: the regex tests the string "undefined" and the reply is 'Invalid email' (`MissingEmailIsInvalid`).
- CatController.CatPost: without a principal the JavaScript destructuring throws. The model reports this as a generic error with message 'internal error' and status 500. The real message and status come from the central error responder, which is not part of this model. A missing coordinate pair (another crash) is not modelled: the pair is always given.
- The cat store's implementation: the repository is abstract, and its replies are arbitrary values of their types. So its own error semantics are not modelled: what an empty list or a zero-row write gives, and whether deleting a missing cat and deleting an already-deleted one fail alike.
- Logging, and the unreachable statements after each `throw` in `userPost`.
- Transport: the JSON responder, the `next` callback, the error class and HTTP serialization. Concurrency between requests is also left out.
