/** The user store: the `sssf_user` table as an in-memory map from `user_id`
    to row, with the auto-increment counter that generates fresh ids. Each
    operation is one statement; its outcome is read from the row count of a
    read or the affected-row count of a write. */
module UserModel {
  import opened Types

  /** The column default of `sssf_user.role`, used by the insert. */
  const DefaultRole := "user"

  /** A full row of the `sssf_user` table, password hash included. */
  datatype UserRow = UserRow(user_id: int, user_name: string, email: string, password: string, role: string)

  /** The projection the list and get queries select: every column but the
      password. */
  datatype UserView = UserView(user_id: int, user_name: string, email: string, role: string)

  /** The `User` object handed to `addUser`: the request body spread with
      `user_id: 0`. `role` is whatever the client sent, if anything. */
  datatype NewUser = NewUser(user_id: int, user_name: string, email: string, password: string, role: Option<string>)

  /** The partial record handed to `updateUser`: the columns to overwrite. */
  datatype UserPatch = UserPatch(
    user_name: Option<string>, email: Option<string>, password: Option<string>, role: Option<string>)

  type Table = map<int, UserRow>

  /** Every row is stored under its own `user_id`. */
  ghost predicate WellKeyed(t: Table) {
    forall id :: id in t ==> t[id].user_id == id
  }

  /** Every id in use is positive and below the next id to be generated. */
  ghost predicate Bounded(t: Table, next: int) {
    forall id :: id in t ==> 1 <= id < next
  }

  /** A row as the list and get queries return it. */
  function View(u: UserRow): UserView {
    UserView(u.user_id, u.user_name, u.email, u.role)
  }

  /** The projections of the rows with ids below n. The ascending id order
      is this model's choice: the query has no `ORDER BY`, and `AllUsers`
      promises no order. */
  function Listing(t: Table, n: nat): (r: seq<UserView>)
    requires WellKeyed(t)
    ensures forall i :: 0 <= i < |r| ==> r[i].user_id in t && 0 <= r[i].user_id < n && r[i] == View(t[r[i].user_id])
    ensures forall id :: id in t && 0 <= id < n ==> View(t[id]) in r
    ensures forall i, j :: 0 <= i < j < |r| ==> r[i].user_id < r[j].user_id
  {
    if n == 0 then []
    else Listing(t, n - 1) + (if n - 1 in t then [View(t[n - 1])] else [])
  }

  /** `getAllUsers`: every row projected without its password, or
      'No users found' (404) when the table is empty. */
  function AllUsers(t: Table, next: nat): (r: Outcome<seq<UserView>>)
    requires WellKeyed(t) && Bounded(t, next)
    ensures r.Err? <==> t == map[]
    ensures r.Err? ==> r == Err("No users found", NotFound)
    ensures r.Ok? ==> forall id :: id in t ==> View(t[id]) in r.body
    ensures r.Ok? ==> forall v :: v in r.body ==> v.user_id in t && v == View(t[v.user_id])
    ensures r.Ok? ==> forall i, j :: 0 <= i < j < |r.body| ==> r.body[i].user_id != r.body[j].user_id
  {
    if t == map[] then Err("No users found", NotFound)
    else
      var all := Listing(t, next);
      var id :| id in t;
      assert View(t[id]) in all;
      Ok(all)
  }

  /** `getUser(id)`: the row with that id without its password, or
      'No users found' (404). */
  function FindUser(t: Table, id: int): (r: Outcome<UserView>)
    ensures r.Ok? <==> id in t
    ensures r.Ok? ==> r.body == View(t[id])
    ensures r.Err? ==> r == Err("No users found", NotFound)
  {
    if id in t then Ok(View(t[id])) else Err("No users found", NotFound)
  }

  /** The row `addUser` inserts under id: only `user_name`, `email` and
      `password` come from the record; `role` is the column default. */
  function Stored(id: int, u: NewUser): UserRow {
    UserRow(id, u.user_name, u.email, u.password, DefaultRole)
  }

  /** A row after the update statement: the columns the patch names take its
      values, the others keep theirs. */
  function Patched(u: UserRow, p: UserPatch): UserRow {
    UserRow(u.user_id, p.user_name.GetOr(u.user_name), p.email.GetOr(u.email),
            p.password.GetOr(u.password), p.role.GetOr(u.role))
  }

  /** The table after `updateUser(p, id)`. */
  function UpdatedTable(t: Table, p: UserPatch, id: int): (t': Table)
    ensures t'.Keys == t.Keys
    ensures id in t ==> t'[id] == Patched(t[id], p)
    ensures forall k :: k in t && k != id ==> t'[k] == t[k]
  {
    if id in t then t[id := Patched(t[id], p)] else t
  }

  /** The reply of a write of the row with that id, `updateUser` or
      `deleteUser`: `done` when a row was affected, otherwise the error
      `none` (400). */
  function WriteOutcome(t: Table, id: int, done: string, none: string): (r: Outcome<MessageResponse>)
    ensures r.Ok? <==> id in t
    ensures r.Ok? ==> r.body == MessageResponse(done, None)
    ensures r.Err? ==> r == Err(none, BadRequest)
  {
    if id in t then Ok(MessageResponse(done, None)) else Err(none, BadRequest)
  }

  const Updated := "User updated"
  const NoneUpdated := "No users updated"
  const Deleted := "User deleted"
  const NoneDeleted := "No users deleted"

  /** The table after `deleteUser(id)`. */
  function DeletedTable(t: Table, id: int): (t': Table)
    ensures t'.Keys == t.Keys - {id}
    ensures forall k :: k in t' ==> t'[k] == t[k]
  {
    t - {id}
  }

  /** The in-memory `sssf_user` table. */
  class UserStore {
    var rows: Table
    var nextId: nat

    ghost predicate Valid()
      reads this
    {
      WellKeyed(rows) && Bounded(rows, nextId) && nextId >= 1
    }

    /** An empty table whose first generated id is 1. */
    constructor ()
      ensures Valid() && rows == map[] && nextId == 1
    {
      rows := map[];
      nextId := 1;
    }

    method GetAllUsers() returns (r: Outcome<seq<UserView>>)
      requires Valid()
      ensures r == AllUsers(rows, nextId)
    {
      r := AllUsers(rows, nextId);
    }

    method GetUser(userId: int) returns (r: Outcome<UserView>)
      ensures r == FindUser(rows, userId)
    {
      r := FindUser(rows, userId);
    }

    /** The insert: a new row of name, email and password under the next
        generated id, which the reply carries. */
    method AddUser(user: NewUser) returns (r: Outcome<MessageResponse>)
      requires Valid()
      modifies this
      ensures Valid()
      ensures old(nextId) !in old(rows)
      ensures rows == old(rows)[old(nextId) := Stored(old(nextId), user)]
      ensures nextId == old(nextId) + 1
      ensures r == Ok(MessageResponse("User added", Some(old(nextId))))
    {
      var id := nextId;
      rows := rows[id := Stored(id, user)];
      nextId := nextId + 1;
      r := Ok(MessageResponse("User added", Some(id)));
    }

    /** The update of the row with that id; the affected-row count is the
        number of matched rows. */
    method UpdateUser(data: UserPatch, userId: int) returns (r: Outcome<MessageResponse>)
      requires Valid()
      modifies this
      ensures Valid()
      ensures rows == UpdatedTable(old(rows), data, userId) && nextId == old(nextId)
      ensures r == WriteOutcome(old(rows), userId, Updated, NoneUpdated)
    {
      var affected := userId in rows;
      if !affected {
        return Err(NoneUpdated, BadRequest);
      }
      rows := rows[userId := Patched(rows[userId], data)];
      r := Ok(MessageResponse(Updated, None));
    }

    /** The delete of the row with that id. */
    method DeleteUser(userId: int) returns (r: Outcome<MessageResponse>)
      requires Valid()
      modifies this
      ensures Valid()
      ensures rows == DeletedTable(old(rows), userId) && nextId == old(nextId)
      ensures r == WriteOutcome(old(rows), userId, Deleted, NoneDeleted)
    {
      var affected := userId in rows;
      if !affected {
        return Err(NoneDeleted, BadRequest);
      }
      rows := rows - {userId};
      r := Ok(MessageResponse(Deleted, None));
    }

    /** The login lookup by email: a full row, password included, or
        'Invalid username/password' with status 200. Which of several rows
        with the same email comes first is left to storage. */
    method GetUserLogin(email: string) returns (r: Outcome<UserRow>)
      requires Valid()
      ensures r.Err? <==> forall id :: id in rows ==> rows[id].email != email
      ensures r.Err? ==> r == Err("Invalid username/password", 200)
      ensures r.Ok? ==> r.body.user_id in rows && rows[r.body.user_id] == r.body && r.body.email == email
    {
      if id :| id in rows && rows[id].email == email {
        r := Ok(rows[id]);
      } else {
        r := Err("Invalid username/password", 200);
      }
    }
  }

  /** The id `addUser` generates is never one already in use. */
  lemma FreshId(t: Table, next: int)
    requires Bounded(t, next)
    ensures next !in t
  {
  }

  /** Creating a user and fetching it by the returned id yields the
      projection of what was stored: the name and email sent, the default
      role, and no password. Rows stored earlier are unaffected. */
  lemma AddThenGet(t: Table, id: int, u: NewUser)
    ensures FindUser(t[id := Stored(id, u)], id) == Ok(UserView(id, u.user_name, u.email, DefaultRole))
    ensures forall other :: other != id ==> FindUser(t[id := Stored(id, u)], other) == FindUser(t, other)
  {
  }

  /** A deleted id is gone for good: reading it is a 404 and deleting or
      updating it again is the same 400 as for an id that never existed. */
  lemma DeleteTwice(t: Table, id: int, p: UserPatch)
    ensures FindUser(DeletedTable(t, id), id) == Err("No users found", NotFound)
    ensures WriteOutcome(DeletedTable(t, id), id, Deleted, NoneDeleted) == Err("No users deleted", BadRequest)
    ensures WriteOutcome(DeletedTable(t, id), id, Deleted, NoneDeleted) == WriteOutcome(map[], id, Deleted, NoneDeleted)
    ensures WriteOutcome(DeletedTable(t, id), id, Updated, NoneUpdated) == Err("No users updated", BadRequest)
  {
  }

  /** Applying the same patch twice is applying it once. */
  lemma UpdateIdempotent(t: Table, p: UserPatch, id: int)
    ensures UpdatedTable(UpdatedTable(t, p, id), p, id) == UpdatedTable(t, p, id)
  {
  }

  /** The table invariant survives every write. */
  lemma WritesKeepInvariant(t: Table, next: nat, u: NewUser, p: UserPatch, id: int)
    requires WellKeyed(t) && Bounded(t, next) && next >= 1
    ensures WellKeyed(t[next := Stored(next, u)]) && Bounded(t[next := Stored(next, u)], next + 1)
    ensures WellKeyed(UpdatedTable(t, p, id)) && Bounded(UpdatedTable(t, p, id), next)
    ensures WellKeyed(DeletedTable(t, id)) && Bounded(DeletedTable(t, id), next)
  {
  }
}
