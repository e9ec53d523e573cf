/** The user request handlers. Each is a fixed chain of guards that fail
    fast: the validation gate, then the handler's own checks, then the
    principal and role guards, then exactly one call to the user store. The
    guard chain of each handler is a decision function; the handler method
    runs it and, when it lets the request through, makes the one store call. */
module UserController {
  import opened Types
  import opened Validation
  import opened EmailRegex
  import opened UserModel

  /** Where a guard chain ends: an error forwarded to the responder, or the
      store call it lets through, with that call's argument. */
  datatype Decision<C> = Reject(message: string, status: int) | Proceed(call: C)

  /** The body of a create request (`Omit<User, 'user_id'>`). */
  datatype UserInput = UserInput(user_name: string, email: string, password: string, role: Option<string>)

  /** The role guard of `userPut` and `userDelete`: a principal is present and
      is not an admin. An absent principal does not trip it. */
  predicate NotAdmin(principal: Option<Principal>) {
    principal.Some? && principal.value.role != AdminRole
  }

  /** The principal guard of the "current user" handlers: the id a present
      principal carries, if any. */
  function OwnId(principal: Option<Principal>): (r: Option<int>)
    ensures r.Some? <==> principal.Some? && principal.value.user_id.Some?
    ensures r.Some? ==> r.value == principal.value.user_id.value
  {
    if principal.Some? then principal.value.user_id else None
  }

  /** `userPost` up to the store call: validation gate, then username,
      email and password checks in that order; the record passed on is the
      body with `user_id` 0 and the password hashed. */
  function PostDecision(errors: seq<ValidationError>, body: UserInput, hash: string -> string): (d: Decision<NewUser>)
    ensures errors != [] ==> d == Reject(Messages(errors), BadRequest)
    ensures errors == [] && |body.user_name| < 3 ==> d == Reject("Invalid username", BadRequest)
    ensures errors == [] && |body.user_name| >= 3 && !EmailValid(body.email) ==>
              d == Reject("Invalid email", BadRequest)
    ensures errors == [] && |body.user_name| >= 3 && EmailValid(body.email) && |body.password| < 5 ==>
              d == Reject("Invalid password", BadRequest)
    ensures d.Proceed? <==> errors == [] && |body.user_name| >= 3 && EmailValid(body.email) && |body.password| >= 5
    ensures d.Proceed? ==> d.call == NewUser(0, body.user_name, body.email, hash(body.password), body.role)
  {
    if errors != [] then Reject(Messages(errors), BadRequest)
    else if |body.user_name| < 3 then Reject("Invalid username", BadRequest)
    else if !EmailValid(body.email) then Reject("Invalid email", BadRequest)
    else if |body.password| < 5 then Reject("Invalid password", BadRequest)
    else Proceed(NewUser(0, body.user_name, body.email, hash(body.password), body.role))
  }

  /** `userPut` and `userDelete` up to the store call; `invalid` is the
      handler's validation-gate error. The target is the path id. */
  function AdminDecision(errors: seq<ValidationError>, invalid: string, principal: Option<Principal>, id: int): (d: Decision<int>)
    ensures errors != [] ==> d == Reject(invalid, BadRequest)
    ensures errors == [] && NotAdmin(principal) ==> d == Reject("Admin only", Forbidden)
    ensures d.Proceed? <==> errors == [] && !NotAdmin(principal)
    ensures d.Proceed? ==> d.call == id
  {
    if errors != [] then Reject(invalid, BadRequest)
    else if NotAdmin(principal) then Reject("Admin only", Forbidden)
    else Proceed(id)
  }

  /** `userPutCurrent` and `userDeleteCurrent` up to the store call: the
      target is always the principal's own id. */
  function CurrentDecision(errors: seq<ValidationError>, principal: Option<Principal>): (d: Decision<int>)
    ensures errors != [] ==> d == Reject(Messages(errors), BadRequest)
    ensures errors == [] && OwnId(principal).None? ==> d == Reject("User missing", BadRequest)
    ensures d.Proceed? <==> errors == [] && principal.Some? && principal.value.user_id.Some?
    ensures d.Proceed? ==> d.call == principal.value.user_id.value
  {
    if errors != [] then Reject(Messages(errors), BadRequest)
    else match OwnId(principal)
      case None => Reject("User missing", BadRequest)
      case Some(id) => Proceed(id)
  }

  /** `checkToken`: the principal unchanged, or 'token not valid' (403). */
  function CheckToken(principal: Option<Principal>): (r: Outcome<Principal>)
    ensures r.Err? <==> principal.None?
    ensures r.Err? ==> r == Err("token not valid", Forbidden)
    ensures r.Ok? ==> r.body == principal.value
  {
    match principal
    case None => Err("token not valid", Forbidden)
    case Some(p) => Ok(p)
  }

  method UserListGet(store: UserStore) returns (r: Outcome<seq<UserView>>)
    requires store.Valid()
    ensures r == AllUsers(store.rows, store.nextId)
  {
    r := store.GetAllUsers();
  }

  /** `userGet`: no validation gate, straight to the store. */
  method UserGet(store: UserStore, id: int) returns (r: Outcome<UserView>)
    ensures r == FindUser(store.rows, id)
  {
    r := store.GetUser(id);
  }

  method UserPost(store: UserStore, errors: seq<ValidationError>, body: UserInput, hash: string -> string)
    returns (r: Outcome<MessageResponse>)
    requires store.Valid()
    modifies store
    ensures store.Valid()
    ensures PostDecision(errors, body, hash).Reject? ==>
              && r == Err(PostDecision(errors, body, hash).message, PostDecision(errors, body, hash).status)
              && unchanged(store)
    ensures PostDecision(errors, body, hash).Proceed? ==>
              && r == Ok(MessageResponse("User added", Some(old(store.nextId))))
              && store.rows == old(store.rows)[old(store.nextId) := Stored(old(store.nextId), PostDecision(errors, body, hash).call)]
              && store.nextId == old(store.nextId) + 1
  {
    var d := PostDecision(errors, body, hash);
    if d.Reject? {
      return Err(d.message, d.status);
    }
    r := store.AddUser(d.call);
  }

  method UserPut(store: UserStore, errors: seq<ValidationError>, principal: Option<Principal>, id: int, data: UserPatch)
    returns (r: Outcome<MessageResponse>)
    requires store.Valid()
    modifies store
    ensures store.Valid()
    ensures AdminDecision(errors, Messages(errors), principal, id).Reject? ==>
              && r == Err(AdminDecision(errors, Messages(errors), principal, id).message,
                          AdminDecision(errors, Messages(errors), principal, id).status)
              && unchanged(store)
    ensures AdminDecision(errors, Messages(errors), principal, id).Proceed? ==>
              && r == WriteOutcome(old(store.rows), id, Updated, NoneUpdated)
              && store.rows == UpdatedTable(old(store.rows), data, id) && store.nextId == old(store.nextId)
  {
    var d := AdminDecision(errors, Messages(errors), principal, id);
    if d.Reject? {
      return Err(d.message, d.status);
    }
    r := store.UpdateUser(data, d.call);
  }

  method UserPutCurrent(store: UserStore, errors: seq<ValidationError>, principal: Option<Principal>, data: UserPatch)
    returns (r: Outcome<MessageResponse>)
    requires store.Valid()
    modifies store
    ensures store.Valid()
    ensures CurrentDecision(errors, principal).Reject? ==>
              && r == Err(CurrentDecision(errors, principal).message, CurrentDecision(errors, principal).status)
              && unchanged(store)
    ensures CurrentDecision(errors, principal).Proceed? ==>
              var id := CurrentDecision(errors, principal).call;
              && r == WriteOutcome(old(store.rows), id, Updated, NoneUpdated)
              && store.rows == UpdatedTable(old(store.rows), data, id) && store.nextId == old(store.nextId)
  {
    var d := CurrentDecision(errors, principal);
    if d.Reject? {
      return Err(d.message, d.status);
    }
    r := store.UpdateUser(data, d.call);
  }

  /** `userDelete`: its validation gate reports the fixed 'Invalid input'. */
  method UserDelete(store: UserStore, errors: seq<ValidationError>, principal: Option<Principal>, id: int)
    returns (r: Outcome<MessageResponse>)
    requires store.Valid()
    modifies store
    ensures store.Valid()
    ensures AdminDecision(errors, "Invalid input", principal, id).Reject? ==>
              && r == Err(AdminDecision(errors, "Invalid input", principal, id).message,
                          AdminDecision(errors, "Invalid input", principal, id).status)
              && unchanged(store)
    ensures AdminDecision(errors, "Invalid input", principal, id).Proceed? ==>
              && r == WriteOutcome(old(store.rows), id, Deleted, NoneDeleted)
              && store.rows == DeletedTable(old(store.rows), id) && store.nextId == old(store.nextId)
  {
    var d := AdminDecision(errors, "Invalid input", principal, id);
    if d.Reject? {
      return Err(d.message, d.status);
    }
    r := store.DeleteUser(d.call);
  }

  method UserDeleteCurrent(store: UserStore, errors: seq<ValidationError>, principal: Option<Principal>)
    returns (r: Outcome<MessageResponse>)
    requires store.Valid()
    modifies store
    ensures store.Valid()
    ensures CurrentDecision(errors, principal).Reject? ==>
              && r == Err(CurrentDecision(errors, principal).message, CurrentDecision(errors, principal).status)
              && unchanged(store)
    ensures CurrentDecision(errors, principal).Proceed? ==>
              var id := CurrentDecision(errors, principal).call;
              && r == WriteOutcome(old(store.rows), id, Deleted, NoneDeleted)
              && store.rows == DeletedTable(old(store.rows), id) && store.nextId == old(store.nextId)
  {
    var d := CurrentDecision(errors, principal);
    if d.Reject? {
      return Err(d.message, d.status);
    }
    r := store.DeleteUser(d.call);
  }

  /** Every way `userPost` can fail before the store is a 400, and the email
      check it applies is exactly the regex test. */
  lemma PostRejectionsAre400(errors: seq<ValidationError>, body: UserInput, hash: string -> string)
    ensures PostDecision(errors, body, hash).Reject? ==> PostDecision(errors, body, hash).status == BadRequest
    ensures errors == [] && |body.user_name| >= 3 ==>
              (PostDecision(errors, body, hash) == Reject("Invalid email", BadRequest) <==> !RegexTest(body.email))
  {
    EmailValidIsRegexTest(body.email);
  }

  /** A user name of length 2 is refused; length 3 with a regex-matching
      email and a password of 5 characters reaches the store. */
  lemma PostBoundaries(hash: string -> string)
    ensures PostDecision([], UserInput("ab", "a@b.c", "secret", None), hash) == Reject("Invalid username", BadRequest)
    ensures PostDecision([], UserInput("abc", "a@b.c", "12345", None), hash).Proceed?
  {
    assert AcceptedAt("a@b.c", 1, 3);
  }

  /** A body without an email is tested as the string "undefined", which
      has no `@`: once the user name passes, the reply is 'Invalid email'. */
  lemma MissingEmailIsInvalid(body: UserInput, hash: string -> string)
    requires |body.user_name| >= 3 && body.email == "undefined"
    ensures PostDecision([], body, hash) == Reject("Invalid email", BadRequest)
  {
    forall p | 0 <= p < |body.email| ensures body.email[p] != '@' {
    }
  }

  /** The record `userPost` stores never carries the plain password when the
      hash changes it, and whatever role the client sends is dropped. */
  lemma PostStoresHashAndDefaultRole(errors: seq<ValidationError>, body: UserInput, hash: string -> string, id: int)
    requires PostDecision(errors, body, hash).Proceed?
    ensures Stored(id, PostDecision(errors, body, hash).call).password == hash(body.password)
    ensures Stored(id, PostDecision(errors, body, hash).call).role == DefaultRole
  {
  }

  /** Which status each guard of `userPut` and `userDelete` gives: a
      rejection is a 400 exactly when validation failed and a 403 exactly
      when a non-admin principal is present. */
  lemma AdminStatuses(errors: seq<ValidationError>, invalid: string, principal: Option<Principal>, id: int)
    ensures AdminDecision(errors, invalid, principal, id).Reject? ==>
              (AdminDecision(errors, invalid, principal, id).status == BadRequest <==> errors != [])
    ensures AdminDecision(errors, invalid, principal, id).Reject? ==>
              (AdminDecision(errors, invalid, principal, id).status == Forbidden <==> errors == [] && NotAdmin(principal))
  {
  }

  /** A non-admin is refused whatever the target id, their own included,
      while an anonymous request passes the role guard. */
  lemma AdminOnlyForAnyTarget(errors: seq<ValidationError>, invalid: string, uid: int, role: string, id: int)
    requires errors == [] && role != AdminRole
    ensures AdminDecision(errors, invalid, Some(Principal(Some(uid), role)), id) == Reject("Admin only", Forbidden)
    ensures AdminDecision(errors, invalid, Some(Principal(Some(uid), role)), uid) == Reject("Admin only", Forbidden)
    ensures AdminDecision(errors, invalid, None, id) == Proceed(id)
  {
  }

  /** The "current user" handlers reach the store only for the principal's
      own id, and a missing principal is a 400, never the 403 of the role
      guard. */
  lemma CurrentTargetsSelf(errors: seq<ValidationError>, principal: Option<Principal>)
    ensures CurrentDecision(errors, principal).Proceed? ==>
              principal.Some? && principal.value.user_id == Some(CurrentDecision(errors, principal).call)
    ensures CurrentDecision(errors, principal).Reject? ==> CurrentDecision(errors, principal).status == BadRequest
  {
  }
}
