/** The cat request handlers. The cat store's implementation is not part of
    this model: it is an abstract repository given as five functions, of
    which nothing is assumed but their types. Each handler returns its
    outcome together with the log of the repository calls it made, so that
    "no call behind a failed guard" and "exactly one call" are statements
    about that log. */
module CatController {
  import opened Types
  import opened Validation

  /** A JSON value of a request body or of a record built from it. `Undefined`
      is a key that is present with the value `undefined`. */
  datatype Value = Num(n: real) | Str(s: string) | Undefined

  /** A cat record or request body: field name to value. */
  type Fields = map<string, Value>

  /** What the upload middleware attaches as `req.file`. */
  datatype Upload = Upload(filename: string)

  /** The parts of a request the cat handlers read: the validator's errors,
      the principal, the path id after `Number(...)`, the body, the uploaded
      file and the `[lat, lng]` pair the geolocation middleware computed. */
  datatype CatRequest = CatRequest(
    errors: seq<ValidationError>,
    principal: Option<Principal>,
    id: int,
    body: Fields,
    file: Option<Upload>,
    coords: (real, real))

  /** The cat store, as the handlers see it. */
  datatype CatRepository = CatRepository(
    getAllCats: Outcome<seq<Fields>>,
    getCat: int -> Outcome<Fields>,
    addCat: Fields -> Outcome<MessageResponse>,
    updateCat: (Fields, int) -> Outcome<MessageResponse>,
    deleteCat: int -> Outcome<MessageResponse>)

  /** One call into the repository, with its arguments. */
  datatype CatCall = GetAllCats | GetCat(id: int) | AddCat(cat: Fields) | UpdateCat(cat: Fields, id: int) | DeleteCat(id: int)

  /** A handler's outcome and the repository calls it made. */
  datatype Handled<T> = Handled(outcome: Outcome<T>, calls: seq<CatCall>)

  /** The error a JavaScript exception other than `CustomError` reaches the
      responder as; its message and status are the responder's. */
  const InternalError := 500

  /** The outcome of the validation gate when it rejects: no call made. */
  function Invalid<T>(errors: seq<ValidationError>): Handled<T> {
    Handled(Err(Messages(errors), BadRequest), [])
  }

  function IdValue(id: Option<int>): Value {
    match id
    case Some(n) => Num(n as real)
    case None => Undefined
  }

  /** The record `catPost` builds by spreading the body and then setting the
      owner, the file, the coordinates, the principal's id and role, and
      `cat_id` from the body again (present as `undefined` when the body
      has none). */
  function CatRecord(body: Fields, p: Principal, file: Upload, coords: (real, real)): (cat: Fields)
    ensures cat.Keys == body.Keys + Overridden + {"cat_id"}
    ensures cat["owner"] == IdValue(p.user_id) && cat["user_id"] == IdValue(p.user_id)
    ensures cat["filename"] == Str(file.filename)
    ensures cat["lat"] == Num(coords.0) && cat["lng"] == Num(coords.1)
    ensures cat["role"] == Str(p.role)
    ensures cat["cat_id"] == if "cat_id" in body then body["cat_id"] else Undefined
    ensures forall k :: k in body && k !in Overridden && k != "cat_id" ==> cat[k] == body[k]
  {
    body + map[
      "owner" := IdValue(p.user_id),
      "filename" := Str(file.filename),
      "lat" := Num(coords.0),
      "lng" := Num(coords.1),
      "user_id" := IdValue(p.user_id),
      "role" := Str(p.role),
      "cat_id" := if "cat_id" in body then body["cat_id"] else Undefined]
  }

  /** `catListGet`: no gate; the repository's list or error unchanged. */
  function CatListGet(repo: CatRepository): Handled<seq<Fields>> {
    Handled(repo.getAllCats, [GetAllCats])
  }

  function CatGet(req: CatRequest, repo: CatRepository): (h: Handled<Fields>)
    ensures req.errors != [] ==> h == Invalid(req.errors)
    ensures req.errors == [] ==> h.calls == [GetCat(req.id)] && h.outcome == repo.getCat(req.id)
  {
    if req.errors != [] then Invalid(req.errors)
    else Handled(repo.getCat(req.id), [GetCat(req.id)])
  }

  /** `catPost`: gate, then the mandatory file, then the record built from
      the principal and the side inputs. Without a principal the
      destructuring of `req.user` throws, which reaches the responder as an
      internal error. */
  function CatPost(req: CatRequest, repo: CatRepository): (h: Handled<MessageResponse>)
    ensures req.errors != [] ==> h == Invalid(req.errors)
    ensures req.errors == [] && req.file.None? ==> h == Handled(Err("File is missing", BadRequest), [])
    ensures req.errors == [] && req.file.Some? && req.principal.None? ==> h.outcome.Err? && h.calls == []
    ensures h.calls != [] <==> req.errors == [] && req.file.Some? && req.principal.Some?
    ensures h.calls != [] ==>
              var cat := CatRecord(req.body, req.principal.value, req.file.value, req.coords);
              h.calls == [AddCat(cat)] && h.outcome == repo.addCat(cat)
  {
    if req.errors != [] then Invalid(req.errors)
    else if req.file.None? then Handled(Err("File is missing", BadRequest), [])
    else if req.principal.None? then Handled(Err("internal error", InternalError), [])
    else
      var cat := CatRecord(req.body, req.principal.value, req.file.value, req.coords);
      Handled(repo.addCat(cat), [AddCat(cat)])
  }

  /** `catPut`: gate, then the body and path id go to the repository as
      they are. */
  function CatPut(req: CatRequest, repo: CatRepository): (h: Handled<MessageResponse>)
    ensures req.errors != [] ==> h == Invalid(req.errors)
    ensures req.errors == [] ==> h.calls == [UpdateCat(req.body, req.id)] && h.outcome == repo.updateCat(req.body, req.id)
  {
    if req.errors != [] then Invalid(req.errors)
    else Handled(repo.updateCat(req.body, req.id), [UpdateCat(req.body, req.id)])
  }

  /** `catDelete`: gate, then the delete; a success is answered with the
      fixed 'Cat deleted', an error is passed on. */
  function CatDelete(req: CatRequest, repo: CatRepository): (h: Handled<MessageResponse>)
    ensures req.errors != [] ==> h == Invalid(req.errors)
    ensures req.errors == [] ==> h.calls == [DeleteCat(req.id)]
    ensures req.errors == [] && repo.deleteCat(req.id).Ok? ==> h.outcome == Ok(MessageResponse("Cat deleted", None))
    ensures req.errors == [] && repo.deleteCat(req.id).Err? ==> h.outcome == repo.deleteCat(req.id)
  {
    if req.errors != [] then Invalid(req.errors)
    else
      var reply := repo.deleteCat(req.id);
      Handled(if reply.Ok? then Ok(MessageResponse("Cat deleted", None)) else reply, [DeleteCat(req.id)])
  }

  /** The validation gate stops every gated cat handler with the same 400
      and before any repository call, whatever the repository would do. */
  lemma ValidationBlocksEveryCall(req: CatRequest, repo: CatRepository, repo': CatRepository)
    requires req.errors != []
    ensures CatGet(req, repo).outcome == Err(Messages(req.errors), BadRequest) && CatGet(req, repo).calls == []
    ensures CatPost(req, repo) == CatPost(req, repo') && CatPost(req, repo).calls == []
    ensures CatPut(req, repo) == CatPut(req, repo') && CatPut(req, repo).calls == []
    ensures CatDelete(req, repo) == CatDelete(req, repo') && CatDelete(req, repo).calls == []
    ensures CatPost(req, repo).outcome.status == BadRequest
  {
  }

  /** A create request without an uploaded file is a 400 whatever the
      body, principal or repository. */
  lemma FileRequired(req: CatRequest, repo: CatRepository)
    requires req.file.None?
    ensures CatPost(req, repo).outcome.Err? && CatPost(req, repo).outcome.status == BadRequest
    ensures CatPost(req, repo).calls == []
  {
  }

  /** The fields the record sets from the principal and the side inputs. */
  const Overridden: set<string> := {"owner", "filename", "lat", "lng", "user_id", "role"}

  /** Whatever the body says in a field the record overrides is lost. */
  lemma RecordIgnoresOverridden(body: Fields, k: string, v: Value, p: Principal, file: Upload, coords: (real, real))
    requires k in Overridden
    ensures CatRecord(body[k := v], p, file, coords) == CatRecord(body, p, file, coords)
  {
    var a, b := CatRecord(body[k := v], p, file, coords), CatRecord(body, p, file, coords);
    assert a.Keys == b.Keys;
    forall x | x in a.Keys ensures a[x] == b[x] {
    }
  }

  /** The owner the repository receives is the principal's id whatever the
      body's `owner` says, and the filename and coordinates are those of the
      side inputs whatever the body's fields of the same names say. */
  lemma OwnerAndSideInputsOverrideBody(req: CatRequest, repo: CatRepository, owner: Value, filename: Value, lat: Value, lng: Value)
    requires CatPost(req, repo).calls != []
    ensures var forged := req.(body := req.body["owner" := owner]["filename" := filename]["lat" := lat]["lng" := lng]);
            CatPost(forged, repo).calls == CatPost(req, repo).calls
  {
    var p, f, c := req.principal.value, req.file.value, req.coords;
    var b1 := req.body["owner" := owner];
    var b2 := b1["filename" := filename];
    var b3 := b2["lat" := lat];
    RecordIgnoresOverridden(req.body, "owner", owner, p, f, c);
    RecordIgnoresOverridden(b1, "filename", filename, p, f, c);
    RecordIgnoresOverridden(b2, "lat", lat, p, f, c);
    RecordIgnoresOverridden(b3, "lng", lng, p, f, c);
  }

  /** `catPut` and `catDelete` make no role or ownership check: the
      principal, present or not, changes nothing. */
  lemma NoAuthorizationOnCatWrites(req: CatRequest, repo: CatRepository, principal: Option<Principal>)
    ensures CatPut(req.(principal := principal), repo) == CatPut(req, repo)
    ensures CatDelete(req.(principal := principal), repo) == CatDelete(req, repo)
  {
  }

  /** Every cat handler makes at most one repository call; the list
      handler makes exactly one and passes its reply through. */
  lemma AtMostOneCall(req: CatRequest, repo: CatRepository)
    ensures |CatListGet(repo).calls| == 1 && CatListGet(repo).outcome == repo.getAllCats
    ensures |CatGet(req, repo).calls| <= 1 && |CatPost(req, repo).calls| <= 1
    ensures |CatPut(req, repo).calls| <= 1 && |CatDelete(req, repo).calls| <= 1
  {
  }
}
