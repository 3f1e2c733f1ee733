/** What the handlers under src/api share: the error classes they throw, the
    JSON response they answer with, the few JSON values whose truthiness they
    test, and the id taken from the last segment of the URL path. */
module Http {

  import opened Wrappers
  import opened JsString
  import Crypto
  import JsDate

  /** The errors a handler throws. The first five are the classes of
      src/api/errors.ts, each with its message; `Unexpected` is anything
      else that may be thrown (a failing statement, a bad JSON body). */
  datatype ApiError =
    | BadRequest(message: string)        // BadRequestError
    | NotAuthenticated(message: string)  // UserNotAuthenticatedError
    | Forbidden(message: string)         // UserForbiddenError
    | NotFound(message: string)          // NotFoundError
    | InternalServer(message: string)    // InternalServerError
    | Unexpected(message: string)

  /** respondWithJSON(status, body). */
  datatype Reply<T> = Reply(status: int, body: T)

  /** A JSON value of a request body, where its exact value matters. */
  datatype Json = Null | Bool(b: bool) | Number(n: int) | Text(s: string)

  /** `!!v` on a body field; `None` is `undefined`. */
  predicate JsonTruthy(v: Option<Json>) {
    match v
    case None => false
    case Some(Null) => false
    case Some(Bool(b)) => b
    case Some(Number(n)) => n != 0
    case Some(Text(s)) => s != ""
  }

  /** `pathParts[pathParts.length - 1]` of `url.pathname.split('/')`. */
  function LastSegment(pathname: string): (id: string)
    ensures '/' !in id
    ensures |id| <= |pathname| && pathname[|pathname| - |id|..] == id
    ensures |id| < |pathname| ==> pathname[|pathname| - |id| - 1] == '/'
  {
    SplitLastIsSuffix(pathname, '/');
    var parts := Split(pathname, '/');
    parts[|parts| - 1]
  }

  /** The id of a path ending in `/<id>` is that id. */
  lemma LastSegmentOf(prefix: string, id: string)
    requires '/' !in id
    ensures LastSegment(prefix + "/" + id) == id
  {
    LastPartAfterSeparator(prefix, '/', id);
  }

  /** The id check of the get, update and delete handlers: the last path
      segment, and a BadRequestError with `message` when it is empty, which
      is exactly when the path is empty or ends in a slash. */
  function PathID(pathname: string, message: string): (r: Result<string, ApiError>)
    ensures r.Failure? <==> pathname == [] || pathname[|pathname| - 1] == '/'
    ensures r.Failure? ==> r.error == BadRequest(message)
    ensures r.Success? ==> r.value == LastSegment(pathname) && r.value != ""
  {
    var id := LastSegment(pathname);
    if id == "" then Failure(BadRequest(message)) else Success(id)
  }

  /** The usual check sequence of the get, update and delete handlers: the
      id from the path (a 400 with `idRequired` when empty), the row under
      it (`missing` when there is none) and its owner (a 403 when it is
      another user's), in that order. */
  function Locate<R>(rows: map<string, R>, ownerOf: R -> string, userID: string, pathname: string,
                     idRequired: string, missing: ApiError): (r: Result<string, ApiError>)
    ensures PathID(pathname, idRequired).Failure? ==> r == Failure(BadRequest(idRequired))
    ensures PathID(pathname, idRequired).Success? && LastSegment(pathname) !in rows ==> r == Failure(missing)
    ensures PathID(pathname, idRequired).Success? && LastSegment(pathname) in rows ==>
      ownerOf(rows[LastSegment(pathname)]) != userID ==> r == Failure(Forbidden("Forbidden"))
    ensures r.Success? <==>
      PathID(pathname, idRequired).Success?
      && LastSegment(pathname) in rows && ownerOf(rows[LastSegment(pathname)]) == userID
    ensures r.Success? ==> r.value == LastSegment(pathname)
  {
    var id :- PathID(pathname, idRequired);
    if id !in rows then Failure(missing)
    else if ownerOf(rows[id]) != userID then Failure(Forbidden("Forbidden"))
    else Success(id)
  }

  /** What decrypt throws reaches the middleware as a plain Error: its own
      message for a malformed envelope, and the decipher's when the tag does
      not authenticate. */
  function CryptoThrown(e: Crypto.CryptoError): (r: ApiError)
    ensures r.Unexpected?
  {
    match e
    case InvalidFormat => Unexpected("Invalid encrypted text format. Expected iv:tag:cipher")
    case DecryptionFailed => Unexpected("Unsupported state or unable to authenticate data")
  }

  /** The RangeError of `toISOString` reaches the middleware as an error
      that is none of the API classes, so it is answered with a 500. */
  function DateThrown(e: JsDate.RangeError): (r: ApiError)
    ensures r.Unexpected? && r.message == e.message
  {
    Unexpected(e.message)
  }

  /** decrypt(text) as a handler sees it. */
  function Reveal(v: Crypto.Vault, text: string): (r: Result<string, ApiError>)
    ensures r.Failure? <==> Crypto.Decrypt(v, text).Failure?
    ensures r.Success? ==> r.value == Crypto.Decrypt(v, text).value
    ensures r.Failure? ==> r.error == CryptoThrown(Crypto.Decrypt(v, text).error)
  {
    match Crypto.Decrypt(v, text)
    case Failure(e) => Failure(CryptoThrown(e))
    case Success(plain) => Success(plain)
  }
}
