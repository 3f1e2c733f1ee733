/** src/api/middleware.ts: the configuration closure, the authentication
    wrapper and the mapping from thrown errors to responses. */
module Middleware {

  import opened Wrappers
  import opened JsString
  import opened Http
  import Auth

  const GenericMessage := "Something went wrong on our end."

  /** The `{ error: message }` body of an error response. */
  datatype ErrorBody = ErrorBody(error: string)

  /** errorHandlingMiddleware: the four error classes the handlers use for
      client errors keep their status and message; anything else is a 500
      with a fixed message, so its own message never reaches the client. */
  method ErrorHandlingMiddleware(err: ApiError) returns (r: Reply<ErrorBody>)
    ensures r.status == 400 <==> err.BadRequest?
    ensures r.status == 401 <==> err.NotAuthenticated?
    ensures r.status == 403 <==> err.Forbidden?
    ensures r.status == 404 <==> err.NotFound?
    ensures r.status == 500 <==> err.InternalServer? || err.Unexpected?
    ensures r.body.error == if r.status == 500 then GenericMessage else err.message
  {
    var statusCode := 500;
    var message := GenericMessage;
    if err.BadRequest? {
      statusCode := 400;
      message := err.message;
    } else if err.NotAuthenticated? {
      statusCode := 401;
      message := err.message;
    } else if err.Forbidden? {
      statusCode := 403;
      message := err.message;
    } else if err.NotFound? {
      statusCode := 404;
      message := err.message;
    }
    r := Reply(statusCode, ErrorBody(message));
  }

  /** withConfig: the handler with `config` captured; every request reaches
      it with that same configuration. */
  function WithConfig<C, Q(!new), R>(config: C, handler: (C, Q) -> R): (h: Q -> R)
    ensures forall req :: h(req) == handler(config, req)
  {
    req => handler(config, req)
  }

  /** A request as the wrapped handlers see it: its `Authorization` header
      (`None` when absent) and whatever else the handler reads. */
  datatype Request<B> = Request(authorization: Option<string>, content: B)

  /** The request with `user: { id }` attached. */
  datatype AuthenticatedRequest<B> = AuthenticatedRequest(request: Request<B>, userID: string)

  /** The user id withAuth attaches: the subject of the bearer token, or the
      error of the first step that throws. validateJWT never returns an
      empty subject, so the falsy-id check after it never fires. */
  function Authenticate(signer: Auth.Signer, jwtSecret: string, now: nat, authorization: Option<string>)
    : (r: Result<string, ApiError>)
    ensures Auth.GetBearerToken(authorization).Failure? ==> r == Auth.GetBearerToken(authorization).PropagateFailure()
    ensures Auth.GetBearerToken(authorization).Success? ==>
      r == var v := Auth.ValidateJWT(signer, Auth.GetBearerToken(authorization).value, jwtSecret, now);
        if v.Success? && v.value == "" then Failure(NotAuthenticated("Token inválido")) else v
    ensures r.Success? ==> r.value != ""
    ensures r.Failure? ==> r.error.NotAuthenticated?
    ensures r != Failure(NotAuthenticated("Token inválido"))
  {
    var token :- Auth.GetBearerToken(authorization);
    var userID :- Auth.ValidateJWT(signer, token, jwtSecret, now);
    if userID == "" then Failure(NotAuthenticated("Token inválido")) else Success(userID)
  }

  /** withAuth: the handler runs only for an authenticated request, with the
      user id attached; otherwise the authentication error is thrown and the
      handler never runs. */
  function WithAuth<B, T>(signer: Auth.Signer, jwtSecret: string, now: nat,
                          handler: AuthenticatedRequest<B> -> Result<T, ApiError>, req: Request<B>)
    : (r: Result<T, ApiError>)
    ensures Authenticate(signer, jwtSecret, now, req.authorization).Failure? ==>
      r == Failure(Authenticate(signer, jwtSecret, now, req.authorization).error)
    ensures Authenticate(signer, jwtSecret, now, req.authorization).Success? ==>
      r == handler(AuthenticatedRequest(req, Authenticate(signer, jwtSecret, now, req.authorization).value))
  {
    match Authenticate(signer, jwtSecret, now, req.authorization)
    case Failure(e) => Failure(e)
    case Success(userID) => handler(AuthenticatedRequest(req, userID))
  }

  /** A request bearing a token that makeJWT issued for a user runs the
      handler as that user while the token has not expired. */
  lemma WithAuthOfIssuedToken<B, T>(signer: Auth.Signer, jwtSecret: string, userID: string, expiresIn: int,
                                    issued: nat, now: nat, handler: AuthenticatedRequest<B> -> Result<T, ApiError>,
                                    content: B)
    requires Auth.Sound(signer)
    requires userID != ""
    requires now / 1000 < issued / 1000 + expiresIn
    requires ' ' !in Auth.MakeJWT(signer, userID, jwtSecret, expiresIn, issued)
    ensures var req := Request(Some("Bearer " + Auth.MakeJWT(signer, userID, jwtSecret, expiresIn, issued)), content);
      WithAuth(signer, jwtSecret, now, handler, req) == handler(AuthenticatedRequest(req, userID))
  {
    var token := Auth.MakeJWT(signer, userID, jwtSecret, expiresIn, issued);
    Auth.BearerRoundTrip(token);
    Auth.ValidateMakeJWT(signer, userID, jwtSecret, expiresIn, issued, now);
  }
}
