/** src/services/auth.service.ts. Signing and verifying a JWT, hashing and
    checking a password and drawing random bytes are foreign calls: they come
    in as functions and byte strings, and only what this file does around
    them is modelled. */
module Auth {

  import opened Wrappers
  import opened JsString
  import opened Http
  import Hex

  const AccessTokenIssuer := "bas-bots-access"

  /** The claims the file reads and writes. */
  datatype Payload = Payload(iss: Option<string>, sub: Option<string>, iat: int, exp: int)

  /** jwt.sign(payload, secret) with HS256, and jwt.verify(token, secret)
      at the time `now` (milliseconds): `None` when it throws, for a bad
      signature or an expired token. */
  datatype Signer = Signer(
    sign: (Payload, string) -> string,
    verify: (string, string, nat) -> Option<Payload>)

  /** The library's promise: a token signed with a secret verifies under the
      same secret as its payload until the second of `exp`. */
  ghost predicate Sound(s: Signer) {
    forall p: Payload, secret: string, now: nat {:trigger s.verify(s.sign(p, secret), secret, now)} ::
      now / 1000 < p.exp ==> s.verify(s.sign(p, secret), secret, now) == Some(p)
  }

  /** The payload makeJWT signs at the time `now` (Date.now()): issued at the
      whole second of `now`, expiring `expiresIn` seconds later. */
  function MakePayload(userID: string, expiresIn: int, now: nat): (p: Payload)
    ensures p.iss == Some(AccessTokenIssuer) && p.sub == Some(userID)
    ensures p.iat * 1000 <= now < (p.iat + 1) * 1000
    ensures p.exp == p.iat + expiresIn
  {
    var issuedAt := now / 1000;
    Payload(Some(AccessTokenIssuer), Some(userID), issuedAt, issuedAt + expiresIn)
  }

  /** makeJWT. */
  function MakeJWT(signer: Signer, userID: string, secret: string, expiresIn: int, now: nat): string {
    signer.sign(MakePayload(userID, expiresIn, now), secret)
  }

  /** validateJWT: the subject of a token that verifies, was issued by this
      service and names a subject; otherwise the UserNotAuthenticatedError
      of the first check that fails. */
  function ValidateJWT(signer: Signer, token: string, secret: string, now: nat): (r: Result<string, ApiError>)
    ensures signer.verify(token, secret, now).None? ==> r == Failure(NotAuthenticated("Invalid token."))
    ensures r.Success? <==> var d := signer.verify(token, secret, now);
      d.Some? && d.value.iss == Some(AccessTokenIssuer) && Truthy(d.value.sub)
    ensures r.Success? ==> r.value == signer.verify(token, secret, now).value.sub.value && r.value != ""
    ensures r.Failure? ==> r.error.NotAuthenticated?
  {
    match signer.verify(token, secret, now)
    case None => Failure(NotAuthenticated("Invalid token."))
    case Some(decoded) =>
      if decoded.iss != Some(AccessTokenIssuer) then Failure(NotAuthenticated("Invalid token issuer"))
      else if !Truthy(decoded.sub) then Failure(NotAuthenticated("Missing token subject"))
      else Success(decoded.sub.value)
  }

  /** A token made for a user validates as that user until it expires; a
      token made for the empty user id never does. */
  lemma ValidateMakeJWT(signer: Signer, userID: string, secret: string, expiresIn: int, issued: nat, now: nat)
    requires Sound(signer)
    requires now / 1000 < issued / 1000 + expiresIn
    ensures var r := ValidateJWT(signer, MakeJWT(signer, userID, secret, expiresIn, issued), secret, now);
      r == if userID != "" then Success(userID) else Failure(NotAuthenticated("Missing token subject"))
  {
    var p := MakePayload(userID, expiresIn, issued);
    assert signer.verify(signer.sign(p, secret), secret, now) == Some(p);
  }

  /** getBearerToken on the `Authorization` header (`None` when absent):
      the word after `Bearer `, which may be empty. */
  function GetBearerToken(authorization: Option<string>): (r: Result<string, ApiError>)
    ensures !Truthy(authorization) ==> r == Failure(NotAuthenticated("Missing Authorization header"))
    ensures r.Failure? ==> r.error.NotAuthenticated?
  {
    if !Truthy(authorization) then Failure(NotAuthenticated("Missing Authorization header"))
    else
      var split := Split(authorization.value, ' ');
      if |split| < 2 || split[0] != "Bearer" then Failure(NotAuthenticated("Invalid Authorization header"))
      else Success(split[1])
  }

  /** The header is accepted exactly when it starts with `Bearer `, and the
      token is the text after it up to the next space. */
  lemma BearerTokenSpec(header: string)
    ensures GetBearerToken(Some(header)).Success? <==> |header| >= 7 && header[..7] == "Bearer "
    ensures GetBearerToken(Some(header)).Success? ==>
      GetBearerToken(Some(header)).value == Split(header[7..], ' ')[0]
  {
    if |header| >= 7 && header[..7] == "Bearer " {
      BearerAccepted(header);
    } else {
      BearerRejected(header);
    }
  }

  lemma BearerAccepted(header: string)
    requires |header| >= 7 && header[..7] == "Bearer "
    ensures GetBearerToken(Some(header)) == Success(Split(header[7..], ' ')[0])
  {
    assert header == "Bearer" + [' '] + header[7..];
    SplitAppend("Bearer", ' ', header[7..]);
    SplitNoSeparator("Bearer", ' ');
  }

  lemma BearerRejected(header: string)
    requires !(|header| >= 7 && header[..7] == "Bearer ")
    ensures GetBearerToken(Some(header)).Failure?
  {
    var split := Split(header, ' ');
    JoinSplit(header, ' ');
    JoinStartsWithFirst(split, ' ');
  }

  /** `Bearer <token>` with a token free of spaces gives the token back. */
  lemma BearerRoundTrip(token: string)
    requires ' ' !in token
    ensures GetBearerToken(Some("Bearer " + token)) == Success(token)
  {
    var header := "Bearer " + token;
    BearerTokenSpec(header);
    assert header[7..] == token;
    SplitNoSeparator(token, ' ');
  }

  /** checkPasswordHash: an empty password is refused without asking the
      library, and a verification that throws (`verify` gives `None`)
      counts as a mismatch. */
  function CheckPasswordHash(verify: (string, string) -> Option<bool>, password: string, hash: string): (ok: bool)
    ensures ok <==> password != "" && verify(password, hash) == Some(true)
  {
    if password == "" then false
    else match verify(password, hash)
      case None => false
      case Some(matches) => matches
  }

  /** makeRefreshToken on the 32 bytes randomBytes gave: their hex text,
      64 lower-case hex digits that decode back to the bytes. */
  function MakeRefreshToken(bytes: seq<Hex.Byte>): (token: string)
    requires |bytes| == 32
    ensures |token| == 64
    ensures forall i :: 0 <= i < |token| ==> token[i] in Hex.Digits
    ensures Hex.Decode(token) == bytes
  {
    Hex.DecodeEncode(bytes);
    Hex.Encode(bytes)
  }
}
