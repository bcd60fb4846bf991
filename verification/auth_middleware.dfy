/**
 * The backend's `AuthMiddleware`: the sequence of checks a request goes through before it is
 * passed on, and the `requires_scope` guard. Token decoding (signature and algorithm checks)
 * is the given function `decode`; the clock is the given time `now`; what the rest of the
 * application does with a request that is passed on is the given `Downstream` outcome.
 */
module AuthMiddleware {
  import opened Wrappers
  import opened Strings

  /** The claims of a decoded token the middleware and the guard look at. */
  datatype Payload = Payload(exp: Option<real>, scopes: Option<seq<string>>)

  /** What the next handler does with a request: answers it, raises an `HTTPException`, or
      raises anything else. */
  datatype Downstream = Responded | RaisedHttp(statusCode: int, detail: string) | RaisedOther

  /** The middleware's answer: the next handler's response, or a JSON error. */
  datatype Response = Forwarded | JsonError(statusCode: int, detail: string)

  /** `AuthMiddleware(secret_key, algorithm)`. */
  datatype Middleware = Middleware(secretKey: string, algorithm: string)

  function NewMiddleware(secretKey: string): (m: Middleware)
    ensures m.secretKey == secretKey && m.algorithm == "HS256"
  {
    Middleware(secretKey, "HS256")
  }

  /** `jwt.decode(token, key, algorithms=[algorithm])`: the payload, or the `JWTError` text. */
  type Decoder = (string, string, string) -> Result<Payload, string>

  const PublicPaths: seq<string> := ["/health", "/docs", "/openapi.json"]

  const InternalError: string := "Internal server error during authentication"

  /** Handing the request on; whatever the next handler raises is caught by the same `try`. */
  function PassOn(next: Downstream): Response {
    match next
    case Responded => Forwarded
    case RaisedHttp(code, detail) => JsonError(code, detail)
    case RaisedOther => JsonError(500, InternalError)
  }

  /** A truthy `exp` that the current time has passed. */
  predicate Expired(exp: Option<real>, now: real) {
    exp.Some? && exp.value != 0.0 && now > exp.value
  }

  /** The outcome of `__call__`: the response, and the payload written to `request.state.user`
      if the token was decoded. */
  datatype Decision = Decision(response: Response, stored: Option<Payload>)

  /** The checks of `__call__` in order: public paths pass; a missing or empty header is 401; a
      header that does not split into exactly two words is the unpacking `ValueError`, caught
      as 500; a scheme other than `bearer` in any case is 401; a token that does not decode is
      401; the payload is stored, and a truthy `exp` in the past is 401; everything else is
      passed on. */
  function Decide(m: Middleware, path: string, header: Option<string>, decode: Decoder,
                  now: real, next: Downstream): Decision
  {
    if path in PublicPaths then Decision(PassOn(next), None)
    else if header.None? || header.value == "" then
      Decision(JsonError(401, "Missing authorization header"), None)
    else if |Words(header.value)| != 2 then Decision(JsonError(500, InternalError), None)
    else
      var scheme, token := Words(header.value)[0], Words(header.value)[1];
      if LowerStr(scheme) != "bearer" then
        Decision(JsonError(401, "Invalid authentication scheme"), None)
      else
        match decode(token, m.secretKey, m.algorithm)
        case Err(e) => Decision(JsonError(401, "Invalid token: " + e), None)
        case Ok(payload) =>
          if Expired(payload.exp, now) then
            Decision(JsonError(401, "Token has expired"), Some(payload))
          else Decision(PassOn(next), Some(payload))
  }

  /** `request.state`: the payload of the request's token once the middleware has decoded it. */
  class RequestState {
    var user: Option<Payload>

    constructor ()
      ensures user.None?
    {
      user := None;
    }
  }

  /** `AuthMiddleware.__call__`: runs the checks and stores the decoded payload on the
      request's state; the state is otherwise left alone. */
  method Call(m: Middleware, state: RequestState, path: string, header: Option<string>,
              decode: Decoder, now: real, next: Downstream) returns (response: Response)
    modifies state
    ensures response == Decide(m, path, header, decode, now, next).response
    ensures state.user == match Decide(m, path, header, decode, now, next).stored
                          case Some(p) => Some(p)
                          case None => old(state.user)
  {
    if path in PublicPaths {
      return PassOn(next);
    }
    if header.None? || header.value == "" {
      return JsonError(401, "Missing authorization header");
    }
    var parts := Words(header.value);
    if |parts| != 2 {
      return JsonError(500, InternalError);
    }
    var scheme, token := parts[0], parts[1];
    if LowerStr(scheme) != "bearer" {
      return JsonError(401, "Invalid authentication scheme");
    }
    var decoded := decode(token, m.secretKey, m.algorithm);
    if decoded.Err? {
      return JsonError(401, "Invalid token: " + decoded.error);
    }
    var payload := decoded.value;
    state.user := Some(payload);
    if Expired(payload.exp, now) {
      return JsonError(401, "Token has expired");
    }
    return PassOn(next);
  }

  /** A request reaches the next handler only on a public path, or with a two-word header whose
      first word is `bearer` in some case, whose token decodes, and whose `exp` is absent,
      zero or not yet passed; it is then stored on the request unless the path was public. */
  lemma ForwardedOnlyIfAuthenticated(m: Middleware, path: string, header: Option<string>,
                                     decode: Decoder, now: real, next: Downstream)
    requires Decide(m, path, header, decode, now, next).response == Forwarded
    ensures path !in PublicPaths ==>
      && header.Some? && |Words(header.value)| == 2
      && LowerStr(Words(header.value)[0]) == "bearer"
      && decode(Words(header.value)[1], m.secretKey, m.algorithm).Ok?
      && !Expired(decode(Words(header.value)[1], m.secretKey, m.algorithm).value.exp, now)
      && Decide(m, path, header, decode, now, next).stored
         == Some(decode(Words(header.value)[1], m.secretKey, m.algorithm).value)
    ensures next == Responded
  {
  }

  /** Every refusal of the middleware itself is 401, except the malformed header, which is
      500; a payload is stored exactly when the token decoded. */
  lemma RefusalCodes(m: Middleware, path: string, header: Option<string>, decode: Decoder,
                     now: real, next: Downstream)
    requires path !in PublicPaths
    ensures header.None? || header.value == "" ==>
      Decide(m, path, header, decode, now, next).response.statusCode == 401
    ensures header.Some? && header.value != "" && |Words(header.value)| != 2 ==>
      Decide(m, path, header, decode, now, next).response == JsonError(500, InternalError)
    ensures header.Some? && |Words(header.value)| == 2 ==>
      (LowerStr(Words(header.value)[0]) != "bearer" ==>
         Decide(m, path, header, decode, now, next).response.statusCode == 401)
    ensures Decide(m, path, header, decode, now, next).stored.Some? ==>
      header.Some? && |Words(header.value)| == 2 &&
      decode(Words(header.value)[1], m.secretKey, m.algorithm)
        == Ok(Decide(m, path, header, decode, now, next).stored.value)
  {
  }

  /** The expiry check: a token whose `exp` equals the current time is still accepted, and an
      `exp` of zero or none is never checked. */
  lemma ExpiryBoundary(exp: Option<real>, now: real)
    ensures exp.Some? && exp.value == now ==> !Expired(exp, now)
    ensures exp.None? || exp.value == 0.0 ==> !Expired(exp, now)
    ensures exp.Some? && exp.value != 0.0 && now > exp.value ==> Expired(exp, now)
  {
  }

  /** The errors of `requires_scope`. */
  datatype ScopeError = AuthenticationRequired | MissingScope(scope: string)

  function ScopeStatusCode(e: ScopeError): int {
    match e
    case AuthenticationRequired => 401
    case MissingScope(_) => 403
  }

  /** `requires_scope(required)` around a handler: without a request or a stored user it is
      401; otherwise the user's `scopes` (an empty list when absent) must hold the scope, or it
      is 403. */
  function RequiresScope(required: string, request: Option<RequestState>): (r: Result<(), ScopeError>)
    reads if request.Some? then {request.value} else {}
    ensures request.None? || request.value.user.None? ==> r == Err(AuthenticationRequired)
    ensures request.Some? && request.value.user.Some? ==>
      (r.Ok? <==> required in ScopesOf(request.value.user.value))
    ensures r.Err? && request.Some? && request.value.user.Some? ==> r.error == MissingScope(required)
    ensures r.Err? ==> ScopeStatusCode(r.error) in {401, 403}
  {
    if request.None? || request.value.user.None? then Err(AuthenticationRequired)
    else if required !in ScopesOf(request.value.user.value) then Err(MissingScope(required))
    else Ok(())
  }

  /** `user.get("scopes", [])`. */
  function ScopesOf(p: Payload): seq<string> {
    if p.scopes.Some? then p.scopes.value else []
  }

  /** A token without a `scopes` claim passes no scope check. */
  lemma NoScopesClaim(required: string, request: RequestState)
    requires request.user.Some? && request.user.value.scopes.None?
    ensures RequiresScope(required, Some(request)) == Err(MissingScope(required))
  {
  }
}
