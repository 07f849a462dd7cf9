/**
  Requests and responses as the route scripts see them, and the token gate the
  protected routes share. `Response::json` ends the script after writing its
  body; here a route returns the response instead.
*/
module Http {
  import opened Wrappers
  import opened Php
  import opened Platform
  import opened Store
  import Auth

  /**
    What a route reads of a request: the method (`verb`), the Authorization header (if
    any), the JSON body decoded to an array (a body that is not a JSON object
    reads as the empty array, as every lookup in a `null` does) and the query
    parameters.
  */
  datatype Request = Request(verb: string, authorization: Option<string>, body: Assoc,
                             query: map<string, string>)

  /** The `data` member of a success response. */
  datatype Data =
    | NoData
    | TokenAndUser(token: string, user: Assoc)
    | Verified(userId: Value, username: Value)
    | Profile(user: Assoc)
    | OneLog(log: LogRow)
    | LogPage(logs: seq<LogRow>, total: int, limit: int, offset: int, totalMinutes: int)
    | Health(timestamp: int)
    | Missing  // the `false` or `null` of a re-read that found nothing

  /**
    `Response::success` (always `success: true`), `Response::error` and its
    401/404/500 shorthands (`success: false`), and the 500 that the entry point's
    `catch` sends when a database statement fails.
  */
  datatype Response =
    | Success(status: int, note: Option<string>, data: Data)
    | Failure(status: int, message: string)
    | DatabaseError
  {
    function Status(): int
    {
      match this
      case Success(s, _, _) => s
      case Failure(s, _) => s
      case DatabaseError => 500
    }
  }

  const MethodNotAllowed := Failure(405, "Method not allowed")
  const Forbidden := Failure(403, "Forbidden")
  const InvalidToken := Failure(401, "Invalid or expired token")

  /**
    The token gate at the top of every protected route: a 401 with `missing`
    when no (truthy) bearer token is present, a 401 "Invalid or expired token"
    when validation yields `null` or an empty payload, else the payload.
  */
  function Authenticate(cfg: Auth.Config, lib: Library, header: Option<string>, now: int,
                        missing: string): (r: Result<Auth.Claims, Response>)
    ensures r.Err? ==> r.error.Failure? && r.error.status == 401
    ensures Auth.BearerToken(header).None? || !TruthyText(Auth.BearerToken(header).value)
            ==> r == Err(Failure(401, missing))
    ensures Auth.BearerToken(header).Some? && TruthyText(Auth.BearerToken(header).value) && r.Err?
            ==> r == Err(InvalidToken)
    ensures r.Ok? <==> Auth.BearerToken(header).Some? && TruthyText(Auth.BearerToken(header).value) &&
                       Auth.ValidateToken(cfg, lib, Auth.BearerToken(header).value, now).Some? &&
                       Auth.ValidateToken(cfg, lib, Auth.BearerToken(header).value, now).value != map[]
    ensures r.Ok? ==> r.value == Auth.ValidateToken(cfg, lib, Auth.BearerToken(header).value, now).value
  {
    match Auth.BearerToken(header)
    case None => Err(Failure(401, missing))
    case Some(token) =>
      if !TruthyText(token) then Err(Failure(401, missing))
      else match Auth.ValidateToken(cfg, lib, token, now)
        case None => Err(InvalidToken)
        case Some(claims) => if claims == map[] then Err(InvalidToken) else Ok(claims)
  }

  /**
    The two checks the user routes make on the URL id before touching the
    store: it must be truthy (400), and equal, loosely, to the token's
    `user_id` (403).
  */
  function SelfGuard(payload: Auth.Claims, id: Option<string>): (r: Option<Response>)
    ensures r.None? <==> id.Some? && TruthyText(id.value) && LooseEq(Get(payload, "user_id"), Str(id.value))
    ensures r.Some? ==> r.value == Failure(400, "User ID is required") || r.value == Forbidden
    ensures r == Some(Forbidden) <==> id.Some? && TruthyText(id.value) && !LooseEq(Get(payload, "user_id"), Str(id.value))
  {
    if id.None? || !TruthyText(id.value) then Some(Failure(400, "User ID is required"))
    else if !LooseEq(Get(payload, "user_id"), Str(id.value)) then Some(Forbidden)
    else None
  }

  /** A token issued for key `n` passes the guard for the URL id `n` and for no other key. */
  lemma SelfGuardOfIssuedId(payload: Auth.Claims, n: int, m: int)
    requires Get(payload, "user_id") == Int(n) || Get(payload, "user_id") == Str(IntToString(n))
    requires n != 0
    ensures SelfGuard(payload, Some(IntToString(n))).None?
    ensures m != n ==> SelfGuard(payload, Some(IntToString(m))) == Some(Forbidden) || m == 0
  {
    LooseEqIntText(n);
    IntToStringIsIntText(n);
    IntToStringIsIntText(m);
  }

  /**
    A request carrying `Bearer <token>` for a token issued at `issuedAt` passes
    the gate until the token expires, and yields the claims it was issued with.
  */
  lemma IssuedTokenPasses(cfg: Auth.Config, lib: Library, userId: Value, username: Value,
                          issuedAt: int, now: int, missing: string)
    requires Base64Alphabet(lib) && Base64Unpadded(lib) && JsonRoundTrip(lib)
    requires issuedAt <= now <= issuedAt + Auth.JwtExpiration
    ensures var token := Auth.GenerateToken(cfg, lib, userId, username, issuedAt);
            Authenticate(cfg, lib, Some("Bearer " + token), now, missing)
              == Ok(Auth.IssuedClaims(userId, username, issuedAt))
  {
    var token := Auth.GenerateToken(cfg, lib, userId, username, issuedAt);
    var claims := Auth.IssuedClaims(userId, username, issuedAt);
    Auth.EncodeSegments(cfg, lib, claims);
    Auth.GeneratedTokenValidity(cfg, lib, userId, username, issuedAt, now);
    TokenHasNoSpace(cfg, lib, claims);
    Auth.BearerTokenOfWellFormedHeader(token);
    assert "exp" in claims;
  }

  /** An encoded token is non-empty, whitespace-free and truthy. */
  lemma TokenHasNoSpace(cfg: Auth.Config, lib: Library, claims: Auth.Claims)
    requires Base64Alphabet(lib)
    ensures var t := Auth.Encode(cfg, lib, claims);
            |t| >= 2 && TruthyText(t) && forall m :: 0 <= m < |t| ==> !IsSpace(t[m])
  {
    var h := Auth.HeaderSegment(lib);
    var p := Auth.PayloadSegment(lib, claims);
    var s := Auth.Signature(cfg, lib, h, p);
    Auth.SegmentIsUrlText(lib, lib.jsonEncode(Auth.HeaderClaims()));
    Auth.SegmentIsUrlText(lib, lib.jsonEncode(claims));
    Auth.SegmentIsUrlText(lib, lib.hmacSha256(h + "." + p, cfg.jwtSecretKey));
    var t := h + "." + p + "." + s;
    forall m | 0 <= m < |t| ensures !IsSpace(t[m]) {
      if m < |h| {
        assert t[m] == h[m] && Auth.UrlChar(h[m]);
      } else if m == |h| {
        assert t[m] == '.';
      } else if m < |h| + 1 + |p| {
        assert t[m] == p[m - |h| - 1] && Auth.UrlChar(p[m - |h| - 1]);
      } else if m == |h| + 1 + |p| {
        assert t[m] == '.';
      } else {
        assert t[m] == s[m - |h| - 2 - |p|] && Auth.UrlChar(s[m - |h| - 2 - |p|]);
      }
    }
    assert t[|h|] == '.';
  }

  /**
    PHP 8's `$start >= $end` for two `strtotime` results, where a failed parse is
    `false`: an int against `false` compares as booleans.
  */
  predicate StrtotimeGe(a: Option<int>, b: Option<int>)
  {
    match (a, b)
    case (Some(x), Some(y)) => x >= y
    case (None, Some(y)) => y == 0
    case (Some(_), None) => true
    case (None, None) => true
  }

  /**
    For two parsable times the check rejects exactly when the end is not after
    the start; an unparsable end time is always rejected.
  */
  lemma StrtotimeGeMeaning(a: Option<int>, b: Option<int>)
    ensures a.Some? && b.Some? ==> (StrtotimeGe(a, b) <==> a.value >= b.value)
    ensures b.None? ==> StrtotimeGe(a, b)
    ensures a.None? && b.Some? && b.value != 0 ==> !StrtotimeGe(a, b)
  {
  }
}
