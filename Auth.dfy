/**
  The credential and token service of `api/utils/Auth.php`.

  Passwords are peppered (a hex HMAC-SHA256 under a deployment secret) and then
  hashed with bcrypt. Tokens are JSON Web Tokens (RFC 7519) in the JWS compact
  serialisation (section 7.1 of RFC 7515) signed with HS256 (section 3.2 of
  RFC 7518): three base64url segments (section 5 of RFC 4648, padding removed)
  joined by dots, the third an HMAC over the first two as encoded.
*/
module Auth {
  import opened Wrappers
  import opened Strings
  import opened Php
  import opened Platform

  /** `JWT_ALGORITHM`. */
  const JwtAlgorithm := "HS256"
  /** `JWT_EXPIRATION`: 24 hours, in seconds. */
  const JwtExpiration := 86400

  /** The two deployment secrets, kept apart: one signs tokens, one peppers passwords. */
  datatype Config = Config(jwtSecretKey: string, passwordPepper: string)

  /** A token payload: the associative array `json_decode` returns. */
  type Claims = Assoc

  // ======================================================== passwords

  predicate LowerHexChar(c: char) { ('0' <= c <= '9') || ('a' <= c <= 'f') }

  function HexDigit(n: nat): (c: char)
    requires n < 16
    ensures LowerHexChar(c)
  {
    if n < 10 then ('0' as int + n) as char else ('a' as int + n - 10) as char
  }

  /** Lower-case hexadecimal of a byte string, two digits per byte. */
  function Hex(s: string): (r: string)
    ensures |r| == 2 * |s|
    ensures forall i :: 0 <= i < |r| ==> LowerHexChar(r[i])
  {
    if s == [] then ""
    else [HexDigit((s[0] as int / 16) % 16), HexDigit(s[0] as int % 16)] + Hex(s[1..])
  }

  /** The pepper step, `hash_hmac('sha256', $password, PASSWORD_PEPPER)` (hex output). */
  function Peppered(cfg: Config, lib: Library, password: string): string
  {
    Hex(lib.hmacSha256(password, cfg.passwordPepper))
  }

  /**
    The peppered value is 64 lower-case hex digits, so bcrypt, which reads at most
    72 bytes, always sees all of it.
  */
  lemma PepperedIsHexDigest(cfg: Config, lib: Library, password: string)
    requires HmacDigestLength(lib)
    ensures |Peppered(cfg, lib, password)| == 64 < 72
    ensures forall i :: 0 <= i < 64 ==> LowerHexChar(Peppered(cfg, lib, password)[i])
  {
  }

  /** `Auth::hashPassword`: bcrypt of the peppered password, under the salt drawn. */
  function HashPassword(cfg: Config, lib: Library, password: string, salt: string): string
  {
    lib.bcryptHash(Peppered(cfg, lib, password), salt)
  }

  /** `Auth::verifyPassword`: the same pepper step, then bcrypt's check. */
  function VerifyPassword(cfg: Config, lib: Library, password: string, hash: string): bool
  {
    lib.bcryptVerify(Peppered(cfg, lib, password), hash)
  }

  /** Because both sides pepper identically, a password verifies against its own hash. */
  lemma VerifyOwnHash(cfg: Config, lib: Library, password: string, salt: string)
    requires BcryptAcceptsOwnHash(lib)
    ensures VerifyPassword(cfg, lib, password, HashPassword(cfg, lib, password, salt))
  {
  }

  // ======================================================== base64url

  /** Characters of the URL-safe base64 alphabet without padding. */
  predicate UrlChar(c: char)
  {
    ('A' <= c <= 'Z') || ('a' <= c <= 'z') || ('0' <= c <= '9') || c == '-' || c == '_'
  }

  predicate UrlText(s: string) { forall i :: 0 <= i < |s| ==> UrlChar(s[i]) }

  /** `str_replace(['+', '/', '='], ['-', '_', ''], s)`: the three replacements in order. */
  function ToBase64Url(s: string): (r: string)
    ensures '+' !in r && '/' !in r && '=' !in r
  {
    Replace(Replace(Replace(s, '+', "-"), '/', "_"), '=', "")
  }

  /** `str_replace(['-', '_'], ['+', '/'], s)`: the translation back, padding not restored. */
  function FromBase64Url(s: string): string
  {
    Replace(Replace(s, '-', "+"), '_', "/")
  }

  lemma ToBase64UrlSplits(c: char, t: string)
    ensures ToBase64Url([c] + t) == ToBase64Url([c]) + ToBase64Url(t)
  {
    var s := [c] + t;
    assert s[0] == c && s[1..] == t;
    assert Replace(s, '+', "-") == Replace([c], '+', "-") + Replace(t, '+', "-");
    ReplaceAppend(Replace([c], '+', "-"), Replace(t, '+', "-"), '/', "_");
    ReplaceAppend(Replace(Replace([c], '+', "-"), '/', "_"), Replace(Replace(t, '+', "-"), '/', "_"), '=', "");
  }

  lemma FromBase64UrlSplits(a: string, b: string)
    ensures FromBase64Url(a + b) == FromBase64Url(a) + FromBase64Url(b)
  {
    ReplaceAppend(a, b, '-', "+");
    ReplaceAppend(Replace(a, '-', "+"), Replace(b, '-', "+"), '_', "/");
  }

  /** Standard base64 text becomes URL-safe text: no `+`, `/`, `=` and, in particular, no `.`. */
  lemma {:induction false} ToBase64UrlAlphabet(s: string)
    requires forall i :: 0 <= i < |s| ==> Base64Char(s[i])
    ensures UrlText(ToBase64Url(s))
    decreases |s|
  {
    if s != [] {
      ToBase64UrlSplits(s[0], s[1..]);
      assert [s[0]] + s[1..] == s;
      ToBase64UrlAlphabet(s[1..]);
    }
  }

  /** One character of the standard alphabet survives the translation there and back. */
  lemma FromToBase64UrlChar(c: char)
    requires Base64Char(c)
    ensures FromBase64Url(ToBase64Url([c])) == Replace([c], '=', "")
  {
    ReplaceSingle(c, '=', "");
    if c == '+' {
      ReplaceSingle('+', '+', "-");
      ReplaceSingle('-', '/', "_");
      ReplaceSingle('-', '=', "");
      ReplaceSingle('-', '-', "+");
      ReplaceSingle('+', '_', "/");
    } else if c == '/' {
      ReplaceSingle('/', '+', "-");
      ReplaceSingle('/', '/', "_");
      ReplaceSingle('_', '=', "");
      ReplaceSingle('_', '-', "+");
      ReplaceSingle('_', '_', "/");
    } else if c == '=' {
      ReplaceSingle('=', '+', "-");
      ReplaceSingle('=', '/', "_");
      assert Replace("", '-', "+") == "";
    } else {
      ReplaceSingle(c, '+', "-");
      ReplaceSingle(c, '/', "_");
      ReplaceSingle(c, '-', "+");
      ReplaceSingle(c, '_', "/");
    }
  }

  /** Translating back recovers the standard encoding minus its padding. */
  lemma {:induction false} FromToBase64Url(s: string)
    requires forall i :: 0 <= i < |s| ==> Base64Char(s[i])
    ensures FromBase64Url(ToBase64Url(s)) == Replace(s, '=', "")
    decreases |s|
  {
    if s != [] {
      var c, t := s[0], s[1..];
      assert [c] + t == s;
      ToBase64UrlSplits(c, t);
      FromBase64UrlSplits(ToBase64Url([c]), ToBase64Url(t));
      FromToBase64Url(t);
      FromToBase64UrlChar(c);
      ReplaceAppend([c], t, '=', "");
    }
  }

  // ======================================================== tokens

  /** The header array `['typ' => 'JWT', 'alg' => JWT_ALGORITHM]`. */
  function HeaderClaims(): Claims
  {
    map["typ" := Str("JWT"), "alg" := Str(JwtAlgorithm)]
  }

  /** `str_replace(['+', '/', '='], ['-', '_', ''], base64_encode(data))`. */
  function UrlSegment(lib: Library, data: string): string
  {
    ToBase64Url(lib.base64Encode(data))
  }

  function HeaderSegment(lib: Library): string
  {
    UrlSegment(lib, lib.jsonEncode(HeaderClaims()))
  }

  function PayloadSegment(lib: Library, claims: Claims): string
  {
    UrlSegment(lib, lib.jsonEncode(claims))
  }

  /** The signature segment: an HMAC over the two ENCODED segments joined by a dot. */
  function Signature(cfg: Config, lib: Library, header: string, payload: string): string
  {
    UrlSegment(lib, lib.hmacSha256(header + "." + payload, cfg.jwtSecretKey))
  }

  /** `Auth::encode`: `header.payload.signature`. */
  function Encode(cfg: Config, lib: Library, claims: Claims): string
  {
    var header := HeaderSegment(lib);
    var payload := PayloadSegment(lib, claims);
    header + "." + payload + "." + Signature(cfg, lib, header, payload)
  }

  /** Why `Auth::decode` throws. */
  datatype Rejection = WrongSegmentCount | SignatureMismatch

  /** What `Auth::decode` does: throw, or return the payload (`None` for a JSON `null`). */
  datatype Decoded = Rejected(reason: Rejection) | Accepted(payload: Option<Claims>)

  /** The payload segment read back: translation, `base64_decode`, `json_decode`. */
  function PayloadOf(lib: Library, segment: string): Option<Claims>
  {
    lib.jsonDecode(lib.base64Decode(FromBase64Url(segment)))
  }

  /** `Auth::decode`. The header segment is signed over but never read. */
  function Decode(cfg: Config, lib: Library, jwt: string): Decoded
  {
    var parts := Explode(jwt, '.');
    if |parts| != 3 then Rejected(WrongSegmentCount)
    else if parts[2] != Signature(cfg, lib, parts[0], parts[1]) then Rejected(SignatureMismatch)
    else Accepted(PayloadOf(lib, parts[1]))
  }

  /** `isset($payload['exp']) && $payload['exp'] < time()`. */
  predicate Expired(claims: Claims, now: int)
  {
    IsSet(claims, "exp") && LooseLessThanInt(claims["exp"], now)
  }

  /** `Auth::validateToken`: `null` on any exception, on a `null` payload and on expiry. */
  function ValidateToken(cfg: Config, lib: Library, token: string, now: int): Option<Claims>
  {
    match Decode(cfg, lib, token)
    case Rejected(_) => None
    case Accepted(None) => None
    case Accepted(Some(claims)) => if Expired(claims, now) then None else Some(claims)
  }

  /** The payload `Auth::generateToken` builds. */
  function IssuedClaims(userId: Value, username: Value, issuedAt: int): Claims
  {
    map["iat" := Int(issuedAt), "exp" := Int(issuedAt + JwtExpiration),
        "user_id" := userId, "username" := username]
  }

  /** `Auth::generateToken`, with `time()` passed in as `issuedAt`. */
  function GenerateToken(cfg: Config, lib: Library, userId: Value, username: Value, issuedAt: int): string
  {
    Encode(cfg, lib, IssuedClaims(userId, username, issuedAt))
  }

  // ---------------------------------------------------- token lemmas

  lemma SegmentIsUrlText(lib: Library, data: string)
    requires Base64Alphabet(lib)
    ensures UrlText(UrlSegment(lib, data))
    ensures '.' !in UrlSegment(lib, data)
  {
    ToBase64UrlAlphabet(lib.base64Encode(data));
    var s := UrlSegment(lib, data);
    forall i | 0 <= i < |s| ensures s[i] != '.' {
      assert UrlChar(s[i]);
    }
  }

  /**
    An encoded token has exactly three dot-separated segments, header, payload and
    signature, each over the URL-safe alphabet (no `.`, `+`, `/` or `=`).
  */
  lemma EncodeSegments(cfg: Config, lib: Library, claims: Claims)
    requires Base64Alphabet(lib)
    ensures var h, p := HeaderSegment(lib), PayloadSegment(lib, claims);
            Explode(Encode(cfg, lib, claims), '.') == [h, p, Signature(cfg, lib, h, p)]
    ensures forall i :: 0 <= i < 3 ==> UrlText(Explode(Encode(cfg, lib, claims), '.')[i])
  {
    var h, p := HeaderSegment(lib), PayloadSegment(lib, claims);
    var s := Signature(cfg, lib, h, p);
    SegmentIsUrlText(lib, lib.jsonEncode(HeaderClaims()));
    SegmentIsUrlText(lib, lib.jsonEncode(claims));
    SegmentIsUrlText(lib, lib.hmacSha256(h + "." + p, cfg.jwtSecretKey));
    ExplodeThree(h, p, s, '.');
  }

  /** The payload segment decodes back to the claims it encodes. */
  lemma PayloadRoundTrip(lib: Library, claims: Claims)
    requires Base64Alphabet(lib) && Base64Unpadded(lib) && JsonRoundTrip(lib)
    ensures PayloadOf(lib, PayloadSegment(lib, claims)) == Some(claims)
  {
    var b := lib.base64Encode(lib.jsonEncode(claims));
    FromToBase64Url(b);
  }

  /** Round trip: decoding an encoded token accepts it and returns its claims. */
  lemma DecodeEncode(cfg: Config, lib: Library, claims: Claims)
    requires Base64Alphabet(lib) && Base64Unpadded(lib) && JsonRoundTrip(lib)
    ensures Decode(cfg, lib, Encode(cfg, lib, claims)) == Accepted(Some(claims))
  {
    EncodeSegments(cfg, lib, claims);
    PayloadRoundTrip(lib, claims);
  }

  /**
    The header is never inspected: ANY first segment (one that declares another
    algorithm, or none) is accepted as long as the third segment is the HMAC of
    the first two, and the outcome depends on the payload segment alone.
  */
  lemma HeaderNotInspected(cfg: Config, lib: Library, header: string, payload: string)
    requires '.' !in header && '.' !in payload
    requires Base64Alphabet(lib)
    ensures Decode(cfg, lib, header + "." + payload + "." + Signature(cfg, lib, header, payload))
            == Accepted(PayloadOf(lib, payload))
  {
    SegmentIsUrlText(lib, lib.hmacSha256(header + "." + payload, cfg.jwtSecretKey));
    ExplodeThree(header, payload, Signature(cfg, lib, header, payload), '.');
  }

  /** A token is malformed exactly when it does not contain exactly two dots. */
  lemma MalformedIffNotTwoDots(cfg: Config, lib: Library, token: string)
    ensures Decode(cfg, lib, token) == Rejected(WrongSegmentCount) <==> Occurrences(token, '.') != 2
  {
  }

  /** The four-way classification of a presented token. */
  datatype TokenState = Malformed | Tampered | Expired | Unreadable | Valid(claims: Claims)

  /**
    The classification, stated over the token text: dot count, signature,
    readability of the payload and its `exp` claim, checked in that order.
    It follows the branches of `validateToken` one for one, so the lemma below
    only sorts its `null` results into states; the piece stated independently of
    the code's own steps is the dot count, proved in `MalformedIffNotTwoDots`.
  */
  function State(cfg: Config, lib: Library, token: string, now: int): TokenState
  {
    if Occurrences(token, '.') != 2 then Malformed
    else
      var parts := Explode(token, '.');
      if parts[2] != Signature(cfg, lib, parts[0], parts[1]) then Tampered
      else match PayloadOf(lib, parts[1])
        case None => Unreadable
        case Some(claims) => if Expired(claims, now) then TokenState.Expired else Valid(claims)
  }

  /**
    `validateToken` returns claims exactly for the Valid state, and `null` for the
    Malformed, Tampered, Unreadable and Expired states alike.
  */
  lemma ValidateTokenByState(cfg: Config, lib: Library, token: string, now: int)
    ensures ValidateToken(cfg, lib, token, now) ==
            (if State(cfg, lib, token, now).Valid? then Some(State(cfg, lib, token, now).claims) else None)
  {
  }

  /** A token whose `exp` equals the current time is not yet expired. */
  lemma NotExpiredAtExp(claims: Claims, now: int)
    requires "exp" in claims && claims["exp"] == Int(now)
    ensures !Expired(claims, now)
  {
  }

  /** A payload without an `exp` claim (or with `exp` null) never expires. */
  lemma NoExpNeverExpires(claims: Claims, now: int)
    requires !IsSet(claims, "exp")
    ensures !Expired(claims, now)
  {
  }

  /**
    A token issued at `issuedAt` is accepted until `issuedAt + JWT_EXPIRATION`
    inclusive, with claims echoing the user id and name, and refused afterwards.
  */
  lemma GeneratedTokenValidity(cfg: Config, lib: Library, userId: Value, username: Value, issuedAt: int, now: int)
    requires Base64Alphabet(lib) && Base64Unpadded(lib) && JsonRoundTrip(lib)
    ensures var v := ValidateToken(cfg, lib, GenerateToken(cfg, lib, userId, username, issuedAt), now);
            (v.Some? <==> now <= issuedAt + JwtExpiration) &&
            (v.Some? ==> v.value == IssuedClaims(userId, username, issuedAt) &&
                         v.value["user_id"] == userId && v.value["username"] == username)
  {
    var claims := IssuedClaims(userId, username, issuedAt);
    DecodeEncode(cfg, lib, claims);
    IssuedExpiry(userId, username, issuedAt, now);
    ValidateDecoded(cfg, lib, GenerateToken(cfg, lib, userId, username, issuedAt), claims, now);
  }

  /** An issued payload has expired exactly when `now` is past its `exp`. */
  lemma IssuedExpiry(userId: Value, username: Value, issuedAt: int, now: int)
    ensures Expired(IssuedClaims(userId, username, issuedAt), now) <==> issuedAt + JwtExpiration < now
  {
    var claims := IssuedClaims(userId, username, issuedAt);
    assert claims["exp"] == Int(issuedAt + JwtExpiration);
  }

  /** A token that decodes to `claims` is valid exactly while they have not expired. */
  lemma ValidateDecoded(cfg: Config, lib: Library, token: string, claims: Claims, now: int)
    requires Decode(cfg, lib, token) == Accepted(Some(claims))
    ensures ValidateToken(cfg, lib, token, now) == if Expired(claims, now) then None else Some(claims)
  {
  }

  // ======================================================== bearer header

  /** At `i` the pattern `Bearer\s\S` begins. PCRE's `\s` is the ASCII whitespace of `IsSpace`. */
  predicate BearerAt(s: string, i: int)
  {
    0 <= i && i + 8 <= |s| && s[i..i + 6] == "Bearer" && IsSpace(s[i + 6]) && !IsSpace(s[i + 7])
  }

  /** The end of the run of non-whitespace characters starting at `j`. */
  function RunEnd(s: string, j: nat): (k: nat)
    requires j <= |s|
    ensures j <= k <= |s|
    ensures forall m :: j <= m < k ==> !IsSpace(s[m])
    ensures k == |s| || IsSpace(s[k])
    decreases |s| - j
  {
    if j == |s| || IsSpace(s[j]) then j else RunEnd(s, j + 1)
  }

  /** The leftmost position at or after `i` where the pattern matches. */
  function FirstBearer(s: string, i: nat): (r: Option<nat>)
    ensures r.Some? ==> i <= r.value && BearerAt(s, r.value)
    ensures forall j :: i <= j && (r.None? || j < r.value) ==> !BearerAt(s, j)
    decreases |s| - i
  {
    if i + 8 > |s| then None
    else if BearerAt(s, i) then Some(i)
    else FirstBearer(s, i + 1)
  }

  /**
    `Auth::getBearerToken` over the (trimmed) Authorization header, `None` when
    absent: `preg_match('/Bearer\s(\S+)/', ...)` is unanchored, so it takes the
    leftmost place where `Bearer`, one whitespace character and a non-whitespace
    character follow, and captures the maximal non-whitespace run from there.
    An empty header (which for PHP's `empty` includes `"0"`) gives `None`.
  */
  function BearerToken(header: Option<string>): (r: Option<string>)
    ensures r.Some? <==> header.Some? && TruthyText(header.value) && exists i :: BearerAt(header.value, i)
    ensures r.Some? ==>
              var h := header.value;
              exists i :: BearerAt(h, i) && (forall j :: 0 <= j < i ==> !BearerAt(h, j)) &&
                          r.value == h[i + 7..RunEnd(h, i + 7)]
    ensures r.Some? ==> |r.value| >= 1 && forall m :: 0 <= m < |r.value| ==> !IsSpace(r.value[m])
  {
    if header.None? || !TruthyText(header.value) then None
    else
      var h := header.value;
      match FirstBearer(h, 0)
      case None => None
      case Some(i) => Some(h[i + 7..RunEnd(h, i + 7)])
  }

  /** A header of the form `Bearer <token>` with a whitespace-free token yields that token. */
  lemma BearerTokenOfWellFormedHeader(token: string)
    requires |token| >= 1 && forall m :: 0 <= m < |token| ==> !IsSpace(token[m])
    ensures BearerToken(Some("Bearer " + token)) == Some(token)
  {
    var h := "Bearer " + token;
    assert h[..6] == "Bearer" && h[6] == ' ' && h[7] == token[0];
    assert BearerAt(h, 0);
    assert FirstBearer(h, 0) == Some(0);
    assert TruthyText(h);
    var k := RunEnd(h, 7);
    assert forall m :: 7 <= m < |h| ==> h[m] == token[m - 7];
    assert k == |h|;
    assert h[7..k] == token;
  }
}
