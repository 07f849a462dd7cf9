/**
  The library functions the backend calls but does not define: PHP's
  `hash_hmac`, `base64_encode`/`base64_decode`, `json_encode`/`json_decode`,
  `password_hash`/`password_verify`, `filter_var(..., FILTER_VALIDATE_EMAIL)`,
  `htmlspecialchars(strip_tags(...))` and `strtotime`, and MySQL's conversion of
  a stored text to a DATETIME. They are fields of a `Library` value so that
  nothing is assumed about them beyond the laws stated below, each of which is a
  hypothesis of the lemmas that need it.
*/
module Platform {
  import opened Wrappers
  import opened Strings
  import opened Php

  datatype Library = Library(
    /** `hash_hmac('sha256', data, key, true)`: the raw 32-byte digest. */
    hmacSha256: (string, string) -> string,
    /** `base64_encode`. */
    base64Encode: string -> string,
    /** `base64_decode` in its default, non-strict mode. */
    base64Decode: string -> string,
    /** `json_encode` of an associative array. */
    jsonEncode: Assoc -> string,
    /** `json_decode(s, true)` when the text is a JSON object; `None` otherwise. */
    jsonDecode: string -> Option<Assoc>,
    /** `password_hash(p, PASSWORD_BCRYPT)` with the salt it draws given as second argument. */
    bcryptHash: (string, string) -> string,
    /** `password_verify(p, hash)`. */
    bcryptVerify: (string, string) -> bool,
    /** `filter_var(s, FILTER_VALIDATE_EMAIL) !== false`. */
    validateEmail: string -> bool,
    /** `htmlspecialchars(strip_tags(s))`. */
    sanitize: string -> string,
    /** `strtotime(s)`; `None` stands for `false`. */
    strtotime: string -> Option<int>,
    /** MySQL's DATETIME reading of a text, in seconds. */
    toDatetime: string -> int)

  /** The standard base64 alphabet with its padding character. */
  predicate Base64Char(c: char)
  {
    ('A' <= c <= 'Z') || ('a' <= c <= 'z') || ('0' <= c <= '9') || c == '+' || c == '/' || c == '='
  }

  /** HMAC-SHA256 yields 32 bytes. */
  ghost predicate HmacDigestLength(lib: Library)
  {
    forall d, k :: |lib.hmacSha256(d, k)| == 32
  }

  /** HMAC-SHA256 yields bytes. */
  ghost predicate HmacDigestBytes(lib: Library)
  {
    forall d, k, i :: 0 <= i < |lib.hmacSha256(d, k)| ==> lib.hmacSha256(d, k)[i] as int < 256
  }

  /** `base64_encode` writes only the standard alphabet. */
  ghost predicate Base64Alphabet(lib: Library)
  {
    forall x, i :: 0 <= i < |lib.base64Encode(x)| ==> Base64Char(lib.base64Encode(x)[i])
  }

  /** Non-strict `base64_decode` reads an encoding back even with its `=` padding removed. */
  ghost predicate Base64Unpadded(lib: Library)
  {
    forall x :: lib.base64Decode(Replace(lib.base64Encode(x), '=', "")) == x
  }

  /** `json_decode(json_encode(m), true)` gives `m` back. */
  ghost predicate JsonRoundTrip(lib: Library)
  {
    forall m :: lib.jsonDecode(lib.jsonEncode(m)) == Some(m)
  }

  /** `password_verify(p, password_hash(p))` holds for every salt. */
  ghost predicate BcryptAcceptsOwnHash(lib: Library)
  {
    forall p, salt :: lib.bcryptVerify(p, lib.bcryptHash(p, salt))
  }

  /** A bcrypt hash is a 60-character string. */
  ghost predicate BcryptHashLength(lib: Library)
  {
    forall p, salt :: |lib.bcryptHash(p, salt)| == 60
  }

  /** Text with none of the characters `strip_tags` or `htmlspecialchars` act on. */
  predicate PlainText(s: string)
  {
    forall i :: 0 <= i < |s| ==> s[i] !in "<>&\"'\0"
  }

  /** Sanitising leaves plain text (digit strings among it) unchanged. */
  ghost predicate SanitizeKeepsPlainText(lib: Library)
  {
    forall s :: PlainText(s) ==> lib.sanitize(s) == s
  }
}
