# drivelog: a verified model of the API core

drivelog is a small web application for recording supervised driving practice.
Its PHP backend issues and checks signed bearer tokens, routes each request by its
path, and runs one script per endpoint. Each script is a chain of guards (401,
400, 403, 404, 405) followed by a change to the `users` or `driving_logs` table
that is scoped to the token's owner. The TypeScript frontend adds two pure
helpers and the sign-up form check.

This project models that core in Dafny and proves what it promises.

- **Auth** (`api/utils/Auth.php`): the password pepper in front of bcrypt.
  - Tokens are JSON Web Tokens (RFC 7519) in the JWS compact serialisation
    (section 7.1 of RFC 7515), signed with HS256 (section 3.2 of RFC 7518).
  - The base64url step translates `+/=` as in section 5 of RFC 4648.
  - `decode` is modelled with its two ways to throw, and `validateToken` with its
    expiry check.
  - The token state machine is Malformed / Tampered / Unreadable / Expired /
    Valid.
  - `getBearerToken` is modelled as a function of the header text.
- **Router** (`api/index.php`): strips the base path, trims, explodes, and
  selects a route.
- **AuthRoutes, PasswordRoute, UsersRoute, LogsRoute** (`api/routes/*.php`):
  each route is a method over the shared `Db`. Its contract ties
  (response, new table) to a function of the request, the old table and `now`.
  Lemmas about that function state check order, ownership, and that the user id
  comes from the token only, plus the field-merge rules.
- **Store, UserModel, DrivingLogModel** (`api/models/*.php`):
  - The tables are sequences of rows in a `Db` object, which keeps its primary
    keys distinct and below the auto-increment counter.
  - `User` and `DrivingLog` are classes whose fields the methods update in place,
    as the PHP objects are.
  - The SQL statements become filters, sorts, windows, counts and sums.
- **Helpers** (`src/utils/helpers.ts`): `calculateDuration` over integer
  milliseconds and `calculateLicenseProgress` over civil dates.
- **RegisterForm** (`src/pages/RegisterPage.tsx`): `validateForm` as an imperative
  method, with the email regular expression decided exactly.

**Library calls.** The calls the code makes into libraries are fields of a
`Platform.Library` value:

- `hash_hmac`, `base64_*`, `json_*` and `password_*`;
- `filter_var`, `htmlspecialchars(strip_tags())` and `strtotime`;
- MySQL's DATETIME reading.

The laws assumed about them are ghost predicates that appear as hypotheses of the
lemmas that use them: base64 alphabet and round trip, JSON round trip, bcrypt
accepting its own hash, and sanitising leaving plain text alone. The clock
(`time()`), bcrypt's salt and the database's timestamps are parameters (`now`,
`salt`, `stamp`).

**PHP and MySQL semantics.** PHP's loose `==` and `<`, `empty`, `isset`, `??` and
the `(int)` cast are written out in `Php`. The cast reads a numeric string as PHP 8
does: a sign, digits, a fraction and an exponent, truncated toward zero. A number
that is infinite as a double (magnitude at least `2^1024 - 2^970`) gives 0; any
other number outside the 64-bit range gives the nearest bound. So `limit=1e2` is
100, `offset=-0.5e1` is -5, `1e200` is `PHP_INT_MAX` and `limit=1e400` is 0.
`Php.SignedNumber` is the shared reading of a number at the start of text. PDO binds every key parameter as text,
and MySQL compares an INT column with text as numbers. `Store.SqlNumber` reads the
text as MySQL does: blanks, a sign, digits, a fraction and an exponent. So an id
`1.5` matches no key, `1e3` matches key 1000, and `1.0` matches key 1.

**Details of the code that the model keeps.**

- The bearer regex is `Bearer\s(\S+)` and is not anchored.
  - Any whitespace character may follow `Bearer`, not only a single space.
  - The match may occur anywhere in the header.
- `validateToken` does not check `iat`. A freshly issued token is therefore
  accepted for every `now <= iat + 86400`, including times before `iat`.
- `decode` throws rather than returning a rejection value. `validateToken` turns
  every exception into `null`. Text that is not JSON decodes to `null`, which has
  no `exp` and is returned as `null`.

## Model

| member | source | states |
|---|---|---|
| Auth.PepperedIsHexDigest | api/utils/Auth.php:13-19 | given a 32-byte HMAC, the pepper step yields exactly 64 lowercase hex characters: well under bcrypt's 72-byte input limit |
| Auth.VerifyOwnHash | api/utils/Auth.php:13-29 | verifyPassword(p, hashPassword(p)) holds for every password and salt, given that password_verify accepts password_hash's output; both apply the identical pepper step |
| Auth.ToBase64Url | api/utils/Auth.php:114-118 | the `+/=` to `-_` translation leaves no `+`, `/` or `=` in its result |
| Auth.ToBase64UrlAlphabet | api/utils/Auth.php:114-118 | text over the standard base64 alphabet becomes text over the URL-safe alphabet `A-Z a-z 0-9 - _` |
| Auth.FromToBase64Url | api/utils/Auth.php:143 | translating `-_` back to `+/` recovers the base64 text with only its `=` padding removed |
| Auth.SegmentIsUrlText | api/utils/Auth.php:114-118 | every encoded segment is URL-safe text with no `.` in it |
| Auth.EncodeSegments | api/utils/Auth.php:110-121 | splitting an encoded token on `.` gives exactly three segments: the encoded header, the encoded payload, and the encoded HMAC of `header.payload` as encoded. All three are URL-safe |
| Auth.PayloadRoundTrip | api/utils/Auth.php:143-144 | the payload segment translates, base64-decodes and JSON-decodes back to the claims it was built from |
| Auth.DecodeEncode | api/utils/Auth.php:110-145 | decode(encode(claims)) is accepted and returns the claims, given the base64 and JSON round-trip laws |
| Auth.HeaderNotInspected | api/utils/Auth.php:126-144 | any dot-free header segment is accepted once the signature matches, and the result depends on the payload segment only; the header's contents and `alg` are never read |
| Auth.MalformedIffNotTwoDots | api/utils/Auth.php:127-131 | decode throws for a wrong segment count exactly when the token does not contain exactly two dots |
| Auth.ValidateTokenByState | api/utils/Auth.php:51-64 | validateToken returns the claims exactly in the Valid state, and null alike in the Malformed, Tampered (third segment differs from the recomputed signature), Unreadable and Expired states |
| Auth.NotExpiredAtExp | api/utils/Auth.php:56 | a token whose `exp` equals `now` is not expired |
| Auth.NoExpNeverExpires | api/utils/Auth.php:56 | a payload without a set `exp` never expires |
| Auth.IssuedExpiry | api/utils/Auth.php:34-46 | an issued payload (`exp = iat + 86400`) is expired exactly when `iat + 86400 < now` |
| Auth.GeneratedTokenValidity | api/utils/Auth.php:34-64 | a generated token validates exactly while `now <= iat + 86400`, and then yields the issued claims, echoing `user_id` and `username` |
| Auth.ValidateDecoded | api/utils/Auth.php:51-64 | a token that decodes to claims validates to those claims exactly when they have not expired |
| Auth.RunEnd | api/utils/Auth.php:73 | the end of the maximal run of non-whitespace starting at a position |
| Auth.FirstBearer | api/utils/Auth.php:73 | the first position, if any, where `Bearer\s\S` matches |
| Auth.BearerToken | api/utils/Auth.php:69-79 | a token is returned iff the header is non-empty (PHP truthy) and `Bearer\s\S` matches somewhere; it is the maximal non-whitespace run after the first match, so it is non-empty and whitespace-free |
| Auth.BearerTokenOfWellFormedHeader | api/utils/Auth.php:69-79 | the header `Bearer <t>` yields exactly `t` for any non-empty whitespace-free `t` |
| Php.IntCastOfIntToString | api/routes/logs.php:50-51 | the `(int)` cast of an integer's decimal text gives the integer back, negative values included; outside the 64-bit range the nearest bound, and 0 once the integer is beyond a double's range |
| Php.IntCastOfNumeral | api/routes/logs.php:50-51 | the cast of a digit string up to `PHP_INT_MAX`, with or without a leading `-`, is its decimal value or that value negated |
| Php.Cap | api/routes/logs.php:50-51 | the result lies in the 64-bit range, and a value already in it is kept |
| Php.ToPhpInt | api/routes/logs.php:50-51 | the result lies in the 64-bit range; a value in it is kept; a value a double cannot hold (infinite) gives 0; any other value is clamped to the nearest bound |
| Php.IntRangeBelowDoubleOverflow | api/routes/logs.php:50-51 | every 64-bit integer is strictly below the magnitude at which a double overflows to infinity |
| Php.IntCastOfFraction | api/routes/logs.php:50-51 | `n.f` casts to `n`: the fraction is truncated (and `n` is converted like any number) |
| Php.IntCastOfExponent | api/routes/logs.php:50-51 | `<n>e<e>` casts to `n * 10^e`: kept in the 64-bit range, clamped beyond it, 0 once infinite as a double |
| Php.IntCastReadsExponent | api/routes/logs.php:50 | `(int)"1e2"` is 100 |
| Php.IntCastReadsFractionExponent | api/routes/logs.php:50 | `(int)"1.5e1"` is 15 |
| Php.IntCastTruncatesTowardZero | api/routes/logs.php:51 | `(int)"-1.9"` is -1, truncated toward zero |
| Php.IntCastOfNegativeExponent | api/routes/logs.php:51 | `(int)"-0.5e1"` is -5 |
| Php.IntCastOfInfinity | api/routes/logs.php:50 | `(int)"1e400"` is 0: the double is infinite |
| Php.IntCastOfLargeFinite | api/routes/logs.php:50 | `(int)"1e200"` is `PHP_INT_MAX`: a finite double beyond the range is clamped |
| Php.NumberOfIntText | api/routes/logs.php:50-51 | the decimal text of any integer reads as that integer with no fraction, and starts with no whitespace |
| Php.NumberOfFractionExponent | api/routes/logs.php:50-51 | `n.f` followed by `e<e>` reads as `10 n + f` times ten to the power `e - 1` |
| Php.LooseEqIntText | api/routes/users.php:36 | PHP's loose `==` holds, in both directions, between an integer and its decimal text |
| Store.IdMatchesOwnKey | api/models/User.php:122-126 | `WHERE user_id = :p` matches a row exactly when `p` is its key, given either as an integer or as the key's decimal text |
| Store.DecimalIsUnique | api/models/DrivingLog.php:79 | a number read from text equals at most one integer key |
| Store.SqlNumberOfIntText | api/models/DrivingLog.php:79-83 | the decimal text of any integer, negative ones included, reads as that integer with no fraction |
| Store.SqlNumberOfZeroFraction | api/models/DrivingLog.php:79-83 | `n.0` reads as `10 n` tenths |
| Store.SqlNumberOfFraction | api/models/DrivingLog.php:79-83 | `n.f` reads as `10 n + f` tenths |
| Store.SqlNumberOfExponent | api/models/DrivingLog.php:79-83 | the text `<n>e<e>` reads as `n` times ten to the power `e` |
| Store.FractionMatchesNoKey | api/models/DrivingLog.php:79-83 | an id with a non-zero fraction digit, such as `1.5`, matches no integer key |
| Store.ZeroFractionMatchesKey | api/models/DrivingLog.php:79-83 | an id `n.0` matches key `n` and no other |
| Store.ExponentMatchesPower | api/models/DrivingLog.php:79-83 | an id `<n>e<e>`, such as `1e3`, matches exactly the key `n * 10^e` |
| Store.Db.InsertUser | api/models/User.php:28-57 | appends one row carrying the next auto-increment key and advances the counter; keys stay distinct; the log table is unchanged |
| Store.Db.InsertLog | api/models/DrivingLog.php:26-52 | appends one row carrying the next auto-increment key and advances the counter; keys stay distinct; the user table is unchanged |
| Store.Db.ReplaceUsers | api/models/User.php:144-166 | stores a key-preserving rewrite of the user table (an UPDATE); everything else is unchanged |
| Store.Db.ReplaceLogs | api/models/DrivingLog.php:105-131 | stores a key-preserving rewrite of the log table (an UPDATE or DELETE result); everything else is unchanged |
| Store.FirstWhere | api/models/User.php:62-72 | `LIMIT 1` with `fetch`: the first matching row, and none exactly when no row matches |
| Store.Filter | api/models/DrivingLog.php:57-61 | a `WHERE`: only rows drawn from the table that satisfy the condition, every such row included, and the whole table when every row matches |
| Store.FilterAppend | api/models/DrivingLog.php:57-61 | filtering distributes over appending rows |
| Store.FilterKeepsDistinct | api/models/DrivingLog.php:57-61 | a filtered table still has distinct keys |
| Store.AtMostOne | api/models/DrivingLog.php:76-80 | with distinct primary keys, at most one row matches a key condition |
| Strings.Explode | api/index.php:46 | `explode` splits into one more part than there are separators; no part contains the separator, and imploding the parts gives the text back |
| Strings.ExplodeImplode | api/index.php:46 | exploding the join of separator-free parts gives those parts back |
| Strings.ExplodeThree | api/utils/Auth.php:127-133 | three separator-free texts joined by the separator explode to exactly those three |
| Strings.Replace | api/utils/Auth.php:114 | the replacement keeps only characters of the text other than the replaced one, plus characters of its substitute |
| Strings.ReplaceAppend | api/utils/Auth.php:114 | `str_replace` of one character distributes over concatenation |
| Strings.RTrim | api/index.php:43 | `rtrim` removes exactly the trailing run of the character: the result is a prefix that does not end with it, and only that character was removed |
| Strings.LTrim | api/index.php:46 | `ltrim` removes exactly the leading run of the character |
| Router.StripBase | api/index.php:37-40 | `/driveapi` is removed exactly when the path starts with it, as a bare prefix test; otherwise the path is unchanged |
| Router.Segments | api/index.php:43-46 | the path's slash-free parts, at least one |
| Router.ParseUri | api/index.php:43-49 | the endpoint is part 0; the id is part 1 and the sub-endpoint part 2, each present exactly when the path has that many parts |
| Router.Select | api/index.php:53-77 | `users` goes to the password script iff the id is truthy (non-empty, not `"0"`) and the sub-endpoint is `password`, and to the users script otherwise; every endpoint other than auth, users, logs and health gets 404 |
| Router.Handle | api/index.php:53-77 | for each selected route, states the response and the new table as that route's function of the request; the auth route answers 405 to other verbs and 404 to an unknown action, and changes the users table only on register; health answers 200 with the time; others answer 404; tables a route does not own are unchanged |
| Router.TrimmedPath | api/index.php:43-46 | rtrim and trim recover the inner path from `/p` and `/p/` |
| Router.StripBaseOf | api/index.php:37-40 | `/driveapi/p` and `/driveapi/p/` lose exactly the base path |
| Router.SegmentsOfInner | api/index.php:37-46 | the parts of `/driveapi/p`, with or without a trailing slash, are the explode of `p` |
| Router.SegmentsOfPieces | api/index.php:37-46 | a path built from non-empty outer pieces parses back to those pieces |
| Router.PasswordPath | api/index.php:58-65 | `/driveapi/users/<id>/password` selects the password script unless the id is empty or `"0"`, which select the users script |
| Router.BarePrefix | api/index.php:37-40 | `/driveapix/logs` is also stripped, to `x/logs`, and then gets 404 |
| Router.SlashesOnly | api/index.php:43-76 | an empty or slash-only path gives endpoint `''` and no id or sub-endpoint, and so 404 |
| Http.Authenticate | api/routes/users.php:13-21 | 401 with the route's own message when no truthy bearer token is present; 401 "Invalid or expired token" when validation yields null or an empty payload; otherwise exactly the validated payload |
| Http.SelfGuard | api/routes/users.php:31-38 | 400 without a truthy id; 403 exactly when the token's `user_id` is not loosely equal to the id; passes otherwise |
| Http.SelfGuardOfIssuedId | api/routes/users.php:36 | a token naming user n passes for id n and is forbidden for any other non-zero id |
| Http.IssuedTokenPasses | api/routes/logs.php:15-23 | a token issued at `iat` passes the gate with its issued claims for every `now` in `[iat, iat + 86400]` |
| Http.TokenHasNoSpace | api/utils/Auth.php:73 | an encoded token is truthy and whitespace-free, so the bearer regex captures it whole |
| Http.StrtotimeGeMeaning | api/routes/logs.php:88-93 | PHP's `>=` between `strtotime` results: numeric order for two timestamps; a failed end time (`false`) is below every start, so the check fails; a failed start time is below every non-zero end |
| AuthRoutes.RegisterCheck | api/routes/auth.php:24-50 | all 400s; passes exactly when all five fields are non-empty, the email validates, the password has at least 8 bytes, and neither the username nor the email is taken |
| AuthRoutes.Register | api/routes/auth.php:22-70 | a rejected registration leaves the table alone; otherwise exactly one row is appended, holding the sanitised fields and the peppered bcrypt hash (never the plaintext), and the 201 response carries a token for the new key and username |
| AuthRoutes.CreateAndIssue | api/routes/auth.php:59-66 | appends the new row and answers 201 with the token for the new key and the user's public fields |
| AuthRoutes.FillUser | api/routes/auth.php:52-57 | copies the five body fields into the `User` object, with the plaintext password in `password_hash` until `create` hashes it |
| AuthRoutes.Login | api/routes/auth.php:72-97 | the login response for the current table; the table is not changed |
| AuthRoutes.VerifyResponse | api/routes/auth.php:99-117 | 200 or 401; success exactly when the token gate passes, and then the payload's `user_id` and `username` |
| AuthRoutes.AuthRoute | api/routes/auth.php:17-126 | 405 for non-POST; for POST, register, login and verify as above; any other action gets 404; only register changes the table |
| AuthRoutes.RegisterBodyChecksFirst | api/routes/auth.php:24-38 | a missing field, bad email or short password is rejected whatever the table holds: these checks come before the uniqueness checks |
| AuthRoutes.UsernameCheckedBeforeEmail | api/routes/auth.php:42-50 | when the body is fine and the username is taken, the answer is "Username already exists" even if the email is taken too |
| AuthRoutes.LoginFailuresAlike | api/routes/auth.php:80-88 | an unknown username and a wrong password give the identical 401 "Invalid credentials", and a 401 happens exactly in those two cases |
| AuthRoutes.FoundAfterInsert | api/models/User.php:62-72 | a newly appended row with an untaken username is the one a lookup by that username finds |
| AuthRoutes.RegisterThenLogin | api/routes/auth.php:53-96 | after a successful registration, logging in with the same username and password succeeds with a token for the new row |
| AuthRoutes.RegisterTokenNamesNewRow | api/routes/auth.php:61 | the token's `user_id` (`lastInsertId` text) selects exactly the new row |
| AuthRoutes.LoginTokenVerifies | api/routes/auth.php:91-117 | the token login issues for a row verifies, with that row's id and username, until it expires |
| PasswordRoute.ChangePassword | api/routes/password.php:10-70 | the response and new user table are those of the password-change function of the request and old table; nothing else changes |
| PasswordRoute.ChangeWith | api/routes/password.php:26-70 | the same, after the token gate |
| PasswordRoute.LookUpAndStore | api/routes/password.php:54-70 | looks the user up by the token's username; 404 if missing, 400 if the current password fails, else the new hash is stored |
| PasswordRoute.StoreHash | api/routes/password.php:65-66 | stores the peppered bcrypt hash of the new password in the row keyed by the URL id, and only there |
| PasswordRoute.OnlyPut | api/routes/password.php:10-13 | a non-PUT method gives 405, before any token handling, and changes nothing |
| PasswordRoute.GuardOrder | api/routes/password.php:15-42 | the 401s come first, then the 400/403 id checks, then the 400 for missing fields; any failure leaves the table unchanged |
| PasswordRoute.HashChangesOnlyIfVerified | api/routes/password.php:54-70 | the table changes only with the 200 response, after the user found by the token's username verified the current password; any other response leaves the table unchanged |
| PasswordRoute.NewPasswordAccepted | api/routes/password.php:64-67 | after a successful change, the row keyed by the id accepts the new password and every other row is unchanged |
| UsersRoute.Users | api/routes/users.php:12-108 | the response and new user table are those of the users-route function of the request and old table; logs are unchanged |
| UsersRoute.Show | api/routes/users.php:30-47 | the response of GET: guard, then the row's public fields without the hash, or 404 |
| UsersRoute.Edit | api/routes/users.php:49-85 | PUT: guard, email checks, then the profile update and re-read |
| UsersRoute.UpdateAndReload | api/routes/users.php:74-84 | stores name, email and birthdate (the sanitised empty string when absent) in the keyed row, and answers with the re-read public row |
| UsersRoute.CheckEmail | api/routes/users.php:61-72 | 400 for an email that fails validation or belongs to a different user |
| UsersRoute.Remove | api/routes/users.php:87-104 | DELETE: guard, then removal of the keyed row |
| UsersRoute.GateBeforeMethod | api/routes/users.php:12-21 | a failed token gate gives 401 for every method and changes nothing |
| UsersRoute.SelfOnly | api/routes/users.php:29-107 | GET, PUT and DELETE answer the 400/403 of the self guard first; other methods get 405; every failure leaves the table unchanged |
| UsersRoute.OwnEmailAllowed | api/routes/users.php:66-72 | keeping one's own email passes the uniqueness check |
| UsersRoute.OthersEmailRefused | api/routes/users.php:66-72 | an email held only by other users is refused with "Email already exists" |
| UsersRoute.AbsentFieldsCleared | api/routes/users.php:74-77 | name, email and birthdate absent from the body are cleared, not kept; present ones are stored sanitised; username and hash are untouched |
| UsersRoute.DeleteRemovesOnlyKey | api/routes/users.php:97-99 | after DELETE no row has the key, and every other row remains |
| LogsRoute.ExistingOwned | api/routes/logs.php:114-123 | the log is returned only when the id is truthy, a row has a key equal to MySQL's numeric reading of the id, and the token's user owns it |
| LogsRoute.Logs | api/routes/logs.php:14-180 | the response, log table and counter are those of the logs-route function of the request and old table; users are unchanged |
| LogsRoute.Show | api/routes/logs.php:34-47 | GET one: 404 when missing, 403 when foreign, else the row |
| LogsRoute.List | api/routes/logs.php:48-76 | the list response: the selected page, count and total minutes, with `limit` and `offset` cast as PHP 8 casts numeric text |
| LogsRoute.Fetch | api/routes/logs.php:53-58 | the date-range query exactly when both dates are given, else `LIMIT`/`OFFSET` |
| LogsRoute.Post | api/routes/logs.php:79-107 | the response, table and counter of POST |
| LogsRoute.Insert | api/routes/logs.php:95-103 | creates the row and answers 201 with it re-read |
| LogsRoute.Fill | api/routes/logs.php:95-99 | sets the owner from the token, the times from the body, description `''` and night flag false when absent |
| LogsRoute.CheckExisting | api/routes/logs.php:114-123 | the lookup and ownership check, with the key matched by MySQL's numeric reading of the id |
| LogsRoute.Put | api/routes/logs.php:109-150 | the response and table of PUT |
| LogsRoute.Apply | api/routes/logs.php:137-146 | stores the merged fields in the owned row and answers with it re-read |
| LogsRoute.FillFrom | api/routes/logs.php:137-142 | each field is the body's value when set and not null, else the existing one; the owner comes from the token |
| LogsRoute.Delete | api/routes/logs.php:152-176 | the response and table of DELETE |
| LogsRoute.Erase | api/routes/logs.php:168-171 | removes the row matching both the log id and the token's user id |
| LogsRoute.GateBeforeMethod | api/routes/logs.php:14-23 | a failed token gate gives 401 before the method switch and changes nothing |
| LogsRoute.OwnerFromTokenOnly | api/routes/logs.php:29-176 | the whole route's outcome is the same whatever `user_id` the body carries |
| LogsRoute.PostIgnoresBodyOwner | api/routes/logs.php:79-103 | POST ignores the body's `user_id` |
| LogsRoute.PutIgnoresBodyOwner | api/routes/logs.php:109-146 | PUT ignores the body's `user_id` |
| LogsRoute.TimesIgnoreOwner | api/routes/logs.php:83-93 | the time checks ignore the body's `user_id` |
| LogsRoute.NewLogIgnoresOwner | api/routes/logs.php:95-99 | the created row ignores the body's `user_id` |
| LogsRoute.MergedIgnoresOwner | api/routes/logs.php:137-142 | the merged row ignores the body's `user_id` |
| LogsRoute.PostedOwnerIsTokenUser | api/routes/logs.php:95 | the created row's owner is the token's user id |
| LogsRoute.MissingOrForeignLog | api/routes/logs.php:34-45 | GET, PUT or DELETE on a missing log gives 404, on another user's log gives 403, and neither changes the table |
| LogsRoute.FractionalIdNotFound | api/routes/logs.php:34-39 | GET, PUT and DELETE of a log id with a non-zero fraction, such as `1.5`, answer 404 "Log not found" and change no table |
| LogsRoute.RejectionsChangeNothing | api/routes/logs.php:32-180 | every failure response, and every GET, leaves the table and counter unchanged |
| LogsRoute.PostAppendsOne | api/routes/logs.php:95-103 | a valid POST appends exactly one row with the next key; description `''` and night flag false when absent |
| LogsRoute.PostChecks | api/routes/logs.php:82-93 | empty times give 400 "required"; times out of order give 400 "after"; failures change nothing |
| LogsRoute.PutTimeCheckNeedsBoth | api/routes/logs.php:127-135 | when either time is absent from an owned PUT, no time-order check happens and the update succeeds |
| LogsRoute.PutMerge | api/routes/logs.php:137-146 | the owned row gets each body field when set, else keeps its own (exactly so for plain text); every other row is unchanged |
| LogsRoute.DeleteRemovesAtMostOne | api/routes/logs.php:168-171 | DELETE removes at most one row, and keeps every row not matching both the log id and the owner |
| LogsRoute.ListSelection | api/routes/logs.php:49-75 | without parameters: the first 100 own logs, newest first, with the count and total minutes; with both dates: the date-range query; otherwise a limit or offset that casts, with its fraction and exponent, to a negative number is a database error |
| LogsRoute.ListReadsNumericQuery | api/routes/logs.php:49-56 | `limit=1e2` gives the 100-row page; `offset=-0.5e1` is offset -5 and a database error; `limit=1e400` is limit 0 and an empty page |
| LogsRoute.ListOnlyOwn | api/routes/logs.php:48-58 | every listed log belongs to the token's user |
| DrivingLogModel.InsertDescKeepsOrder | api/models/DrivingLog.php:61 | inserting into a start-time-descending list keeps it descending |
| DrivingLogModel.SortDesc | api/models/DrivingLog.php:61 | `ORDER BY start_time DESC`: a permutation of the rows, in descending start-time order |
| DrivingLogModel.Window | api/models/DrivingLog.php:62 | `LIMIT l OFFSET o`: at most `l` rows, exactly the rows from position `o`, empty past the end |
| DrivingLogModel.WindowKeepsOrder | api/models/DrivingLog.php:61-62 | a window of a sorted list is sorted |
| DrivingLogModel.FindLog | api/models/DrivingLog.php:76-100 | a row is found iff some row's key equals MySQL's numeric reading of the parameter, and it is such a row |
| DrivingLogModel.FindLogUnique | api/models/DrivingLog.php:76-86 | with distinct keys the lookup returns the one row having the key |
| DrivingLogModel.OwnedBy | api/models/DrivingLog.php:60 | exactly the rows whose `user_id` matches |
| DrivingLogModel.OwnedInRange | api/models/DrivingLog.php:157-159 | exactly the owner's rows with `start_date <= start_time <= end_date`, both bounds inclusive |
| DrivingLogModel.MinutesBetween | api/models/DrivingLog.php:175 | `TIMESTAMPDIFF(MINUTE, s, e)`: the whole minutes between the two times, truncated toward zero |
| DrivingLogModel.SumMinutesAppend | api/models/DrivingLog.php:174-185 | the sum of minutes distributes over appending rows |
| DrivingLogModel.SumMinutesNonNegative | api/models/DrivingLog.php:174-185 | rows that end no earlier than they start sum to a non-negative total |
| DrivingLogModel.SetLogFields | api/models/DrivingLog.php:105-131 | only start time, end time, description and night flag change, and only in rows matching both log id and user id |
| DrivingLogModel.WithoutLog | api/models/DrivingLog.php:136-149 | removes exactly the rows matching both log id and user id |
| DrivingLogModel.WithoutLogRemovesAtMostOne | api/models/DrivingLog.php:136-149 | with distinct keys, delete removes at most one row |
| DrivingLogModel.DrivingLog.Create | api/models/DrivingLog.php:26-52 | sanitises the four text fields in place, appends one row carrying them with the next key, and sets `log_id` to that key |
| DrivingLogModel.DrivingLog.GetById | api/models/DrivingLog.php:76-100 | returns the row whose key equals MySQL's numeric reading of the id, and loads its fields into the object, all but `is_nighttime`; leaves the object alone when nothing is found |
| DrivingLogModel.DrivingLog.Load | api/models/DrivingLog.php:89-95 | copies a row's fields into the object, all but `is_nighttime` |
| DrivingLogModel.DrivingLog.Update | api/models/DrivingLog.php:105-131 | sanitises the five fields in place and rewrites only the row matching both keys |
| DrivingLogModel.DrivingLog.Delete | api/models/DrivingLog.php:136-149 | sanitises the two keys in place and removes the row matching both |
| DrivingLogModel.ListByOwner | api/models/DrivingLog.php:57-71 | without a negative limit or offset: the owner's rows, newest first, from position `offset` on, exactly `min(limit, max(0, rows - offset))` of them; a negative value is a database error |
| DrivingLogModel.RangeByOwner | api/models/DrivingLog.php:154-169 | a permutation of the owner's rows in the inclusive date range, newest first |
| DrivingLogModel.TotalMinutes | api/models/DrivingLog.php:174-185 | 0 when the user has no rows; non-negative when every row ends no earlier than it starts |
| DrivingLogModel.CountOwned | api/models/DrivingLog.php:190-197 | `COUNT(*)`, at most the table size |
| DrivingLogModel.SortedWindowOwned | api/models/DrivingLog.php:57-71 | every row of a page is the owner's and from the table |
| DrivingLogModel.SortedRange | api/models/DrivingLog.php:154-169 | sorting the range selection keeps exactly the owner's rows in range |
| DrivingLogModel.SumMinutesNonNegativeOwned | api/models/DrivingLog.php:174-185 | the owner's total is non-negative when rows are well ordered |
| DrivingLogModel.CountMatchesList | api/models/DrivingLog.php:190-197 | the count equals the number of owner rows the list returns with a large enough limit, and those are all the owner's rows |
| DrivingLogModel.OtherOwnerInsertInvisible | api/models/DrivingLog.php:174-197 | another user's new row changes neither the list, nor the count, nor the total |
| DrivingLogModel.OwnInsertCounted | api/models/DrivingLog.php:174-197 | one's own new row adds one to the count and its minutes to the total |
| DrivingLogModel.OwnedByAppend | api/models/DrivingLog.php:60 | the owner filter distributes over appending rows |
| DrivingLogModel.SetLogFieldsTouchesOnlyOwnedKey | api/models/DrivingLog.php:105-131 | update never changes a key, owner or timestamp; it changes only a row matching both keys, and at most one row |
| DrivingLogModel.CreatedOwnerIsTokenUser | api/models/DrivingLog.php:34 | sanitising the user id keeps the owner's key |
| UserModel.PublicRow | api/models/User.php:122-139 | `findById`'s field set: the seven public fields, no `password_hash` |
| UserModel.PublicById | api/models/User.php:122-139 | found iff some row has the key; the result is that row's public fields, without the hash |
| UserModel.SetProfile | api/models/User.php:144-166 | only name, email and birthdate change, and only in the keyed row |
| UserModel.SetPasswordHash | api/models/User.php:171-189 | only the hash changes, and only in the keyed row |
| UserModel.WithoutUser | api/models/User.php:204-212 | removes exactly the keyed rows |
| UserModel.User.Create | api/models/User.php:28-57 | sanitises four fields in place, stores the peppered bcrypt hash of the password (not the plaintext) with the next key, and sets `user_id` to that key |
| UserModel.User.FindByUsername | api/models/User.php:62-87 | found iff the username exists; then the object holds the whole row, hash included; otherwise it is untouched |
| UserModel.User.FindByEmail | api/models/User.php:92-117 | found iff the email exists; then the object holds the whole row, hash included; otherwise it is untouched |
| UserModel.User.Load | api/models/User.php:75-82 | the object holds the row's eight fields |
| UserModel.User.ShowsRow | api/models/User.php:239-255 | an object holding a row shows that row's public fields |
| UserModel.User.Update | api/models/User.php:144-166 | sanitises the four fields in place and rewrites the profile of the keyed row only |
| UserModel.User.UpdatePassword | api/models/User.php:171-189 | stores the new password's peppered hash only in the keyed row; the object's own fields other than the sanitised id are unchanged |
| UserModel.User.Delete | api/models/User.php:204-212 | sanitises the id in place and removes the keyed row |
| UserModel.User.ToArray | api/models/User.php:239-255 | the seven public fields copied verbatim, plus `password_hash` exactly when asked for |
| UserModel.ToArrayHidesHash | api/models/User.php:239-255 | the default array has no `password_hash`; with the flag it is the stored hash |
| UserModel.LoadedUserAcceptsOwnPassword | api/models/User.php:194-199 | a loaded user whose hash came from a password accepts that password |
| UserModel.EmptyHashRejects | api/models/User.php:194-197 | an empty or null stored hash rejects every password |
| UserModel.SetProfileTouchesOnlyKey | api/models/User.php:144-166 | a profile update keeps every key, username and hash, and changes only the keyed row |
| UserModel.SetPasswordHashEffect | api/models/User.php:171-189 | the keyed row gets the new hash; every other row is unchanged |
| UserModel.WithoutUserEffect | api/models/User.php:204-212 | no row with the key remains, every other row does, and the table does not grow |
| Helpers.RoundedMinutes | src/utils/helpers.ts:22 | `Math.round(ms / 60000)`: the nearest whole minute, halves rounded up |
| Helpers.TruncRem60 | src/utils/helpers.ts:24 | JavaScript's `% 60`: the truncated remainder, with the sign of the dividend |
| Helpers.Split | src/utils/helpers.ts:22-24 | for a non-negative minute count: `0 <= minutes < 60` and `hours * 60 + minutes` equals it; for a negative count: negative hours and a remainder in `(-60, 0]` |
| Helpers.DurationReadsBack | src/utils/helpers.ts:18-30 | for a non-negative duration, reading the text `"{h}h {m}m"` or `"{m}m"` back gives the rounded minute count |
| Helpers.MinutesTextReadsBack | src/utils/helpers.ts:29 | the minutes-only text reads back to its count |
| Helpers.SplitTextReadsBack | src/utils/helpers.ts:26-29 | the text for any hours and minutes reads back to `60 * h + m` |
| Helpers.MinutesOnlyBelowAnHour | src/utils/helpers.ts:26-29 | under an hour, the output is `"{m}m"` with the truncated remainder |
| Helpers.NegativeHoursDropped | src/utils/helpers.ts:26-29 | a negative duration drops its hours: 61 minutes backwards shows `"-1m"` |
| Helpers.DurationExamples | src/utils/helpers.ts:18-30 | 90 minutes is `"1h 30m"`; 29999 ms is `"0m"` and 30000 ms `"1m"` |
| Helpers.CeilDays | src/utils/helpers.ts:76 | `Math.ceil(ms / one day)` |
| Helpers.CalculateLicenseProgress | src/utils/helpers.ts:41-83 | null exactly for an absent or empty birthdate; otherwise the age is the calendar age, eligibility is age at least 16, and an eligible result has 0 days remaining |
| Helpers.YearLength | src/utils/helpers.ts:52-53 | a Gregorian year has 366 days exactly when it is a leap year, else 365 |
| Helpers.DayNumberOrder | src/utils/helpers.ts:75 | an earlier calendar date has a smaller day number |
| Helpers.LeapDayRollsOver | src/utils/helpers.ts:52-53 | `setFullYear` onto February 29 of a common year lands on March 1 |
| Helpers.AgeBelowIffBefore | src/utils/helpers.ts:56-63 | the age is below n exactly when today is before the n-th birthday: the year difference minus 1 exactly when today's (month, day) is before the birth's |
| Helpers.EligibleFromSixteenthBirthday | src/utils/helpers.ts:52-72 | eligible exactly from the sixteenth birthday on, with 0 days remaining |
| Helpers.DaysRemainingUntilBirthday | src/utils/helpers.ts:74-82 | before it, the days remaining are the whole days to the sixteenth birthday, one more when the birth time of day is later than today's |
| RegisterForm.EmailPatternIff | src/pages/RegisterPage.tsx:72 | the decision procedure accepts exactly the texts `^[^\s@]+@[^\s@]+\.[^\s@]+$` matches |
| RegisterForm.EmailTest | src/pages/RegisterPage.tsx:72 | `regex.test(email)` holds exactly when the email has the pattern's shape |
| RegisterForm.UsernameError | src/pages/RegisterPage.tsx:60-66 | no message exactly when the username has at least 3 characters |
| RegisterForm.EmailError | src/pages/RegisterPage.tsx:69-75 | no message exactly when the email matches the pattern; a non-empty mismatch gets "Invalid email format" |
| RegisterForm.PasswordError | src/pages/RegisterPage.tsx:78-84 | no message exactly when the password has at least 8 characters |
| RegisterForm.ConfirmError | src/pages/RegisterPage.tsx:87-90 | a message exactly when the two passwords differ, independently of the other checks |
| RegisterForm.RequiredError | src/pages/RegisterPage.tsx:93-102 | a message exactly when the field is empty |
| RegisterForm.CleanIffAcceptable | src/pages/RegisterPage.tsx:47-106 | no message at all exactly when the form is acceptable |
| RegisterForm.RequiredFirst | src/pages/RegisterPage.tsx:60-102 | an empty field gets its "required" message, whatever else is wrong |
| RegisterForm.ValidateForm | src/pages/RegisterPage.tsx:47-106 | the messages are those of each field's rule, and it returns true exactly when every message is empty, that is, when the form is acceptable |
| RegisterForm.AcceptableEnablesSubmit | src/pages/RegisterPage.tsx:135-136 | an acceptable form has every field filled, so the submit button is enabled |
| RegisterForm.EnabledNotAcceptable | src/pages/RegisterPage.tsx:135-136 | the converse fails: a two-letter username leaves the button enabled but is refused |
| RegisterForm.EmailAccepted | src/pages/RegisterPage.tsx:72 | `a@b.c` matches |
| RegisterForm.EmailNeedsParts | src/pages/RegisterPage.tsx:72 | `a@b` and `@b.c` do not match |
| RegisterForm.EmailDotPlacement | src/pages/RegisterPage.tsx:72 | a dot right after the `@` or at the end does not count |
| RegisterForm.EmailNoSpaceOneAt | src/pages/RegisterPage.tsx:72 | white space, or a second `@`, defeats the pattern |

## Left out

- Code that runs inside libraries: HMAC-SHA256, base64, JSON, bcrypt (including salt generation), `FILTER_VALIDATE_EMAIL`, `htmlspecialchars(strip_tags())`, `strtotime` and MySQL's DATETIME conversion. These are fields of `Platform.Library`, and each law assumed about them is a hypothesis of the lemma that needs it.
- "Two hashes of one password differ": this depends on bcrypt's random salt. The salt is a parameter here, so the property cannot be stated.
- Tamper detection for a single flipped character: the model proves that `decode` accepts only when the third segment equals the recomputed HMAC. That a changed payload changes the HMAC is a property of HMAC-SHA256 itself.
- Reading the Authorization header from `$_SERVER` or `apache_request_headers` (api/utils/Auth.php:84-104): this is I/O. `getBearerToken` is modelled over the header text.
- The clock, bcrypt's salt and the database's `CURRENT_TIMESTAMP` are parameters (`now`, `salt`, `stamp`).
- CORS and preflight handling (api/index.php:8-26), `parse_url`, and reading the request body from `php://input`.
- The exception-to-500 catch (api/index.php:78-81): PDO failures are not modelled, except the one the core can provoke, a negative `LIMIT`/`OFFSET`, which appears as `DatabaseError`.
- `Response::json`'s `exit()`: a route returns its response instead.
- PHP values in bodies and payloads are null, booleans, integers and strings only. JSON arrays, objects and floats inside a body are not modelled.
- Numeric strings other than optionally signed decimal integers (no fractions, exponents or surrounding blanks) are not modelled in PHP's loose comparisons. So `SelfGuard` compares `1e0` with user id 1 as text and answers 403, where PHP 8 lets it through. MySQL's collation is left out: text matches are exact.
- Store.IdMatches: reads the parameter as an exact decimal. MySQL compares as double-precision floats, so rounding of ids with more than about 15 significant digits, or with exponents beyond a double's range, is not modelled. Which blanks MySQL skips before a number is modelled as spaces and tabs.
- Store.IntOf: an INSERT of text that is not an integer into an INT column (rounding, or an error in strict mode) is not modelled. The only value inserted there is the token's integer `user_id`, sanitised, which `IntOf` reads exactly.
- LogsRoute.List: the cast of `limit` and `offset` is exact decimal arithmetic. PHP converts a fractional or exponent string through a double, so rounding of values with more than about 15 significant digits is not modelled (infinity, the one rounding that changes the regime, is). Query values are text: an array-valued parameter such as `limit[]=5`, which PHP casts to 1, is not modelled.
- LogsRoute.Post, LogsRoute.Put: the stored `start_time` and `end_time` are the sanitised text as received. MySQL stores a DATETIME and re-reads it in its canonical `YYYY-MM-DD HH:MM:SS` form, so `2024-05-01T10:00` comes back as `2024-05-01 10:00:00`. The model returns the text unchanged, in Show and List as well. `toDatetime` is used for comparisons and ordering only.
- UsersRoute.Users, UsersRoute.Remove: deleting a user leaves `driving_logs` untouched. Whether the schema's foreign key cascades, refuses the delete or is absent is not part of this model.
- A token payload that is valid JSON but not an object (`5`, `"x"`, `true`): `validateToken` would return that scalar as it is. `jsonDecode` yields objects only, so this case is not modelled. The server signs objects only, and any other token fails the signature check before its payload is read.
- Rows with equal start times: `ORDER BY start_time DESC` leaves their order unspecified, and the model fixes one order (an insertion sort). `SUM` is modelled as an integer rather than MySQL's DECIMAL.
- `round($totalMinutes / 60, 2)` (api/routes/logs.php:73) is floating point. The list response carries the integer total minutes only.
- Date parsing and time zones in `src/utils/helpers.ts`: `new Date(text)` is a `parse` parameter returning a civil date and a time of day, and `new Date()` is the `today` parameter.
- String lengths: the backend's `strlen` and the frontend's `.length` are both counted as characters here. A UTF-16 or multi-byte difference is not modelled.
- JavaScript numbers beyond the safe-integer range are not modelled: all arithmetic is on unbounded integers.
- PutMerge: states that an absent field keeps the existing value verbatim only for plain text. Otherwise the stored value is the existing one sanitised again, which is what `update` does.
- `setErrors` and the React state it updates, the rest of the UI, the `fetch` client, and `src/context/AuthContext.tsx` (client-side and asynchronous).
- DashboardPage's copies of the duration and license code, and `formatDateTime`, which depends on the locale.
- `usernameExists` and `emailExists` (api/models/User.php:217-234) are modelled as predicates used by `RegisterCheck` (`UsernameTaken`, `EmailTaken`), so they have no rows of their own.
