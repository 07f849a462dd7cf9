/**
  The routes of `api/routes/auth.php`: `register`, `login` and `verify`, all
  POST. Each handler is a method over the database that works through `User`
  objects as the script does, and is proved against a reference function of the
  request and the table as it was.
*/
module AuthRoutes {
  import opened Wrappers
  import opened Php
  import opened Platform
  import opened Store
  import opened Http
  import opened UserModel
  import Auth

  // ======================================================== register

  /** The first registration check that fails, in the order the script runs them. */
  function RegisterCheck(lib: Library, users: seq<UserRow>, data: Assoc): (r: Option<Response>)
    ensures r.Some? ==> r.value.Failure? && r.value.status == 400
    ensures r.None? <==>
              !IsEmpty(data, "username") && !IsEmpty(data, "email") && !IsEmpty(data, "password") &&
              !IsEmpty(data, "name") && !IsEmpty(data, "birthdate") &&
              lib.validateEmail(Text(Get(data, "email"))) && |Text(Get(data, "password"))| >= 8 &&
              !UsernameTaken(users, Get(data, "username")) && !EmailTaken(users, Get(data, "email"))
  {
    if IsEmpty(data, "username") || IsEmpty(data, "email") || IsEmpty(data, "password") ||
       IsEmpty(data, "name") || IsEmpty(data, "birthdate") then
      Some(Failure(400, "Missing required fields"))
    else if !lib.validateEmail(Text(Get(data, "email"))) then
      Some(Failure(400, "Invalid email format"))
    else if |Text(Get(data, "password"))| < 8 then
      Some(Failure(400, "Password must be at least 8 characters"))
    else if UsernameTaken(users, Get(data, "username")) then
      Some(Failure(400, "Username already exists"))
    else if EmailTaken(users, Get(data, "email")) then
      Some(Failure(400, "Email already exists"))
    else None
  }

  /** The row a successful registration inserts under key `id`. */
  function RegisteredRow(cfg: Auth.Config, lib: Library, id: int, data: Assoc, salt: string, stamp: string): UserRow
  {
    UserRow(id, lib.sanitize(Text(Get(data, "username"))), lib.sanitize(Text(Get(data, "email"))),
            Auth.HashPassword(cfg, lib, Text(Get(data, "password")), salt),
            lib.sanitize(Text(Get(data, "name"))), lib.sanitize(Text(Get(data, "birthdate"))), stamp, stamp)
  }

  /**
    `$user->toArray()` after `create`: the id as `lastInsertId()` gives it (a
    string), the sanitised fields, and null timestamps, which `create` never loads.
  */
  function RegisteredUser(lib: Library, id: int, data: Assoc): Assoc
  {
    map["user_id" := Str(IntToString(id)), "username" := Str(lib.sanitize(Text(Get(data, "username")))),
        "email" := Str(lib.sanitize(Text(Get(data, "email")))), "name" := Str(lib.sanitize(Text(Get(data, "name")))),
        "birthdate" := Str(lib.sanitize(Text(Get(data, "birthdate")))), "created_at" := Null, "updated_at" := Null]
  }

  /** The token a successful registration issues. */
  function RegisterToken(cfg: Auth.Config, lib: Library, id: int, data: Assoc, now: int): string
  {
    Auth.GenerateToken(cfg, lib, Str(IntToString(id)), Str(lib.sanitize(Text(Get(data, "username")))), now)
  }

  /** The whole effect of a registration on the user table and the response. */
  predicate RegisterEffect(cfg: Auth.Config, lib: Library, data: Assoc, salt: string, stamp: string, now: int,
                           users: seq<UserRow>, next: int, users': seq<UserRow>, next': int, resp: Response)
  {
    match RegisterCheck(lib, users, data)
    case Some(rejection) => resp == rejection && users' == users && next' == next
    case None =>
      users' == users + [RegisteredRow(cfg, lib, next, data, salt, stamp)] && next' == next + 1 &&
      resp == Success(201, Some("User registered successfully"),
                      TokenAndUser(RegisterToken(cfg, lib, next, data, now), RegisteredUser(lib, next, data)))
  }

  method Register(cfg: Auth.Config, lib: Library, db: Db, data: Assoc, salt: string, stamp: string, now: int)
    returns (resp: Response)
    requires db.Valid()
    modifies db
    ensures db.Valid()
    ensures RegisterEffect(cfg, lib, data, salt, stamp, now, old(db.users), old(db.nextUserId),
                           db.users, db.nextUserId, resp)
    ensures db.logs == old(db.logs) && db.nextLogId == old(db.nextLogId)
  {
    if IsEmpty(data, "username") || IsEmpty(data, "email") || IsEmpty(data, "password") ||
       IsEmpty(data, "name") || IsEmpty(data, "birthdate") {
      return Failure(400, "Missing required fields");
    }
    if !lib.validateEmail(Text(Get(data, "email"))) {
      return Failure(400, "Invalid email format");
    }
    if |Text(Get(data, "password"))| < 8 {
      return Failure(400, "Password must be at least 8 characters");
    }
    var user := new User(db);
    if user.UsernameExists(Get(data, "username")) {
      return Failure(400, "Username already exists");
    }
    if user.EmailExists(Get(data, "email")) {
      return Failure(400, "Email already exists");
    }
    resp := CreateAndIssue(cfg, lib, user, data, salt, stamp, now);
  }

  /** The success path of `register`: fill a fresh object, insert it, issue the token. */
  method CreateAndIssue(cfg: Auth.Config, lib: Library, user: User, data: Assoc, salt: string, stamp: string, now: int)
    returns (resp: Response)
    requires user.db.Valid()
    requires user.createdAt == Null && user.updatedAt == Null
    modifies user, user.db
    ensures user.db.Valid()
    ensures user.db.users == old(user.db.users) + [RegisteredRow(cfg, lib, old(user.db.nextUserId), data, salt, stamp)]
    ensures user.db.nextUserId == old(user.db.nextUserId) + 1
    ensures resp == Success(201, Some("User registered successfully"),
                            TokenAndUser(RegisterToken(cfg, lib, old(user.db.nextUserId), data, now),
                                         RegisteredUser(lib, old(user.db.nextUserId), data)))
    ensures user.db.logs == old(user.db.logs) && user.db.nextLogId == old(user.db.nextLogId)
  {
    FillUser(user, data);
    user.Create(cfg, lib, salt, stamp);
    var token := Auth.GenerateToken(cfg, lib, user.userId, user.username, now);
    resp := Success(201, Some("User registered successfully"), TokenAndUser(token, user.ToArray(false)));
  }

  /** `register`'s assignments to the model object, straight from the body. */
  method FillUser(user: User, data: Assoc)
    modifies user
    ensures user.username == Get(data, "username") && user.email == Get(data, "email")
    ensures user.passwordHash == Get(data, "password")
    ensures user.name == Get(data, "name") && user.birthdate == Get(data, "birthdate")
    ensures user.createdAt == old(user.createdAt) && user.updatedAt == old(user.updatedAt)
  {
    user.username := Get(data, "username");
    user.email := Get(data, "email");
    user.passwordHash := Get(data, "password");
    user.name := Get(data, "name");
    user.birthdate := Get(data, "birthdate");
  }

  // ======================================================== login

  /** What `login` answers for a body against the user table. */
  function LoginResponse(cfg: Auth.Config, lib: Library, users: seq<UserRow>, data: Assoc, now: int): Response
  {
    if IsEmpty(data, "username") || IsEmpty(data, "password") then
      Failure(400, "Username and password are required")
    else match ByUsername(users, Get(data, "username"))
      case None => Failure(401, "Invalid credentials")
      case Some(k) =>
        if !Auth.VerifyPassword(cfg, lib, Text(Get(data, "password")), users[k].passwordHash) then
          Failure(401, "Invalid credentials")
        else
          Success(200, Some("Login successful"),
                  TokenAndUser(Auth.GenerateToken(cfg, lib, Int(users[k].id), Str(users[k].username), now),
                               PublicRow(users[k])))
  }

  method Login(cfg: Auth.Config, lib: Library, db: Db, data: Assoc, now: int) returns (resp: Response)
    ensures resp == LoginResponse(cfg, lib, db.users, data, now)
  {
    if IsEmpty(data, "username") || IsEmpty(data, "password") {
      return Failure(400, "Username and password are required");
    }
    var user := new User(db);
    var found := user.FindByUsername(Get(data, "username"));
    if !found {
      return Failure(401, "Invalid credentials");
    }
    ghost var row := db.users[ByUsername(db.users, Get(data, "username")).value];
    assert Text(user.passwordHash) == row.passwordHash;
    if !Auth.VerifyPassword(cfg, lib, Text(Get(data, "password")), Text(user.passwordHash)) {
      return Failure(401, "Invalid credentials");
    }
    var token := Auth.GenerateToken(cfg, lib, user.userId, user.username, now);
    user.ShowsRow(row);
    resp := Success(200, Some("Login successful"), TokenAndUser(token, user.ToArray(false)));
  }

  // ======================================================== verify

  /** What `verify` answers: the gate, then the payload's user id and name. */
  function VerifyResponse(cfg: Auth.Config, lib: Library, header: Option<string>, now: int): (r: Response)
    ensures r.Status() == 200 || r.Status() == 401
    ensures r.Success? <==> Authenticate(cfg, lib, header, now, "No token provided").Ok?
    ensures r.Success? ==>
              var claims := Authenticate(cfg, lib, header, now, "No token provided").value;
              r.data == Verified(Get(claims, "user_id"), Get(claims, "username"))
  {
    match Authenticate(cfg, lib, header, now, "No token provided")
    case Err(rejection) => rejection
    case Ok(claims) => Success(200, None, Verified(Get(claims, "user_id"), Get(claims, "username")))
  }

  // ======================================================== dispatch

  /** `auth.php`: only POST is served, then the action picks the handler. */
  method AuthRoute(cfg: Auth.Config, lib: Library, db: Db, req: Request, action: string,
                   salt: string, stamp: string, now: int) returns (resp: Response)
    requires db.Valid()
    modifies db
    ensures db.Valid()
    ensures db.logs == old(db.logs) && db.nextLogId == old(db.nextLogId)
    ensures req.verb == "POST" && action == "register" ==>
              RegisterEffect(cfg, lib, req.body, salt, stamp, now, old(db.users), old(db.nextUserId),
                             db.users, db.nextUserId, resp)
    ensures !(req.verb == "POST" && action == "register") ==>
              db.users == old(db.users) && db.nextUserId == old(db.nextUserId)
    ensures req.verb != "POST" ==> resp == MethodNotAllowed
    ensures req.verb == "POST" && action == "login" ==> resp == LoginResponse(cfg, lib, db.users, req.body, now)
    ensures req.verb == "POST" && action == "verify" ==> resp == VerifyResponse(cfg, lib, req.authorization, now)
    ensures req.verb == "POST" && action !in {"register", "login", "verify"} ==>
              resp == Failure(404, "Auth endpoint not found")
  {
    if req.verb != "POST" {
      return MethodNotAllowed;
    }
    if action == "register" {
      resp := Register(cfg, lib, db, req.body, salt, stamp, now);
    } else if action == "login" {
      resp := Login(cfg, lib, db, req.body, now);
    } else if action == "verify" {
      resp := VerifyResponse(cfg, lib, req.authorization, now);
    } else {
      resp := Failure(404, "Auth endpoint not found");
    }
  }

  // ======================================================== properties

  /**
    The first three registration checks (missing field, email format, password
    length) are decided on the body alone: whatever the table holds, they give
    the same answer.
  */
  lemma RegisterBodyChecksFirst(lib: Library, users1: seq<UserRow>, users2: seq<UserRow>, data: Assoc)
    requires IsEmpty(data, "username") || IsEmpty(data, "email") || IsEmpty(data, "password") ||
             IsEmpty(data, "name") || IsEmpty(data, "birthdate") ||
             !lib.validateEmail(Text(Get(data, "email"))) || |Text(Get(data, "password"))| < 8
    ensures RegisterCheck(lib, users1, data) == RegisterCheck(lib, users2, data)
    ensures RegisterCheck(lib, users1, data).Some?
  {
  }

  /** A taken username is reported even when the email is taken too. */
  lemma UsernameCheckedBeforeEmail(lib: Library, users: seq<UserRow>, data: Assoc)
    requires RegisterCheck(lib, [], data).None?
    requires UsernameTaken(users, Get(data, "username"))
    ensures RegisterCheck(lib, users, data) == Some(Failure(400, "Username already exists"))
  {
  }

  /**
    An unknown username and a wrong password are indistinguishable: every 401
    from login is the same `Invalid credentials` response.
  */
  lemma LoginFailuresAlike(cfg: Auth.Config, lib: Library, users: seq<UserRow>, data: Assoc, now: int)
    ensures LoginResponse(cfg, lib, users, data, now).Status() == 401 ==>
              LoginResponse(cfg, lib, users, data, now) == Failure(401, "Invalid credentials")
    ensures LoginResponse(cfg, lib, users, data, now).Status() == 401 <==>
              !IsEmpty(data, "username") && !IsEmpty(data, "password") &&
              (ByUsername(users, Get(data, "username")).None? ||
               !Auth.VerifyPassword(cfg, lib, Text(Get(data, "password")),
                                    users[ByUsername(users, Get(data, "username")).value].passwordHash))
  {
  }

  /** A new row whose username no earlier row has is the one a lookup by that name finds. */
  lemma FoundAfterInsert(users: seq<UserRow>, row: UserRow, p: Value)
    requires !UsernameTaken(users, p) && TextMatches(p, row.username)
    ensures ByUsername(users + [row], p) == Some(|users|)
  {
    var all := users + [row];
    assert all[|users|] == row;
    assert forall j :: 0 <= j < |users| ==> all[j] == users[j] && !TextMatches(p, all[j].username);
  }

  /**
    Registration then login: after a successful registration with a plain-text
    username and a password, logging in with the same two values succeeds and
    issues a token for the new row's key and name.
  */
  lemma RegisterThenLogin(cfg: Auth.Config, lib: Library, users: seq<UserRow>, next: int, data: Assoc,
                          salt: string, stamp: string, now: int, login: Assoc)
    requires SanitizeKeepsPlainText(lib) && BcryptAcceptsOwnHash(lib)
    requires RegisterCheck(lib, users, data).None?
    requires PlainText(Text(Get(data, "username")))
    requires Get(login, "username") == Get(data, "username") && Get(login, "password") == Get(data, "password")
    ensures var row := RegisteredRow(cfg, lib, next, data, salt, stamp);
            LoginResponse(cfg, lib, users + [row], login, now) ==
              Success(200, Some("Login successful"),
                      TokenAndUser(Auth.GenerateToken(cfg, lib, Int(next), Str(row.username), now), PublicRow(row)))
  {
    var row := RegisteredRow(cfg, lib, next, data, salt, stamp);
    var p := Get(data, "username");
    assert row.username == Text(p);
    FoundAfterInsert(users, row, p);
    Auth.VerifyOwnHash(cfg, lib, Text(Get(data, "password")), salt);
  }

  /**
    The token a registration issues names the new row: its `user_id` claim,
    given as a string, selects exactly that key in later queries.
  */
  lemma RegisterTokenNamesNewRow(id: int, col: int)
    ensures IdMatches(Str(IntToString(id)), col) <==> col == id
  {
    IdMatchesOwnKey(id, col);
  }

  /**
    A token from login passes `verify` until it expires, which then reports the
    logged-in user's key and name.
  */
  lemma LoginTokenVerifies(cfg: Auth.Config, lib: Library, row: UserRow, issuedAt: int, now: int)
    requires Base64Alphabet(lib) && Base64Unpadded(lib) && JsonRoundTrip(lib)
    requires issuedAt <= now <= issuedAt + Auth.JwtExpiration
    ensures var token := Auth.GenerateToken(cfg, lib, Int(row.id), Str(row.username), issuedAt);
            VerifyResponse(cfg, lib, Some("Bearer " + token), now) ==
              Success(200, None, Verified(Int(row.id), Str(row.username)))
  {
    IssuedTokenPasses(cfg, lib, Int(row.id), Str(row.username), issuedAt, now, "No token provided");
  }
}
