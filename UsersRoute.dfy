/**
  `users/:id` (`api/routes/users.php`): the token gate for every method, then
  GET (the profile), PUT (name, email and birthdate, with the email checks) and
  DELETE (the account), each only for the token's own id.
*/
module UsersRoute {
  import opened Wrappers
  import opened Php
  import opened Platform
  import opened Store
  import opened Http
  import opened UserModel
  import Auth

  /** What the script answers, and the user table afterwards. */
  function UsersResult(cfg: Auth.Config, lib: Library, users: seq<UserRow>, req: Request,
                       id: Option<string>, now: int): (Response, seq<UserRow>)
  {
    match Authenticate(cfg, lib, req.authorization, now, "Authentication required")
    case Err(rejection) => (rejection, users)
    case Ok(payload) => UsersAs(lib, users, req.verb, req.body, payload, id)
  }

  /** The method switch, for the token's claims `payload`. */
  function UsersAs(lib: Library, users: seq<UserRow>, verb: string, data: Assoc, payload: Auth.Claims,
                   id: Option<string>): (Response, seq<UserRow>)
  {
    if verb == "GET" then (ShowUser(users, payload, id), users)
    else if verb == "PUT" then EditUser(lib, users, data, payload, id)
    else if verb == "DELETE" then RemoveUser(lib, users, payload, id)
    else (MethodNotAllowed, users)
  }

  /** The `data` of a response that passes on what `findById` returned. */
  function ProfileOf(found: Option<Assoc>): Data
  {
    match found
    case None => Missing
    case Some(m) => Profile(m)
  }

  /** GET: the profile, without its password hash. */
  function ShowUser(users: seq<UserRow>, payload: Auth.Claims, id: Option<string>): Response
  {
    match SelfGuard(payload, id)
    case Some(rejection) => rejection
    case None =>
      match PublicById(users, Str(id.value))
      case None => Failure(404, "User not found")
      case Some(profile) => Success(200, None, Profile(profile))
  }

  /** PUT's two email checks: the format, then ownership by another user. */
  function EmailCheck(lib: Library, users: seq<UserRow>, data: Assoc, userId: string): Option<Response>
  {
    if IsSet(data, "email") && !lib.validateEmail(Text(data["email"])) then
      Some(Failure(400, "Invalid email format"))
    else if IsSet(data, "email") && ByEmail(users, data["email"]).Some? &&
            !LooseEq(Int(users[ByEmail(users, data["email"]).value].id), Str(userId)) then
      Some(Failure(400, "Email already exists"))
    else None
  }

  /** The table after PUT's update: the three fields from the body, absent ones as `""`. */
  function ProfileUpdated(lib: Library, users: seq<UserRow>, data: Assoc, userId: string): seq<UserRow>
  {
    SetProfile(users, Str(lib.sanitize(userId)), lib.sanitize(Text(Get(data, "name"))),
               lib.sanitize(Text(Get(data, "email"))), lib.sanitize(Text(Get(data, "birthdate"))))
  }

  /** PUT. */
  function EditUser(lib: Library, users: seq<UserRow>, data: Assoc, payload: Auth.Claims,
                    id: Option<string>): (Response, seq<UserRow>)
  {
    match SelfGuard(payload, id)
    case Some(rejection) => (rejection, users)
    case None =>
      match EmailCheck(lib, users, data, id.value)
      case Some(rejection) => (rejection, users)
      case None =>
        var users' := ProfileUpdated(lib, users, data, id.value);
        (Success(200, Some("User updated successfully"), ProfileOf(PublicById(users', Str(id.value)))), users')
  }

  /** DELETE. */
  function RemoveUser(lib: Library, users: seq<UserRow>, payload: Auth.Claims, id: Option<string>)
    : (Response, seq<UserRow>)
  {
    match SelfGuard(payload, id)
    case Some(rejection) => (rejection, users)
    case None =>
      (Success(200, Some("User deleted successfully"), NoData), WithoutUser(users, Str(lib.sanitize(id.value))))
  }

  // ======================================================== the script

  method Users(cfg: Auth.Config, lib: Library, db: Db, req: Request, id: Option<string>, now: int)
    returns (resp: Response)
    requires db.Valid()
    modifies db
    ensures db.Valid()
    ensures (resp, db.users) == UsersResult(cfg, lib, old(db.users), req, id, now)
    ensures db.logs == old(db.logs) && db.nextUserId == old(db.nextUserId) && db.nextLogId == old(db.nextLogId)
  {
    var gate := Authenticate(cfg, lib, req.authorization, now, "Authentication required");
    if gate.Err? {
      return gate.error;
    }
    var payload := gate.value;
    if req.verb == "GET" {
      resp := Show(db, payload, id);
    } else if req.verb == "PUT" {
      resp := Edit(lib, db, req.body, payload, id);
    } else if req.verb == "DELETE" {
      resp := Remove(lib, db, payload, id);
    } else {
      resp := MethodNotAllowed;
    }
  }

  method Show(db: Db, payload: Auth.Claims, id: Option<string>) returns (resp: Response)
    ensures resp == ShowUser(db.users, payload, id)
  {
    var guard := SelfGuard(payload, id);
    if guard.Some? {
      return guard.value;
    }
    var user := new User(db);
    var userData := user.FindById(Str(id.value));
    if userData.None? {
      return Failure(404, "User not found");
    }
    resp := Success(200, None, Profile(userData.value));
  }

  method Edit(lib: Library, db: Db, data: Assoc, payload: Auth.Claims, id: Option<string>)
    returns (resp: Response)
    requires db.Valid()
    modifies db
    ensures db.Valid()
    ensures (resp, db.users) == EditUser(lib, old(db.users), data, payload, id)
    ensures db.logs == old(db.logs) && db.nextUserId == old(db.nextUserId) && db.nextLogId == old(db.nextLogId)
  {
    var guard := SelfGuard(payload, id);
    if guard.Some? {
      return guard.value;
    }
    var userId := id.value;
    var rejection := CheckEmail(lib, db, data, userId);
    if rejection.Some? {
      return rejection.value;
    }
    resp := UpdateAndReload(lib, db, data, userId);
  }

  /** PUT after its checks: the update, then the re-read profile. */
  method UpdateAndReload(lib: Library, db: Db, data: Assoc, userId: string) returns (resp: Response)
    requires db.Valid()
    modifies db
    ensures db.Valid()
    ensures db.users == ProfileUpdated(lib, old(db.users), data, userId)
    ensures resp == Success(200, Some("User updated successfully"), ProfileOf(PublicById(db.users, Str(userId))))
    ensures db.logs == old(db.logs) && db.nextUserId == old(db.nextUserId) && db.nextLogId == old(db.nextLogId)
  {
    var user := new User(db);
    user.userId := Str(userId);
    user.name := GetOr(data, "name", Null);
    user.email := GetOr(data, "email", Null);
    user.birthdate := GetOr(data, "birthdate", Null);
    assert Text(user.name) == Text(Get(data, "name")) && Text(user.email) == Text(Get(data, "email")) &&
           Text(user.birthdate) == Text(Get(data, "birthdate"));
    user.Update(lib);
    assert user.userId == Str(lib.sanitize(userId));
    var userData := user.FindById(Str(userId));
    resp := Success(200, Some("User updated successfully"), ProfileOf(userData));
  }

  method CheckEmail(lib: Library, db: Db, data: Assoc, userId: string) returns (rejection: Option<Response>)
    ensures rejection == EmailCheck(lib, db.users, data, userId)
  {
    if IsSet(data, "email") && !lib.validateEmail(Text(data["email"])) {
      return Some(Failure(400, "Invalid email format"));
    }
    if IsSet(data, "email") {
      var existingUser := new User(db);
      var found := existingUser.FindByEmail(data["email"]);
      if found && !LooseEq(existingUser.userId, Str(userId)) {
        return Some(Failure(400, "Email already exists"));
      }
    }
    return None;
  }

  method Remove(lib: Library, db: Db, payload: Auth.Claims, id: Option<string>) returns (resp: Response)
    requires db.Valid()
    modifies db
    ensures db.Valid()
    ensures (resp, db.users) == RemoveUser(lib, old(db.users), payload, id)
    ensures db.logs == old(db.logs) && db.nextUserId == old(db.nextUserId) && db.nextLogId == old(db.nextLogId)
  {
    var guard := SelfGuard(payload, id);
    if guard.Some? {
      return guard.value;
    }
    var user := new User(db);
    user.userId := Str(id.value);
    user.Delete(lib);
    resp := Success(200, Some("User deleted successfully"), NoData);
  }

  // ======================================================== properties

  /** Every method is behind the token gate: without a valid token, a 401 and no change. */
  lemma GateBeforeMethod(cfg: Auth.Config, lib: Library, users: seq<UserRow>, req: Request,
                         id: Option<string>, now: int)
    requires Authenticate(cfg, lib, req.authorization, now, "Authentication required").Err?
    ensures UsersResult(cfg, lib, users, req, id, now).0.Status() == 401
    ensures UsersResult(cfg, lib, users, req, id, now).1 == users
  {
  }

  /**
    GET, PUT and DELETE all give 400 without an id and 403 for another user's
    id, leaving the table as it was; any other method gives 405.
  */
  lemma SelfOnly(lib: Library, users: seq<UserRow>, verb: string, data: Assoc, payload: Auth.Claims,
                 id: Option<string>)
    ensures var (resp, users') := UsersAs(lib, users, verb, data, payload, id);
            (verb in {"GET", "PUT", "DELETE"} && SelfGuard(payload, id).Some? ==>
               resp == SelfGuard(payload, id).value && users' == users) &&
            (verb !in {"GET", "PUT", "DELETE"} ==> resp == MethodNotAllowed && users' == users) &&
            (!resp.Success? ==> users' == users)
  {
  }

  /** Keeping one's own email is allowed: the row that has it is the caller's. */
  lemma OwnEmailAllowed(lib: Library, users: seq<UserRow>, data: Assoc, n: int)
    requires IsSet(data, "email") && lib.validateEmail(Text(data["email"]))
    requires ByEmail(users, data["email"]).Some? && users[ByEmail(users, data["email"]).value].id == n
    ensures EmailCheck(lib, users, data, IntToString(n)).None?
  {
    LooseEqIntText(n);
  }

  /** An email that another user's row has is refused. */
  lemma OthersEmailRefused(lib: Library, users: seq<UserRow>, data: Assoc, n: int, i: int)
    requires IsSet(data, "email") && lib.validateEmail(Text(data["email"]))
    requires 0 <= i < |users| && TextMatches(data["email"], users[i].email)
    requires forall j :: 0 <= j < |users| && TextMatches(data["email"], users[j].email) ==> users[j].id != n
    ensures EmailCheck(lib, users, data, IntToString(n)) == Some(Failure(400, "Email already exists"))
  {
    IntToStringIsIntText(n);
    var k := ByEmail(users, data["email"]).value;
    assert users[k].id != n;
  }

  /**
    PUT writes all three fields: one absent from the body, or null, becomes the
    sanitised empty string rather than keeping its old value.
  */
  lemma AbsentFieldsCleared(lib: Library, users: seq<UserRow>, data: Assoc, userId: string, i: int)
    requires 0 <= i < |users| && IdMatches(Str(lib.sanitize(userId)), users[i].id)
    ensures var row := ProfileUpdated(lib, users, data, userId)[i];
            (!IsSet(data, "name") ==> row.name == lib.sanitize("")) &&
            (!IsSet(data, "email") ==> row.email == lib.sanitize("")) &&
            (!IsSet(data, "birthdate") ==> row.birthdate == lib.sanitize("")) &&
            (IsSet(data, "name") ==> row.name == lib.sanitize(Text(data["name"]))) &&
            row.username == users[i].username && row.passwordHash == users[i].passwordHash
  {
  }

  /** After a DELETE no row has the key, and every other row survives. */
  lemma DeleteRemovesOnlyKey(lib: Library, users: seq<UserRow>, payload: Auth.Claims, id: Option<string>)
    requires SelfGuard(payload, id).None?
    ensures var users' := RemoveUser(lib, users, payload, id).1;
            var key := Str(lib.sanitize(id.value));
            (forall j :: 0 <= j < |users'| ==> !IdMatches(key, users'[j].id)) &&
            (forall j :: 0 <= j < |users| && !IdMatches(key, users[j].id) ==> users[j] in users')
  {
    WithoutUserEffect(users, Str(lib.sanitize(id.value)));
  }
}
