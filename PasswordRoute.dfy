/**
  `PUT users/:id/password` (`api/routes/password.php`): the method check, the
  token gate, the id and ownership checks, the body checks, then the lookup of
  the token's user, the current-password check and the hash update.
*/
module PasswordRoute {
  import opened Wrappers
  import opened Php
  import opened Platform
  import opened Store
  import opened Http
  import opened UserModel
  import Auth

  /** What the script answers, and the user table afterwards. */
  function PasswordChange(cfg: Auth.Config, lib: Library, users: seq<UserRow>, req: Request,
                          id: Option<string>, now: int, salt: string): (Response, seq<UserRow>)
  {
    if req.verb != "PUT" then (MethodNotAllowed, users)
    else match Authenticate(cfg, lib, req.authorization, now, "Authentication required")
      case Err(rejection) => (rejection, users)
      case Ok(payload) => ChangeAs(cfg, lib, users, req.body, payload, id, salt)
  }

  /** The part after the token gate, for the token's claims `payload`. */
  function ChangeAs(cfg: Auth.Config, lib: Library, users: seq<UserRow>, data: Assoc, payload: Auth.Claims,
                    id: Option<string>, salt: string): (Response, seq<UserRow>)
  {
    if SelfGuard(payload, id).Some? then (SelfGuard(payload, id).value, users)
    else if !IsSet(data, "current_password") || !IsSet(data, "new_password") then
      (Failure(400, "Current password and new password are required"), users)
    else if |Text(data["new_password"])| < 8 then
      (Failure(400, "New password must be at least 8 characters long"), users)
    else StoreIfCurrent(cfg, lib, users, data, payload, id.value, salt)
  }

  /** The lookup of the token's user, the current-password check and the update. */
  function StoreIfCurrent(cfg: Auth.Config, lib: Library, users: seq<UserRow>, data: Assoc, payload: Auth.Claims,
                          userId: string, salt: string): (Response, seq<UserRow>)
    requires IsSet(data, "current_password") && IsSet(data, "new_password")
  {
    match ByUsername(users, Get(payload, "username"))
    case None => (Failure(404, "User not found"), users)
    case Some(k) =>
      if !CurrentPasswordMatches(cfg, lib, users[k], data["current_password"]) then
        (Failure(400, "Current password is incorrect"), users)
      else
        (Success(200, Some("Password updated successfully"), NoData),
         SetPasswordHash(users, Str(lib.sanitize(userId)),
                         Auth.HashPassword(cfg, lib, Text(data["new_password"]), salt)))
  }

  /** `$user->verifyPassword` on the object loaded from `row`. */
  predicate CurrentPasswordMatches(cfg: Auth.Config, lib: Library, row: UserRow, password: Value)
  {
    TruthyText(row.passwordHash) && Auth.VerifyPassword(cfg, lib, Text(password), row.passwordHash)
  }

  method ChangePassword(cfg: Auth.Config, lib: Library, db: Db, req: Request, id: Option<string>,
                        now: int, salt: string) returns (resp: Response)
    requires db.Valid()
    modifies db
    ensures db.Valid()
    ensures (resp, db.users) == PasswordChange(cfg, lib, old(db.users), req, id, now, salt)
    ensures db.logs == old(db.logs) && db.nextUserId == old(db.nextUserId) && db.nextLogId == old(db.nextLogId)
  {
    if req.verb != "PUT" {
      return MethodNotAllowed;
    }
    var gate := Authenticate(cfg, lib, req.authorization, now, "Authentication required");
    if gate.Err? {
      return gate.error;
    }
    resp := ChangeWith(cfg, lib, db, req.body, gate.value, id, salt);
  }

  method ChangeWith(cfg: Auth.Config, lib: Library, db: Db, data: Assoc, payload: Auth.Claims,
                    id: Option<string>, salt: string) returns (resp: Response)
    requires db.Valid()
    modifies db
    ensures db.Valid()
    ensures (resp, db.users) == ChangeAs(cfg, lib, old(db.users), data, payload, id, salt)
    ensures db.logs == old(db.logs) && db.nextUserId == old(db.nextUserId) && db.nextLogId == old(db.nextLogId)
  {
    var guard := SelfGuard(payload, id);
    if guard.Some? {
      return guard.value;
    }
    var userId := id.value;
    if !IsSet(data, "current_password") || !IsSet(data, "new_password") {
      return Failure(400, "Current password and new password are required");
    }
    if |Text(data["new_password"])| < 8 {
      return Failure(400, "New password must be at least 8 characters long");
    }
    resp := LookUpAndStore(cfg, lib, db, data, payload, userId, salt);
  }

  method LookUpAndStore(cfg: Auth.Config, lib: Library, db: Db, data: Assoc, payload: Auth.Claims,
                        userId: string, salt: string) returns (resp: Response)
    requires db.Valid()
    requires IsSet(data, "current_password") && IsSet(data, "new_password")
    modifies db
    ensures db.Valid()
    ensures (resp, db.users) == StoreIfCurrent(cfg, lib, old(db.users), data, payload, userId, salt)
    ensures db.logs == old(db.logs) && db.nextUserId == old(db.nextUserId) && db.nextLogId == old(db.nextLogId)
  {
    var user := new User(db);
    var found := user.FindByUsername(Get(payload, "username"));
    if !found {
      return Failure(404, "User not found");
    }
    ghost var k := ByUsername(db.users, Get(payload, "username")).value;
    assert user.VerifyPassword(cfg, lib, data["current_password"]) <==>
           CurrentPasswordMatches(cfg, lib, db.users[k], data["current_password"]);
    if !user.VerifyPassword(cfg, lib, data["current_password"]) {
      return Failure(400, "Current password is incorrect");
    }
    StoreHash(cfg, lib, user, data["new_password"], userId, salt);
    resp := Success(200, Some("Password updated successfully"), NoData);
  }

  /** The update once the current password checks out: the URL id's rows get the new hash. */
  method StoreHash(cfg: Auth.Config, lib: Library, user: User, password: Value, userId: string, salt: string)
    requires user.db.Valid()
    modifies user, user.db
    ensures user.db.Valid()
    ensures user.db.users ==
            SetPasswordHash(old(user.db.users), Str(lib.sanitize(userId)), Auth.HashPassword(cfg, lib, Text(password), salt))
    ensures user.db.logs == old(user.db.logs) && user.db.nextUserId == old(user.db.nextUserId)
    ensures user.db.nextLogId == old(user.db.nextLogId)
  {
    user.userId := Str(userId);
    user.UpdatePassword(cfg, lib, password, salt);
  }

  // ======================================================== properties

  /** A method other than PUT is refused before the token is looked at. */
  lemma OnlyPut(cfg: Auth.Config, lib: Library, users: seq<UserRow>, req: Request, id: Option<string>,
                now: int, salt: string)
    requires req.verb != "PUT"
    ensures PasswordChange(cfg, lib, users, req, id, now, salt) == (MethodNotAllowed, users)
  {
  }

  /**
    The checks in order: a PUT without a valid token gets the gate's 401; with
    one, a bad id gets 400 or 403, and then the body is checked, all before the
    store is read.
  */
  lemma GuardOrder(cfg: Auth.Config, lib: Library, users: seq<UserRow>, req: Request, id: Option<string>,
                   now: int, salt: string)
    requires req.verb == "PUT"
    ensures var gate := Authenticate(cfg, lib, req.authorization, now, "Authentication required");
            var (resp, users') := PasswordChange(cfg, lib, users, req, id, now, salt);
            (gate.Err? ==> resp == gate.error && resp.Status() == 401) &&
            (gate.Ok? && SelfGuard(gate.value, id).Some? ==> resp == SelfGuard(gate.value, id).value) &&
            (gate.Ok? && SelfGuard(gate.value, id).None? &&
             (!IsSet(req.body, "current_password") || !IsSet(req.body, "new_password")) ==>
               resp == Failure(400, "Current password and new password are required")) &&
            (resp.Status() != 200 ==> users' == users)
  {
    var gate := Authenticate(cfg, lib, req.authorization, now, "Authentication required");
    if gate.Ok? {
      HashChangesOnlyIfVerified(cfg, lib, users, req.body, gate.value, id, salt);
    }
  }

  /**
    The store changes only when the current password checks out against the row
    found by the token's username (not by the URL id); then the response is 200
    and exactly the rows keyed by the URL id get the new hash.
  */
  lemma HashChangesOnlyIfVerified(cfg: Auth.Config, lib: Library, users: seq<UserRow>, data: Assoc,
                                  payload: Auth.Claims, id: Option<string>, salt: string)
    ensures var (resp, users') := ChangeAs(cfg, lib, users, data, payload, id, salt);
            users' != users ==>
              resp == Success(200, Some("Password updated successfully"), NoData) &&
              var k := ByUsername(users, Get(payload, "username"));
              k.Some? && CurrentPasswordMatches(cfg, lib, users[k.value], data["current_password"])
    ensures var (resp, users') := ChangeAs(cfg, lib, users, data, payload, id, salt);
            resp.Status() != 200 ==> users' == users
  {
  }

  /**
    After a successful change, each row keyed by the URL id accepts the new
    password, and every other row is as it was.
  */
  lemma NewPasswordAccepted(cfg: Auth.Config, lib: Library, users: seq<UserRow>, data: Assoc,
                            payload: Auth.Claims, id: Option<string>, salt: string)
    requires BcryptAcceptsOwnHash(lib)
    requires ChangeAs(cfg, lib, users, data, payload, id, salt).0.Success?
    ensures var users' := ChangeAs(cfg, lib, users, data, payload, id, salt).1;
            |users'| == |users| &&
            forall i :: 0 <= i < |users| ==>
              if IdMatches(Str(lib.sanitize(id.value)), users[i].id)
              then Auth.VerifyPassword(cfg, lib, Text(data["new_password"]), users'[i].passwordHash)
              else users'[i] == users[i]
  {
    Auth.VerifyOwnHash(cfg, lib, Text(data["new_password"]), salt);
  }
}
