/**
  The `User` model of `api/models/User.php`: an object whose public fields the
  route code fills in, and whose methods read and write the `user` table.
*/
module UserModel {
  import opened Wrappers
  import opened Php
  import opened Platform
  import opened Store
  import Auth

  /** The seven columns `toArray` and `findById` expose. */
  const ProfileKeys: set<string> :=
    {"user_id", "username", "email", "name", "birthdate", "created_at", "updated_at"}

  /** The associative array `findById` fetches: every column except `password_hash`. */
  function PublicRow(row: UserRow): (m: Assoc)
    ensures m.Keys == ProfileKeys && "password_hash" !in m
    ensures m["user_id"] == Int(row.id) && m["username"] == Str(row.username)
    ensures m["email"] == Str(row.email) && m["name"] == Str(row.name)
    ensures m["birthdate"] == Str(row.birthdate)
  {
    map["user_id" := Int(row.id), "username" := Str(row.username), "email" := Str(row.email),
        "name" := Str(row.name), "birthdate" := Str(row.birthdate),
        "created_at" := Str(row.createdAt), "updated_at" := Str(row.updatedAt)]
  }

  /** `WHERE username = :p LIMIT 1`. */
  function ByUsername(rows: seq<UserRow>, p: Value): Option<nat>
  {
    FirstWhere(rows, (r: UserRow) => TextMatches(p, r.username))
  }

  /** `WHERE email = :p LIMIT 1`. */
  function ByEmail(rows: seq<UserRow>, p: Value): Option<nat>
  {
    FirstWhere(rows, (r: UserRow) => TextMatches(p, r.email))
  }

  /** `WHERE user_id = :p LIMIT 1`. */
  function ById(rows: seq<UserRow>, p: Value): Option<nat>
  {
    FirstWhere(rows, (r: UserRow) => IdMatches(p, r.id))
  }

  /**
    `SELECT` of every column but the hash `WHERE user_id = :p LIMIT 1`: the
    matching row without its password hash, `None` when no row has that key.
  */
  function PublicById(rows: seq<UserRow>, p: Value): (r: Option<Assoc>)
    ensures r.Some? <==> exists i :: 0 <= i < |rows| && IdMatches(p, rows[i].id)
    ensures r.Some? ==> "password_hash" !in r.value &&
                        exists i :: 0 <= i < |rows| && IdMatches(p, rows[i].id) && r.value == PublicRow(rows[i])
  {
    match ById(rows, p)
    case None => None
    case Some(k) => Some(PublicRow(rows[k]))
  }

  /** Some row has that username. */
  predicate UsernameTaken(rows: seq<UserRow>, p: Value)
  {
    exists i :: 0 <= i < |rows| && TextMatches(p, rows[i].username)
  }

  /** Some row has that email. */
  predicate EmailTaken(rows: seq<UserRow>, p: Value)
  {
    exists i :: 0 <= i < |rows| && TextMatches(p, rows[i].email)
  }

  /** The table after `UPDATE user SET name, email, birthdate WHERE user_id = :p`. */
  function SetProfile(rows: seq<UserRow>, p: Value, name: string, email: string, birthdate: string): (r: seq<UserRow>)
    ensures |r| == |rows|
    ensures forall i :: 0 <= i < |r| ==>
              r[i] == if IdMatches(p, rows[i].id)
                      then rows[i].(name := name, email := email, birthdate := birthdate)
                      else rows[i]
  {
    seq(|rows|, i requires 0 <= i < |rows| =>
      if IdMatches(p, rows[i].id) then rows[i].(name := name, email := email, birthdate := birthdate)
      else rows[i])
  }

  /** The table after `UPDATE user SET password_hash WHERE user_id = :p`. */
  function SetPasswordHash(rows: seq<UserRow>, p: Value, hash: string): (r: seq<UserRow>)
    ensures |r| == |rows|
    ensures forall i :: 0 <= i < |r| ==>
              r[i] == if IdMatches(p, rows[i].id) then rows[i].(passwordHash := hash) else rows[i]
  {
    seq(|rows|, i requires 0 <= i < |rows| =>
      if IdMatches(p, rows[i].id) then rows[i].(passwordHash := hash) else rows[i])
  }

  /** The table after `DELETE FROM user WHERE user_id = :p`. */
  function WithoutUser(rows: seq<UserRow>, p: Value): (r: seq<UserRow>)
    ensures forall j :: 0 <= j < |r| ==> r[j] in rows && !IdMatches(p, r[j].id)
    ensures forall j :: 0 <= j < |rows| && !IdMatches(p, rows[j].id) ==> rows[j] in r
  {
    Filter(rows, (x: UserRow) => !IdMatches(p, x.id))
  }

  /** A `User` object: the eight public fields and the shared connection. */
  class User {
    const db: Db
    var userId: Value
    var username: Value
    var email: Value
    var passwordHash: Value
    var name: Value
    var birthdate: Value
    var createdAt: Value
    var updatedAt: Value

    constructor (db: Db)
      ensures this.db == db
      ensures userId == Null && username == Null && email == Null && passwordHash == Null
      ensures name == Null && birthdate == Null && createdAt == Null && updatedAt == Null
    {
      this.db := db;
      userId, username, email, passwordHash := Null, Null, Null, Null;
      name, birthdate, createdAt, updatedAt := Null, Null, Null, Null;
    }

    /** The object's fields are those of `row`, as a `SELECT` of all eight columns loads them. */
    ghost predicate Holds(row: UserRow)
      reads this
    {
      userId == Int(row.id) && username == Str(row.username) && email == Str(row.email) &&
      passwordHash == Str(row.passwordHash) && name == Str(row.name) &&
      birthdate == Str(row.birthdate) && createdAt == Str(row.createdAt) && updatedAt == Str(row.updatedAt)
    }

    /** A loaded row shows, without its hash, exactly as `findById` fetches it. */
    lemma ShowsRow(row: UserRow)
      requires Holds(row)
      ensures ToArray(false) == PublicRow(row)
    {
    }

    /**
      `create`: sanitises the four text fields in place, inserts one row holding
      them and the bcrypt hash of the peppered plaintext (which stays in
      `password_hash` on the object), and sets `user_id` to `lastInsertId()`,
      the new key as a string. `stamp` is the time the database fills in.
    */
    method Create(cfg: Auth.Config, lib: Library, salt: string, stamp: string)
      requires db.Valid()
      modifies this, db
      ensures db.Valid()
      ensures username == Str(lib.sanitize(Text(old(username))))
      ensures email == Str(lib.sanitize(Text(old(email))))
      ensures name == Str(lib.sanitize(Text(old(name))))
      ensures birthdate == Str(lib.sanitize(Text(old(birthdate))))
      ensures userId == Str(IntToString(old(db.nextUserId)))
      ensures passwordHash == old(passwordHash) && createdAt == old(createdAt) && updatedAt == old(updatedAt)
      ensures db.users == old(db.users) + [UserRow(old(db.nextUserId), username.s, email.s,
                            Auth.HashPassword(cfg, lib, Text(old(passwordHash)), salt),
                            name.s, birthdate.s, stamp, stamp)]
      ensures db.nextUserId == old(db.nextUserId) + 1
      ensures db.logs == old(db.logs) && db.nextLogId == old(db.nextLogId)
    {
      username := Str(lib.sanitize(Text(username)));
      email := Str(lib.sanitize(Text(email)));
      name := Str(lib.sanitize(Text(name)));
      birthdate := Str(lib.sanitize(Text(birthdate)));
      var hashed := Auth.HashPassword(cfg, lib, Text(passwordHash), salt);
      var id := db.nextUserId;
      var row := UserRow(id, username.s, email.s, hashed, name.s, birthdate.s, stamp, stamp);
      db.InsertUser(row);
      userId := Str(IntToString(id));
    }

    /**
      `findByUsername`: when some row has that username, loads the first such row
      into the object (password hash included) and answers true; otherwise
      changes nothing.
    */
    method FindByUsername(p: Value) returns (found: bool)
      modifies this
      ensures found <==> UsernameExists(p)
      ensures found ==> ByUsername(db.users, p).Some? && Holds(db.users[ByUsername(db.users, p).value])
      ensures !found ==> unchanged(this)
    {
      var k := ByUsername(db.users, p);
      found := k.Some?;
      if found {
        Load(db.users[k.value]);
      }
    }

    /** `findByEmail`: the same, keyed on the email column. */
    method FindByEmail(p: Value) returns (found: bool)
      modifies this
      ensures found <==> EmailExists(p)
      ensures found ==> ByEmail(db.users, p).Some? && Holds(db.users[ByEmail(db.users, p).value])
      ensures !found ==> unchanged(this)
    {
      var k := ByEmail(db.users, p);
      found := k.Some?;
      if found {
        Load(db.users[k.value]);
      }
    }

    method Load(row: UserRow)
      modifies this
      ensures Holds(row)
    {
      userId := Int(row.id);
      username := Str(row.username);
      email := Str(row.email);
      passwordHash := Str(row.passwordHash);
      name := Str(row.name);
      birthdate := Str(row.birthdate);
      createdAt := Str(row.createdAt);
      updatedAt := Str(row.updatedAt);
    }

    /** `findById`: the object is not touched. */
    function FindById(p: Value): Option<Assoc>
      reads db
    {
      PublicById(db.users, p)
    }

    /**
      `update`: sanitises name, email, birthdate and user_id in place and writes
      the first three into the row with that key; no other row or column changes.
    */
    method Update(lib: Library)
      requires db.Valid()
      modifies this, db
      ensures db.Valid()
      ensures name == Str(lib.sanitize(Text(old(name)))) && email == Str(lib.sanitize(Text(old(email))))
      ensures birthdate == Str(lib.sanitize(Text(old(birthdate))))
      ensures userId == Str(lib.sanitize(Text(old(userId))))
      ensures username == old(username) && passwordHash == old(passwordHash)
      ensures createdAt == old(createdAt) && updatedAt == old(updatedAt)
      ensures db.users == SetProfile(old(db.users), userId, name.s, email.s, birthdate.s)
      ensures db.logs == old(db.logs) && db.nextUserId == old(db.nextUserId) && db.nextLogId == old(db.nextLogId)
    {
      name := Str(lib.sanitize(Text(name)));
      email := Str(lib.sanitize(Text(email)));
      birthdate := Str(lib.sanitize(Text(birthdate)));
      userId := Str(lib.sanitize(Text(userId)));
      db.ReplaceUsers(SetProfile(db.users, userId, name.s, email.s, birthdate.s));
    }

    /**
      `updatePassword`: sanitises user_id in place and stores the hash of the
      peppered new password in the row with that key. The object's own
      `password_hash` field is left as it was.
    */
    method UpdatePassword(cfg: Auth.Config, lib: Library, newPassword: Value, salt: string)
      requires db.Valid()
      modifies this, db
      ensures db.Valid()
      ensures userId == Str(lib.sanitize(Text(old(userId))))
      ensures username == old(username) && email == old(email) && passwordHash == old(passwordHash)
      ensures name == old(name) && birthdate == old(birthdate)
      ensures createdAt == old(createdAt) && updatedAt == old(updatedAt)
      ensures db.users == SetPasswordHash(old(db.users), userId, Auth.HashPassword(cfg, lib, Text(newPassword), salt))
      ensures db.logs == old(db.logs) && db.nextUserId == old(db.nextUserId) && db.nextLogId == old(db.nextLogId)
    {
      var hashed := Auth.HashPassword(cfg, lib, Text(newPassword), salt);
      userId := Str(lib.sanitize(Text(userId)));
      db.ReplaceUsers(SetPasswordHash(db.users, userId, hashed));
    }

    /** `verifyPassword`: false for an empty (or `"0"`, or null) stored hash, else the Auth check. */
    function VerifyPassword(cfg: Auth.Config, lib: Library, password: Value): bool
      reads this
    {
      Truthy(passwordHash) && Auth.VerifyPassword(cfg, lib, Text(password), Text(passwordHash))
    }

    /** `delete`: sanitises user_id in place and removes the row with that key. */
    method Delete(lib: Library)
      requires db.Valid()
      modifies this, db
      ensures db.Valid()
      ensures userId == Str(lib.sanitize(Text(old(userId))))
      ensures username == old(username) && email == old(email) && passwordHash == old(passwordHash)
      ensures name == old(name) && birthdate == old(birthdate)
      ensures createdAt == old(createdAt) && updatedAt == old(updatedAt)
      ensures db.users == WithoutUser(old(db.users), userId)
      ensures db.logs == old(db.logs) && db.nextUserId == old(db.nextUserId) && db.nextLogId == old(db.nextLogId)
    {
      var key := Str(lib.sanitize(Text(userId)));
      userId := key;
      FilterKeepsDistinct(db.users, (x: UserRow) => !IdMatches(key, x.id), UserKey);
      db.users := WithoutUser(db.users, key);
    }

    /** `usernameExists`. */
    predicate UsernameExists(p: Value)
      reads db
    {
      UsernameTaken(db.users, p)
    }

    /** `emailExists`. */
    predicate EmailExists(p: Value)
      reads db
    {
      EmailTaken(db.users, p)
    }

    /**
      `toArray`: the seven profile fields as they stand on the object, plus
      `password_hash` exactly when asked for.
    */
    function ToArray(includePassword: bool): (m: Assoc)
      reads this
      ensures m.Keys == if includePassword then ProfileKeys + {"password_hash"} else ProfileKeys
      ensures m["user_id"] == userId && m["username"] == username && m["email"] == email
      ensures m["name"] == name && m["birthdate"] == birthdate
      ensures m["created_at"] == createdAt && m["updated_at"] == updatedAt
      ensures includePassword ==> m["password_hash"] == passwordHash
    {
      var profile := map["user_id" := userId, "username" := username, "email" := email,
                         "name" := name, "birthdate" := birthdate,
                         "created_at" := createdAt, "updated_at" := updatedAt];
      if includePassword then profile["password_hash" := passwordHash] else profile
    }
  }

  /** By default `toArray` never exposes the password hash. */
  lemma ToArrayHidesHash(u: User)
    ensures "password_hash" !in u.ToArray(false)
    ensures u.ToArray(true)["password_hash"] == u.passwordHash
  {
  }

  /**
    A user object loaded from a row whose hash was made from `password` accepts
    that password: bcrypt's hash is 60 characters, so never empty, and both sides
    pepper the same way.
  */
  lemma LoadedUserAcceptsOwnPassword(u: User, cfg: Auth.Config, lib: Library, row: UserRow,
                                     password: Value, salt: string)
    requires BcryptAcceptsOwnHash(lib) && BcryptHashLength(lib)
    requires u.Holds(row) && row.passwordHash == Auth.HashPassword(cfg, lib, Text(password), salt)
    ensures u.VerifyPassword(cfg, lib, password)
  {
    Auth.VerifyOwnHash(cfg, lib, Text(password), salt);
    assert |row.passwordHash| == 60;
  }

  /** An object whose stored hash is empty or null rejects every password. */
  lemma EmptyHashRejects(u: User, cfg: Auth.Config, lib: Library, password: Value)
    requires u.passwordHash == Null || u.passwordHash == Str("")
    ensures !u.VerifyPassword(cfg, lib, password)
  {
  }

  /** Only the row with the key changes on a profile update; the others stay as they were. */
  lemma SetProfileTouchesOnlyKey(rows: seq<UserRow>, p: Value, name: string, email: string, birthdate: string, i: int)
    requires DistinctBy(rows, UserKey) && 0 <= i < |rows|
    ensures var r := SetProfile(rows, p, name, email, birthdate);
            r[i].id == rows[i].id && r[i].username == rows[i].username &&
            r[i].passwordHash == rows[i].passwordHash &&
            (!IdMatches(p, rows[i].id) ==> r[i] == rows[i]) &&
            (IdMatches(p, rows[i].id) ==> r[i].name == name && r[i].email == email && r[i].birthdate == birthdate)
  {
  }

  /**
    After a password update the row with the key holds the new hash, and no
    other row's hash changes.
  */
  lemma SetPasswordHashEffect(rows: seq<UserRow>, p: Value, hash: string)
    ensures forall i :: 0 <= i < |rows| && IdMatches(p, rows[i].id) ==>
              SetPasswordHash(rows, p, hash)[i] == rows[i].(passwordHash := hash)
    ensures forall i :: 0 <= i < |rows| && !IdMatches(p, rows[i].id) ==>
              SetPasswordHash(rows, p, hash)[i] == rows[i]
  {
  }

  /** After a delete no row has the key, and every row with another key survives. */
  lemma WithoutUserEffect(rows: seq<UserRow>, p: Value)
    ensures forall j :: 0 <= j < |WithoutUser(rows, p)| ==> !IdMatches(p, WithoutUser(rows, p)[j].id)
    ensures forall j :: 0 <= j < |rows| && !IdMatches(p, rows[j].id) ==> rows[j] in WithoutUser(rows, p)
    ensures |WithoutUser(rows, p)| <= |rows|
  {
    assert |Filter(rows, (x: UserRow) => !IdMatches(p, x.id))| <= |rows|;
  }
}
