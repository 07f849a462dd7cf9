/**
  The entry point's routing (`api/index.php`): the request path loses the
  `/driveapi` base when it starts with it, then its slashes at both ends, and
  is split on `/` into the endpoint, the id and the sub-endpoint, which pick
  the route script.
*/
module Router {
  import opened Wrappers
  import opened Strings
  import opened Php
  import opened Platform
  import opened Store
  import opened Http
  import Auth
  import AuthRoutes
  import PasswordRoute
  import UsersRoute
  import LogsRoute

  const BasePath := "/driveapi"

  /** `strpos($uri, $base_path) === 0`, then `substr` past it: a bare prefix test. */
  function StripBase(uri: string): (r: string)
    ensures StartsWith(uri, BasePath) ==> uri == BasePath + r
    ensures !StartsWith(uri, BasePath) ==> r == uri
  {
    if StartsWith(uri, BasePath) then uri[|BasePath|..] else uri
  }

  /** The path pieces: `explode('/', trim(rtrim($uri, '/'), '/'))`. */
  function Segments(uri: string): (parts: seq<string>)
    ensures |parts| >= 1
    ensures forall i :: 0 <= i < |parts| ==> '/' !in parts[i]
  {
    Explode(Trim(RTrim(StripBase(uri), '/'), '/'), '/')
  }

  /** The endpoint, and the id and sub-endpoint when there are that many pieces. */
  datatype Target = Target(endpoint: string, id: Option<string>, sub: Option<string>)

  function ParseUri(uri: string): (t: Target)
    ensures t.endpoint == Segments(uri)[0]
    ensures t.id.Some? <==> |Segments(uri)| >= 2
    ensures t.id.Some? ==> t.id.value == Segments(uri)[1]
    ensures t.sub.Some? <==> |Segments(uri)| >= 3
    ensures t.sub.Some? ==> t.sub.value == Segments(uri)[2]
  {
    var parts := Segments(uri);
    Target(parts[0],
           if |parts| >= 2 then Some(parts[1]) else None,
           if |parts| >= 3 then Some(parts[2]) else None)
  }

  /** The route scripts, the health answer and the fallback 404. */
  datatype Route = AuthScript | PasswordScript | UsersScript | LogsScript | HealthCheck | NoEndpoint

  /** The `switch ($endpoint)`. */
  function Select(t: Target): (r: Route)
    ensures r == PasswordScript <==> t.endpoint == "users" && t.id.Some? && TruthyText(t.id.value) &&
                                     t.sub == Some("password")
    ensures r == UsersScript <==> t.endpoint == "users" && !(t.id.Some? && TruthyText(t.id.value) &&
                                                            t.sub == Some("password"))
    ensures r == NoEndpoint <==> t.endpoint !in {"auth", "users", "logs", "health"}
  {
    if t.endpoint == "auth" then AuthScript
    else if t.endpoint == "users" then
      if t.id.Some? && TruthyText(t.id.value) && t.sub == Some("password") then PasswordScript else UsersScript
    else if t.endpoint == "logs" then LogsScript
    else if t.endpoint == "health" then HealthCheck
    else NoEndpoint
  }

  /**
    One request: parse the path, run the chosen script. `now` is `time()`,
    `salt` the bcrypt salt, `stamp` the database's `CURRENT_TIMESTAMP`.
  */
  method Handle(cfg: Auth.Config, lib: Library, db: Db, req: Request, path: string,
                now: int, salt: string, stamp: string) returns (resp: Response)
    requires db.Valid()
    modifies db
    ensures db.Valid()
    ensures var t := ParseUri(path);
            match Select(t)
            case AuthScript =>
              (req.verb != "POST" ==> resp == MethodNotAllowed) &&
              (req.verb == "POST" && t.id == Some("login") ==>
                 resp == AuthRoutes.LoginResponse(cfg, lib, db.users, req.body, now)) &&
              (req.verb == "POST" && t.id == Some("verify") ==>
                 resp == AuthRoutes.VerifyResponse(cfg, lib, req.authorization, now)) &&
              (req.verb == "POST" && t.id == Some("register") ==>
                 AuthRoutes.RegisterEffect(cfg, lib, req.body, salt, stamp, now, old(db.users), old(db.nextUserId),
                                           db.users, db.nextUserId, resp)) &&
              (req.verb == "POST" && t.id.GetOr("") !in {"register", "login", "verify"} ==>
                 resp == Failure(404, "Auth endpoint not found")) &&
              (!(req.verb == "POST" && t.id == Some("register")) ==>
                 db.users == old(db.users) && db.nextUserId == old(db.nextUserId)) &&
              db.logs == old(db.logs) && db.nextLogId == old(db.nextLogId)
            case PasswordScript =>
              (resp, db.users) == PasswordRoute.PasswordChange(cfg, lib, old(db.users), req, t.id, now, salt) &&
              db.logs == old(db.logs) && db.nextUserId == old(db.nextUserId) && db.nextLogId == old(db.nextLogId)
            case UsersScript =>
              (resp, db.users) == UsersRoute.UsersResult(cfg, lib, old(db.users), req, t.id, now) &&
              db.logs == old(db.logs) && db.nextUserId == old(db.nextUserId) && db.nextLogId == old(db.nextLogId)
            case LogsScript =>
              (resp, db.logs, db.nextLogId) ==
                LogsRoute.LogsResult(cfg, lib, old(db.logs), old(db.nextLogId), req, t.id, now, stamp) &&
              db.users == old(db.users) && db.nextUserId == old(db.nextUserId)
            case HealthCheck =>
              resp == Success(200, None, Health(now)) &&
              db.users == old(db.users) && db.logs == old(db.logs) &&
              db.nextUserId == old(db.nextUserId) && db.nextLogId == old(db.nextLogId)
            case NoEndpoint =>
              resp == Failure(404, "Endpoint not found") &&
              db.users == old(db.users) && db.logs == old(db.logs) &&
              db.nextUserId == old(db.nextUserId) && db.nextLogId == old(db.nextLogId)
  {
    var t := ParseUri(path);
    match Select(t)
    case AuthScript =>
      resp := AuthRoutes.AuthRoute(cfg, lib, db, req, t.id.GetOr(""), salt, stamp, now);
    case PasswordScript =>
      resp := PasswordRoute.ChangePassword(cfg, lib, db, req, t.id, now, salt);
    case UsersScript =>
      resp := UsersRoute.Users(cfg, lib, db, req, t.id, now);
    case LogsScript =>
      resp := LogsRoute.Logs(cfg, lib, db, req, t.id, now, stamp);
    case HealthCheck =>
      resp := Success(200, None, Health(now));
    case NoEndpoint =>
      resp := Failure(404, "Endpoint not found");
  }

  // ======================================================== properties

  /** The last character of an implosion is that of its last piece, when that piece is not empty. */
  lemma {:induction false} ImplodeLast(parts: seq<string>, sep: char)
    requires |parts| >= 1 && parts[|parts| - 1] != []
    ensures var s := Implode(parts, sep);
            s != [] && s[|s| - 1] == parts[|parts| - 1][|parts[|parts| - 1]| - 1]
    decreases |parts|
  {
    if |parts| > 1 {
      var rest := parts[1..];
      assert rest[|rest| - 1] == parts[|parts| - 1];
      ImplodeLast(rest, sep);
      var tail := Implode(rest, sep);
      var s := parts[0] + [sep] + tail;
      assert s[|s| - 1] == tail[|tail| - 1];
    }
  }

  /** A path with no slash at either end keeps its inner text through both trims, trailing slash or not. */
  lemma TrimmedPath(s: string)
    requires s != [] && s[0] != '/' && s[|s| - 1] != '/'
    ensures Trim(RTrim("/" + s, '/'), '/') == s
    ensures Trim(RTrim("/" + s + "/", '/'), '/') == s
  {
    var a := "/" + s;
    assert a[|a| - 1] == s[|s| - 1];
    assert RTrim(a, '/') == a;
    assert a[1..] == s;
    assert LTrim(s, '/') == s;
    assert LTrim(a, '/') == s;
    var b := "/" + s + "/";
    assert b[..|b| - 1] == a;
    assert RTrim(b, '/') == RTrim(a, '/');
  }

  /** Behind the base, the text after its slash, with or without a trailing slash. */
  lemma StripBaseOf(s: string)
    ensures StripBase(BasePath + "/" + s) == "/" + s
    ensures StripBase(BasePath + "/" + s + "/") == "/" + s + "/"
  {
    var p1 := BasePath + "/" + s;
    assert p1[..|BasePath|] == BasePath && p1[|BasePath|..] == "/" + s;
    var p2 := BasePath + "/" + s + "/";
    assert p2[..|BasePath|] == BasePath && p2[|BasePath|..] == "/" + s + "/";
  }

  /** Behind the base and a slash, a text with no slash at either end is what gets exploded. */
  lemma SegmentsOfInner(s: string)
    requires s != [] && s[0] != '/' && s[|s| - 1] != '/'
    ensures Segments(BasePath + "/" + s) == Explode(s, '/')
    ensures Segments(BasePath + "/" + s + "/") == Explode(s, '/')
  {
    TrimmedPath(s);
    StripBaseOf(s);
  }

  /**
    A path made of pieces without slashes, the first and last non-empty, splits
    back into exactly those pieces, with or without a trailing slash.
  */
  lemma SegmentsOfPieces(parts: seq<string>)
    requires |parts| >= 1 && parts[0] != [] && parts[|parts| - 1] != []
    requires forall i :: 0 <= i < |parts| ==> '/' !in parts[i]
    ensures Segments(BasePath + "/" + Implode(parts, '/')) == parts
    ensures Segments(BasePath + "/" + Implode(parts, '/') + "/") == parts
  {
    var s := Implode(parts, '/');
    ImplodeLast(parts, '/');
    var first := parts[0];
    var last := parts[|parts| - 1];
    assert s[0] == first[0] by {
      if |parts| > 1 {
        assert s == first + ['/'] + Implode(parts[1..], '/');
      }
    }
    assert s[0] != '/' by { assert first[0] in first; }
    assert s[|s| - 1] != '/' by { assert last[|last| - 1] in last; }
    SegmentsOfInner(s);
    ExplodeImplode(parts, '/');
  }

  /** The text `users/<id>/password` explodes into its three pieces. */
  lemma PasswordPieces(id: string)
    requires '/' !in id
    ensures Explode("users" + ['/'] + id + ['/'] + "password", '/') == ["users", id, "password"]
  {
    assert '/' !in "users" && '/' !in "password";
    ExplodeThree("users", id, "password", '/');
  }

  /** The pieces of the path `users/<id>/password`. */
  lemma PasswordSegments(id: string)
    requires '/' !in id
    ensures Segments(BasePath + "/users/" + id + "/password") == ["users", id, "password"]
  {
    var s := "users" + ['/'] + id + ['/'] + "password";
    var path := BasePath + "/users/" + id + "/password";
    assert path == BasePath + "/" + s;
    assert s[0] == 'u' && s[|s| - 1] == 'd';
    SegmentsOfInner(s);
    PasswordPieces(id);
  }

  /** The id and sub-endpoint of `users/<id>/password`, and the route each case takes. */
  lemma PasswordPath(id: string)
    requires '/' !in id
    ensures ParseUri(BasePath + "/users/" + id + "/password") == Target("users", Some(id), Some("password"))
    ensures Select(ParseUri(BasePath + "/users/" + id + "/password")) ==
              if id == "0" || id == "" then UsersScript else PasswordScript
  {
    PasswordSegments(id);
  }

  /** The base is stripped by a bare prefix test: `/driveapix/logs` has endpoint `x`, hence no route. */
  lemma BarePrefix()
    ensures StripBase("/driveapix/logs") == "x/logs"
    ensures ParseUri("/driveapix/logs") == Target("x", Some("logs"), None)
    ensures Select(ParseUri("/driveapix/logs")) == NoEndpoint
  {
    BareStrip();
    BareTrim();
    BareExplode();
    assert Segments("/driveapix/logs") == ["x", "logs"];
  }

  lemma BareStrip()
    ensures StripBase("/driveapix/logs") == "x/logs"
  {
    assert "/driveapix/logs" == BasePath + "x/logs";
  }

  lemma BareTrim()
    ensures Trim(RTrim("x/logs", '/'), '/') == "x/logs"
  {
    assert RTrim("x/logs", '/') == "x/logs";
    assert LTrim("x/logs", '/') == "x/logs";
  }

  lemma BareExplode()
    ensures Explode("x/logs", '/') == ["x", "logs"]
  {
    assert "x/logs" == "x" + ['/'] + "logs";
    ExplodeFirst("x", '/', "logs");
    ExplodeWithout("logs", '/');
  }

  /** A path that is empty or only slashes, after the base, has the empty endpoint and gets 404. */
  lemma SlashesOnly(path: string)
    requires forall i :: 0 <= i < |StripBase(path)| ==> StripBase(path)[i] == '/'
    ensures ParseUri(path) == Target("", None, None)
    ensures Select(ParseUri(path)) == NoEndpoint
  {
    var r := RTrim(StripBase(path), '/');
    assert r == [];
    assert LTrim(r, '/') == "";
    ExplodeWithout("", '/');
  }
}
