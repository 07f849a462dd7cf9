/**
  `logs` and `logs/:id` (`api/routes/logs.php`): the token gate, then GET (one
  log, or the caller's page of logs with totals), POST (a new log), PUT (a
  merge of the body into an existing log) and DELETE. The acting user is the
  token's `user_id`, never anything in the body.
*/
module LogsRoute {
  import opened Wrappers
  import opened Php
  import opened Platform
  import opened Store
  import opened Http
  import opened DrivingLogModel
  import Auth

  /** What the script answers, the log table afterwards and its next key. */
  function LogsResult(cfg: Auth.Config, lib: Library, logs: seq<LogRow>, next: int, req: Request,
                      id: Option<string>, now: int, stamp: string): (Response, seq<LogRow>, int)
  {
    match Authenticate(cfg, lib, req.authorization, now, "Authentication required")
    case Err(rejection) => (rejection, logs, next)
    case Ok(payload) => LogsAs(lib, logs, next, req, id, Get(payload, "user_id"), stamp)
  }

  /** The method switch, acting for the token's `user_id` value `uid`. */
  function LogsAs(lib: Library, logs: seq<LogRow>, next: int, req: Request, id: Option<string>,
                  uid: Value, stamp: string): (Response, seq<LogRow>, int)
  {
    if req.verb == "GET" then
      (if id.Some? && TruthyText(id.value) then ShowLog(logs, id.value, uid)
       else ListLogs(lib, logs, uid, req.query), logs, next)
    else if req.verb == "POST" then PostLog(lib, logs, next, uid, req.body, stamp)
    else if req.verb == "PUT" then
      var (resp, logs') := PutLog(lib, logs, id, uid, req.body);
      (resp, logs', next)
    else if req.verb == "DELETE" then
      var (resp, logs') := DeleteLog(lib, logs, id, uid);
      (resp, logs', next)
    else (MethodNotAllowed, logs, next)
  }

  /** The `data` of a response that passes on what `getById` returned. */
  function LogData(found: Option<LogRow>): Data
  {
    match found
    case None => Missing
    case Some(row) => OneLog(row)
  }

  /** `$log['user_id'] != $user_id`: the row's owner is not the acting user. */
  predicate ForeignTo(row: LogRow, uid: Value)
  {
    !LooseEq(Int(row.owner), uid)
  }

  /** GET `logs/:id`. */
  function ShowLog(logs: seq<LogRow>, lid: string, uid: Value): Response
  {
    match FindLog(logs, Str(lid))
    case None => Failure(404, "Log not found")
    case Some(row) => if ForeignTo(row, uid) then Forbidden else Success(200, None, OneLog(row))
  }

  /** `isset($_GET[k]) ? (int)$_GET[k] : default`. */
  function QueryInt(query: map<string, string>, k: string, default: int): int
  {
    if k in query then IntCast(query[k]) else default
  }

  /** GET `logs`: the date-range query when both dates are given, else the page. */
  function ListLogs(lib: Library, logs: seq<LogRow>, uid: Value, query: map<string, string>): Response
  {
    var limit := QueryInt(query, "limit", 100);
    var offset := QueryInt(query, "offset", 0);
    var found :=
      if "start_date" in query && "end_date" in query
      then Some(RangeByOwner(logs, lib, uid, query["start_date"], query["end_date"]))
      else ListByOwner(logs, lib, uid, limit, offset);
    match found
    case None => DatabaseError
    case Some(page) =>
      Success(200, None, LogPage(page, CountOwned(logs, uid), limit, offset, TotalMinutes(logs, lib, uid)))
  }

  /** `strtotime(start) >= strtotime(end)` for the body's two times. */
  predicate TimesOutOfOrder(lib: Library, data: Assoc)
  {
    StrtotimeGe(lib.strtotime(Text(Get(data, "start_time"))), lib.strtotime(Text(Get(data, "end_time"))))
  }

  /** `isset($data['is_nighttime']) ? (bool)$data['is_nighttime'] : $default`. */
  function NightFlag(data: Assoc, default: bool): bool
  {
    if IsSet(data, "is_nighttime") then Truthy(data["is_nighttime"]) else default
  }

  /** The row POST inserts under key `id`: owner from the token, description `''` by default. */
  function NewLog(lib: Library, id: int, uid: Value, data: Assoc, stamp: string): LogRow
  {
    LogRow(id, IntOf(Str(lib.sanitize(Text(uid)))), lib.sanitize(Text(Get(data, "start_time"))),
           lib.sanitize(Text(Get(data, "end_time"))), lib.sanitize(Text(GetOr(data, "description", Str("")))),
           NightFlag(data, false), stamp, stamp)
  }

  /** POST `logs`. */
  function PostLog(lib: Library, logs: seq<LogRow>, next: int, uid: Value, data: Assoc, stamp: string)
    : (Response, seq<LogRow>, int)
  {
    if IsEmpty(data, "start_time") || IsEmpty(data, "end_time") then
      (Failure(400, "Start time and end time are required"), logs, next)
    else if TimesOutOfOrder(lib, data) then
      (Failure(400, "End time must be after start time"), logs, next)
    else Inserted(lib, logs, next, uid, data, stamp)
  }

  /** POST's insert and the re-read of the new row by `lastInsertId()`. */
  function Inserted(lib: Library, logs: seq<LogRow>, next: int, uid: Value, data: Assoc, stamp: string)
    : (Response, seq<LogRow>, int)
  {
    var logs' := logs + [NewLog(lib, next, uid, data, stamp)];
    (Success(201, Some("Log created successfully"), LogData(FindLog(logs', Str(IntToString(next))))),
     logs', next + 1)
  }

  /** The table after PUT: body fields where given, the existing row's values otherwise. */
  function Merged(lib: Library, logs: seq<LogRow>, lid: string, uid: Value, data: Assoc, existing: LogRow)
    : seq<LogRow>
  {
    SetLogFields(logs, Str(lib.sanitize(lid)), Str(lib.sanitize(Text(uid))),
                 lib.sanitize(Text(GetOr(data, "start_time", Str(existing.startTime)))),
                 lib.sanitize(Text(GetOr(data, "end_time", Str(existing.endTime)))),
                 lib.sanitize(Text(GetOr(data, "description", Str(existing.description)))),
                 NightFlag(data, existing.isNighttime))
  }

  /** The existence and ownership checks PUT and DELETE share. */
  function ExistingOwned(logs: seq<LogRow>, id: Option<string>, uid: Value): (r: Result<LogRow, Response>)
    ensures r.Ok? ==> id.Some? && TruthyText(id.value) && FindLog(logs, Str(id.value)) == Some(r.value) &&
                      !ForeignTo(r.value, uid)
  {
    if id.None? || !TruthyText(id.value) then Err(Failure(400, "Log ID is required"))
    else match FindLog(logs, Str(id.value))
      case None => Err(Failure(404, "Log not found"))
      case Some(existing) => if ForeignTo(existing, uid) then Err(Forbidden) else Ok(existing)
  }

  /** PUT `logs/:id`. */
  function PutLog(lib: Library, logs: seq<LogRow>, id: Option<string>, uid: Value, data: Assoc)
    : (Response, seq<LogRow>)
  {
    match ExistingOwned(logs, id, uid)
    case Err(rejection) => (rejection, logs)
    case Ok(existing) =>
      if IsSet(data, "start_time") && IsSet(data, "end_time") && TimesOutOfOrder(lib, data) then
        (Failure(400, "End time must be after start time"), logs)
      else Updated(lib, logs, id.value, uid, data, existing)
  }

  /** PUT's update and the re-read of the row by the URL id. */
  function Updated(lib: Library, logs: seq<LogRow>, lid: string, uid: Value, data: Assoc, existing: LogRow)
    : (Response, seq<LogRow>)
  {
    var logs' := Merged(lib, logs, lid, uid, data, existing);
    (Success(200, Some("Log updated successfully"), LogData(FindLog(logs', Str(lid)))), logs')
  }

  /** DELETE `logs/:id`. */
  function DeleteLog(lib: Library, logs: seq<LogRow>, id: Option<string>, uid: Value): (Response, seq<LogRow>)
  {
    match ExistingOwned(logs, id, uid)
    case Err(rejection) => (rejection, logs)
    case Ok(_) =>
      (Success(200, Some("Log deleted successfully"), NoData),
       WithoutLog(logs, Str(lib.sanitize(id.value)), Str(lib.sanitize(Text(uid)))))
  }

  // ======================================================== the script

  method Logs(cfg: Auth.Config, lib: Library, db: Db, req: Request, id: Option<string>, now: int, stamp: string)
    returns (resp: Response)
    requires db.Valid()
    modifies db
    ensures db.Valid()
    ensures (resp, db.logs, db.nextLogId) == LogsResult(cfg, lib, old(db.logs), old(db.nextLogId), req, id, now, stamp)
    ensures db.users == old(db.users) && db.nextUserId == old(db.nextUserId)
  {
    var gate := Authenticate(cfg, lib, req.authorization, now, "Authentication required");
    if gate.Err? {
      return gate.error;
    }
    var uid := Get(gate.value, "user_id");
    if req.verb == "GET" {
      if id.Some? && TruthyText(id.value) {
        resp := Show(db, id.value, uid);
      } else {
        resp := List(lib, db, uid, req.query);
      }
    } else if req.verb == "POST" {
      resp := Post(lib, db, uid, req.body, stamp);
    } else if req.verb == "PUT" {
      resp := Put(lib, db, id, uid, req.body);
    } else if req.verb == "DELETE" {
      resp := Delete(lib, db, id, uid);
    } else {
      resp := MethodNotAllowed;
    }
  }

  method Show(db: Db, lid: string, uid: Value) returns (resp: Response)
    ensures resp == ShowLog(db.logs, lid, uid)
  {
    var drivingLog := new DrivingLog(db);
    var log := drivingLog.GetById(Str(lid));
    if log.None? {
      return Failure(404, "Log not found");
    }
    if ForeignTo(log.value, uid) {
      return Forbidden;
    }
    resp := Success(200, None, OneLog(log.value));
  }

  method List(lib: Library, db: Db, uid: Value, query: map<string, string>) returns (resp: Response)
    ensures resp == ListLogs(lib, db.logs, uid, query)
  {
    var drivingLog := new DrivingLog(db);
    var limit := if "limit" in query then IntCast(query["limit"]) else 100;
    var offset := if "offset" in query then IntCast(query["offset"]) else 0;
    var found := Fetch(lib, drivingLog, uid, query, limit, offset);
    if found.None? {
      return DatabaseError;
    }
    var total := drivingLog.CountByUserId(uid);
    var totalMinutes := drivingLog.GetTotalDrivingTime(lib, uid);
    resp := Success(200, None, LogPage(found.value, total, limit, offset, totalMinutes));
  }

  /** GET `logs`'s choice of query: the date range when both dates are given, else the page. */
  method Fetch(lib: Library, drivingLog: DrivingLog, uid: Value, query: map<string, string>, limit: int, offset: int)
    returns (found: Option<seq<LogRow>>)
    ensures found == if "start_date" in query && "end_date" in query
                     then Some(RangeByOwner(drivingLog.db.logs, lib, uid, query["start_date"], query["end_date"]))
                     else ListByOwner(drivingLog.db.logs, lib, uid, limit, offset)
  {
    if "start_date" in query && "end_date" in query {
      var logs := drivingLog.GetByDateRange(lib, uid, query["start_date"], query["end_date"]);
      found := Some(logs);
    } else {
      found := drivingLog.GetByUserId(lib, uid, limit, offset);
    }
  }

  method Post(lib: Library, db: Db, uid: Value, data: Assoc, stamp: string) returns (resp: Response)
    requires db.Valid()
    modifies db
    ensures db.Valid()
    ensures (resp, db.logs, db.nextLogId) == PostLog(lib, old(db.logs), old(db.nextLogId), uid, data, stamp)
    ensures db.users == old(db.users) && db.nextUserId == old(db.nextUserId)
  {
    if IsEmpty(data, "start_time") || IsEmpty(data, "end_time") {
      return Failure(400, "Start time and end time are required");
    }
    var start := lib.strtotime(Text(Get(data, "start_time")));
    var end := lib.strtotime(Text(Get(data, "end_time")));
    if StrtotimeGe(start, end) {
      return Failure(400, "End time must be after start time");
    }
    resp := Insert(lib, db, uid, data, stamp);
  }

  method Insert(lib: Library, db: Db, uid: Value, data: Assoc, stamp: string) returns (resp: Response)
    requires db.Valid()
    modifies db
    ensures db.Valid()
    ensures (resp, db.logs, db.nextLogId) == Inserted(lib, old(db.logs), old(db.nextLogId), uid, data, stamp)
    ensures db.users == old(db.users) && db.nextUserId == old(db.nextUserId)
  {
    var drivingLog := new DrivingLog(db);
    Fill(drivingLog, uid, data);
    ghost var expected := Inserted(lib, db.logs, db.nextLogId, uid, data, stamp);
    drivingLog.Create(lib, stamp);
    assert db.logs == expected.1 && db.nextLogId == expected.2;
    var log := drivingLog.GetById(drivingLog.logId);
    resp := Success(201, Some("Log created successfully"), LogData(log));
  }

  /** POST's assignments to the model object: the body's fields, owner from the token. */
  method Fill(drivingLog: DrivingLog, uid: Value, data: Assoc)
    modifies drivingLog
    ensures drivingLog.userId == uid && drivingLog.startTime == Get(data, "start_time")
    ensures drivingLog.endTime == Get(data, "end_time")
    ensures drivingLog.description == GetOr(data, "description", Str(""))
    ensures Truthy(drivingLog.isNighttime) == NightFlag(data, false)
  {
    drivingLog.userId := uid;
    drivingLog.startTime := Get(data, "start_time");
    drivingLog.endTime := Get(data, "end_time");
    drivingLog.description := GetOr(data, "description", Str(""));
    drivingLog.isNighttime := if IsSet(data, "is_nighttime") then Bool(Truthy(data["is_nighttime"])) else Bool(false);
  }

  method CheckExisting(db: Db, id: Option<string>, uid: Value) returns (r: Result<LogRow, Response>)
    ensures r == ExistingOwned(db.logs, id, uid)
  {
    if id.None? || !TruthyText(id.value) {
      return Err(Failure(400, "Log ID is required"));
    }
    var drivingLog := new DrivingLog(db);
    var existingLog := drivingLog.GetById(Str(id.value));
    if existingLog.None? {
      return Err(Failure(404, "Log not found"));
    }
    if ForeignTo(existingLog.value, uid) {
      return Err(Forbidden);
    }
    r := Ok(existingLog.value);
  }

  method Put(lib: Library, db: Db, id: Option<string>, uid: Value, data: Assoc) returns (resp: Response)
    requires db.Valid()
    modifies db
    ensures db.Valid()
    ensures (resp, db.logs) == PutLog(lib, old(db.logs), id, uid, data)
    ensures db.users == old(db.users) && db.nextUserId == old(db.nextUserId) && db.nextLogId == old(db.nextLogId)
  {
    var checked := CheckExisting(db, id, uid);
    if checked.Err? {
      return checked.error;
    }
    var existingLog := checked.value;
    if IsSet(data, "start_time") && IsSet(data, "end_time") {
      var start := lib.strtotime(Text(data["start_time"]));
      var end := lib.strtotime(Text(data["end_time"]));
      if StrtotimeGe(start, end) {
        return Failure(400, "End time must be after start time");
      }
    }
    resp := Apply(lib, db, id.value, uid, data, existingLog);
  }

  method Apply(lib: Library, db: Db, lid: string, uid: Value, data: Assoc, existingLog: LogRow)
    returns (resp: Response)
    requires db.Valid()
    modifies db
    ensures db.Valid()
    ensures (resp, db.logs) == Updated(lib, old(db.logs), lid, uid, data, existingLog)
    ensures db.users == old(db.users) && db.nextUserId == old(db.nextUserId) && db.nextLogId == old(db.nextLogId)
  {
    var drivingLog := new DrivingLog(db);
    FillFrom(drivingLog, lid, uid, data, existingLog);
    ghost var expected := Merged(lib, db.logs, lid, uid, data, existingLog);
    drivingLog.Update(lib);
    assert db.logs == expected;
    var log := drivingLog.GetById(Str(lid));
    resp := Success(200, Some("Log updated successfully"), LogData(log));
  }

  /** PUT's assignments to the model object: body fields where given, the existing row's otherwise. */
  method FillFrom(drivingLog: DrivingLog, lid: string, uid: Value, data: Assoc, existingLog: LogRow)
    modifies drivingLog
    ensures drivingLog.logId == Str(lid) && drivingLog.userId == uid
    ensures drivingLog.startTime == GetOr(data, "start_time", Str(existingLog.startTime))
    ensures drivingLog.endTime == GetOr(data, "end_time", Str(existingLog.endTime))
    ensures drivingLog.description == GetOr(data, "description", Str(existingLog.description))
    ensures Truthy(drivingLog.isNighttime) == NightFlag(data, existingLog.isNighttime)
  {
    drivingLog.logId := Str(lid);
    drivingLog.userId := uid;
    drivingLog.startTime := GetOr(data, "start_time", Str(existingLog.startTime));
    drivingLog.endTime := GetOr(data, "end_time", Str(existingLog.endTime));
    drivingLog.description := GetOr(data, "description", Str(existingLog.description));
    drivingLog.isNighttime :=
      if IsSet(data, "is_nighttime") then Bool(Truthy(data["is_nighttime"])) else Bool(existingLog.isNighttime);
  }

  method Delete(lib: Library, db: Db, id: Option<string>, uid: Value) returns (resp: Response)
    requires db.Valid()
    modifies db
    ensures db.Valid()
    ensures (resp, db.logs) == DeleteLog(lib, old(db.logs), id, uid)
    ensures db.users == old(db.users) && db.nextUserId == old(db.nextUserId) && db.nextLogId == old(db.nextLogId)
  {
    var checked := CheckExisting(db, id, uid);
    if checked.Err? {
      return checked.error;
    }
    Erase(lib, db, id.value, uid);
    resp := Success(200, Some("Log deleted successfully"), NoData);
  }

  /** DELETE after its checks: the row with that key and owner goes. */
  method Erase(lib: Library, db: Db, lid: string, uid: Value)
    requires db.Valid()
    modifies db
    ensures db.Valid()
    ensures db.logs == WithoutLog(old(db.logs), Str(lib.sanitize(lid)), Str(lib.sanitize(Text(uid))))
    ensures db.users == old(db.users) && db.nextUserId == old(db.nextUserId) && db.nextLogId == old(db.nextLogId)
  {
    var drivingLog := new DrivingLog(db);
    drivingLog.logId := Str(lid);
    drivingLog.userId := uid;
    drivingLog.Delete(lib);
  }

  // ======================================================== properties

  /** Every method is behind the token gate: without a valid token, a 401 and no change. */
  lemma GateBeforeMethod(cfg: Auth.Config, lib: Library, logs: seq<LogRow>, next: int, req: Request,
                         id: Option<string>, now: int, stamp: string)
    requires Authenticate(cfg, lib, req.authorization, now, "Authentication required").Err?
    ensures var (resp, logs', next') := LogsResult(cfg, lib, logs, next, req, id, now, stamp);
            resp.Status() == 401 && logs' == logs && next' == next
  {
  }

  /** A key other than `user_id` reads the same in the body with `user_id` overwritten. */
  lemma OtherKeyUnaffected(data: Assoc, v: Value, k: string)
    requires k != "user_id"
    ensures var data' := data["user_id" := v];
            Get(data', k) == Get(data, k) && (IsSet(data', k) <==> IsSet(data, k)) &&
            (IsSet(data, k) ==> data'[k] == data[k])
  {
  }

  /**
    The acting user comes only from the token: whatever the body says under
    `user_id`, the response and the table are the same.
  */
  lemma OwnerFromTokenOnly(lib: Library, logs: seq<LogRow>, next: int, req: Request, id: Option<string>,
                           uid: Value, stamp: string, v: Value)
    ensures LogsAs(lib, logs, next, req.(body := req.body["user_id" := v]), id, uid, stamp) ==
            LogsAs(lib, logs, next, req, id, uid, stamp)
  {
    if req.verb == "POST" {
      PostIgnoresBodyOwner(lib, logs, next, uid, req.body, stamp, v);
    } else if req.verb == "PUT" {
      PutIgnoresBodyOwner(lib, logs, id, uid, req.body, v);
    }
  }

  lemma PostIgnoresBodyOwner(lib: Library, logs: seq<LogRow>, next: int, uid: Value, data: Assoc,
                             stamp: string, v: Value)
    ensures PostLog(lib, logs, next, uid, data["user_id" := v], stamp) == PostLog(lib, logs, next, uid, data, stamp)
  {
    TimesIgnoreOwner(lib, data, v);
    NewLogIgnoresOwner(lib, next, uid, data, stamp, v);
  }

  lemma PutIgnoresBodyOwner(lib: Library, logs: seq<LogRow>, id: Option<string>, uid: Value, data: Assoc, v: Value)
    ensures PutLog(lib, logs, id, uid, data["user_id" := v]) == PutLog(lib, logs, id, uid, data)
  {
    TimesIgnoreOwner(lib, data, v);
    match ExistingOwned(logs, id, uid)
    case Err(_) =>
    case Ok(existing) =>
      MergedIgnoresOwner(lib, logs, id.value, uid, data, existing, v);
  }

  /** The body's times, and whether they are given, do not depend on its `user_id`. */
  lemma TimesIgnoreOwner(lib: Library, data: Assoc, v: Value)
    ensures var data' := data["user_id" := v];
            IsEmpty(data', "start_time") == IsEmpty(data, "start_time") &&
            IsEmpty(data', "end_time") == IsEmpty(data, "end_time") &&
            IsSet(data', "start_time") == IsSet(data, "start_time") &&
            IsSet(data', "end_time") == IsSet(data, "end_time") &&
            TimesOutOfOrder(lib, data') == TimesOutOfOrder(lib, data)
  {
    OtherKeyUnaffected(data, v, "start_time");
    OtherKeyUnaffected(data, v, "end_time");
  }

  lemma NewLogIgnoresOwner(lib: Library, next: int, uid: Value, data: Assoc, stamp: string, v: Value)
    ensures NewLog(lib, next, uid, data["user_id" := v], stamp) == NewLog(lib, next, uid, data, stamp)
  {
    OtherKeyUnaffected(data, v, "start_time");
    OtherKeyUnaffected(data, v, "end_time");
    OtherKeyUnaffected(data, v, "description");
    OtherKeyUnaffected(data, v, "is_nighttime");
  }

  lemma MergedIgnoresOwner(lib: Library, logs: seq<LogRow>, lid: string, uid: Value, data: Assoc,
                           existing: LogRow, v: Value)
    ensures Merged(lib, logs, lid, uid, data["user_id" := v], existing) == Merged(lib, logs, lid, uid, data, existing)
  {
    OtherKeyUnaffected(data, v, "start_time");
    OtherKeyUnaffected(data, v, "end_time");
    OtherKeyUnaffected(data, v, "description");
    OtherKeyUnaffected(data, v, "is_nighttime");
  }

  /** A new log's owner is the token user's key, when the token carries it as an integer or its text. */
  lemma PostedOwnerIsTokenUser(lib: Library, next: int, uid: Value, data: Assoc, stamp: string, u: int)
    requires SanitizeKeepsPlainText(lib)
    requires uid == Int(u) || uid == Str(IntToString(u))
    ensures NewLog(lib, next, uid, data, stamp).owner == u
  {
    CreatedOwnerIsTokenUser(lib, u);
  }

  /**
    GET, PUT and DELETE of a log that does not exist give 404; of another user's
    log, 403; and in both cases the table is left as it was.
  */
  lemma MissingOrForeignLog(lib: Library, logs: seq<LogRow>, next: int, req: Request, lid: string,
                            uid: Value, stamp: string)
    requires req.verb in {"GET", "PUT", "DELETE"} && TruthyText(lid)
    ensures var (resp, logs', next') := LogsAs(lib, logs, next, req, Some(lid), uid, stamp);
            (FindLog(logs, Str(lid)).None? ==> resp == Failure(404, "Log not found")) &&
            (FindLog(logs, Str(lid)).Some? && ForeignTo(FindLog(logs, Str(lid)).value, uid) ==> resp == Forbidden) &&
            (FindLog(logs, Str(lid)).None? || ForeignTo(FindLog(logs, Str(lid)).value, uid) ==>
               logs' == logs && next' == next)
  {
    if req.verb == "PUT" {
      assert LogsAs(lib, logs, next, req, Some(lid), uid, stamp) ==
             (PutLog(lib, logs, Some(lid), uid, req.body).0, PutLog(lib, logs, Some(lid), uid, req.body).1, next);
    } else if req.verb == "DELETE" {
      assert LogsAs(lib, logs, next, req, Some(lid), uid, stamp) ==
             (DeleteLog(lib, logs, Some(lid), uid).0, DeleteLog(lib, logs, Some(lid), uid).1, next);
    }
  }

  /**
    A log id with a non-zero fraction, such as `1.5`, names no log: MySQL reads it
    as a number that no INT key equals, so GET, PUT and DELETE answer 404 and
    change nothing.
  */
  lemma FractionalIdNotFound(lib: Library, logs: seq<LogRow>, next: int, req: Request, n: nat, f: char,
                             uid: Value, stamp: string)
    requires req.verb in {"GET", "PUT", "DELETE"} && '1' <= f <= '9'
    ensures var (resp, logs', next') := LogsAs(lib, logs, next, req, Some(NatToString(n) + "." + [f]), uid, stamp);
            resp == Failure(404, "Log not found") && logs' == logs && next' == next
  {
    var lid := NatToString(n) + "." + [f];
    forall i | 0 <= i < |logs| ensures !IdMatches(Str(lid), logs[i].id) {
      FractionMatchesNoKey(n, f, logs[i].id);
    }
    assert lid[|lid| - 1] == f;
    MissingOrForeignLog(lib, logs, next, req, lid, uid, stamp);
  }

  /** Only a success changes the table: every rejection, and every GET, leaves it alone. */
  lemma RejectionsChangeNothing(lib: Library, logs: seq<LogRow>, next: int, req: Request, id: Option<string>,
                                uid: Value, stamp: string)
    ensures var (resp, logs', next') := LogsAs(lib, logs, next, req, id, uid, stamp);
            (!resp.Success? || req.verb == "GET") ==> logs' == logs && next' == next
  {
  }

  /**
    A successful POST appends exactly one row under the next key: the body's
    times, description `''` and `is_nighttime` false when absent, and answers
    201 with that row as re-read by its key.
  */
  lemma PostAppendsOne(lib: Library, logs: seq<LogRow>, next: int, uid: Value, data: Assoc, stamp: string)
    requires forall i :: 0 <= i < |logs| ==> logs[i].id < next
    requires !IsEmpty(data, "start_time") && !IsEmpty(data, "end_time") && !TimesOutOfOrder(lib, data)
    ensures var row := NewLog(lib, next, uid, data, stamp);
            PostLog(lib, logs, next, uid, data, stamp) ==
              (Success(201, Some("Log created successfully"), OneLog(row)), logs + [row], next + 1) &&
            (!IsSet(data, "description") ==> row.description == lib.sanitize("")) &&
            (!IsSet(data, "is_nighttime") ==> !row.isNighttime) &&
            row.id == next
  {
    var row := NewLog(lib, next, uid, data, stamp);
    var logs' := logs + [row];
    IdMatchesOwnKey(next, next);
    assert logs'[|logs|] == row;
    var found := FindLog(logs', Str(IntToString(next)));
    assert found.Some?;
    IdMatchesOwnKey(next, found.value.id);
    assert found.value == row;
  }

  /** POST checks the times in order: both present, then start before end. */
  lemma PostChecks(lib: Library, logs: seq<LogRow>, next: int, uid: Value, data: Assoc, stamp: string)
    ensures var (resp, logs', next') := PostLog(lib, logs, next, uid, data, stamp);
            (IsEmpty(data, "start_time") || IsEmpty(data, "end_time") ==>
               resp == Failure(400, "Start time and end time are required")) &&
            (!IsEmpty(data, "start_time") && !IsEmpty(data, "end_time") && TimesOutOfOrder(lib, data) ==>
               resp == Failure(400, "End time must be after start time")) &&
            (!resp.Success? ==> logs' == logs && next' == next)
  {
  }

  /** PUT checks the time order only when both times are supplied. */
  lemma PutTimeCheckNeedsBoth(lib: Library, logs: seq<LogRow>, id: Option<string>, uid: Value, data: Assoc)
    requires ExistingOwned(logs, id, uid).Ok?
    requires !IsSet(data, "start_time") || !IsSet(data, "end_time")
    ensures PutLog(lib, logs, id, uid, data).0.Success?
  {
  }

  /**
    The PUT merge: the row with the URL key and the token's owner gets each
    field from the body where it is set, and otherwise its own value again
    (sanitised once more, which leaves plain text as it was); no other row
    changes.
  */
  lemma PutMerge(lib: Library, logs: seq<LogRow>, lid: string, uid: Value, data: Assoc, i: int)
    requires SanitizeKeepsPlainText(lib) && PlainText(lid) && DistinctBy(logs, LogKey)
    requires ExistingOwned(logs, Some(lid), uid).Ok?
    requires !(IsSet(data, "start_time") && IsSet(data, "end_time") && TimesOutOfOrder(lib, data))
    requires 0 <= i < |logs|
    ensures var logs' := PutLog(lib, logs, Some(lid), uid, data).1;
            var old_ := logs[i];
            |logs'| == |logs| &&
            (KeyAndOwner(Str(lid), Str(lib.sanitize(Text(uid))), old_) ==>
               logs'[i] == old_.(startTime := lib.sanitize(Text(GetOr(data, "start_time", Str(old_.startTime)))),
                                 endTime := lib.sanitize(Text(GetOr(data, "end_time", Str(old_.endTime)))),
                                 description := lib.sanitize(Text(GetOr(data, "description", Str(old_.description)))),
                                 isNighttime := NightFlag(data, old_.isNighttime)) &&
               (!IsSet(data, "start_time") && PlainText(old_.startTime) ==> logs'[i].startTime == old_.startTime) &&
               (!IsSet(data, "end_time") && PlainText(old_.endTime) ==> logs'[i].endTime == old_.endTime) &&
               (!IsSet(data, "description") && PlainText(old_.description) ==>
                  logs'[i].description == old_.description) &&
               (!IsSet(data, "is_nighttime") ==> logs'[i].isNighttime == old_.isNighttime)) &&
            (!KeyAndOwner(Str(lid), Str(lib.sanitize(Text(uid))), old_) ==> logs'[i] == old_)
  {
    assert lib.sanitize(lid) == lid;
    if KeyAndOwner(Str(lid), Str(lib.sanitize(Text(uid))), logs[i]) {
      FindLogUnique(logs, Str(lid), i);
    }
  }

  /** A successful DELETE removes at most one row, and only one with the key and the token's owner. */
  lemma DeleteRemovesAtMostOne(lib: Library, logs: seq<LogRow>, id: Option<string>, uid: Value)
    requires DistinctBy(logs, LogKey)
    requires ExistingOwned(logs, id, uid).Ok?
    ensures var logs' := DeleteLog(lib, logs, id, uid).1;
            var lid, owner := Str(lib.sanitize(id.value)), Str(lib.sanitize(Text(uid)));
            |logs'| >= |logs| - 1 &&
            (forall j :: 0 <= j < |logs| && !KeyAndOwner(lid, owner, logs[j]) ==> logs[j] in logs')
  {
    WithoutLogRemovesAtMostOne(logs, Str(lib.sanitize(id.value)), Str(lib.sanitize(Text(uid))));
  }

  /**
    The list: without dates, the caller's latest 100 logs from the first, with
    totals over all the caller's logs; with both dates, the date-range query.
  */
  lemma ListSelection(lib: Library, logs: seq<LogRow>, uid: Value, query: map<string, string>)
    ensures "limit" !in query && "offset" !in query && !("start_date" in query && "end_date" in query) ==>
              ListLogs(lib, logs, uid, query) ==
                Success(200, None, LogPage(ListByOwner(logs, lib, uid, 100, 0).value, CountOwned(logs, uid),
                                           100, 0, TotalMinutes(logs, lib, uid)))
    ensures "start_date" in query && "end_date" in query ==>
              ListLogs(lib, logs, uid, query).Success? &&
              ListLogs(lib, logs, uid, query).data.logs ==
                RangeByOwner(logs, lib, uid, query["start_date"], query["end_date"])
    ensures !("start_date" in query && "end_date" in query) ==>
              (ListLogs(lib, logs, uid, query) == DatabaseError <==>
                 QueryInt(query, "limit", 100) < 0 || QueryInt(query, "offset", 0) < 0)
  {
  }

  /**
    `limit` and `offset` are cast as PHP 8 casts numeric text: `limit=1e2` asks
    for 100 rows, `offset=-0.5e1` is the offset -5, which the database refuses,
    and `limit=1e400`, infinite as a double, is the limit 0: an empty page.
  */
  lemma ListReadsNumericQuery(lib: Library, logs: seq<LogRow>, uid: Value, query: map<string, string>)
    requires !("start_date" in query && "end_date" in query)
    ensures "offset" !in query && "limit" in query && query["limit"] == "1e2" ==>
              ListLogs(lib, logs, uid, query) ==
                Success(200, None, LogPage(ListByOwner(logs, lib, uid, 100, 0).value, CountOwned(logs, uid),
                                           100, 0, TotalMinutes(logs, lib, uid)))
    ensures "offset" in query && query["offset"] == "-0.5e1" ==> ListLogs(lib, logs, uid, query) == DatabaseError
    ensures "offset" !in query && "limit" in query && query["limit"] == "1e400" ==>
              ListLogs(lib, logs, uid, query) ==
                Success(200, None, LogPage([], CountOwned(logs, uid), 0, 0, TotalMinutes(logs, lib, uid)))
  {
    IntCastReadsExponent();
    IntCastOfNegativeExponent();
    IntCastOfInfinity();
  }

  /** Every log a successful list returns is the caller's. */
  lemma ListOnlyOwn(lib: Library, logs: seq<LogRow>, uid: Value, query: map<string, string>)
    requires ListLogs(lib, logs, uid, query).Success?
    ensures var page := ListLogs(lib, logs, uid, query).data.logs;
            forall i :: 0 <= i < |page| ==> page[i] in logs && IdMatches(uid, page[i].owner)
  {
  }
}
