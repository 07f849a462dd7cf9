/**
  The `DrivingLog` model of `api/models/DrivingLog.php`: an object whose public
  fields the route code fills in, with methods that insert, read, update and
  delete rows of the `driving_log` table, and the queries behind the list view.
  Times are compared as MySQL compares DATETIME values, through the library's
  `toDatetime` reading of a text.
*/
module DrivingLogModel {
  import opened Wrappers
  import opened Php
  import opened Platform
  import opened Store

  // ======================================================== ordering

  /** `ORDER BY start_time DESC` holds of `rows`. */
  predicate Descending(rows: seq<LogRow>, key: string -> int)
  {
    forall i, j :: 0 <= i < j < |rows| ==> key(rows[i].startTime) >= key(rows[j].startTime)
  }

  /** Places `x` before the first row that does not start later than it. */
  function InsertDesc(x: LogRow, sorted: seq<LogRow>, key: string -> int): (r: seq<LogRow>)
    ensures |r| == |sorted| + 1
    ensures multiset(r) == multiset(sorted) + multiset{x}
    ensures sorted != [] ==> r[0] == x || r[0] == sorted[0]
    ensures sorted == [] ==> r == [x]
  {
    if sorted == [] then [x]
    else if key(x.startTime) >= key(sorted[0].startTime) then [x] + sorted
    else
      assert sorted == [sorted[0]] + sorted[1..];
      [sorted[0]] + InsertDesc(x, sorted[1..], key)
  }

  /** Inserting into a descending sequence keeps it descending. */
  lemma {:induction false} InsertDescKeepsOrder(x: LogRow, sorted: seq<LogRow>, key: string -> int)
    requires Descending(sorted, key)
    ensures Descending(InsertDesc(x, sorted, key), key)
    decreases |sorted|
  {
    if sorted == [] {
    } else if key(x.startTime) >= key(sorted[0].startTime) {
      ConsDescending(x, sorted, key);
    } else {
      DescendingTail(sorted, key);
      InsertDescKeepsOrder(x, sorted[1..], key);
      var rest := InsertDesc(x, sorted[1..], key);
      assert rest != [] ==> rest[0] == x || rest[0] == sorted[1];
      ConsDescending(sorted[0], rest, key);
    }
  }

  lemma DescendingTail(rows: seq<LogRow>, key: string -> int)
    requires rows != [] && Descending(rows, key)
    ensures Descending(rows[1..], key)
  {
    forall i, j | 0 <= i < j < |rows[1..]|
      ensures key(rows[1..][i].startTime) >= key(rows[1..][j].startTime)
    {
      assert rows[1..][i] == rows[i + 1] && rows[1..][j] == rows[j + 1];
    }
  }

  /** A row placed before a descending sequence that starts no later than it keeps the order. */
  lemma ConsDescending(first: LogRow, rest: seq<LogRow>, key: string -> int)
    requires Descending(rest, key)
    requires rest != [] ==> key(first.startTime) >= key(rest[0].startTime)
    ensures Descending([first] + rest, key)
  {
    var r := [first] + rest;
    forall i, j | 0 <= i < j < |r| ensures key(r[i].startTime) >= key(r[j].startTime) {
      assert r[j] == rest[j - 1];
      if i > 0 {
        assert r[i] == rest[i - 1];
      } else if j > 1 {
        assert key(rest[0].startTime) >= key(rest[j - 1].startTime);
      }
    }
  }

  /**
    The result order of `ORDER BY start_time DESC`: descending start time, a
    permutation of the input. Rows with equal start times keep their table order.
  */
  function SortDesc(rows: seq<LogRow>, key: string -> int): (r: seq<LogRow>)
    ensures |r| == |rows|
    ensures multiset(r) == multiset(rows)
    ensures Descending(r, key)
  {
    if rows == [] then []
    else
      assert rows == [rows[0]] + rows[1..];
      var sortedTail := SortDesc(rows[1..], key);
      InsertDescKeepsOrder(rows[0], sortedTail, key);
      InsertDesc(rows[0], sortedTail, key)
  }

  /** `LIMIT limit OFFSET offset` over an ordered result. */
  function Window(rows: seq<LogRow>, offset: nat, limit: nat): (r: seq<LogRow>)
    ensures |r| <= limit
    ensures offset <= |rows| ==> |r| == if offset + limit <= |rows| then limit else |rows| - offset
    ensures offset >= |rows| ==> r == []
    ensures forall i :: 0 <= i < |r| ==> r[i] == rows[offset + i]
  {
    if offset >= |rows| then []
    else if offset + limit <= |rows| then rows[offset..offset + limit]
    else rows[offset..]
  }

  /** A contiguous slice of a descending sequence is descending. */
  lemma WindowKeepsOrder(rows: seq<LogRow>, offset: nat, limit: nat, key: string -> int)
    requires Descending(rows, key)
    ensures Descending(Window(rows, offset, limit), key)
  {
    var r := Window(rows, offset, limit);
    forall i, j | 0 <= i < j < |r| ensures key(r[i].startTime) >= key(r[j].startTime) {
      assert r[i] == rows[offset + i] && r[j] == rows[offset + j];
    }
  }

  // ======================================================== table functions

  /** `WHERE log_id = :p LIMIT 1`. */
  function LogById(rows: seq<LogRow>, p: Value): Option<nat>
  {
    FirstWhere(rows, (r: LogRow) => IdMatches(p, r.id))
  }

  /** The row `getById` fetches: one with that key, or `None` when there is none. */
  function FindLog(rows: seq<LogRow>, p: Value): (r: Option<LogRow>)
    ensures r.Some? <==> exists i :: 0 <= i < |rows| && IdMatches(p, rows[i].id)
    ensures r.Some? ==> r.value in rows && IdMatches(p, r.value.id)
  {
    match LogById(rows, p)
    case None => None
    case Some(k) => Some(rows[k])
  }

  /** With distinct keys, the row found is the only one with that key. */
  lemma FindLogUnique(rows: seq<LogRow>, p: Value, i: int)
    requires DistinctBy(rows, LogKey) && 0 <= i < |rows| && IdMatches(p, rows[i].id)
    ensures FindLog(rows, p) == Some(rows[i])
  {
    var k := LogById(rows, p).value;
    assert IdMatches(p, LogKey(rows[k]));
    AtMostOne(rows, LogKey, p, k, i);
  }

  /** `WHERE user_id = :p`, in table order. */
  function OwnedBy(rows: seq<LogRow>, p: Value): (r: seq<LogRow>)
    ensures forall j :: 0 <= j < |r| ==> r[j] in rows && IdMatches(p, r[j].owner)
    ensures forall j :: 0 <= j < |rows| && IdMatches(p, rows[j].owner) ==> rows[j] in r
  {
    Filter(rows, (x: LogRow) => IdMatches(p, x.owner))
  }

  /** `WHERE user_id = :p AND start_time >= :start_date AND start_time <= :end_date`. */
  function OwnedInRange(rows: seq<LogRow>, p: Value, low: int, high: int, key: string -> int): (r: seq<LogRow>)
    ensures forall j :: 0 <= j < |r| ==>
              r[j] in rows && IdMatches(p, r[j].owner) && low <= key(r[j].startTime) <= high
    ensures forall j :: 0 <= j < |rows| && IdMatches(p, rows[j].owner) && low <= key(rows[j].startTime) <= high
              ==> rows[j] in r
  {
    Filter(rows, (x: LogRow) => IdMatches(p, x.owner) && low <= key(x.startTime) <= high)
  }

  /** Division truncated toward zero. */
  function TruncDiv(a: int, b: int): int
    requires b > 0
  {
    if a >= 0 then a / b else -((-a) / b)
  }

  /** `TIMESTAMPDIFF(MINUTE, start, end)`: whole minutes elapsed, truncated toward zero. */
  function MinutesBetween(start: int, end: int): (m: int)
    ensures start <= end ==> 0 <= m && m * 60 <= end - start < (m + 1) * 60
    ensures end <= start ==> m <= 0 && (-m) * 60 <= start - end < (-m + 1) * 60
  {
    TruncDiv(end - start, 60)
  }

  /** `SUM(TIMESTAMPDIFF(MINUTE, start_time, end_time))`, with `?? 0` for the empty sum. */
  function SumMinutes(rows: seq<LogRow>, key: string -> int): int
  {
    if rows == [] then 0
    else MinutesBetween(key(rows[0].startTime), key(rows[0].endTime)) + SumMinutes(rows[1..], key)
  }

  lemma {:induction false} SumMinutesAppend(a: seq<LogRow>, b: seq<LogRow>, key: string -> int)
    ensures SumMinutes(a + b, key) == SumMinutes(a, key) + SumMinutes(b, key)
    decreases |a|
  {
    if a != [] {
      assert (a + b)[0] == a[0] && (a + b)[1..] == a[1..] + b;
      SumMinutesAppend(a[1..], b, key);
    } else {
      assert a + b == b;
    }
  }

  /** When every row ends no earlier than it starts, the total is not negative. */
  lemma {:induction false} SumMinutesNonNegative(rows: seq<LogRow>, key: string -> int)
    requires forall i :: 0 <= i < |rows| ==> key(rows[i].startTime) <= key(rows[i].endTime)
    ensures SumMinutes(rows, key) >= 0
  {
    if rows != [] {
      SumMinutesNonNegative(rows[1..], key);
    }
  }

  /** `WHERE log_id = :lid AND user_id = :uid`. */
  predicate KeyAndOwner(lid: Value, uid: Value, row: LogRow)
  {
    IdMatches(lid, row.id) && IdMatches(uid, row.owner)
  }

  /** The table after `UPDATE driving_log SET start_time, end_time, description, is_nighttime WHERE ...`. */
  function SetLogFields(rows: seq<LogRow>, lid: Value, uid: Value, start: string, end: string,
                        description: string, night: bool): (r: seq<LogRow>)
    ensures |r| == |rows|
    ensures forall i :: 0 <= i < |r| ==>
              r[i] == if KeyAndOwner(lid, uid, rows[i])
                      then rows[i].(startTime := start, endTime := end, description := description, isNighttime := night)
                      else rows[i]
  {
    seq(|rows|, i requires 0 <= i < |rows| =>
      if KeyAndOwner(lid, uid, rows[i])
      then rows[i].(startTime := start, endTime := end, description := description, isNighttime := night)
      else rows[i])
  }

  /** The table after `DELETE FROM driving_log WHERE log_id = :lid AND user_id = :uid`. */
  function WithoutLog(rows: seq<LogRow>, lid: Value, uid: Value): (r: seq<LogRow>)
    ensures |r| <= |rows|
    ensures forall j :: 0 <= j < |r| ==> r[j] in rows && !KeyAndOwner(lid, uid, r[j])
    ensures forall j :: 0 <= j < |rows| && !KeyAndOwner(lid, uid, rows[j]) ==> rows[j] in r
  {
    Filter(rows, (x: LogRow) => !KeyAndOwner(lid, uid, x))
  }

  /** With distinct keys a delete removes at most one row. */
  lemma {:induction false} WithoutLogRemovesAtMostOne(rows: seq<LogRow>, lid: Value, uid: Value)
    requires DistinctBy(rows, LogKey)
    ensures |WithoutLog(rows, lid, uid)| >= |rows| - 1
  {
    if rows != [] {
      DistinctTail(rows, LogKey);
      var rest := rows[1..];
      assert rows == [rows[0]] + rest;
      if KeyAndOwner(lid, uid, rows[0]) {
        assert forall j :: 0 <= j < |rest| ==> !KeyAndOwner(lid, uid, rest[j]) by {
          forall j | 0 <= j < |rest| ensures !KeyAndOwner(lid, uid, rest[j]) {
            assert LogKey(rest[j]) != LogKey(rows[0]);
            if IdMatches(lid, rest[j].id) {
              DecimalIsUnique(SqlNumber(Text(lid)), rest[j].id, rows[0].id);
            }
          }
        }
        assert WithoutLog(rows, lid, uid) == WithoutLog(rest, lid, uid);
        assert WithoutLog(rest, lid, uid) == rest;
      } else {
        WithoutLogRemovesAtMostOne(rest, lid, uid);
        assert WithoutLog(rows, lid, uid) == [rows[0]] + WithoutLog(rest, lid, uid);
      }
    }
  }

  /** Digit and sign characters are plain text, so sanitising leaves a numeral alone. */
  lemma NumeralIsPlainText(i: int)
    ensures PlainText(IntToString(i))
  {
    var n: nat := if i < 0 then -i else i;
    var d := NatToString(n);
    assert forall k :: 0 <= k < |d| ==> IsDigit(d[k]);
    if i < 0 {
      var s := "-" + d;
      forall k | 0 <= k < |s| ensures s[k] !in "<>&\"'\0" {
        if k > 0 { assert s[k] == d[k - 1]; }
      }
    }
  }

  // ======================================================== the object

  class DrivingLog {
    const db: Db
    var logId: Value
    var userId: Value
    var startTime: Value
    var endTime: Value
    var description: Value
    var isNighttime: Value
    var createdAt: Value
    var updatedAt: Value

    constructor (db: Db)
      ensures this.db == db
      ensures logId == Null && userId == Null && startTime == Null && endTime == Null
      ensures description == Null && isNighttime == Null && createdAt == Null && updatedAt == Null
    {
      this.db := db;
      logId, userId, startTime, endTime := Null, Null, Null, Null;
      description, isNighttime, createdAt, updatedAt := Null, Null, Null, Null;
    }

    /**
      `create`: sanitises user_id and the three text fields in place, inserts one
      row holding them (the owner read as the INT column reads the sanitised
      text) and sets `log_id` to `lastInsertId()`, the new key as a string.
    */
    method Create(lib: Library, stamp: string)
      requires db.Valid()
      modifies this, db
      ensures db.Valid()
      ensures userId == Str(lib.sanitize(Text(old(userId))))
      ensures startTime == Str(lib.sanitize(Text(old(startTime))))
      ensures endTime == Str(lib.sanitize(Text(old(endTime))))
      ensures description == Str(lib.sanitize(Text(old(description))))
      ensures logId == Str(IntToString(old(db.nextLogId)))
      ensures isNighttime == old(isNighttime) && createdAt == old(createdAt) && updatedAt == old(updatedAt)
      ensures db.logs == old(db.logs) + [LogRow(old(db.nextLogId), IntOf(userId), startTime.s, endTime.s,
                                                description.s, Truthy(isNighttime), stamp, stamp)]
      ensures db.nextLogId == old(db.nextLogId) + 1
      ensures db.users == old(db.users) && db.nextUserId == old(db.nextUserId)
    {
      var owner, start := Str(lib.sanitize(Text(userId))), lib.sanitize(Text(startTime));
      var end, text := lib.sanitize(Text(endTime)), lib.sanitize(Text(description));
      var id := db.nextLogId;
      var row := LogRow(id, IntOf(owner), start, end, text, Truthy(isNighttime), stamp, stamp);
      userId, startTime, endTime, description, logId := owner, Str(start), Str(end), Str(text), Str(IntToString(id));
      db.InsertLog(row);
    }

    /**
      `getById`: the row with that key, or `None`. A found row is loaded into the
      object, every field but `is_nighttime`.
    */
    method GetById(p: Value) returns (row: Option<LogRow>)
      modifies this
      ensures row == FindLog(db.logs, p)
      ensures row.Some? ==> Holds(row.value) && isNighttime == old(isNighttime)
      ensures row.None? ==> unchanged(this)
    {
      var k := LogById(db.logs, p);
      if k.None? {
        return None;
      }
      var found := db.logs[k.value];
      Load(found);
      row := Some(found);
    }

    /**
      The object's fields are those of `row`, as `getById` loads them: every
      column but `is_nighttime`.
    */
    ghost predicate Holds(row: LogRow)
      reads this
    {
      logId == Int(row.id) && userId == Int(row.owner) &&
      startTime == Str(row.startTime) && endTime == Str(row.endTime) &&
      description == Str(row.description) && createdAt == Str(row.createdAt) && updatedAt == Str(row.updatedAt)
    }

    method Load(row: LogRow)
      modifies this
      ensures Holds(row) && isNighttime == old(isNighttime)
    {
      logId, userId, startTime, endTime := Int(row.id), Int(row.owner), Str(row.startTime), Str(row.endTime);
      description, createdAt, updatedAt := Str(row.description), Str(row.createdAt), Str(row.updatedAt);
    }

    /**
      `update`: sanitises the three text fields, log_id and user_id in place and
      writes the four columns into the row with that key AND that owner only.
    */
    method Update(lib: Library)
      requires db.Valid()
      modifies this, db
      ensures db.Valid()
      ensures startTime == Str(lib.sanitize(Text(old(startTime))))
      ensures endTime == Str(lib.sanitize(Text(old(endTime))))
      ensures description == Str(lib.sanitize(Text(old(description))))
      ensures logId == Str(lib.sanitize(Text(old(logId))))
      ensures userId == Str(lib.sanitize(Text(old(userId))))
      ensures isNighttime == old(isNighttime) && createdAt == old(createdAt) && updatedAt == old(updatedAt)
      ensures db.logs == SetLogFields(old(db.logs), logId, userId, startTime.s, endTime.s,
                                      description.s, Truthy(isNighttime))
      ensures db.users == old(db.users) && db.nextUserId == old(db.nextUserId) && db.nextLogId == old(db.nextLogId)
    {
      startTime := Str(lib.sanitize(Text(startTime)));
      endTime := Str(lib.sanitize(Text(endTime)));
      description := Str(lib.sanitize(Text(description)));
      logId := Str(lib.sanitize(Text(logId)));
      userId := Str(lib.sanitize(Text(userId)));
      db.ReplaceLogs(SetLogFields(db.logs, logId, userId, startTime.s, endTime.s, description.s, Truthy(isNighttime)));
    }

    /** `delete`: sanitises log_id and user_id in place and removes the row with that key AND owner. */
    method Delete(lib: Library)
      requires db.Valid()
      modifies this, db
      ensures db.Valid()
      ensures logId == Str(lib.sanitize(Text(old(logId))))
      ensures userId == Str(lib.sanitize(Text(old(userId))))
      ensures startTime == old(startTime) && endTime == old(endTime) && description == old(description)
      ensures isNighttime == old(isNighttime) && createdAt == old(createdAt) && updatedAt == old(updatedAt)
      ensures db.logs == WithoutLog(old(db.logs), logId, userId)
      ensures db.users == old(db.users) && db.nextUserId == old(db.nextUserId) && db.nextLogId == old(db.nextLogId)
    {
      var lid := Str(lib.sanitize(Text(logId)));
      var uid := Str(lib.sanitize(Text(userId)));
      logId, userId := lid, uid;
      FilterKeepsDistinct(db.logs, (x: LogRow) => !KeyAndOwner(lid, uid, x), LogKey);
      db.logs := WithoutLog(db.logs, lid, uid);
    }

    /** `getByUserId`. */
    function GetByUserId(lib: Library, p: Value, limit: int, offset: int): Option<seq<LogRow>>
      reads db
    {
      ListByOwner(db.logs, lib, p, limit, offset)
    }

    /** `getByDateRange`. */
    function GetByDateRange(lib: Library, p: Value, startDate: string, endDate: string): seq<LogRow>
      reads db
    {
      RangeByOwner(db.logs, lib, p, startDate, endDate)
    }

    /** `getTotalDrivingTime`. */
    function GetTotalDrivingTime(lib: Library, p: Value): int
      reads db
    {
      TotalMinutes(db.logs, lib, p)
    }

    /** `countByUserId`. */
    function CountByUserId(p: Value): nat
      reads db
    {
      CountOwned(db.logs, p)
    }
  }

  /**
    The `getByUserId` query: that owner's rows, latest start first, `offset`
    skipped and at most `limit` returned. A negative limit or offset makes the
    statement fail.
  */
  function ListByOwner(rows: seq<LogRow>, lib: Library, p: Value, limit: int, offset: int): (r: Option<seq<LogRow>>)
    ensures r.Some? <==> limit >= 0 && offset >= 0
    ensures r.Some? ==> |r.value| <= limit && Descending(r.value, lib.toDatetime)
    ensures r.Some? ==> forall i :: 0 <= i < |r.value| ==> r.value[i] in rows && IdMatches(p, r.value[i].owner)
    ensures r.Some? ==> var all := SortDesc(OwnedBy(rows, p), lib.toDatetime);
                        forall i :: 0 <= i < |r.value| ==> offset + i < |all| && r.value[i] == all[offset + i]
    ensures r.Some? ==> var n := |OwnedBy(rows, p)|;
                        |r.value| == if offset >= n then 0 else if offset + limit <= n then limit else n - offset
  {
    if limit < 0 || offset < 0 then None
    else
      var all := SortDesc(OwnedBy(rows, p), lib.toDatetime);
      WindowKeepsOrder(all, offset, limit, lib.toDatetime);
      var w := Window(all, offset, limit);
      SortedWindowOwned(rows, p, offset, limit, lib.toDatetime, w);
      Some(w)
  }

  /**
    The `getByDateRange` query: that owner's rows whose start time lies between
    the two dates, both ends included, latest first; exactly those rows, each once.
  */
  function RangeByOwner(rows: seq<LogRow>, lib: Library, p: Value, startDate: string, endDate: string): (r: seq<LogRow>)
    ensures Descending(r, lib.toDatetime)
    ensures multiset(r) == multiset(OwnedInRange(rows, p, lib.toDatetime(startDate), lib.toDatetime(endDate), lib.toDatetime))
    ensures forall i :: 0 <= i < |r| ==>
              r[i] in rows && IdMatches(p, r[i].owner) &&
              lib.toDatetime(startDate) <= lib.toDatetime(r[i].startTime) <= lib.toDatetime(endDate)
    ensures forall j :: 0 <= j < |rows| && IdMatches(p, rows[j].owner) &&
              lib.toDatetime(startDate) <= lib.toDatetime(rows[j].startTime) <= lib.toDatetime(endDate)
              ==> rows[j] in r
  {
    SortedRange(rows, p, lib.toDatetime(startDate), lib.toDatetime(endDate), lib.toDatetime);
    SortDesc(OwnedInRange(rows, p, lib.toDatetime(startDate), lib.toDatetime(endDate), lib.toDatetime), lib.toDatetime)
  }

  /** The `getTotalDrivingTime` query: the sum of whole minutes over that owner's rows. */
  function TotalMinutes(rows: seq<LogRow>, lib: Library, p: Value): (t: int)
    ensures (forall j :: 0 <= j < |rows| ==> !IdMatches(p, rows[j].owner)) ==> t == 0
    ensures (forall j :: 0 <= j < |rows| ==> lib.toDatetime(rows[j].startTime) <= lib.toDatetime(rows[j].endTime))
            ==> t >= 0
  {
    OwnedByNonEmpty(rows, p);
    SumMinutesNonNegativeOwned(rows, p, lib.toDatetime);
    SumMinutes(OwnedBy(rows, p), lib.toDatetime)
  }

  /** The `countByUserId` query: the number of that owner's rows. */
  function CountOwned(rows: seq<LogRow>, p: Value): (n: nat)
    ensures n <= |rows|
  {
    |OwnedBy(rows, p)|
  }

  lemma SortedWindowOwned(rows: seq<LogRow>, p: Value, offset: nat, limit: nat, key: string -> int, w: seq<LogRow>)
    requires w == Window(SortDesc(OwnedBy(rows, p), key), offset, limit)
    ensures forall i :: 0 <= i < |w| ==> w[i] in rows && IdMatches(p, w[i].owner)
  {
    var owned := OwnedBy(rows, p);
    var all := SortDesc(owned, key);
    forall i | 0 <= i < |w| ensures w[i] in rows && IdMatches(p, w[i].owner) {
      assert w[i] == all[offset + i];
      assert w[i] in multiset(owned);
    }
  }

  lemma SortedRange(rows: seq<LogRow>, p: Value, low: int, high: int, key: string -> int)
    ensures var r := SortDesc(OwnedInRange(rows, p, low, high, key), key);
            (forall i :: 0 <= i < |r| ==> r[i] in rows && IdMatches(p, r[i].owner) && low <= key(r[i].startTime) <= high) &&
            (forall j :: 0 <= j < |rows| && IdMatches(p, rows[j].owner) && low <= key(rows[j].startTime) <= high ==> rows[j] in r)
  {
    var matching := OwnedInRange(rows, p, low, high, key);
    var r := SortDesc(matching, key);
    forall i | 0 <= i < |r|
      ensures r[i] in rows && IdMatches(p, r[i].owner) && low <= key(r[i].startTime) <= high
    {
      assert r[i] in multiset(matching);
    }
    forall j | 0 <= j < |rows| && IdMatches(p, rows[j].owner) && low <= key(rows[j].startTime) <= high
      ensures rows[j] in r
    {
      assert rows[j] in multiset(r);
    }
  }

  lemma OwnedByNonEmpty(rows: seq<LogRow>, p: Value)
    ensures OwnedBy(rows, p) != [] ==> exists j :: 0 <= j < |rows| && IdMatches(p, rows[j].owner)
  {
    var owned := OwnedBy(rows, p);
    if owned != [] {
      assert owned[0] in rows;
    }
  }

  lemma SumMinutesNonNegativeOwned(rows: seq<LogRow>, p: Value, key: string -> int)
    ensures (forall j :: 0 <= j < |rows| ==> key(rows[j].startTime) <= key(rows[j].endTime))
            ==> SumMinutes(OwnedBy(rows, p), key) >= 0
  {
    if forall j :: 0 <= j < |rows| ==> key(rows[j].startTime) <= key(rows[j].endTime) {
      var owned := OwnedBy(rows, p);
      forall i | 0 <= i < |owned| ensures key(owned[i].startTime) <= key(owned[i].endTime) {
        assert owned[i] in rows;
      }
      SumMinutesNonNegative(owned, key);
    }
  }

  /**
    The count agrees with the list: with offset 0 and a limit of at least the
    count, `getByUserId` returns every one of that owner's rows.
  */
  lemma CountMatchesList(rows: seq<LogRow>, lib: Library, p: Value, limit: int)
    requires limit >= CountOwned(rows, p)
    ensures ListByOwner(rows, lib, p, limit, 0).Some?
    ensures |ListByOwner(rows, lib, p, limit, 0).value| == CountOwned(rows, p)
    ensures multiset(ListByOwner(rows, lib, p, limit, 0).value) == multiset(OwnedBy(rows, p))
  {
    var all := SortDesc(OwnedBy(rows, p), lib.toDatetime);
    assert Window(all, 0, limit) == all;
  }

  /** A row inserted for another owner changes neither this owner's count nor total. */
  lemma OtherOwnerInsertInvisible(rows: seq<LogRow>, row: LogRow, p: Value, lib: Library)
    requires !IdMatches(p, row.owner)
    ensures OwnedBy(rows + [row], p) == OwnedBy(rows, p)
    ensures CountOwned(rows + [row], p) == CountOwned(rows, p)
    ensures TotalMinutes(rows + [row], lib, p) == TotalMinutes(rows, lib, p)
  {
    OwnedByAppend(rows, [row], p);
    assert OwnedBy([row], p) == [];
  }

  /** A row inserted for this owner is counted once more and adds its minutes to the total. */
  lemma OwnInsertCounted(rows: seq<LogRow>, row: LogRow, p: Value, lib: Library)
    requires IdMatches(p, row.owner)
    ensures OwnedBy(rows + [row], p) == OwnedBy(rows, p) + [row]
    ensures CountOwned(rows + [row], p) == CountOwned(rows, p) + 1
    ensures TotalMinutes(rows + [row], lib, p)
            == TotalMinutes(rows, lib, p) + MinutesBetween(lib.toDatetime(row.startTime), lib.toDatetime(row.endTime))
  {
    var key := lib.toDatetime;
    OwnedByAppend(rows, [row], p);
    assert [row][1..] == [];
    assert OwnedBy([row], p) == [row];
    SumMinutesAppend(OwnedBy(rows, p), [row], key);
    assert [row][1..] == [];
  }

  lemma OwnedByAppend(a: seq<LogRow>, b: seq<LogRow>, p: Value)
    ensures OwnedBy(a + b, p) == OwnedBy(a, p) + OwnedBy(b, p)
  {
    FilterAppend(a, b, (x: LogRow) => IdMatches(p, x.owner));
  }

  /**
    An update changes only the four editable columns, and only in a row with
    that key and that owner; with distinct keys, that is at most one row.
  */
  lemma SetLogFieldsTouchesOnlyOwnedKey(rows: seq<LogRow>, lid: Value, uid: Value, start: string, end: string,
                                        description: string, night: bool, i: int, j: int)
    requires DistinctBy(rows, LogKey) && 0 <= i < |rows| && 0 <= j < |rows|
    ensures var r := SetLogFields(rows, lid, uid, start, end, description, night);
            r[i].id == rows[i].id && r[i].owner == rows[i].owner &&
            r[i].createdAt == rows[i].createdAt && r[i].updatedAt == rows[i].updatedAt &&
            (r[i] != rows[i] ==> KeyAndOwner(lid, uid, rows[i])) &&
            (r[i] != rows[i] && r[j] != rows[j] ==> i == j)
  {
    var r := SetLogFields(rows, lid, uid, start, end, description, night);
    if r[i] != rows[i] && r[j] != rows[j] {
      AtMostOne(rows, LogKey, lid, i, j);
    }
  }

  /** The owner a new row receives is the token's user id: sanitising leaves a numeral unchanged. */
  lemma CreatedOwnerIsTokenUser(lib: Library, u: int)
    requires SanitizeKeepsPlainText(lib)
    ensures IntOf(Str(lib.sanitize(Text(Int(u))))) == u
    ensures IntOf(Str(lib.sanitize(Text(Str(IntToString(u)))))) == u
  {
    NumeralIsPlainText(u);
    SqlNumberOfIntText(u);
    assert Pow10(0) == 1;
  }
}
