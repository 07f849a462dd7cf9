/**
  The MySQL schema as the two models use it: the `user` and `driving_log`
  tables as sequences of rows in table order, auto-increment counters for their
  keys, and the way a bound parameter is compared with a column in a `WHERE`
  clause.
*/
module Store {
  import opened Wrappers
  import opened Php

  /** A row of `user`. */
  datatype UserRow = UserRow(id: int, username: string, email: string, passwordHash: string,
                             name: string, birthdate: string, createdAt: string, updatedAt: string)

  /** A row of `driving_log`; `owner` is its `user_id` column. */
  datatype LogRow = LogRow(id: int, owner: int, startTime: string, endTime: string,
                           description: string, isNighttime: bool, createdAt: string, updatedAt: string)

  /**
    The integer a value becomes when it is written to an INT column: MySQL's
    numeric reading of its text. The model only ever inserts an integer or its
    decimal text, which this reads exactly.
  */
  function IntOf(v: Value): int
  {
    match v
    case Null => 0
    case Bool(b) => if b then 1 else 0
    case Int(i) => i
    case Str(s) => Truncate(SqlNumber(s))
  }

  // ---------------------------------------------------------------- numeric reading of text

  /** The decimal `d` is the integer `n`. */
  predicate DecimalIs(d: Decimal, n: int)
  {
    if d.scale >= 0 then d.mantissa * Pow10(d.scale) == n
    else d.mantissa == n * Pow10(-d.scale)
  }

  /** A decimal is at most one integer. */
  lemma DecimalIsUnique(d: Decimal, a: int, b: int)
    requires DecimalIs(d, a) && DecimalIs(d, b)
    ensures a == b
  {
    if d.scale < 0 {
      var q := Pow10(-d.scale);
      assert (a - b) * q == a * q - b * q;
    }
  }

  /** Spaces and tabs, which MySQL skips before a number. */
  function SkipBlanks(s: string): string
  {
    if s != [] && (s[0] == ' ' || s[0] == '\t') then SkipBlanks(s[1..]) else s
  }

  /**
    MySQL's reading of text as a number: blanks, an optional sign, the integer
    digits, an optional `.` and fraction digits, an optional exponent; the rest
    of the text is ignored and no digits at all read as 0.
  */
  function SqlNumber(s: string): Decimal
  {
    SignedNumber(SkipBlanks(s))
  }

  /**
    `col = :p` for an INT column. PDO sends the parameter as text and MySQL
    compares an INT column with text as numbers, so `'1.5'` matches no key and
    `'1e3'` matches key 1000; a `NULL` parameter matches nothing.
  */
  predicate IdMatches(p: Value, col: int)
  {
    p != Null && DecimalIs(SqlNumber(Text(p)), col)
  }

  /** `col = :p` for a text column. */
  predicate TextMatches(p: Value, col: string)
  {
    p != Null && Text(p) == col
  }

  /** A parameter holding an integer, or its decimal text, matches exactly that key. */
  lemma IdMatchesOwnKey(id: int, col: int)
    ensures IdMatches(Int(id), col) <==> id == col
    ensures IdMatches(Str(IntToString(id)), col) <==> id == col
  {
    SqlNumberOfIntText(id);
  }

  /** The decimal text of an integer reads as that integer. */
  lemma SqlNumberOfIntText(i: int)
    ensures SqlNumber(IntToString(i)) == Decimal(i, 0)
  {
    NumberOfIntText(i);
    IntTextStart(i);
  }

  /** Decimal text starts with a digit or a minus sign, so no blank is skipped. */
  lemma IntTextStart(i: int)
    ensures SkipBlanks(IntToString(i)) == IntToString(i)
  {
    var n: nat := if i < 0 then -i else i;
    assert NatToString(n)[0] != ' ' && NatToString(n)[0] != '\t';
    if i < 0 {
      assert IntToString(i)[0] == '-';
    }
  }

  /** `n.0` reads as ten `n` tenths. */
  lemma SqlNumberOfZeroFraction(n: nat)
    ensures SqlNumber(NatToString(n) + ".0") == Decimal(10 * n, -1)
  {
    NumberOfZeroFraction(n);
    assert (NatToString(n) + ".0")[0] == NatToString(n)[0];
  }

  /** `n.f`, for a single fraction digit `f`, reads as `10 n + f` tenths. */
  lemma SqlNumberOfFraction(n: nat, f: char)
    requires IsDigit(f)
    ensures SqlNumber(NatToString(n) + "." + [f]) == Decimal(10 * n + (f as int - '0' as int), -1)
  {
    NumberOfFraction(n, f);
    assert (NatToString(n) + "." + [f])[0] == NatToString(n)[0];
  }

  /** `nEe`, for digit strings `n` and `e`, reads as `n` times ten to the `e`. */
  lemma SqlNumberOfExponent(n: nat, e: nat)
    ensures SqlNumber(NatToString(n) + "e" + NatToString(e)) == Decimal(n, e)
  {
    NumberOfExponent(n, e);
    assert (NatToString(n) + "e" + NatToString(e))[0] == NatToString(n)[0];
  }

  /** An id with a non-zero fraction, such as `1.5`, matches no key. */
  lemma FractionMatchesNoKey(n: nat, f: char, col: int)
    requires '1' <= f <= '9'
    ensures !IdMatches(Str(NatToString(n) + "." + [f]), col)
  {
    SqlNumberOfFraction(n, f);
    TenthsNotInteger(n, f as int - '0' as int, col);
  }

  /** `10 q + k` tenths, for a digit `k` other than 0, is no integer. */
  lemma TenthsNotInteger(q: int, k: int, col: int)
    requires 1 <= k <= 9
    ensures !DecimalIs(Decimal(10 * q + k, -1), col)
  {
    assert Pow10(1) == 10;
  }

  /** An id `n.0` matches exactly key `n`. */
  lemma ZeroFractionMatchesKey(n: nat, col: int)
    ensures IdMatches(Str(NatToString(n) + ".0"), col) <==> col == n
  {
    SqlNumberOfZeroFraction(n);
  }

  /** An id with an exponent, such as `1e3`, matches the key it denotes. */
  lemma ExponentMatchesPower(n: nat, e: nat, col: int)
    ensures IdMatches(Str(NatToString(n) + "e" + NatToString(e)), col) <==> col == n * Pow10(e)
  {
    SqlNumberOfExponent(n, e);
  }

  function UserKey(row: UserRow): int { row.id }

  function LogKey(row: LogRow): int { row.id }

  /** No two rows share a primary key. */
  predicate DistinctBy<T>(rows: seq<T>, key: T -> int)
  {
    forall i, j :: 0 <= i < j < |rows| ==> key(rows[i]) != key(rows[j])
  }

  /** The database: both tables and their AUTO_INCREMENT counters. */
  class Db {
    var users: seq<UserRow>
    var logs: seq<LogRow>
    var nextUserId: int
    var nextLogId: int

    /** Primary keys are distinct, positive and below the next key to be issued. */
    ghost predicate Valid()
      reads this
    {
      1 <= nextUserId && 1 <= nextLogId &&
      DistinctBy(users, UserKey) && DistinctBy(logs, LogKey) &&
      (forall i :: 0 <= i < |users| ==> 1 <= users[i].id < nextUserId) &&
      (forall i :: 0 <= i < |logs| ==> 1 <= logs[i].id < nextLogId)
    }

    constructor ()
      ensures Valid()
      ensures users == [] && logs == [] && nextUserId == 1 && nextLogId == 1
    {
      users := [];
      logs := [];
      nextUserId := 1;
      nextLogId := 1;
    }

    /** `INSERT INTO user`: the row goes last and takes the next AUTO_INCREMENT key. */
    method InsertUser(row: UserRow)
      requires Valid() && row.id == nextUserId
      modifies this
      ensures Valid()
      ensures users == old(users) + [row] && nextUserId == old(nextUserId) + 1
      ensures logs == old(logs) && nextLogId == old(nextLogId)
    {
      AppendUserRow(users, row, nextUserId);
      users, nextUserId := users + [row], nextUserId + 1;
    }

    /** An `UPDATE` of the user table that leaves every key as it was. */
    method ReplaceUsers(rows: seq<UserRow>)
      requires Valid() && |rows| == |users|
      requires forall i :: 0 <= i < |rows| ==> rows[i].id == users[i].id
      modifies this
      ensures Valid()
      ensures users == rows && nextUserId == old(nextUserId)
      ensures logs == old(logs) && nextLogId == old(nextLogId)
    {
      SameKeysDistinct(users, rows, UserKey);
      users := rows;
    }

    /** An `UPDATE` of the log table that leaves every key as it was. */
    method ReplaceLogs(rows: seq<LogRow>)
      requires Valid() && |rows| == |logs|
      requires forall i :: 0 <= i < |rows| ==> rows[i].id == logs[i].id
      modifies this
      ensures Valid()
      ensures logs == rows && nextLogId == old(nextLogId)
      ensures users == old(users) && nextUserId == old(nextUserId)
    {
      SameKeysDistinct(logs, rows, LogKey);
      logs := rows;
    }

    /** `INSERT INTO driving_log`: the row goes last and takes the next AUTO_INCREMENT key. */
    method InsertLog(row: LogRow)
      requires Valid() && row.id == nextLogId
      modifies this
      ensures Valid()
      ensures logs == old(logs) + [row] && nextLogId == old(nextLogId) + 1
      ensures users == old(users) && nextUserId == old(nextUserId)
    {
      AppendLogRow(logs, row, nextLogId);
      logs, nextLogId := logs + [row], nextLogId + 1;
    }
  }

  /** The first row satisfying a `WHERE` clause, as `LIMIT 1` without `ORDER BY` reads it. */
  function FirstWhere<T>(rows: seq<T>, matches: T -> bool): (r: Option<nat>)
    ensures r.Some? ==> r.value < |rows| && matches(rows[r.value])
    ensures r.Some? ==> forall j :: 0 <= j < r.value ==> !matches(rows[j])
    ensures r.None? <==> forall j :: 0 <= j < |rows| ==> !matches(rows[j])
  {
    if rows == [] then None
    else if matches(rows[0]) then Some(0)
    else match FirstWhere(rows[1..], matches)
      case None => None
      case Some(k) => Some(k + 1)
  }

  /** The rows satisfying a `WHERE` clause, in table order. */
  function Filter<T>(rows: seq<T>, keep: T -> bool): (r: seq<T>)
    ensures |r| <= |rows|
    ensures forall j :: 0 <= j < |r| ==> r[j] in rows && keep(r[j])
    ensures forall j :: 0 <= j < |rows| && keep(rows[j]) ==> rows[j] in r
    ensures (forall j :: 0 <= j < |rows| ==> keep(rows[j])) ==> r == rows
  {
    if rows == [] then []
    else
      var rest := Filter(rows[1..], keep);
      assert forall j :: 1 <= j < |rows| ==> rows[j] == rows[1..][j - 1];
      if keep(rows[0]) then
        assert rows == [rows[0]] + rows[1..];
        [rows[0]] + rest
      else rest
  }

  lemma DistinctCons<T>(x: T, rows: seq<T>, key: T -> int)
    requires DistinctBy(rows, key)
    requires forall j :: 0 <= j < |rows| ==> key(rows[j]) != key(x)
    ensures DistinctBy([x] + rows, key)
  {
    var r := [x] + rows;
    forall i, j | 0 <= i < j < |r| ensures key(r[i]) != key(r[j]) {
      assert r[j] == rows[j - 1];
      if i > 0 {
        assert r[i] == rows[i - 1];
      }
    }
  }

  /** Rows with the same keys, position by position, have distinct keys when the old ones did. */
  lemma SameKeysDistinct<T>(before: seq<T>, after: seq<T>, key: T -> int)
    requires DistinctBy(before, key) && |after| == |before|
    requires forall i :: 0 <= i < |after| ==> key(after[i]) == key(before[i])
    ensures DistinctBy(after, key)
  {
    forall i, j | 0 <= i < j < |after| ensures key(after[i]) != key(after[j]) {
      assert key(before[i]) != key(before[j]);
    }
  }

  /** Appending a row whose key no row has keeps primary keys distinct. */
  lemma DistinctSnoc<T>(rows: seq<T>, x: T, key: T -> int)
    requires DistinctBy(rows, key)
    requires forall j :: 0 <= j < |rows| ==> key(rows[j]) != key(x)
    ensures DistinctBy(rows + [x], key)
  {
    var r := rows + [x];
    forall i, j | 0 <= i < j < |r| ensures key(r[i]) != key(r[j]) {
      assert r[i] == rows[i];
      if j < |rows| {
        assert r[j] == rows[j];
      }
    }
  }

  /** An INSERT under the next user key keeps the user table's invariant, one key further on. */
  lemma AppendUserRow(users: seq<UserRow>, row: UserRow, next: int)
    requires DistinctBy(users, UserKey) && (forall i :: 0 <= i < |users| ==> 1 <= users[i].id < next)
    requires 1 <= next && row.id == next
    ensures DistinctBy(users + [row], UserKey)
    ensures forall i :: 0 <= i < |users + [row]| ==> 1 <= (users + [row])[i].id < next + 1
  {
    DistinctSnoc(users, row, UserKey);
  }

  /** An INSERT under the next log key keeps the log table's invariant, one key further on. */
  lemma AppendLogRow(logs: seq<LogRow>, row: LogRow, next: int)
    requires DistinctBy(logs, LogKey) && (forall i :: 0 <= i < |logs| ==> 1 <= logs[i].id < next)
    requires 1 <= next && row.id == next
    ensures DistinctBy(logs + [row], LogKey)
    ensures forall i :: 0 <= i < |logs + [row]| ==> 1 <= (logs + [row])[i].id < next + 1
  {
    DistinctSnoc(logs, row, LogKey);
  }

  lemma DistinctTail<T>(rows: seq<T>, key: T -> int)
    requires rows != [] && DistinctBy(rows, key)
    ensures DistinctBy(rows[1..], key)
    ensures forall j :: 0 <= j < |rows[1..]| ==> key(rows[1..][j]) != key(rows[0])
  {
    var rest := rows[1..];
    forall i, j | 0 <= i < j < |rest| ensures key(rest[i]) != key(rest[j]) {
      assert rest[i] == rows[i + 1] && rest[j] == rows[j + 1];
    }
    forall j | 0 <= j < |rest| ensures key(rest[j]) != key(rows[0]) {
      assert rest[j] == rows[j + 1];
    }
  }

  /** Filtering distributes over concatenation. */
  lemma {:induction false} FilterAppend<T>(a: seq<T>, b: seq<T>, keep: T -> bool)
    ensures Filter(a + b, keep) == Filter(a, keep) + Filter(b, keep)
    decreases |a|
  {
    if a != [] {
      assert (a + b)[0] == a[0] && (a + b)[1..] == a[1..] + b;
      FilterAppend(a[1..], b, keep);
    } else {
      assert a + b == b;
    }
  }

  /** Filtering keeps primary keys distinct. */
  lemma {:induction false} FilterKeepsDistinct<T>(rows: seq<T>, keep: T -> bool, key: T -> int)
    requires DistinctBy(rows, key)
    ensures DistinctBy(Filter(rows, keep), key)
  {
    if rows != [] {
      var rest := rows[1..];
      DistinctTail(rows, key);
      FilterKeepsDistinct(rest, keep, key);
      var f := Filter(rest, keep);
      if keep(rows[0]) {
        forall j | 0 <= j < |f| ensures key(f[j]) != key(rows[0]) {
          assert f[j] in rest;
        }
        DistinctCons(rows[0], f, key);
      }
    }
  }

  /** A key parameter matches at most one row. */
  lemma AtMostOne<T>(rows: seq<T>, key: T -> int, p: Value, i: int, j: int)
    requires DistinctBy(rows, key)
    requires 0 <= i < |rows| && 0 <= j < |rows|
    requires IdMatches(p, key(rows[i])) && IdMatches(p, key(rows[j]))
    ensures i == j
  {
    DecimalIsUnique(SqlNumber(Text(p)), key(rows[i]), key(rows[j]));
  }
}
