/**
  The dashboard's arithmetic (`src/utils/helpers.ts`): the duration of a drive
  as `"{h}h {m}m"`, and the age and days left until the 16th birthday, when a
  learner becomes eligible for a licence.

  Instants are integer milliseconds and calendar dates are (year, month, day)
  triples in a single time zone; a JavaScript integer is rendered with the
  same decimal numeral as `IntToString`.
*/
module Helpers {
  import opened Wrappers
  import opened Strings
  import opened Php

  const MsPerMinute := 60000
  const MsPerDay := 86400000

  // ======================================================== calculateDuration

  /** `Math.round(ms / 60000)`: the nearest whole minute, a half rounded up. */
  function RoundedMinutes(ms: int): (q: int)
    ensures MsPerMinute * q - 30000 <= ms < MsPerMinute * q + 30000
  {
    (ms + 30000) / MsPerMinute
  }

  /** JavaScript's `a % 60`: the remainder of division truncated toward zero. */
  function TruncRem60(a: int): (r: int)
    ensures a >= 0 ==> 0 <= r < 60 && (a - r) % 60 == 0
    ensures a < 0 ==> -60 < r <= 0 && (a - r) % 60 == 0
  {
    if a >= 0 then a % 60 else -((-a) % 60)
  }

  /** `hours = Math.floor(diffMins / 60)` and `minutes = diffMins % 60`. */
  function Split(diffMins: int): (hm: (int, int))
    ensures diffMins >= 0 ==> 0 <= hm.1 < 60 && hm.0 * 60 + hm.1 == diffMins && hm.0 >= 0
    ensures diffMins < 0 ==> hm.0 <= -1 && -60 < hm.1 <= 0
  {
    (diffMins / 60, TruncRem60(diffMins))
  }

  /** `calculateDuration`, for the two instants in milliseconds. */
  function Duration(startMs: int, endMs: int): string
  {
    MinutesText(RoundedMinutes(endMs - startMs))
  }

  /** The text for a whole number of minutes, split into hours and the rest. */
  function MinutesText(diffMins: int): string
  {
    var (hours, minutes) := Split(diffMins);
    DurationText(hours, minutes)
  }

  /** The text `calculateDuration` builds: the hours part only when there are positive hours. */
  function DurationText(hours: int, minutes: int): string
  {
    if hours > 0 then IntToString(hours) + "h " + IntToString(minutes) + "m"
    else IntToString(minutes) + "m"
  }

  /** A non-empty run of decimal digits. */
  predicate IsNumeral(s: string)
  {
    s != [] && AllDigits(s)
  }

  /** A decimal numeral's value. */
  function ReadNumeral(p: string): (r: Option<nat>)
  {
    if IsNumeral(p) then Some(DigitsValue(p)) else None
  }

  /** The `{h}h` piece's hours. */
  function ReadHours(p: string): (r: Option<nat>)
  {
    if p != [] && p[|p| - 1] == 'h' then ReadNumeral(p[..|p| - 1]) else None
  }

  /**
    Reading a duration text back as minutes: `"{h}h {m}m"` or `"{m}m"` with
    decimal numerals; `None` for any other text.
  */
  function ReadDuration(text: string): Option<int>
  {
    if text == [] || text[|text| - 1] != 'm' then None
    else ReadPieces(Explode(text[..|text| - 1], ' '))
  }

  /** The space-separated pieces before the final `m`. */
  function ReadPieces(parts: seq<string>): Option<int>
  {
    if |parts| == 1 then
      match ReadNumeral(parts[0])
      case None => None
      case Some(m) => Some(m)
    else if |parts| == 2 && ReadHours(parts[0]).Some? && ReadNumeral(parts[1]).Some? then
      Some(60 * ReadHours(parts[0]).value + ReadNumeral(parts[1]).value)
    else None
  }

  lemma NumeralHasNoSpace(n: nat)
    ensures ' ' !in NatToString(n) && 'h' !in NatToString(n) && IsNumeral(NatToString(n))
  {
  }

  lemma ReadNumeralBack(n: nat)
    ensures ReadNumeral(NatToString(n)) == Some(n)
  {
    DigitsValueOfNatToString(n);
  }

  lemma ReadHoursBack(h: nat)
    ensures ReadHours(NatToString(h) + "h") == Some(h)
  {
    var a := NatToString(h) + "h";
    assert a[..|a| - 1] == NatToString(h);
    ReadNumeralBack(h);
  }

  /** What a numeral gives the reader: no space, its value, and its value as hours. */
  lemma NumeralReadsBack(n: nat)
    ensures ' ' !in NatToString(n)
    ensures ReadNumeral(NatToString(n)) == Some(n) && ReadHours(NatToString(n) + "h") == Some(n)
  {
    NumeralHasNoSpace(n);
    ReadNumeralBack(n);
    ReadHoursBack(n);
  }

  /** Two pieces without spaces, joined by `"h "`, explode back into the `h`-ended first piece and the second. */
  lemma HoursPieces(a: string, b: string)
    requires ' ' !in a && ' ' !in b
    ensures Explode(a + "h " + b, ' ') == [a + "h", b]
  {
    var ah := a + "h";
    NoSpaceWithH(a);
    HoursJoin(a, b);
    ExplodeFirst(ah, ' ', b);
    ExplodeWithout(b, ' ');
  }

  lemma NoSpaceWithH(a: string)
    requires ' ' !in a
    ensures ' ' !in a + "h"
  {
  }

  lemma HoursJoin(a: string, b: string)
    ensures a + "h " + b == (a + "h") + [' '] + b
  {
  }

  lemma ReadsBackHoursText(text: string, a: string, b: string, h: nat, m: nat, total: int)
    requires ' ' !in a && ' ' !in b
    requires ReadHours(a + "h") == Some(h) && ReadNumeral(b) == Some(m)
    requires text == a + "h " + b + "m" && total == 60 * h + m
    ensures ReadDuration(text) == Some(total)
  {
    DropFinal(a + "h " + b, 'm');
    HoursPieces(a, b);
  }

  lemma DropFinal(x: string, c: char)
    ensures (x + [c])[..|x + [c]| - 1] == x && (x + [c])[|x + [c]| - 1] == c
  {
  }

  lemma ReadsBackMinutesText(text: string, b: string, m: nat, total: int)
    requires ' ' !in b && ReadNumeral(b) == Some(m)
    requires text == b + "m" && total == m
    ensures ReadDuration(text) == Some(total)
  {
    DropFinal(b, 'm');
    ExplodeWithout(b, ' ');
  }

  /**
    For an end not before the start (to the nearest minute), the text names
    exactly the rounded number of minutes: reading it back gives that count.
  */
  lemma DurationReadsBack(startMs: int, endMs: int)
    requires RoundedMinutes(endMs - startMs) >= 0
    ensures ReadDuration(Duration(startMs, endMs)) == Some(RoundedMinutes(endMs - startMs))
  {
    MinutesTextReadsBack(RoundedMinutes(endMs - startMs));
  }

  lemma MinutesTextReadsBack(diffMins: int)
    requires diffMins >= 0
    ensures ReadDuration(MinutesText(diffMins)) == Some(diffMins)
  {
    var hm := Split(diffMins);
    SplitTextReadsBack(MinutesText(diffMins), hm.0, hm.1, diffMins);
  }

  /** The text of `hours` and `minutes`, when both are non-negative, reads back as `60 * hours + minutes`. */
  lemma SplitTextReadsBack(text: string, hours: int, minutes: int, total: int)
    requires hours >= 0 && 0 <= minutes && total == 60 * hours + minutes
    requires text == DurationText(hours, minutes)
    ensures ReadDuration(text) == Some(total)
  {
    var h: nat := hours;
    var m: nat := minutes;
    assert IntToString(m) == NatToString(m);
    NumeralReadsBack(m);
    if hours > 0 {
      assert IntToString(h) == NatToString(h);
      NumeralReadsBack(h);
      ReadsBackHoursText(text, NatToString(h), NatToString(m), h, m, total);
    } else {
      ReadsBackMinutesText(text, NatToString(m), m, total);
    }
  }

  /** Under an hour, or for any negative duration, only the minutes part is shown. */
  lemma MinutesOnlyBelowAnHour(startMs: int, endMs: int)
    requires RoundedMinutes(endMs - startMs) < 60
    ensures Duration(startMs, endMs) == IntToString(TruncRem60(RoundedMinutes(endMs - startMs))) + "m"
  {
  }

  /**
    A negative duration loses its hours: an end 61 minutes before the start
    shows as `-1m`.
  */
  lemma NegativeHoursDropped()
    ensures Duration(61 * MsPerMinute, 0) == "-1m"
  {
    assert RoundedMinutes(-61 * MsPerMinute) == -61;
    assert NatToString(1) == "1";
  }

  /** Ninety minutes show as `1h 30m`; 29.999 seconds round down to `0m`, 30 seconds up to `1m`. */
  lemma DurationExamples()
    ensures Duration(0, 90 * MsPerMinute) == "1h 30m"
    ensures Duration(0, 29999) == "0m"
    ensures Duration(0, 30000) == "1m"
  {
    assert NatToString(30) == NatToString(3) + [DigitChar(0)];
    assert NatToString(1) == "1" && NatToString(3) == "3" && NatToString(0) == "0";
  }

  // ======================================================== calculateLicenseProgress

  /** `getMonth() + 1` */
  type Month = m: int | 1 <= m <= 12 witness 1

  /** A proleptic Gregorian date; the day may run past the month's end, as a JavaScript `Date` accepts. */
  datatype CivilDate = CivilDate(year: int, month: Month, day: int)

  /** A local date and the milliseconds since its midnight. */
  datatype Moment = Moment(date: CivilDate, clock: int)

  predicate IsLeapYear(y: int)
  {
    y % 4 == 0 && (y % 100 != 0 || y % 400 == 0)
  }

  function DaysInMonth(y: int, m: Month): int
  {
    if m == 2 then (if IsLeapYear(y) then 29 else 28)
    else if m == 4 || m == 6 || m == 9 || m == 11 then 30
    else 31
  }

  predicate ValidDate(d: CivilDate)
  {
    1 <= d.day <= DaysInMonth(d.year, d.month)
  }

  function DaysBeforeMonth(y: int, m: Month): int
  {
    var leap := if IsLeapYear(y) && m > 2 then 1 else 0;
    leap + (if m == 1 then 0 else if m == 2 then 31 else if m == 3 then 59 else if m == 4 then 90
            else if m == 5 then 120 else if m == 6 then 151 else if m == 7 then 181 else if m == 8 then 212
            else if m == 9 then 243 else if m == 10 then 273 else if m == 11 then 304 else 334)
  }

  /** Days from 1 January of year 1 to 1 January of year `y`. */
  function DaysBeforeYear(y: int): int
  {
    365 * (y - 1) + (y - 1) / 4 - (y - 1) / 100 + (y - 1) / 400
  }

  /** The day's number, counted from 1 January of year 1; a day past the month's end rolls over. */
  function DayNumber(d: CivilDate): int
  {
    DaysBeforeYear(d.year) + DaysBeforeMonth(d.year, d.month) + d.day - 1
  }

  /** `getTime()` of a moment, on the same day count. */
  function TimeValue(t: Moment): int
  {
    DayNumber(t.date) * MsPerDay + t.clock
  }

  /** Day-by-day order on dates. */
  predicate Before(a: CivilDate, b: CivilDate)
  {
    a.year < b.year || (a.year == b.year && (a.month < b.month || (a.month == b.month && a.day < b.day)))
  }

  /** `Math.ceil(ms / 86400000)`. */
  function CeilDays(ms: int): (q: int)
    ensures MsPerDay * (q - 1) < ms <= MsPerDay * q
  {
    -((-ms) / MsPerDay)
  }

  /** The age by the calendar: the year difference, less one before this year's birthday. */
  function Age(birth: CivilDate, today: CivilDate): int
  {
    var age := today.year - birth.year;
    var monthDiff := today.month - birth.month;
    if monthDiff < 0 || (monthDiff == 0 && today.day < birth.day) then age - 1 else age
  }

  /** `setFullYear(getFullYear() + n)`: the same month, day and time, `n` years on. */
  function YearsLater(t: Moment, n: int): Moment
  {
    Moment(CivilDate(t.date.year + n, t.date.month, t.date.day), t.clock)
  }

  datatype LicenseProgress = LicenseProgress(isEligible: bool, daysRemaining: int, age: int)

  const LicenseAge := 16

  /**
    `calculateLicenseProgress`: `parse` stands for `new Date(birthdate)` and
    `today` for `new Date()`.
  */
  function CalculateLicenseProgress(birthdate: Option<string>, parse: string -> Moment, today: Moment)
    : (r: Option<LicenseProgress>)
    ensures r.None? <==> birthdate.None? || birthdate.value == ""
    ensures r.Some? ==> r.value.age == Age(parse(birthdate.value).date, today.date)
    ensures r.Some? ==> (r.value.isEligible <==> r.value.age >= LicenseAge)
    ensures r.Some? && r.value.isEligible ==> r.value.daysRemaining == 0
  {
    if birthdate.None? || birthdate.value == "" then None
    else
      var birth := parse(birthdate.value);
      var sixteenth := YearsLater(birth, LicenseAge);
      var age := Age(birth.date, today.date);
      if age >= LicenseAge then Some(LicenseProgress(true, 0, age))
      else Some(LicenseProgress(false, CeilDays(TimeValue(sixteenth) - TimeValue(today)), age))
  }

  // ======================================================== calendar properties

  /** One more step of a floor division by a positive constant. */
  lemma FloorStep(y: int)
    ensures y / 4 - (y - 1) / 4 == (if y % 4 == 0 then 1 else 0)
    ensures y / 100 - (y - 1) / 100 == (if y % 100 == 0 then 1 else 0)
    ensures y / 400 - (y - 1) / 400 == (if y % 400 == 0 then 1 else 0)
  {
  }

  /** A year has 366 days when it is a leap year and 365 otherwise. */
  lemma YearLength(y: int)
    ensures DaysBeforeYear(y + 1) - DaysBeforeYear(y) == if IsLeapYear(y) then 366 else 365
  {
    FloorStep(y);
  }

  lemma {:induction false} YearsIncrease(y1: int, y2: int)
    requires y1 < y2
    ensures DaysBeforeYear(y1) + 365 <= DaysBeforeYear(y2)
    decreases y2 - y1
  {
    YearLength(y1);
    if y1 + 1 < y2 {
      YearsIncrease(y1 + 1, y2);
    }
  }

  /** The months of a year fill it exactly, in order. */
  lemma MonthsFill(y: int, m: Month)
    ensures m < 12 ==> DaysBeforeMonth(y, m) + DaysInMonth(y, m) == DaysBeforeMonth(y, m + 1)
    ensures m == 12 ==> DaysBeforeMonth(y, m) + DaysInMonth(y, m) == DaysBeforeYear(y + 1) - DaysBeforeYear(y)
  {
    YearLength(y);
  }

  lemma MonthsIncrease(y: int, m1: Month, m2: Month)
    requires m1 < m2
    ensures DaysBeforeMonth(y, m1) + DaysInMonth(y, m1) <= DaysBeforeMonth(y, m2)
  {
  }

  /** The day count respects the calendar order, from a valid date to any later one. */
  lemma DayNumberOrder(a: CivilDate, b: CivilDate)
    requires ValidDate(a) && b.day >= 1 && Before(a, b)
    ensures DayNumber(a) < DayNumber(b)
  {
    MonthsFill(a.year, a.month);
    if a.year < b.year {
      YearLength(a.year);
      if a.month < 12 {
        MonthsIncrease(a.year, a.month, 12);
        MonthsFill(a.year, 12);
      }
      if a.year + 1 < b.year {
        YearsIncrease(a.year + 1, b.year);
      }
    } else if a.month < b.month {
      MonthsIncrease(a.year, a.month, b.month);
    }
  }

  /** The 29th of February of a common year is the 1st of March, as `setFullYear` rolls it over. */
  lemma LeapDayRollsOver(y: int)
    requires !IsLeapYear(y)
    ensures DayNumber(CivilDate(y, 2, 29)) == DayNumber(CivilDate(y, 3, 1))
  {
  }

  // ======================================================== progress properties

  /** The age is below `n` exactly on the days before the `n`-th birthday. */
  lemma AgeBelowIffBefore(birth: CivilDate, today: CivilDate, n: int)
    ensures Age(birth, today) < n <==> Before(today, CivilDate(birth.year + n, birth.month, birth.day))
  {
  }

  /**
    Eligibility starts on the 16th birthday: before it the progress is not
    eligible, and from it on it is, with no days remaining.
  */
  lemma EligibleFromSixteenthBirthday(birthdate: string, parse: string -> Moment, today: Moment)
    requires birthdate != ""
    ensures var r := CalculateLicenseProgress(Some(birthdate), parse, today).value;
            var sixteenth := YearsLater(parse(birthdate), LicenseAge).date;
            (r.isEligible <==> !Before(today.date, sixteenth)) &&
            (r.isEligible ==> r.daysRemaining == 0)
  {
    AgeBelowIffBefore(parse(birthdate).date, today.date, LicenseAge);
  }

  /**
    Before the 16th birthday, for a valid birth date and today's valid date, at
    least one day remains: the whole days between the two dates, one more when
    the birth time of day is later than the current one.
  */
  lemma DaysRemainingUntilBirthday(birthdate: string, parse: string -> Moment, today: Moment)
    requires birthdate != ""
    requires ValidDate(parse(birthdate).date) && ValidDate(today.date)
    requires 0 <= parse(birthdate).clock < MsPerDay && 0 <= today.clock < MsPerDay
    requires !CalculateLicenseProgress(Some(birthdate), parse, today).value.isEligible
    ensures var r := CalculateLicenseProgress(Some(birthdate), parse, today).value;
            var birth := parse(birthdate);
            var days := DayNumber(YearsLater(birth, LicenseAge).date) - DayNumber(today.date);
            days >= 1 &&
            r.daysRemaining == (if birth.clock > today.clock then days + 1 else days)
  {
    var birth := parse(birthdate);
    var sixteenth := YearsLater(birth, LicenseAge);
    AgeBelowIffBefore(birth.date, today.date, LicenseAge);
    DayNumberOrder(today.date, sixteenth.date);
    var days := DayNumber(sixteenth.date) - DayNumber(today.date);
    var diff := TimeValue(sixteenth) - TimeValue(today);
    assert diff == days * MsPerDay + birth.clock - today.clock;
    var q := CeilDays(diff);
    if birth.clock > today.clock {
      assert MsPerDay * days < diff <= MsPerDay * (days + 1);
    } else {
      assert MsPerDay * (days - 1) < diff <= MsPerDay * days;
    }
  }
}
