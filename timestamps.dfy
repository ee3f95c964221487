/** The timestamps in report file names (course_reports.py, parse_filename and
    process_courses_data): `YYYY-MM-DD-HHMM` in UTC, read as
    `datetime.strptime(text, "%Y-%m-%d-%H%M")` does, shown as
    `"%Y-%m-%d %H:%M"`, and aged in whole days. */
module Timestamps {
  import opened Common

  /** A UTC date and time to the minute. */
  datatype DateTime = DateTime(year: int, month: int, day: int, hour: int, minute: int)

  predicate IsLeap(y: int) {
    y % 4 == 0 && (y % 100 != 0 || y % 400 == 0)
  }

  function DaysInMonth(y: int, m: int): (n: int)
    requires 1 <= m <= 12
    ensures 28 <= n <= 31
  {
    if m == 2 then (if IsLeap(y) then 29 else 28)
    else if m == 4 || m == 6 || m == 9 || m == 11 then 30
    else 31
  }

  function DaysInYear(y: int): int {
    if IsLeap(y) then 366 else 365
  }

  /** The values `datetime` accepts: years 1 to 9999 of the proleptic
      Gregorian calendar. */
  predicate ValidDate(dt: DateTime) {
    && 1 <= dt.year <= 9999
    && 1 <= dt.month <= 12
    && 1 <= dt.day <= DaysInMonth(dt.year, dt.month)
    && 0 <= dt.hour < 24
    && 0 <= dt.minute < 60
  }

  predicate IsDigit(c: char) {
    '0' <= c <= '9'
  }

  predicate AllDigits(s: string) {
    forall k :: 0 <= k < |s| ==> IsDigit(s[k])
  }

  /** The decimal value of a digit string. */
  function Number(s: string): (n: nat)
    requires AllDigits(s)
    decreases |s|
  {
    if s == [] then 0 else Number(s[..|s| - 1]) * 10 + (s[|s| - 1] as int - '0' as int)
  }

  function Pow10(w: nat): (p: nat)
    ensures p >= 1
  {
    if w == 0 then 1 else 10 * Pow10(w - 1)
  }

  /** `n` written with exactly `w` digits, zero-padded. */
  function Digits(n: nat, w: nat): (s: string)
    ensures |s| == w && AllDigits(s)
    decreases w
  {
    if w == 0 then [] else Digits(n / 10, w - 1) + [('0' as int + n % 10) as char]
  }

  /** Reading back a padded number gives the number, as long as it fits. */
  lemma {:induction false} NumberOfDigits(n: nat, w: nat)
    requires n < Pow10(w)
    ensures Number(Digits(n, w)) == n
    decreases w
  {
    if w > 0 {
      var s := Digits(n, w);
      assert s[..|s| - 1] == Digits(n / 10, w - 1);
      NumberOfDigits(n / 10, w - 1);
    }
  }

  /** Writing a digit string's value back with its own width restores it. */
  lemma {:induction false} DigitsOfNumber(s: string)
    requires AllDigits(s)
    ensures Number(s) < Pow10(|s|)
    ensures Digits(Number(s), |s|) == s
    decreases |s|
  {
    if s != [] {
      var init := s[..|s| - 1];
      DigitsOfNumber(init);
      var d := s[|s| - 1] as int - '0' as int;
      assert (Number(init) * 10 + d) / 10 == Number(init);
      assert (Number(init) * 10 + d) % 10 == d;
      assert s == init + [s[|s| - 1]];
    }
  }

  /** The shape the file-name pattern demands: four, two, two and four ASCII
      digits separated by dashes. */
  predicate StampShaped(s: string) {
    && |s| == 15
    && s[4] == '-' && s[7] == '-' && s[10] == '-'
    && AllDigits(s[..4]) && AllDigits(s[5..7]) && AllDigits(s[8..10]) && AllDigits(s[11..15])
  }

  /** The fields of a shaped stamp, before any range check. */
  function StampFields(s: string): DateTime
    requires StampShaped(s)
  {
    assert AllDigits(s[11..13]) && AllDigits(s[13..15]) by {
      assert s[11..13] == s[11..15][..2] && s[13..15] == s[11..15][2..];
    }
    DateTime(Number(s[..4]), Number(s[5..7]), Number(s[8..10]), Number(s[11..13]), Number(s[13..15]))
  }

  /** `datetime.strptime(s, "%Y-%m-%d-%H%M")`: `None` where it raises, which
      for a shaped stamp is exactly an out-of-range field or a day the month
      does not have. */
  function ParseStamp(s: string): (r: Option<DateTime>)
    ensures r.Some? ==> ValidDate(r.value)
    ensures r.Some? <==> StampShaped(s) && ValidDate(StampFields(s))
  {
    if StampShaped(s) && ValidDate(StampFields(s)) then Some(StampFields(s)) else None
  }

  /** The stamp as the report files are named. */
  function FormatStamp(dt: DateTime): (s: string)
    requires ValidDate(dt)
    ensures |s| == 15
  {
    Digits(dt.year, 4) + "-" + Digits(dt.month, 2) + "-" + Digits(dt.day, 2) + "-"
      + Digits(dt.hour, 2) + Digits(dt.minute, 2)
  }

  /** `date.strftime("%Y-%m-%d %H:%M")`. */
  function DisplayStamp(dt: DateTime): (s: string)
    requires ValidDate(dt)
    ensures |s| == 16 && s[4] == '-' && s[10] == ' ' && s[13] == ':'
  {
    Digits(dt.year, 4) + "-" + Digits(dt.month, 2) + "-" + Digits(dt.day, 2) + " "
      + Digits(dt.hour, 2) + ":" + Digits(dt.minute, 2)
  }

  lemma FormatParts(dt: DateTime)
    requires ValidDate(dt)
    ensures var s := FormatStamp(dt);
      && s[..4] == Digits(dt.year, 4) && s[4] == '-'
      && s[5..7] == Digits(dt.month, 2) && s[7] == '-'
      && s[8..10] == Digits(dt.day, 2) && s[10] == '-'
      && s[11..13] == Digits(dt.hour, 2) && s[13..15] == Digits(dt.minute, 2)
      && s[11..15] == Digits(dt.hour, 2) + Digits(dt.minute, 2)
  {
  }

  /** A valid time written into a file name is read back unchanged. */
  lemma StampRoundTrip(dt: DateTime)
    requires ValidDate(dt)
    ensures StampShaped(FormatStamp(dt))
    ensures ParseStamp(FormatStamp(dt)) == Some(dt)
  {
    var s := FormatStamp(dt);
    FormatParts(dt);
    assert Pow10(2) == 100 && Pow10(4) == 10000;
    NumberOfDigits(dt.year, 4);
    NumberOfDigits(dt.month, 2);
    NumberOfDigits(dt.day, 2);
    NumberOfDigits(dt.hour, 2);
    NumberOfDigits(dt.minute, 2);
    assert AllDigits(s[11..15]);
  }

  /** And a stamp that parses is the one its time formats to. */
  lemma StampRoundTripBack(s: string)
    requires ParseStamp(s).Some?
    ensures FormatStamp(ParseStamp(s).value) == s
  {
    var dt := StampFields(s);
    assert AllDigits(s[11..13]) && AllDigits(s[13..15]) by {
      assert s[11..13] == s[11..15][..2] && s[13..15] == s[11..15][2..];
    }
    DigitsOfNumber(s[..4]);
    DigitsOfNumber(s[5..7]);
    DigitsOfNumber(s[8..10]);
    DigitsOfNumber(s[11..13]);
    DigitsOfNumber(s[13..15]);
    FormatParts(dt);
    var f := FormatStamp(dt);
    assert forall k :: 0 <= k < 15 ==> f[k] == s[k] by {
      forall k | 0 <= k < 15 ensures f[k] == s[k] {
        if k < 4 { assert f[k] == f[..4][k] && s[k] == s[..4][k]; }
        else if 5 <= k < 7 { assert f[k] == f[5..7][k - 5] && s[k] == s[5..7][k - 5]; }
        else if 8 <= k < 10 { assert f[k] == f[8..10][k - 8] && s[k] == s[8..10][k - 8]; }
        else if 11 <= k < 13 { assert f[k] == f[11..13][k - 11] && s[k] == s[11..13][k - 11]; }
        else if 13 <= k < 15 { assert f[k] == f[13..15][k - 13] && s[k] == s[13..15][k - 13]; }
      }
    }
  }

  /** Days in the years before `y` (Python's `_days_before_year`). */
  function DaysBeforeYear(y: int): int
    requires y >= 1
  {
    var p := y - 1;
    p * 365 + p / 4 - p / 100 + p / 400
  }

  /** Days in the months of year `y` before month `m`. */
  function DaysBeforeMonth(y: int, m: int): (n: int)
    requires 1 <= m <= 12
    ensures n >= 0
    decreases m
  {
    if m == 1 then 0 else DaysBeforeMonth(y, m - 1) + DaysInMonth(y, m - 1)
  }

  /** Seconds from 0001-01-01 00:00 UTC. */
  function EpochSeconds(dt: DateTime): int
    requires ValidDate(dt)
  {
    (((Ordinal(dt) - 1) * 24 + dt.hour) * 60 + dt.minute) * 60
  }

  const SecondsPerDay: int := 86400

  /** `(now - dt).days`: whole days elapsed, rounded down (negative for a time
      after `now`). `now` is in seconds from 0001-01-01 00:00 UTC; its
      fraction of a second cannot change the result, since `dt` is a whole
      minute. */
  function AgeInDays(now: int, dt: DateTime): (days: int)
    requires ValidDate(dt)
    ensures days * SecondsPerDay <= now - EpochSeconds(dt) < (days + 1) * SecondsPerDay
  {
    (now - EpochSeconds(dt)) / SecondsPerDay
  }

  /** Calendar order of two times, field by field. */
  predicate Before(a: DateTime, b: DateTime) {
    || a.year < b.year
    || (a.year == b.year && a.month < b.month)
    || (a.year == b.year && a.month == b.month && a.day < b.day)
    || (a.year == b.year && a.month == b.month && a.day == b.day && a.hour < b.hour)
    || (a.year == b.year && a.month == b.month && a.day == b.day && a.hour == b.hour && a.minute < b.minute)
  }

  lemma {:induction false} MonthsFitInYear(y: int, m: int)
    requires 1 <= m <= 12
    ensures DaysBeforeMonth(y, m) + DaysInMonth(y, m) <= DaysInYear(y)
    decreases 12 - m
  {
    if m < 12 {
      MonthsFitInYear(y, m + 1);
    } else {
      var n := DaysBeforeMonth(y, 12);
      assert n == 31 + DaysInMonth(y, 2) + 31 + 30 + 31 + 30 + 31 + 31 + 30 + 31 + 30;
    }
  }

  lemma {:induction false} LaterMonthLater(y: int, m: int, m': int)
    requires 1 <= m < m' <= 12
    ensures DaysBeforeMonth(y, m) + DaysInMonth(y, m) <= DaysBeforeMonth(y, m')
    decreases m' - m
  {
    if m + 1 < m' {
      LaterMonthLater(y, m, m' - 1);
    }
  }

  lemma NextYear(y: int)
    requires y >= 1
    ensures DaysBeforeYear(y + 1) == DaysBeforeYear(y) + DaysInYear(y)
  {
    Quotient4(y);
    Quotient100(y);
    Quotient400(y);
    Multiples(y);
  }

  /** One more year steps each quotient by one exactly at a multiple. */
  lemma Quotient4(y: int)
    requires y >= 1
    ensures y / 4 == (y - 1) / 4 + (if y % 4 == 0 then 1 else 0)
  {
  }

  lemma Quotient100(y: int)
    requires y >= 1
    ensures y / 100 == (y - 1) / 100 + (if y % 100 == 0 then 1 else 0)
  {
  }

  lemma Quotient400(y: int)
    requires y >= 1
    ensures y / 400 == (y - 1) / 400 + (if y % 400 == 0 then 1 else 0)
  {
  }

  /** Multiples of 400 are multiples of 100, and those are multiples of 4. */
  lemma Multiples(y: int)
    ensures y % 400 == 0 ==> y % 100 == 0
    ensures y % 100 == 0 ==> y % 4 == 0
  {
  }

  lemma {:induction false} LaterYearLater(y: int, y': int)
    requires 1 <= y < y'
    ensures DaysBeforeYear(y) + DaysInYear(y) <= DaysBeforeYear(y')
    decreases y' - y
  {
    NextYear(y);
    if y + 1 < y' {
      LaterYearLater(y + 1, y');
      NextYear(y + 1);
    }
  }

  /** The day number within the calendar: `date.toordinal()`. */
  function Ordinal(dt: DateTime): int
    requires ValidDate(dt)
  {
    DaysBeforeYear(dt.year) + DaysBeforeMonth(dt.year, dt.month) + dt.day
  }

  lemma OrdinalOrder(a: DateTime, b: DateTime)
    requires ValidDate(a) && ValidDate(b)
    requires a.year < b.year || (a.year == b.year && a.month < b.month) || (a.year == b.year && a.month == b.month && a.day < b.day)
    ensures Ordinal(a) < Ordinal(b)
  {
    MonthsFitInYear(a.year, a.month);
    if a.year < b.year {
      LaterYearLater(a.year, b.year);
    } else if a.month < b.month {
      LaterMonthLater(a.year, a.month, b.month);
    }
  }

  lemma ClockOrder(oa: int, ha: int, ma: int, ob: int, hb: int, mb: int)
    requires 0 <= ha < 24 && 0 <= ma < 60 && 0 <= hb < 24 && 0 <= mb < 60
    requires oa < ob || (oa == ob && (ha < hb || (ha == hb && ma < mb)))
    ensures (((oa - 1) * 24 + ha) * 60 + ma) * 60 < (((ob - 1) * 24 + hb) * 60 + mb) * 60
  {
  }

  /** Seconds from the epoch agree with the calendar: an earlier time has
      fewer. So the latest report by time is the latest by calendar. */
  lemma EpochOrder(a: DateTime, b: DateTime)
    requires ValidDate(a) && ValidDate(b) && Before(a, b)
    ensures EpochSeconds(a) < EpochSeconds(b)
  {
    if a.year != b.year || a.month != b.month || a.day != b.day {
      OrdinalOrder(a, b);
    }
    ClockOrder(Ordinal(a), a.hour, a.minute, Ordinal(b), b.hour, b.minute);
  }

  lemma EpochInjective(a: DateTime, b: DateTime)
    requires ValidDate(a) && ValidDate(b) && a != b
    ensures EpochSeconds(a) != EpochSeconds(b)
  {
    if Before(a, b) {
      EpochOrder(a, b);
    } else {
      EpochOrder(b, a);
    }
  }

  /** The example the file-name tests use: 14 October 2025, 20:15. */
  lemma ExampleStamp()
    ensures ParseStamp("2025-10-14-2015") == Some(DateTime(2025, 10, 14, 20, 15))
  {
    var dt := DateTime(2025, 10, 14, 20, 15);
    StampRoundTrip(dt);
    assert FormatStamp(dt) == "2025-10-14-2015";
  }

  /** There is no 30 February: the pattern matches but `strptime` raises. */
  lemma NoThirtiethOfFebruary()
    ensures ParseStamp("2025-02-30-1200") == None
  {
    var s := "2025-02-30-1200";
    assert StampShaped(s);
    assert s[5..7] == "02" && s[8..10] == "30";
    assert "02"[..1] == "0" && "30"[..1] == "3" && "0"[..0] == "" && "3"[..0] == "";
    assert Number("02") == 2 && Number("30") == 30;
  }
}
