/**
 * The archive key of an order: `new Date(createdAt).toISOString().slice(0, 10)`,
 * the UTC calendar day of a millisecond timestamp.
 */
module Dates {
  import opened Text

  const MsPerDay: int := 86400000

  /**
   * The proleptic Gregorian date (year, month, day) of the day numbered `days`
   * counting from 1970-01-01 as day 0. Days are counted in 400-year eras of
   * 146097 days that start on 1 March, so that each leap day falls last in
   * its year; the first era starts 719468 days before 1970-01-01.
   */
  function CivilFromDays(days: int): (ymd: (int, int, int))
    ensures 1 <= ymd.1 <= 12 && 1 <= ymd.2 <= 31
  {
    var z := days + 719468;
    CivilOfEra(z / 146097, z % 146097)
  }

  /** The date of day `doe` of era `era`; year 0 of era 0 starts on 1 March of year 0. */
  function CivilOfEra(era: int, doe: int): (ymd: (int, int, int))
    requires 0 <= doe < 146097
    ensures 1 <= ymd.1 <= 12 && 1 <= ymd.2 <= 31
  {
    var (yoe, doy) := YearOfEra(doe);
    var (m, d) := MonthDay(doy);
    (era * 400 + yoe + (if m <= 2 then 1 else 0), m, d)
  }

  /**
   * Day `doe` of an era is day `doy` (from 1 March) of year `yoe` of the era:
   * the era's centuries have 36524 days except the last, which has one more,
   * its four-year blocks 1461 days except the last of a century, which has
   * one fewer, and a block's years 365 days except the last, which may have 366.
   */
  function YearOfEra(doe: int): (yd: (int, int))
    requires 0 <= doe < 146097
    ensures 0 <= yd.0 < 400 && 0 <= yd.1 <= 365
    ensures doe == 365 * yd.0 + yd.0 / 4 - yd.0 / 100 + yd.1
    ensures yd.1 == 365 ==> yd.0 % 4 == 3 && (yd.0 % 100 != 99 || yd.0 == 399)
  {
    var c := if doe / 36524 < 3 then doe / 36524 else 3;
    var dc := doe - 36524 * c;
    var q := dc / 1461;
    var dq := dc % 1461;
    var r := if dq / 365 < 3 then dq / 365 else 3;
    var yoe := 100 * c + 4 * q + r;
    assert yoe / 4 == 25 * c + q && yoe / 100 == c;
    (yoe, dq - 365 * r)
  }

  /**
   * Day `doy` of a year that starts on 1 March is day `d` of month `m`: the
   * months from March on have 31, 30, 31, 30, 31, 31, 30, 31, 30, 31, 31 days,
   * and February takes what is left.
   */
  function MonthDay(doy: int): (md: (int, int))
    requires 0 <= doy <= 365
    ensures 1 <= md.0 <= 12 && 1 <= md.1 <= 31
    ensures var mp := if md.0 > 2 then md.0 - 3 else md.0 + 9;
      doy == (153 * mp + 2) / 5 + md.1 - 1
    ensures md.0 != 2 ==> md.1 <= DaysInMonth(1, md.0)
    ensures md.0 == 2 ==> md.1 == doy - 336
  {
    var mp := (5 * doy + 2) / 153;
    var m := if mp < 10 then mp + 3 else mp - 9;
    (m, doy - (153 * mp + 2) / 5 + 1)
  }

  // ----- the calendar, as a reference for CivilFromDays -----

  /** Leap years of the proleptic Gregorian calendar. */
  predicate IsLeap(y: int)
  {
    y % 4 == 0 && (y % 100 != 0 || y % 400 == 0)
  }

  /** How many leap years lie between a fixed origin and year `y` (the differences are what matter). */
  function Leaps(y: int): int
  {
    y / 4 - y / 100 + y / 400
  }

  /** The days of the calendar's months in a common year. */
  function DaysInMonth(y: int, m: int): int
    requires 1 <= m <= 12
  {
    if m == 2 then (if IsLeap(y) then 29 else 28)
    else if m == 4 || m == 6 || m == 9 || m == 11 then 30
    else 31
  }

  /** The days of the months before month `m` of year `y`. */
  function DaysBeforeMonth(y: int, m: int): int
    requires 1 <= m <= 12
    decreases m
  {
    if m == 1 then 0 else DaysBeforeMonth(y, m - 1) + DaysInMonth(y, m - 1)
  }

  /** The days from 1 January 1970 to 1 January of year `y` (negative before 1970). */
  function DaysBeforeYear(y: int): int
  {
    365 * (y - 1970) + Leaps(y - 1) - Leaps(1969)
  }

  /** The day number of a calendar date, counting 1970-01-01 as day 0. */
  function DaysFromCivil(ymd: (int, int, int)): int
    requires 1 <= ymd.1 <= 12
  {
    DaysBeforeYear(ymd.0) + DaysBeforeMonth(ymd.0, ymd.1) + ymd.2 - 1
  }

  /**
   * `CivilFromDays` names the calendar date of each day number: counting the
   * days up to that date gives the number back. So distinct days get
   * distinct dates.
   */
  lemma CivilRoundTrip(days: int)
    ensures DaysFromCivil(CivilFromDays(days)) == days
  {
    var z := days + 719468;
    var era, doe := z / 146097, z % 146097;
    assert era * 146097 + doe == z;
    EraRoundTrip(era, doe);
  }

  lemma EraRoundTrip(era: int, doe: int)
    requires 0 <= doe < 146097
    ensures DaysFromCivil(CivilOfEra(era, doe)) == era * 146097 + doe - 719468
  {
    var (yoe, doy) := YearOfEra(doe);
    var (m, d) := MonthDay(doy);
    var yp := era * 400 + yoe;
    var mp := if m > 2 then m - 3 else m + 9;
    var march := DaysBeforeYear(yp + 1) - 306;
    assert march == era * 146097 + doe - doy - 719468 by {
      MarchFirst(era, yoe);
    }
    assert DaysFromCivil(CivilOfEra(era, doe)) == march + (153 * mp + 2) / 5 + d - 1 by {
      assert CivilOfEra(era, doe) == (yp + (if m <= 2 then 1 else 0), m, d);
      MonthStep(yp, m);
    }
  }

  /** `CivilFromDays` names a real date: the day never exceeds the length of its month, 29 February only in leap years. */
  lemma CivilValid(days: int)
    ensures var ymd := CivilFromDays(days);
      ymd.2 <= DaysInMonth(ymd.0, ymd.1)
  {
    var z := days + 719468;
    EraValid(z / 146097, z % 146097);
  }

  lemma EraValid(era: int, doe: int)
    requires 0 <= doe < 146097
    ensures var ymd := CivilOfEra(era, doe);
      ymd.2 <= DaysInMonth(ymd.0, ymd.1)
  {
    var (yoe, doy) := YearOfEra(doe);
    var (m, d) := MonthDay(doy);
    if m == 2 && d == 29 {
      var k := yoe + 1;
      assert CivilOfEra(era, doe) == (era * 400 + k, m, d);
      EraYear(era, k);
      assert IsLeap(k);
    }
  }

  /** Whole eras do not change whether a year is a leap year. */
  lemma EraYear(era: int, k: int)
    requires 0 <= k <= 400
    ensures IsLeap(era * 400 + k) <==> IsLeap(k)
  {
    Div4(era * 400 + k, era * 100 + k / 4, k % 4);
    Div100(era * 400 + k, era * 4 + k / 100, k % 100);
    Div400(era * 400 + k, era + k / 400, k % 400);
  }

  /** Euclidean division is unique: a quotient and a remainder in range are the ones `/` and `%` give. */
  lemma Div4(y: int, q: int, r: int)
    requires y == 4 * q + r && 0 <= r < 4
    ensures y / 4 == q && y % 4 == r
  {
  }

  lemma Div100(y: int, q: int, r: int)
    requires y == 100 * q + r && 0 <= r < 100
    ensures y / 100 == q && y % 100 == r
  {
  }

  lemma Div400(y: int, q: int, r: int)
    requires y == 400 * q + r && 0 <= r < 400
    ensures y / 400 == q && y % 400 == r
  {
  }

  /** 1 March of year `yoe` of era `era` is day `365 * yoe + yoe / 4 - yoe / 100` of the era. */
  lemma MarchFirst(era: int, yoe: int)
    requires 0 <= yoe < 400
    ensures DaysBeforeYear(era * 400 + yoe + 1) - 306 == era * 146097 + 365 * yoe + yoe / 4 - yoe / 100 - 719468
  {
    var y := era * 400 + yoe;
    assert y / 4 == era * 100 + yoe / 4;
    assert y / 100 == era * 4 + yoe / 100;
    assert y / 400 == era;
  }

  /**
   * The days before month `m` of the year the algorithm names, counted from
   * 1 March of year `yp`, are its month offset.
   */
  lemma MonthStep(yp: int, m: int)
    requires 1 <= m <= 12
    ensures var y := yp + (if m <= 2 then 1 else 0);
      var mp := if m > 2 then m - 3 else m + 9;
      DaysBeforeYear(y) + DaysBeforeMonth(y, m) == DaysBeforeYear(yp + 1) - 306 + (153 * mp + 2) / 5
  {
    var y := yp + (if m <= 2 then 1 else 0);
    MonthOffsets(y, m);
    if m > 2 {
      LeapStep(yp);
    }
  }

  /** The algorithm's month offsets, counted from March, agree with the calendar's. */
  lemma MonthOffsets(y: int, m: int)
    requires 1 <= m <= 12
    ensures var mp := if m > 2 then m - 3 else m + 9;
      DaysBeforeMonth(y, m) == (153 * mp + 2) / 5 + (if m <= 2 then -306 else if IsLeap(y) then 60 else 59)
  {
  }

  /** Year `y` adds a leap day exactly when it is a leap year. */
  lemma LeapStep(y: int)
    ensures Leaps(y) - Leaps(y - 1) == if IsLeap(y) then 1 else 0
  {
    var q4, r4 := (y - 1) / 4, (y - 1) % 4;
    if r4 == 3 { Div4(y, q4 + 1, 0); } else { Div4(y, q4, r4 + 1); }
    var q100, r100 := (y - 1) / 100, (y - 1) % 100;
    if r100 == 99 { Div100(y, q100 + 1, 0); } else { Div100(y, q100, r100 + 1); }
    var q400, r400 := (y - 1) / 400, (y - 1) % 400;
    if r400 == 399 { Div400(y, q400 + 1, 0); } else { Div400(y, q400, r400 + 1); }
    if y % 400 == 0 {
      Div100(y, 4 * q400 + 4, 0);
    }
    if y % 100 == 0 {
      Div4(y, 25 * (y / 100), 0);
    }
  }

  /** The year as `toISOString` writes it: four digits for years 0 to 9999, else a sign and six digits. */
  function IsoYear(y: int): (s: string)
    ensures |s| >= 4
  {
    if 0 <= y <= 9999 then PadZero(Decimal(y), 4)
    else if y < 0 then "-" + PadZero(Decimal(-y), 6)
    else "+" + PadZero(Decimal(y), 6)
  }

  /** The first ten characters of the ISO 8601 rendering of a civil date: `YYYY-MM-DD`. */
  function DateKey(ymd: (int, int, int)): (k: string)
    requires 1 <= ymd.1 <= 12 && 1 <= ymd.2 <= 31
    ensures |k| == 10
  {
    var iso := IsoYear(ymd.0) + "-" + PadZero(Decimal(ymd.1), 2) + "-" + PadZero(Decimal(ymd.2), 2);
    iso[..10]
  }

  /** The first ten characters of the ISO 8601 rendering of the UTC instant `ms`. */
  function DayKey(ms: int): (k: string)
    ensures |k| == 10
  {
    DateKey(CivilFromDays(ms / MsPerDay))
  }

  /** Two instants of the same UTC day share their archive key. */
  lemma SameDaySameKey(a: int, b: int)
    requires a / MsPerDay == b / MsPerDay
    ensures DayKey(a) == DayKey(b)
  {
  }

  /** Day 0 is 1 January 1970. */
  lemma CivilOfEpoch()
    ensures CivilFromDays(0) == (1970, 1, 1)
  {
    assert 719468 / 146097 == 4 && 719468 % 146097 == 135080;
    assert 135080 / 36524 == 3 && 135080 - 36524 * 3 == 25508;
    assert 25508 / 1461 == 17 && 25508 % 1461 == 671 && 671 / 365 == 1;
    assert YearOfEra(135080) == (369, 306);
    assert (5 * 306 + 2) / 153 == 10 && (153 * 10 + 2) / 5 == 306;
    assert MonthDay(306) == (1, 1);
  }

  /** Day -1 is 31 December 1969. */
  lemma CivilBeforeEpoch()
    ensures CivilFromDays(-1) == (1969, 12, 31)
  {
    assert 719467 / 146097 == 4 && 719467 % 146097 == 135079;
    assert 135079 / 36524 == 3 && 135079 - 36524 * 3 == 25507;
    assert 25507 / 1461 == 17 && 25507 % 1461 == 670 && 670 / 365 == 1;
    assert YearOfEra(135079) == (369, 305);
    assert (5 * 305 + 2) / 153 == 9 && (153 * 9 + 2) / 5 == 275;
    assert MonthDay(305) == (12, 31);
  }

  /**
   * For years 0 to 9999 nothing is cut off: the key is the four-digit year,
   * the two-digit month and the two-digit day joined by dashes.
   */
  lemma DateKeyShape(ymd: (int, int, int))
    requires 0 <= ymd.0 <= 9999 && 1 <= ymd.1 <= 12 && 1 <= ymd.2 <= 31
    ensures var k := DateKey(ymd);
      && k == PadZero(Decimal(ymd.0), 4) + "-" + PadZero(Decimal(ymd.1), 2) + "-" + PadZero(Decimal(ymd.2), 2)
      && k[4] == '-' && k[7] == '-'
      && IsDigits(k[..4]) && IsDigits(k[5..7]) && IsDigits(k[8..])
  {
    var year, month, day := PadZero(Decimal(ymd.0), 4), PadZero(Decimal(ymd.1), 2), PadZero(Decimal(ymd.2), 2);
    assert |year| == 4 by { DecimalBelow(ymd.0, 4); }
    assert |month| == 2 by { DecimalBelow(ymd.1, 2); }
    assert |day| == 2 by { DecimalBelow(ymd.2, 2); }
    PaddedDigits(Decimal(ymd.0), 4);
    PaddedDigits(Decimal(ymd.1), 2);
    PaddedDigits(Decimal(ymd.2), 2);
    assert DateKey(ymd) == (year + "-" + month + "-" + day)[..10];
    JoinedKey(year, month, day);
  }

  /** Four, two and two digits joined by dashes make a ten-character key with dashes at 4 and 7. */
  lemma JoinedKey(year: string, month: string, day: string)
    requires |year| == 4 && |month| == 2 && |day| == 2
    requires IsDigits(year) && IsDigits(month) && IsDigits(day)
    ensures var k := year + "-" + month + "-" + day;
      && k[..10] == k && k[4] == '-' && k[7] == '-'
      && IsDigits(k[..4]) && IsDigits(k[5..7]) && IsDigits(k[8..])
  {
    var k := year + "-" + month + "-" + day;
    assert k[..4] == year && k[5..7] == month && k[8..] == day;
  }

  /** Zero-padding a string of digits gives a string of digits. */
  lemma PaddedDigits(s: string, width: nat)
    requires IsDigits(s)
    ensures IsDigits(PadZero(s, width))
  {
    var r := PadZero(s, width);
    PadZeroSpec(s, width);
    forall i | 0 <= i < |r|
      ensures '0' <= r[i] <= '9'
    {
      if i >= |r| - |s| {
        assert r[i] == r[|r| - |s|..][i - (|r| - |s|)];
      }
    }
  }

  /** Instants from the epoch on fall on 1 January 1970; one millisecond earlier is 31 December 1969. */
  lemma EpochDays()
    ensures DayKey(0) == DateKey((1970, 1, 1))
    ensures DayKey(-1) == DateKey((1969, 12, 31))
  {
    CivilOfEpoch();
    CivilBeforeEpoch();
    assert -1 / MsPerDay == -1;
  }
}
