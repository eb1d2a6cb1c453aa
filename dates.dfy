/**
 * Calendar dates as day numbers of the proleptic Gregorian calendar, the weekday rule, conversion
 * to and from (year, month, day), and the ISO 8601 week-numbering key (ISO 8601:2004, section 3.2.2
 * "calendar week" and section 4.1.4 "week date"): a week runs Monday to Sunday, it belongs to the
 * year that holds its Thursday, and week 1 is the week holding that year's first Thursday.
 */
module Dates {

  /** A date: day 0 is Monday 0001-01-01 (Python's `date.toordinal()` minus one). */
  type Date = nat

  /** Python's `date.weekday()`: 0 is Monday and 6 is Sunday. */
  function Weekday(d: Date): (w: nat)
    ensures w < 7 && (d - w) % 7 == 0
  {
    d % 7
  }

  /** The weekday names a moment's `dia` field holds, Monday first (`get_day`). */
  const DayNames: seq<string> := ["lunes", "martes", "miércoles", "jueves", "viernes", "sábado", "domingo"]

  function DayName(d: Date): (name: string)
    ensures name == DayNames[Weekday(d)]
  {
    DayNames[Weekday(d)]
  }

  predicate IsLeap(y: int) {
    y % 4 == 0 && (y % 100 != 0 || y % 400 == 0)
  }

  function YearLength(y: int): nat {
    if IsLeap(y) then 366 else 365
  }

  /** The day number of January 1st of year `y`. */
  function JanFirst(y: int): int
    requires y >= 1
  {
    365 * (y - 1) + (y - 1) / 4 - (y - 1) / 100 + (y - 1) / 400
  }

  /** A multiple of 400 is a multiple of 100, and a multiple of 100 is a multiple of 4. */
  lemma DivisibleBy(y: int)
    ensures y % 400 == 0 ==> y % 100 == 0
    ensures y % 100 == 0 ==> y % 4 == 0
  {
    var q, r := y / 400, y / 100;
    assert y == 400 * q + y % 400;
    assert y == 100 * r + y % 100;
    if y % 400 == 0 {
      assert y == 100 * (4 * q);
    }
    if y % 100 == 0 {
      assert y == 4 * (25 * r);
    }
  }

  lemma JanFirstNext(y: int)
    requires y >= 1
    ensures JanFirst(y + 1) == JanFirst(y) + YearLength(y)
  {
    var x := y - 1;
    DivStep(x, 4);
    DivStep(x, 100);
    DivStep(x, 400);
    assert x + 1 == y;
    var a, b, c := y % 4 == 0, y % 100 == 0, y % 400 == 0;
    DivisibleBy(y);
    assert JanFirst(y + 1) - JanFirst(y) == 365 + (if a then 1 else 0) - (if b then 1 else 0) + (if c then 1 else 0);
  }

  lemma DivStep(x: nat, k: int)
    requires k == 4 || k == 100 || k == 400
    ensures (x + 1) / k == x / k + (if (x + 1) % k == 0 then 1 else 0)
  {
    if k == 4 {
      assert (x + 1) / 4 == x / 4 + (if (x + 1) % 4 == 0 then 1 else 0);
    } else if k == 100 {
      assert (x + 1) / 100 == x / 100 + (if (x + 1) % 100 == 0 then 1 else 0);
    } else {
      assert (x + 1) / 400 == x / 400 + (if (x + 1) % 400 == 0 then 1 else 0);
    }
  }

  lemma {:induction false} JanFirstMonotone(a: int, b: int)
    requires 1 <= a <= b
    ensures JanFirst(a) + 365 * (b - a) <= JanFirst(b)
    decreases b - a
  {
    if a < b {
      JanFirstMonotone(a, b - 1);
      JanFirstNext(b - 1);
    }
  }

  /** The year holding day `d`, searching upwards from year `y`. */
  function YearFrom(y: int, d: Date): (r: int)
    requires y >= 1 && JanFirst(y) <= d
    ensures r >= y && JanFirst(r) <= d < JanFirst(r + 1)
    decreases d - JanFirst(y)
  {
    JanFirstNext(y);
    if d < JanFirst(y + 1) then y else YearFrom(y + 1, d)
  }

  /** The Gregorian year of day `d`. */
  function YearOf(d: Date): (y: int)
    ensures y >= 1 && JanFirst(y) <= d < JanFirst(y + 1)
  {
    YearFrom(1, d)
  }

  /** Years partition the days: the year whose span holds `d` is `YearOf(d)`. */
  lemma YearOfUnique(d: Date, y: int)
    requires y >= 1 && JanFirst(y) <= d < JanFirst(y + 1)
    ensures YearOf(d) == y
  {
    var x := YearOf(d);
    if x < y {
      JanFirstMonotone(x + 1, y);
    } else if x > y {
      JanFirstMonotone(y + 1, x);
    }
  }

  /** Later days never fall in earlier years. */
  lemma YearOfMonotone(d1: Date, d2: Date)
    requires d1 <= d2
    ensures YearOf(d1) <= YearOf(d2)
  {
    var y1, y2 := YearOf(d1), YearOf(d2);
    if y2 < y1 {
      JanFirstMonotone(y2 + 1, y1);
    }
  }

  /** Days of the year before the first of month `m` (`m` = 13 gives the whole year). */
  function DaysBeforeMonth(y: int, m: int): nat
    requires 1 <= m <= 13
  {
    [0, 31, 59, 90, 120, 151, 181, 212, 243, 273, 304, 334, 365][m - 1] + (if IsLeap(y) && m > 2 then 1 else 0)
  }

  /** The length of month `m` (1 = January) of year `y`. */
  function DaysInMonth(y: int, m: int): (n: nat)
    requires 1 <= m <= 12
    ensures 28 <= n <= 31
    ensures m == 2 ==> (n == 29 <==> IsLeap(y))
  {
    if m == 2 then (if IsLeap(y) then 29 else 28)
    else if m == 4 || m == 6 || m == 9 || m == 11 then 30
    else 31
  }

  /** The cumulative table agrees with the month lengths and with the year length. */
  lemma DaysBeforeMonthStep(y: int, m: int)
    requires 1 <= m <= 12
    ensures DaysBeforeMonth(y, m + 1) == DaysBeforeMonth(y, m) + DaysInMonth(y, m)
    ensures DaysBeforeMonth(y, 13) == YearLength(y)
  {
  }

  lemma DaysBeforeMonthMonotone(y: int, a: int, b: int)
    requires 1 <= a < b <= 13
    ensures DaysBeforeMonth(y, a + 1) <= DaysBeforeMonth(y, b)
  {
  }

  datatype Civil = Civil(year: int, month: int, day: int)

  predicate ValidCivil(c: Civil) {
    c.year >= 1 && 1 <= c.month <= 12 && 1 <= c.day <= DaysInMonth(c.year, c.month)
  }

  /** The day number of a calendar date. */
  function Ordinal(c: Civil): (d: Date)
    requires ValidCivil(c)
    ensures JanFirst(c.year) <= d < JanFirst(c.year + 1)
  {
    DaysBeforeMonthStep(c.year, c.month);
    DaysBeforeMonthMonotone(c.year, c.month, 13);
    JanFirstNext(c.year);
    JanFirst(c.year) + DaysBeforeMonth(c.year, c.month) + c.day - 1
  }

  /** The month holding day `doy` (0-based) of year `y`, searching upwards from month `m`. */
  function MonthFrom(y: int, doy: int, m: int): (r: int)
    requires 1 <= m <= 12 && DaysBeforeMonth(y, m) <= doy < YearLength(y)
    ensures m <= r <= 12 && DaysBeforeMonth(y, r) <= doy < DaysBeforeMonth(y, r + 1)
    decreases 12 - m
  {
    DaysBeforeMonthStep(y, m);
    if doy < DaysBeforeMonth(y, m + 1) then m else MonthFrom(y, doy, m + 1)
  }

  /** The calendar date of day `d`: the inverse of `Ordinal`. */
  function CivilOf(d: Date): (c: Civil)
    ensures ValidCivil(c) && Ordinal(c) == d
  {
    var y := YearOf(d);
    JanFirstNext(y);
    var m := MonthFrom(y, d - JanFirst(y), 1);
    DaysBeforeMonthStep(y, m);
    Civil(y, m, d - JanFirst(y) - DaysBeforeMonth(y, m) + 1)
  }

  lemma CivilOfOrdinal(c: Civil)
    requires ValidCivil(c)
    ensures CivilOf(Ordinal(c)) == c
  {
    var d := Ordinal(c);
    YearOfUnique(d, c.year);
    var r := CivilOf(d);
    DaysBeforeMonthStep(c.year, c.month);
    DaysBeforeMonthStep(c.year, r.month);
    if r.month < c.month {
      DaysBeforeMonthMonotone(c.year, r.month, c.month);
    } else if r.month > c.month {
      DaysBeforeMonthMonotone(c.year, c.month, r.month);
    }
  }

  /** ISO 8601 week key: the week-numbering year and the week number within it. */
  datatype WeekKey = WeekKey(year: int, week: int)

  /** Python's `date.isocalendar()` (year, week): the week's Thursday decides the year, and the week
      number counts weeks from the week holding that year's first Thursday. */
  function IsoWeek(d: Date): (k: WeekKey)
    ensures 1 <= k.week <= 53
  {
    var thursday := d - Weekday(d) + 3;
    var y := YearOf(thursday);
    JanFirstNext(y);
    WeekKey(y, (thursday - JanFirst(y)) / 7 + 1)
  }

  /** Python's tuple comparison of two keys. */
  predicate KeyBefore(a: WeekKey, b: WeekKey) {
    a.year < b.year || (a.year == b.year && a.week < b.week)
  }

  /** Keys are ordered exactly like the Monday-to-Sunday weeks `d / 7` they name. */
  lemma IsoWeekOrder(d1: Date, d2: Date)
    ensures IsoWeek(d1) == IsoWeek(d2) <==> d1 / 7 == d2 / 7
    ensures KeyBefore(IsoWeek(d1), IsoWeek(d2)) <==> d1 / 7 < d2 / 7
  {
    if d1 / 7 < d2 / 7 {
      IsoWeekBefore(d1, d2);
    } else if d2 / 7 < d1 / 7 {
      IsoWeekBefore(d2, d1);
    } else {
      assert d1 - Weekday(d1) == d2 - Weekday(d2);
    }
  }

  lemma IsoWeekBefore(d1: Date, d2: Date)
    requires d1 / 7 < d2 / 7
    ensures KeyBefore(IsoWeek(d1), IsoWeek(d2))
  {
    var t1, t2 := d1 - Weekday(d1) + 3, d2 - Weekday(d2) + 3;
    assert t1 == 7 * (d1 / 7) + 3 && t2 == 7 * (d2 / 7) + 3;
    YearOfMonotone(t1, t2);
    var y1, y2 := YearOf(t1), YearOf(t2);
    if y1 == y2 {
      var k := d2 / 7 - d1 / 7;
      assert t2 - JanFirst(y2) == (t1 - JanFirst(y1)) + 7 * k;
    }
  }

  /** Monday 2025-12-29 opens week 1 of ISO year 2026, because that week's Thursday is 2026-01-01. */
  lemma IsoWeekAtYearEnd()
    ensures Weekday(Ordinal(Civil(2025, 12, 29))) == 0
    ensures IsoWeek(Ordinal(Civil(2025, 12, 29))) == WeekKey(2026, 1)
  {
    var d := Ordinal(Civil(2025, 12, 29));
    assert d == 739613;
    YearOfUnique(739616, 2026);
  }

  /** Thursday 2020-12-31 lies in week 53 of ISO year 2020, and so does Sunday 2021-01-03. */
  lemma IsoWeekFiftyThree()
    ensures IsoWeek(Ordinal(Civil(2020, 12, 31))) == WeekKey(2020, 53)
    ensures IsoWeek(Ordinal(Civil(2021, 1, 3))) == WeekKey(2020, 53)
  {
    assert JanFirst(2020) == 737424 && JanFirst(2021) == 737790;
    var d1, d2 := Ordinal(Civil(2020, 12, 31)), Ordinal(Civil(2021, 1, 3));
    assert d1 == 737789 && d2 == 737792;
    assert Weekday(d1) == 3;
    YearOfUnique(737789, 2020);
    assert IsoWeek(d1) == WeekKey(2020, 53);
    IsoWeekOrder(d1, d2);
  }
}
