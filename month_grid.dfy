/**
 * The month grid of the calendar page (`render`): the grid starts on the Monday on or before the
 * first of the month, holds the days before the month (`prevDays`), the month itself, and enough
 * days after it to fill whole weeks.
 */
module MonthGrid {
  import opened Common
  import opened Dates
  import opened JsDates

  /** The numbers `render` computes for the month on display. */
  datatype Grid = Grid(firstWeekday: nat, daysInMonth: nat, totalCells: nat, start: Date)

  /** JavaScript's `getDay()`: 0 is Sunday. */
  function JsDay(d: Date): (w: nat)
    ensures w < 7 && (w + 6) % 7 == Weekday(d)
  {
    (Weekday(d) + 1) % 7
  }

  /** `Math.ceil`. */
  function Ceil(x: real): int {
    -((-x).Floor)
  }

  /** The year `new Date(year, ...)` actually uses. */
  function FullYear(y: int): int {
    if 0 <= y <= 99 then 1900 + y else y
  }

  /** `new Date(year, month, d)` for a day `d` of the month or a few days before it. */
  lemma NewDateInMonth(y: int, m: int, d: int)
    requires y >= 1 && 0 <= m <= 11
    requires JanFirst(FullYear(y)) + DaysBeforeMonth(FullYear(y), m + 1) + d - 1 >= 0
    ensures NewDate(y, m, d) == Some(JanFirst(FullYear(y)) + DaysBeforeMonth(FullYear(y), m + 1) + d - 1)
  {
    assert m / 12 == 0 && m % 12 == m;
  }

  /** `new Date(year, month + 1, 0)` is the last day of the month. */
  lemma LastDayOfMonth(y: int, m: int)
    requires y >= 1 && 0 <= m <= 11
    ensures NewDate(y, m + 1, 0) == Some(Ordinal(Civil(FullYear(y), m + 1, DaysInMonth(FullYear(y), m + 1))))
  {
    var fy := FullYear(y);
    DaysBeforeMonthStep(fy, m + 1);
    if m + 1 == 12 {
      assert (m + 1) / 12 == 1 && (m + 1) % 12 == 0;
      JanFirstNext(fy);
    } else {
      assert (m + 1) / 12 == 0 && (m + 1) % 12 == m + 1;
    }
  }

  /** `Math.ceil(n / 7)` is `n` divided by 7 rounded up. */
  lemma CeilSevenths(n: nat)
    ensures Ceil(n as real / 7.0) == (n + 6) / 7
  {
    var q := (n + 6) / 7;
    var x := -(n as real / 7.0);
    assert 7 * q - 6 <= n <= 7 * q;
    assert (-q) as real <= x < (-q) as real + 1.0;
  }

  /** Whole weeks covering `prev + dim` days, for a month of 28 to 31 days after 0 to 6 others. */
  lemma WholeWeeks(prev: nat, dim: nat)
    requires prev < 7 && 28 <= dim <= 31
    ensures ((prev + dim + 6) / 7 * 7) % 7 == 0
    ensures prev + dim <= (prev + dim + 6) / 7 * 7 < prev + dim + 7
    ensures 28 <= (prev + dim + 6) / 7 * 7 <= 42
  {
    var n := prev + dim;
    var q := (n + 6) / 7;
    assert 7 * q <= n + 6 < 7 * q + 7;
    assert 4 <= q <= 6;
  }

  /** Going back from a day by its weekday lands on a Monday. */
  lemma BackToMonday(d: Date)
    ensures Weekday(d - Weekday(d)) == 0
  {
  }

  /** `(firstDay.getDay() + 6) % 7`: the weekday of the first of the month, Monday 0. */
  function FirstWeekday(year: int, month: int): (w: nat)
    requires year >= 1 && 0 <= month <= 11
    ensures w < 7 && w == Weekday(Ordinal(Civil(FullYear(year), month + 1, 1)))
  {
    NewDateInMonth(year, month, 1);
    (JsDay(NewDate(year, month, 1).value) + 6) % 7
  }

  /** `lastDay.getDate()` of `new Date(year, month + 1, 0)`: the length of the month. */
  function MonthLength(year: int, month: int): (n: nat)
    requires year >= 1 && 0 <= month <= 11
    ensures 28 <= n <= 31 && n == DaysInMonth(FullYear(year), month + 1)
  {
    var fy := FullYear(year);
    LastDayOfMonth(year, month);
    CivilOfOrdinal(Civil(fy, month + 1, DaysInMonth(fy, month + 1)));
    CivilOf(NewDate(year, month + 1, 0).value).day
  }

  /** `new Date(year, month, 1 - prevDays)`: the Monday on or before the first of the month. */
  function GridStart(year: int, month: int, prevDays: nat): (start: Date)
    requires year >= 1 && 0 <= month <= 11
    requires prevDays == Weekday(Ordinal(Civil(FullYear(year), month + 1, 1)))
    ensures Weekday(start) == 0
    ensures start + prevDays == Ordinal(Civil(FullYear(year), month + 1, 1))
  {
    var firstOrd := Ordinal(Civil(FullYear(year), month + 1, 1));
    NewDateInMonth(year, month, 1);
    NewDateInMonth(year, month, 1 - prevDays);
    BackToMonday(firstOrd);
    NewDate(year, month, 1 - prevDays).value
  }

  /** `Math.ceil((prevDays + daysInMonth) / 7) * 7`: the cells of the whole weeks shown. */
  function TotalCells(prevDays: nat, daysInMonth: nat): (t: int)
    requires prevDays < 7 && 28 <= daysInMonth <= 31
    ensures t % 7 == 0
    ensures prevDays + daysInMonth <= t < prevDays + daysInMonth + 7
    ensures 28 <= t <= 42
  {
    var cells := prevDays + daysInMonth;
    CeilSevenths(cells);
    WholeWeeks(prevDays, daysInMonth);
    Ceil(cells as real / 7.0) * 7
  }

  /**
   * The grid of month `month` (0 = January) of year `year`: `firstWeekday` is the weekday of the
   * first of the month with Monday 0, `daysInMonth` the length of the month, `totalCells` the
   * days needed to cover the month in whole weeks, and `start` the first day shown.
   */
  function Render(year: int, month: int): (g: Grid)
    requires year >= 1 && 0 <= month <= 11
    ensures g.firstWeekday < 7
    ensures g.totalCells % 7 == 0
    ensures g.firstWeekday + g.daysInMonth <= g.totalCells < g.firstWeekday + g.daysInMonth + 7
    ensures 28 <= g.totalCells <= 42
    ensures g.daysInMonth == DaysInMonth(FullYear(year), month + 1)
    ensures Weekday(g.start) == 0
    ensures g.start + g.firstWeekday == Ordinal(Civil(FullYear(year), month + 1, 1))
  {
    var firstWeekday := FirstWeekday(year, month);
    var daysInMonth := MonthLength(year, month);
    var prevDays := firstWeekday;
    Grid(firstWeekday, daysInMonth, TotalCells(prevDays, daysInMonth), GridStart(year, month, prevDays))
  }

  /**
   * `new Date(start.getFullYear(), start.getMonth(), start.getDate() + i)`: cell `i` shows the day
   * `i` days after the first cell (for a first cell of year 100 or later, which `getFullYear`
   * gives back unchanged).
   */
  lemma CellDate(start: Date, i: nat)
    requires YearOf(start) >= 100
    ensures NewDate(CivilOf(start).year, CivilOf(start).month - 1, CivilOf(start).day + i) == Some(start + i)
  {
    var c := CivilOf(start);
    assert c.year == YearOf(start) by {
      YearOfUnique(start, c.year);
    }
    assert (c.month - 1) / 12 == 0 && (c.month - 1) % 12 == c.month - 1;
  }

  /** Every day of the month has its cell: day `k` is cell `firstWeekday + k - 1`, inside the grid. */
  lemma MonthDaysInGrid(year: int, month: int, k: int)
    requires year >= 1 && 0 <= month <= 11 && 1 <= k <= DaysInMonth(FullYear(year), month + 1)
    ensures Render(year, month).firstWeekday + k - 1 < Render(year, month).totalCells
    ensures Render(year, month).start + Render(year, month).firstWeekday + k - 1 == Ordinal(Civil(FullYear(year), month + 1, k))
  {
    var g := Render(year, month);
    var fy := FullYear(year);
    assert Ordinal(Civil(fy, month + 1, k)) == Ordinal(Civil(fy, month + 1, 1)) + k - 1;
  }
}
