/**
 * The calendar page's date helpers: `new Date(y, m, d)` at local midnight, `parseDateISO` (split
 * the text at '-', convert each field with `Number`, build the date) and `toISODate` (full year,
 * then month and day padded to two digits).
 */
module JsDates {
  import opened Common
  import opened Text
  import opened Dates

  /**
   * `new Date(y, m, d)`: `m` counts months from 0; a year from 0 to 99 means 1900 to 1999; months
   * outside 0..11 carry into neighbouring years and days outside the month into neighbouring
   * months (ECMAScript's MakeDay). `None` stands for dates before 0001-01-01, which this model
   * of dates does not hold.
   */
  function NewDate(y: int, m: int, d: int): (r: Option<Date>)
    ensures 100 <= y && 0 <= m <= 11 && ValidCivil(Civil(y, m + 1, d)) ==> r == Some(Ordinal(Civil(y, m + 1, d)))
  {
    var fullYear := if 0 <= y <= 99 then 1900 + y else y;
    var year, month := fullYear + m / 12, m % 12;
    if year < 1 then None
    else
      var t := JanFirst(year) + DaysBeforeMonth(year, month + 1) + d - 1;
      if t < 0 then None else Some(t)
  }

  /** `parseDateISO`: fewer than three fields, or a field that is not a number, give an invalid
      date (`None`); fields past the third are ignored. */
  function ParseDateIso(s: string): Option<Date> {
    var parts := Split(s, '-');
    if |parts| < 3 then None
    else
      match (JsNumber(parts[0]), JsNumber(parts[1]), JsNumber(parts[2]))
      case (Some(y), Some(m), Some(d)) => NewDate(y, m as int - 1, d)
      case _ => None
  }

  /** `toISODate`: `String(year) + '-' + month + '-' + day`, month and day zero-padded. */
  function ToIsoDate(d: Date): (r: string)
    ensures |r| >= 7 && r[|r| - 3] == '-' && r[|r| - 6] == '-'
    ensures AllDigits(r[..|r| - 6]) && AllDigits(r[|r| - 5..|r| - 3]) && AllDigits(r[|r| - 2..])
  {
    var c := CivilOf(d);
    var y, m, dd := NatToString(c.year), Pad2(c.month), Pad2(c.day);
    var r := y + "-" + m + "-" + dd;
    assert r[..|r| - 6] == y && r[|r| - 5..|r| - 3] == m && r[|r| - 2..] == dd;
    r
  }

  /** A digit string holds no '-'. */
  lemma NoDash(s: string)
    requires AllDigits(s)
    ensures '-' !in s
  {
  }

  /** Three digit fields joined by '-' split back into the three fields. */
  lemma SplitDate(y: string, m: string, d: string)
    requires AllDigits(y) && AllDigits(m) && AllDigits(d)
    ensures Split(y + "-" + m + "-" + d, '-') == [y, m, d]
  {
    NoDash(y);
    NoDash(m);
    NoDash(d);
    assert y + "-" + m + "-" + d == y + ['-'] + (m + ['-'] + d);
    SplitAtSeparator(y, '-', m + ['-'] + d);
    SplitAtSeparator(m, '-', d);
    SplitNoSeparator(d, '-');
  }

  /** Parsing the text of a date of year 100 or later gives the date back. */
  lemma ParseToIsoDate(d: Date)
    requires YearOf(d) >= 100
    ensures ParseDateIso(ToIsoDate(d)) == Some(d)
  {
    var c := CivilOf(d);
    var y, m, dd := NatToString(c.year), Pad2(c.month), Pad2(c.day);
    SplitDate(y, m, dd);
    NatToStringValue(c.year);
    Pad2Value(c.month);
    Pad2Value(c.day);
    assert c.year == YearOf(d);
  }

  /**
   * Formatting the parsed date gives the text back, for every text made of a year of 100 or
   * later without leading zeros, a two-digit month and a two-digit day that together name a
   * calendar date.
   */
  lemma ToIsoParseDate(y: string, m: string, d: string)
    requires y != [] && AllDigits(y) && y[0] != '0'
    requires |m| == 2 && AllDigits(m) && |d| == 2 && AllDigits(d)
    requires DigitsValue(y) >= 100 && ValidCivil(Civil(DigitsValue(y), DigitsValue(m), DigitsValue(d)))
    ensures ParseDateIso(y + "-" + m + "-" + d).Some?
    ensures ToIsoDate(ParseDateIso(y + "-" + m + "-" + d).value) == y + "-" + m + "-" + d
  {
    var c := Civil(DigitsValue(y), DigitsValue(m), DigitsValue(d));
    SplitDate(y, m, d);
    assert ParseDateIso(y + "-" + m + "-" + d) == Some(Ordinal(c));
    CivilOfOrdinal(c);
    NatToStringOfDigits(y);
    Pad2OfDigits(m);
    Pad2OfDigits(d);
  }

  /** Years written with at most two significant digits are read as 1900 to 1999: "0050-03-01"
      is 1950-03-01, so the text of a date before year 100 does not parse back to it. */
  lemma ShortYearShifts(y: string, m: string, d: string)
    requires AllDigits(y) && DigitsValue(y) < 100
    requires |m| == 2 && AllDigits(m) && |d| == 2 && AllDigits(d)
    requires ValidCivil(Civil(1900 + DigitsValue(y), DigitsValue(m), DigitsValue(d)))
    ensures ParseDateIso(y + "-" + m + "-" + d) == Some(Ordinal(Civil(1900 + DigitsValue(y), DigitsValue(m), DigitsValue(d))))
  {
    SplitDate(y, m, d);
    NewDateShortYear(DigitsValue(y), DigitsValue(m) - 1, DigitsValue(d));
  }

  lemma NewDateShortYear(y: int, m: int, d: int)
    requires 0 <= y < 100 && 0 <= m <= 11 && ValidCivil(Civil(1900 + y, m + 1, d))
    ensures NewDate(y, m, d) == Some(Ordinal(Civil(1900 + y, m + 1, d)))
  {
    assert m / 12 == 0 && m % 12 == m;
  }
}
