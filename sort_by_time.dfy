/**
 * The calendar page's ordering of a day's exams (`sortExamsByTime`): a copy of the list is sorted
 * by the start minute of each exam's time range "HH:MM-HH:MM"; the list passed in is not changed.
 */
module SortByTime {
  import opened Common
  import opened Text
  import opened StableSort
  import opened ExamMap
  import opened JsDates

  /**
   * `getStart`: 0 for a missing time; otherwise the part before the first '-' split at ':', the
   * hours times 60 plus the minutes, the hours times 60 when there is no ':', and minutes that are
   * not a number count as 0 (`parts[1] || 0`). `None` is `NaN`: hours that are not a number.
   */
  function StartMinute(h: string): (r: Option<int>)
    ensures h == "" ==> r == Some(0)
  {
    if h == "" then Some(0) else ClockMinute(Split(Split(h, '-')[0], ':'))
  }

  /** The minute of the day named by the ':'-separated fields of a clock time. */
  function ClockMinute(parts: seq<string>): Option<int>
    requires |parts| >= 1
  {
    match JsNumber(parts[0])
    case None => None
    case Some(hh) =>
      if |parts| == 1 then Some(hh * 60)
      else Some(hh * 60 + JsNumber(parts[1]).GetOr(0))
  }

  /** A digit string holds no ':'. */
  lemma NoColon(s: string)
    requires AllDigits(s)
    ensures ':' !in s
  {
  }

  /** The part before the first '-' of a text that has a '-' right after `start`. */
  lemma StartField(start: string, rest: string)
    requires '-' !in start
    ensures Split(start + "-" + rest, '-')[0] == start
  {
    assert start + "-" + rest == start + ['-'] + rest;
    SplitAtSeparator(start, '-', rest);
  }

  /** "HH:MM" splits at ':' into the hours and the minutes. */
  lemma SplitClock(hh: string, mm: string)
    requires AllDigits(hh) && AllDigits(mm)
    ensures Split(hh + ":" + mm, ':') == [hh, mm]
  {
    NoColon(hh);
    NoColon(mm);
    assert hh + ":" + mm == hh + [':'] + mm;
    SplitAtSeparator(hh, ':', mm);
    SplitNoSeparator(mm, ':');
  }

  /** The start minute from the fields of the part before the first '-'. */
  lemma StartMinuteOfFields(h: string, hh: string, mm: string)
    requires h != [] && AllDigits(hh) && AllDigits(mm)
    requires Split(Split(h, '-')[0], ':') == [hh, mm]
    ensures StartMinute(h) == Some(DigitsValue(hh) * 60 + DigitsValue(mm))
  {
    assert ClockMinute([hh, mm]) == Some(DigitsValue(hh) * 60 + DigitsValue(mm));
  }

  /** A time range "HH:MM-..." starts at minute HH * 60 + MM. */
  lemma StartMinuteOfRange(hh: string, mm: string, rest: string)
    requires AllDigits(hh) && AllDigits(mm)
    ensures StartMinute(hh + ":" + mm + "-" + rest) == Some(DigitsValue(hh) * 60 + DigitsValue(mm))
  {
    var start := hh + ":" + mm;
    NoDash(hh);
    NoDash(mm);
    assert '-' !in start;
    StartField(start, rest);
    SplitClock(hh, mm);
    StartMinuteOfFields(start + "-" + rest, hh, mm);
  }

  /** A time range "HH-..." without minutes starts at minute HH * 60. */
  lemma StartMinuteOfHours(hh: string, rest: string)
    requires AllDigits(hh)
    ensures StartMinute(hh + "-" + rest) == Some(DigitsValue(hh) * 60)
  {
    NoDash(hh);
    NoColon(hh);
    StartField(hh, rest);
    SplitNoSeparator(hh, ':');
  }

  /** "09:30-11:00" starts at minute 570, "9-11" at minute 540, a missing time at minute 0. */
  lemma StartMinuteExamples()
    ensures StartMinute("09:30-11:00") == Some(570)
    ensures StartMinute("9-11") == Some(540)
    ensures StartMinute("") == Some(0)
  {
    RangeExample("09:30-11:00");
    HoursExample();
  }

  lemma RangeExample(h: string)
    requires h == "09:30-11:00"
    ensures StartMinute(h) == Some(570)
  {
    TwoDigits('0', '9');
    TwoDigits('3', '0');
    var hh, mm, rest := ['0', '9'], ['3', '0'], ['1', '1', ':', '0', '0'];
    StartMinuteOfRange(hh, mm, rest);
    assert hh + ":" + mm + "-" + rest == h;
  }

  lemma HoursExample()
    ensures StartMinute("9-11") == Some(540)
  {
    assert "9-11" == "9" + "-" + "11";
    StartMinuteOfHours("9", "11");
    assert DigitsValue("9") == 9 by {
      assert "9"[..0] == "";
    }
  }

  lemma TwoDigits(a: char, b: char)
    requires IsDigit(a) && IsDigit(b)
    ensures DigitsValue([a, b]) == 10 * DigitValue(a) + DigitValue(b)
  {
    assert DigitsValue([a]) == DigitValue(a) by {
      assert [a][..0] == [];
    }
    assert [a, b][..1] == [a];
  }


  /** Every time has a numeric start: the comparator is then consistent and the order defined. */
  predicate TimesReadable(exams: seq<Item>) {
    forall i :: 0 <= i < |exams| ==> StartMinute(exams[i].hora).Some?
  }

  /** The sort key: the start minute (of a readable time). */
  function TimeKey(it: Item): real {
    StartMinute(it.hora).GetOr(0) as real
  }

  /** The sorted list: a stable sort of the items by start minute. */
  function ByTime(exams: seq<Item>): seq<Item> {
    SortBy(exams, TimeKey)
  }

  /**
   * The sorted list is a permutation of the input, non-decreasing in start minute, and keeps
   * the input order of exams that start at the same minute.
   */
  lemma ByTimeSpec(exams: seq<Item>)
    requires TimesReadable(exams)
    ensures multiset(ByTime(exams)) == multiset(exams)
    ensures TimesReadable(ByTime(exams))
    ensures forall i, j :: 0 <= i < j < |ByTime(exams)| ==> TimeKey(ByTime(exams)[i]) <= TimeKey(ByTime(exams)[j])
    ensures forall k :: WithKey(ByTime(exams), TimeKey, k) == WithKey(exams, TimeKey, k)
  {
    var r := ByTime(exams);
    SortByPermutes(exams, TimeKey);
    SortBySorted(exams, TimeKey);
    forall i | 0 <= i < |r| ensures StartMinute(r[i].hora).Some? {
      assert r[i] in multiset(exams);
      var j :| 0 <= j < |exams| && exams[j] == r[i];
    }
    forall k ensures WithKey(r, TimeKey, k) == WithKey(exams, TimeKey, k) {
      SortByStable(exams, TimeKey, k);
    }
  }

  /** `exams.slice().sort(...)`: a new array holding the sorted copy; `exams` is only read. */
  method SortExamsByTime(exams: array<Item>) returns (sorted: array<Item>)
    requires TimesReadable(exams[..])
    ensures fresh(sorted)
    ensures sorted[..] == ByTime(exams[..])
  {
    var order := ByTime(exams[..]);
    sorted := new Item[exams.Length];
    for i := 0 to exams.Length
      invariant sorted[..i] == order[..i]
    {
      sorted[i] := order[i];
    }
    assert sorted[..] == sorted[..exams.Length];
  }
}
