/**
 * The available dates of a subject (`api_momentos`): for every day from the start date to sixty
 * days later, both included, and for every moment code of the subject in order, the day is offered
 * at that moment when the day's weekday is the code's leading digit (0 is Monday).
 *
 * The start date is a parameter (the source reads today's date). The request fails when a code is
 * empty or does not start with a digit (`int(m[0])` raises), or when a code whose digit names a
 * weekday is not in the moment table (the lookup of its time raises).
 */
module Offers {
  import opened Common
  import opened Dates
  import opened Text
  import opened Catalog

  /** One entry of `fechas_disponibles`: moment code, date and the moment's time. */
  datatype Offer = Offer(codigo: MomentId, fecha: Date, hora: string)

  /** The last offered day is this many days after the first. */
  const Horizon: nat := 60

  /** `int(m[0])`: the weekday a moment code names. */
  function LeadingDigit(m: MomentId): (r: Option<int>)
    ensures r.Some? <==> m != "" && IsDigit(m[0])
    ensures r.Some? ==> r.value == DigitValue(m[0])
  {
    if m == "" then None
    else
      assert m[..1] == [m[0]];
      assert [m[0]][..0] == [];
      assert IsDigit(m[0]) ==> DigitsValue([m[0]]) == DigitValue(m[0]);
      ParseInt(m[..1])
  }

  /** `detalles[m]['hora']`: the time of the first moment with code `m`, if any. */
  function HoraOf(ms: seq<(MomentId, Moment)>, m: MomentId): (r: Option<string>)
    ensures r.None? <==> forall i :: 0 <= i < |ms| ==> ms[i].0 != m
    ensures r.Some? ==> exists i :: 0 <= i < |ms| && ms[i].0 == m && ms[i].1.hora == r.value
  {
    if ms == [] then None
    else if ms[0].0 == m then Some(ms[0].1.hora)
    else
      assert forall i :: 1 <= i < |ms| ==> ms[i] == ms[1..][i - 1];
      HoraOf(ms[1..], m)
  }

  /** The request fails: some code has no leading digit, or names a weekday and has no moment. */
  predicate Fails(ids: seq<MomentId>, ms: seq<(MomentId, Moment)>) {
    exists i :: 0 <= i < |ids| && (LeadingDigit(ids[i]).None? ||
      (0 <= LeadingDigit(ids[i]).value <= 6 && HoraOf(ms, ids[i]).None?))
  }

  /** The offers of one day, in code order. */
  function DayOffers(dia: Date, ids: seq<MomentId>, ms: seq<(MomentId, Moment)>): seq<Offer> {
    if ids == [] then []
    else
      var m := ids[|ids| - 1];
      var more := if LeadingDigit(m) == Some(Weekday(dia)) && HoraOf(ms, m).Some?
                  then [Offer(m, dia, HoraOf(ms, m).value)] else [];
      DayOffers(dia, ids[..|ids| - 1], ms) + more
  }

  /** The offers of the first `n` days from `start`, day after day. */
  function OffersOver(start: Date, n: nat, ids: seq<MomentId>, ms: seq<(MomentId, Moment)>): seq<Offer> {
    if n == 0 then [] else OffersOver(start, n - 1, ids, ms) + DayOffers(start + n - 1, ids, ms)
  }

  /** The answer of the request: `None` when it fails, else every offer of the window. */
  function AvailableDates(start: Date, ids: seq<MomentId>, ms: seq<(MomentId, Moment)>): Option<seq<Offer>> {
    if Fails(ids, ms) then None else Some(OffersOver(start, Horizon + 1, ids, ms))
  }

  /** The offer belongs to one of the codes, falls on the weekday the code names, and carries the
      code's time. */
  predicate Offered(o: Offer, ids: seq<MomentId>, ms: seq<(MomentId, Moment)>) {
    o.codigo in ids && LeadingDigit(o.codigo) == Some(Weekday(o.fecha)) && HoraOf(ms, o.codigo) == Some(o.hora)
  }

  /** An offer is on a given day exactly when its code names that day's weekday and has a time. */
  lemma {:induction false} DayOffersMembers(dia: Date, ids: seq<MomentId>, ms: seq<(MomentId, Moment)>, o: Offer)
    ensures o in DayOffers(dia, ids, ms) <==> o.fecha == dia && Offered(o, ids, ms)
  {
    if ids != [] {
      var init, m := ids[..|ids| - 1], ids[|ids| - 1];
      DayOffersMembers(dia, init, ms, o);
      assert ids == init + [m];
      assert o.codigo in ids <==> o.codigo in init || o.codigo == m;
    }
  }

  lemma {:induction false} OffersOverMembers(start: Date, n: nat, ids: seq<MomentId>, ms: seq<(MomentId, Moment)>, o: Offer)
    ensures o in OffersOver(start, n, ids, ms) <==> start <= o.fecha < start + n && Offered(o, ids, ms)
  {
    if n > 0 {
      var before, today := OffersOver(start, n - 1, ids, ms), DayOffers(start + n - 1, ids, ms);
      var offered := Offered(o, ids, ms);
      OffersOverMembers(start, n - 1, ids, ms, o);
      DayOffersMembers(start + n - 1, ids, ms, o);
      assert (o in before) == (start <= o.fecha < start + n - 1 && offered);
      assert (o in today) == (o.fecha == start + n - 1 && offered);
      assert OffersOver(start, n, ids, ms) == before + today;
      assert o in before + today <==> o in before || o in today;
    }
  }

  lemma {:induction false} DayOffersOnDay(dia: Date, ids: seq<MomentId>, ms: seq<(MomentId, Moment)>)
    ensures forall o :: o in DayOffers(dia, ids, ms) ==> o.fecha == dia
  {
    if ids != [] {
      DayOffersOnDay(dia, ids[..|ids| - 1], ms);
    }
  }

  lemma {:induction false} OffersOverChronological(start: Date, n: nat, ids: seq<MomentId>, ms: seq<(MomentId, Moment)>)
    ensures forall o :: o in OffersOver(start, n, ids, ms) ==> start <= o.fecha < start + n
    ensures forall i, j :: 0 <= i < j < |OffersOver(start, n, ids, ms)| ==>
              OffersOver(start, n, ids, ms)[i].fecha <= OffersOver(start, n, ids, ms)[j].fecha
  {
    if n > 0 {
      OffersOverChronological(start, n - 1, ids, ms);
      DayOffersOnDay(start + n - 1, ids, ms);
      var a, b := OffersOver(start, n - 1, ids, ms), DayOffers(start + n - 1, ids, ms);
      assert forall i :: 0 <= i < |a| ==> a[i] in a;
      assert forall j :: 0 <= j < |b| ==> b[j] in b;
    }
  }

  /**
   * The window: an offer is listed exactly when its code is one of the subject's, its date is
   * within sixty days of the start, the date's weekday is the code's digit, and its time is the
   * moment's; offers come day after day.
   */
  lemma AvailableDatesSpec(start: Date, ids: seq<MomentId>, ms: seq<(MomentId, Moment)>)
    ensures AvailableDates(start, ids, ms).None? <==> Fails(ids, ms)
    ensures AvailableDates(start, ids, ms).Some? ==>
              forall o :: o in AvailableDates(start, ids, ms).value <==>
                o.codigo in ids && start <= o.fecha <= start + Horizon &&
                LeadingDigit(o.codigo) == Some(Weekday(o.fecha)) && HoraOf(ms, o.codigo) == Some(o.hora)
    ensures AvailableDates(start, ids, ms).Some? ==>
              forall i, j :: 0 <= i < j < |AvailableDates(start, ids, ms).value| ==>
                AvailableDates(start, ids, ms).value[i].fecha <= AvailableDates(start, ids, ms).value[j].fecha
  {
    if !Fails(ids, ms) {
      forall o ensures o in OffersOver(start, Horizon + 1, ids, ms) <==>
                         o.codigo in ids && start <= o.fecha <= start + Horizon &&
                         LeadingDigit(o.codigo) == Some(Weekday(o.fecha)) && HoraOf(ms, o.codigo) == Some(o.hora) {
        OffersOverMembers(start, Horizon + 1, ids, ms, o);
      }
      OffersOverChronological(start, Horizon + 1, ids, ms);
    }
  }

  /** Whether weekday `w` occurs among the first `n` days from `start`. */
  predicate Covered(start: Date, n: nat, w: int) {
    (w - start % 7 + 7) % 7 < n
  }

  lemma CoveredStep(start: Date, n: nat, w: int)
    requires 0 <= w <= 6
    ensures Covered(start, n + 1, w) <==> Covered(start, n, w) || Weekday(start + n) == w
  {
    var k := (w - start % 7 + 7) % 7;
    assert (start + k) % 7 == w;
    if n < 7 && Weekday(start + n) == w {
      assert (start + n) % 7 == (start + k) % 7;
      assert k == n;
    }
  }

  lemma DayOffersStep(dia: Date, ids: seq<MomentId>, ms: seq<(MomentId, Moment)>, i: nat)
    requires i < |ids|
    ensures DayOffers(dia, ids[..i + 1], ms) == DayOffers(dia, ids[..i], ms) +
              (if LeadingDigit(ids[i]) == Some(Weekday(dia)) && HoraOf(ms, ids[i]).Some?
               then [Offer(ids[i], dia, HoraOf(ms, ids[i]).value)] else [])
  {
    assert ids[..i + 1][..i] == ids[..i];
  }

  /** Sixty-one days hold every weekday: when every code has a digit and every code naming a
      weekday of the window has a time, the request does not fail. */
  lemma WindowCoversWeek(start: Date, ids: seq<MomentId>, ms: seq<(MomentId, Moment)>)
    requires forall i :: 0 <= i < |ids| ==> LeadingDigit(ids[i]).Some?
    requires forall i :: 0 <= i < |ids| ==>
               (LeadingDigit(ids[i]).Some? && 0 <= LeadingDigit(ids[i]).value <= 6 && Covered(start, Horizon + 1, LeadingDigit(ids[i]).value)
                ==> HoraOf(ms, ids[i]).Some?)
    ensures !Fails(ids, ms)
  {
    forall i | 0 <= i < |ids| && 0 <= LeadingDigit(ids[i]).value <= 6
      ensures Covered(start, Horizon + 1, LeadingDigit(ids[i]).value)
    {
    }
  }

  /** The inner loop over the codes for one day; `None` is the exception that ends the request. */
  method DayLoop(dia: Date, ids: seq<MomentId>, ms: seq<(MomentId, Moment)>) returns (r: Option<seq<Offer>>)
    ensures r.None? ==> Fails(ids, ms)
    ensures r.Some? ==> r.value == DayOffers(dia, ids, ms)
    ensures r.Some? ==> forall i :: 0 <= i < |ids| ==>
              LeadingDigit(ids[i]).Some? && (LeadingDigit(ids[i]).value == Weekday(dia) ==> HoraOf(ms, ids[i]).Some?)
  {
    var found: seq<Offer> := [];
    for i := 0 to |ids|
      invariant found == DayOffers(dia, ids[..i], ms)
      invariant forall j :: 0 <= j < i ==>
                  LeadingDigit(ids[j]).Some? && (LeadingDigit(ids[j]).value == Weekday(dia) ==> HoraOf(ms, ids[j]).Some?)
    {
      DayOffersStep(dia, ids, ms, i);
      var m := ids[i];
      var w := LeadingDigit(m);
      if w.None? {
        return None;
      }
      if Weekday(dia) == w.value {
        var h := HoraOf(ms, m);
        if h.None? {
          return None;
        }
        found := found + [Offer(m, dia, h.value)];
      }
    }
    assert ids[..|ids|] == ids;
    return Some(found);
  }

  /** The nested loops of the source: days of the window, then the subject's codes. */
  method ListAvailable(start: Date, ids: seq<MomentId>, ms: seq<(MomentId, Moment)>) returns (r: Option<seq<Offer>>)
    ensures r == AvailableDates(start, ids, ms)
  {
    var fechas: seq<Offer> := [];
    for d := 0 to Horizon + 1
      invariant fechas == OffersOver(start, d, ids, ms)
      invariant d > 0 ==> forall i :: 0 <= i < |ids| ==> LeadingDigit(ids[i]).Some?
      invariant forall i :: 0 <= i < |ids| ==>
                  (LeadingDigit(ids[i]).Some? && 0 <= LeadingDigit(ids[i]).value <= 6 && Covered(start, d, LeadingDigit(ids[i]).value)
                   ==> HoraOf(ms, ids[i]).Some?)
    {
      var day := DayLoop(start + d, ids, ms);
      if day.None? {
        return None;
      }
      forall i | 0 <= i < |ids| && LeadingDigit(ids[i]).Some? && 0 <= LeadingDigit(ids[i]).value <= 6
        ensures Covered(start, d + 1, LeadingDigit(ids[i]).value) <==>
                  Covered(start, d, LeadingDigit(ids[i]).value) || Weekday(start + d) == LeadingDigit(ids[i]).value
      {
        CoveredStep(start, d, LeadingDigit(ids[i]).value);
      }
      fechas := fechas + day.value;
    }
    WindowCoversWeek(start, ids, ms);
    return Some(fechas);
  }
}
