/**
 * The exam catalog (`DB`): subjects with their weight table, exam types and exams, and the table
 * of weekly moments; plus the three lookups the recommendation engine does on it — the weight of
 * an exam type, the moment a (date, time) slot falls on, and the weight of a moment.
 */
module Catalog {
  import opened Common
  import opened Dates

  /** A moment's code, the key of `DB['momentos']`. */
  type MomentId = string

  /** A recurring weekly slot: weekday name (`dia`), time range text (`hora`) and weight (`peso`). */
  datatype Moment = Moment(dia: string, hora: string, peso: real)

  /** One confirmed (date, time) of an exam. `fecha` is `None` when the date is missing or empty;
      `hora` is the empty string when the time is missing or empty. */
  datatype Slot = Slot(fecha: Option<Date>, hora: string)

  /** An exam: its type (`tipo_examen`, may be missing), its slots (`fechas_horas`) and duration. */
  datatype Exam = Exam(tipo: Option<string>, slots: seq<Slot>, duracion: Option<string>)

  /** A subject: weights by exam-type position (`peso`, may be missing), exam types (`tipo_examen`),
      the moments it may use (`momentos`) and its exams (`examenes`). A missing `tipo_examen`,
      `momentos` or `examenes` list is the empty list: every reader treats the two alike. */
  datatype Subject = Subject(peso: Option<seq<real>>, tipos: seq<string>, momentos: seq<MomentId>, examenes: seq<Exam>)

  /** The whole database: subjects and moments by key, in the dictionaries' insertion order. */
  datatype Db = Db(asignaturas: seq<(string, Subject)>, momentos: seq<(MomentId, Moment)>)

  /** One scheduled exam occurrence of the day index: (date, moment or none, subject weight). */
  datatype Entry = Entry(fecha: Date, momento: Option<MomentId>, peso: real)

  /** Position of the first occurrence of `x` in `s` (Python's `list.index`). */
  function FirstIndex(s: seq<string>, x: string): (i: nat)
    requires x in s
    ensures i < |s| && s[i] == x && x !in s[..i]
  {
    if s[0] == x then 0 else FirstIndex(s[1..], x) + 1
  }

  /**
   * The weight of an exam type: the weight at the position of the type in `tipos`, position 0
   * when the type is missing or unknown, and `pesos[0]` when that position is past the end of
   * `pesos` (the list lookup with default at app.py lines 164-169 and 571-575).
   */
  function LookupWeight(pesos: seq<real>, tipos: seq<string>, t: Option<string>): (w: real)
    requires |pesos| > 0
    ensures w in pesos
    ensures t.Some? ==> forall i :: 0 <= i < |tipos| && tipos[i] == t.value && t.value !in tipos[..i] ==>
              w == if i < |pesos| then pesos[i] else pesos[0]
    ensures (t.None? || t.value !in tipos) ==> w == pesos[0]
  {
    var idx := if t.Some? && t.value in tipos then FirstIndex(tipos, t.value) else 0;
    if idx < |pesos| then pesos[idx] else pesos[0]
  }

  /** Whether the weight table of `s` can be read: a `peso` list that is present must not be empty,
      since the lookup falls back to its first element. */
  predicate HasWeights(s: Subject) {
    s.peso.None? || |s.peso.value| > 0
  }

  /** The subject weight the day index records for exam `e` of subject `s` (default table `[0.0]`). */
  function IndexWeight(s: Subject, e: Exam): (w: real)
    requires HasWeights(s)
    ensures s.peso.None? ==> w == 0.0
    ensures s.peso.Some? ==> w in s.peso.value
  {
    LookupWeight(s.peso.GetOr([0.0]), s.tipos, e.tipo)
  }

  /** The weight `buscar_mejor_dia` passes for the exam being placed: default table `[1.0]`, and a
      missing or empty exam type reads as "corriente". */
  function StudiedWeight(s: Subject, e: Exam): (w: real)
    requires HasWeights(s)
    ensures s.peso.None? ==> w == 1.0
    ensures s.peso.Some? ==> w in s.peso.value
    ensures HasWeights(s) && s.peso.Some? && (e.tipo.None? || e.tipo.value == "") && "corriente" !in s.tipos ==>
              w == s.peso.value[0]
  {
    var tipo := if e.tipo.None? || e.tipo.value == "" then "corriente" else e.tipo.value;
    LookupWeight(s.peso.GetOr([1.0]), s.tipos, Some(tipo))
  }

  /** Whether moment `m` has time range `hora` and, when `dia` is given, that weekday name. */
  predicate Fits(m: Moment, hora: string, dia: Option<string>) {
    m.hora == hora && (dia.None? || m.dia == dia.value)
  }

  /** The code of the first moment, in table order, that fits `hora` and `dia`. */
  function FindMoment(ms: seq<(MomentId, Moment)>, hora: string, dia: Option<string>): (r: Option<MomentId>)
    ensures r.None? <==> forall i :: 0 <= i < |ms| ==> !Fits(ms[i].1, hora, dia)
    ensures r.Some? ==> exists i :: 0 <= i < |ms| && ms[i].0 == r.value && Fits(ms[i].1, hora, dia) &&
                                    forall j :: 0 <= j < i ==> !Fits(ms[j].1, hora, dia)
  {
    if ms == [] then None
    else if Fits(ms[0].1, hora, dia) then Some(ms[0].0)
    else
      var r := FindMoment(ms[1..], hora, dia);
      assert forall i :: 1 <= i < |ms| ==> ms[i] == ms[1..][i - 1];
      r
  }

  /**
   * The moment a slot at time `hora` on date `d` falls on: the first moment with that time on that
   * weekday, else the first moment with that time on any weekday, else none.
   */
  function Resolve(ms: seq<(MomentId, Moment)>, hora: string, d: Date): (r: Option<MomentId>)
    ensures r.None? <==> forall i :: 0 <= i < |ms| ==> ms[i].1.hora != hora
    ensures FindMoment(ms, hora, Some(DayName(d))).Some? ==> r == FindMoment(ms, hora, Some(DayName(d)))
    ensures r.Some? ==> exists i :: 0 <= i < |ms| && ms[i].0 == r.value && ms[i].1.hora == hora
    ensures FindMoment(ms, hora, Some(DayName(d))).None? ==> r == FindMoment(ms, hora, None)
    ensures FindMoment(ms, hora, Some(DayName(d))).None? && r.Some? ==>
              exists i :: 0 <= i < |ms| && ms[i].0 == r.value && ms[i].1.hora == hora &&
                          forall j :: 0 <= j < i ==> ms[j].1.hora != hora
  {
    var sameDay := FindMoment(ms, hora, Some(DayName(d)));
    if sameDay.Some? then sameDay else FindMoment(ms, hora, None)
  }

  /** The weight of a moment: 1.0 (neutral) when there is no moment or its code is not in the table. */
  function MomentWeight(ms: seq<(MomentId, Moment)>, id: Option<MomentId>): (w: real)
    ensures id.None? ==> w == 1.0
    ensures id.Some? && (forall i :: 0 <= i < |ms| ==> ms[i].0 != id.value) ==> w == 1.0
    ensures id.Some? ==> forall i :: 0 <= i < |ms| && ms[i].0 == id.value && (forall j :: 0 <= j < i ==> ms[j].0 != id.value) ==>
              w == ms[i].1.peso
  {
    if id.None? || ms == [] then 1.0
    else if ms[0].0 == id.value then ms[0].1.peso
    else
      assert forall i :: 1 <= i < |ms| ==> ms[i] == ms[1..][i - 1];
      MomentWeight(ms[1..], id)
  }

  /**
   * The two searches of the source, as loops that stop at the first hit: by time and weekday,
   * then by time alone.
   */
  method ResolveMoment(ms: seq<(MomentId, Moment)>, hora: string, d: Date) returns (id: Option<MomentId>)
    ensures id == Resolve(ms, hora, d)
  {
    id := None;
    var dia := DayName(d);
    var i := 0;
    while i < |ms|
      invariant 0 <= i <= |ms|
      invariant id.None? ==> forall j :: 0 <= j < i ==> !Fits(ms[j].1, hora, Some(dia))
      invariant id.Some? ==> id == FindMoment(ms, hora, Some(dia))
    {
      if ms[i].1.hora == hora && ms[i].1.dia == dia {
        id := Some(ms[i].0);
        FirstFitIsFound(ms, hora, Some(dia), i);
        break;
      }
      i := i + 1;
    }
    if id.None? {
      i := 0;
      while i < |ms|
        invariant 0 <= i <= |ms|
        invariant id.None? ==> forall j :: 0 <= j < i ==> !Fits(ms[j].1, hora, None)
        invariant id.Some? ==> id == FindMoment(ms, hora, None)
      {
        if ms[i].1.hora == hora {
          id := Some(ms[i].0);
          FirstFitIsFound(ms, hora, None, i);
          break;
        }
        i := i + 1;
      }
    }
  }

  /** The first fitting position is the one `FindMoment` reports. */
  lemma {:induction false} FirstFitIsFound(ms: seq<(MomentId, Moment)>, hora: string, dia: Option<string>, i: nat)
    requires i < |ms| && Fits(ms[i].1, hora, dia)
    requires forall j :: 0 <= j < i ==> !Fits(ms[j].1, hora, dia)
    ensures FindMoment(ms, hora, dia) == Some(ms[i].0)
  {
    if i > 0 {
      FirstFitIsFound(ms[1..], hora, dia, i - 1);
    }
  }
}
