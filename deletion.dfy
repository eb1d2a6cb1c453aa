/**
 * Deleting one confirmed (date, time) of a subject (`eliminar_examen`): every slot of the subject's
 * exams at that date and time is removed, an exam left without slots is removed, and the request
 * fails when the subject is unknown or nothing matched.
 *
 * Two versions of the exam removal are modelled. `DeleteSpec` and `ExamList.DeleteSlot` remove the
 * emptied exam itself. `DeleteAsWritten` follows Python's `list.remove`, which removes the first
 * exam EQUAL to the emptied one; `RemovesAnotherExam` exhibits a catalog where the two differ.
 */
module Deletion {
  import opened Common
  import opened Dates
  import opened Buckets
  import opened Catalog

  /** Whether a slot is the one being deleted. */
  predicate Matches(s: Slot, fecha: Date, hora: string) {
    s.fecha == Some(fecha) && s.hora == hora
  }

  /** `nuevas_fechas`: the slots that do not match, in order. */
  function KeepSlots(slots: seq<Slot>, fecha: Date, hora: string): (r: seq<Slot>)
    ensures |r| <= |slots|
  {
    if slots == [] then []
    else
      var last := slots[|slots| - 1];
      KeepSlots(slots[..|slots| - 1], fecha, hora) + (if Matches(last, fecha, hora) then [] else [last])
  }

  /** How many slots match. */
  function MatchCount(slots: seq<Slot>, fecha: Date, hora: string): nat {
    if slots == [] then 0
    else MatchCount(slots[..|slots| - 1], fecha, hora) + (if Matches(slots[|slots| - 1], fecha, hora) then 1 else 0)
  }

  /**
   * Filtering keeps exactly the slots that do not match: one slot is dropped per match, a slot
   * survives if and only if it does not match, and nothing changes when nothing matches.
   */
  lemma {:induction false} KeepSlotsSpec(slots: seq<Slot>, fecha: Date, hora: string)
    ensures |KeepSlots(slots, fecha, hora)| + MatchCount(slots, fecha, hora) == |slots|
    ensures forall s :: s in KeepSlots(slots, fecha, hora) <==> s in slots && !Matches(s, fecha, hora)
    ensures MatchCount(slots, fecha, hora) == 0 ==> KeepSlots(slots, fecha, hora) == slots
  {
    if slots != [] {
      var init, last := slots[..|slots| - 1], slots[|slots| - 1];
      KeepSlotsSpec(init, fecha, hora);
      assert slots == init + [last];
      var kept := KeepSlots(init, fecha, hora);
      if Matches(last, fecha, hora) {
        assert KeepSlots(slots, fecha, hora) == kept;
      } else {
        assert KeepSlots(slots, fecha, hora) == kept + [last];
      }
    }
  }

  lemma {:induction false} KeepSlotsAppend(a: seq<Slot>, b: seq<Slot>, fecha: Date, hora: string)
    ensures KeepSlots(a + b, fecha, hora) == KeepSlots(a, fecha, hora) + KeepSlots(b, fecha, hora)
  {
    if b == [] {
      assert a + b == a;
    } else {
      var init := b[..|b| - 1];
      KeepSlotsAppend(a, init, fecha, hora);
      assert (a + b)[..|a + b| - 1] == a + init;
    }
  }

  /** What happens to one exam: kept as is when nothing matched, dropped when every slot matched,
      otherwise kept with its remaining slots. */
  function UpdateExam(e: Exam, fecha: Date, hora: string): seq<Exam> {
    var nuevas := KeepSlots(e.slots, fecha, hora);
    if |nuevas| == |e.slots| then [e] else if nuevas == [] then [] else [e.(slots := nuevas)]
  }

  /** The exam list after the deletion, with each emptied exam itself removed. */
  function DeleteSpec(exams: seq<Exam>, fecha: Date, hora: string): (r: seq<Exam>)
    ensures |r| <= |exams|
  {
    if exams == [] then []
    else DeleteSpec(exams[..|exams| - 1], fecha, hora) + UpdateExam(exams[|exams| - 1], fecha, hora)
  }

  /** The slots of all exams, exam after exam. */
  function AllSlots(exams: seq<Exam>): seq<Slot> {
    if exams == [] then [] else AllSlots(exams[..|exams| - 1]) + exams[|exams| - 1].slots
  }

  /** How many slots match over all exams. */
  function ExamMatches(exams: seq<Exam>, fecha: Date, hora: string): nat {
    if exams == [] then 0
    else ExamMatches(exams[..|exams| - 1], fecha, hora) + MatchCount(exams[|exams| - 1].slots, fecha, hora)
  }

  lemma {:induction false} AllSlotsAppend(a: seq<Exam>, b: seq<Exam>)
    ensures AllSlots(a + b) == AllSlots(a) + AllSlots(b)
  {
    if b == [] {
      assert a + b == a;
    } else {
      var init := b[..|b| - 1];
      AllSlotsAppend(a, init);
      assert (a + b)[..|a + b| - 1] == a + init;
    }
  }

  lemma UpdateExamSlots(e: Exam, fecha: Date, hora: string)
    ensures AllSlots(UpdateExam(e, fecha, hora)) == KeepSlots(e.slots, fecha, hora)
    ensures |KeepSlots(e.slots, fecha, hora)| == |e.slots| <==> MatchCount(e.slots, fecha, hora) == 0
  {
    KeepSlotsSpec(e.slots, fecha, hora);
    var u := UpdateExam(e, fecha, hora);
    if |u| == 1 {
      assert AllSlots(u) == AllSlots([]) + u[0].slots;
    }
  }

  /**
   * The slots left over all exams are exactly the slots that did not match, in their order: every
   * matching slot of every exam is gone and every other slot is still there.
   */
  lemma {:induction false} DeleteSlots(exams: seq<Exam>, fecha: Date, hora: string)
    ensures AllSlots(DeleteSpec(exams, fecha, hora)) == KeepSlots(AllSlots(exams), fecha, hora)
  {
    if exams != [] {
      var init, last := exams[..|exams| - 1], exams[|exams| - 1];
      DeleteSlots(init, fecha, hora);
      AllSlotsAppend(DeleteSpec(init, fecha, hora), UpdateExam(last, fecha, hora));
      UpdateExamSlots(last, fecha, hora);
      KeepSlotsAppend(AllSlots(init), last.slots, fecha, hora);
    }
  }

  /** As many slots are removed as matched, and none of the remaining slots matches. */
  lemma DeleteCount(exams: seq<Exam>, fecha: Date, hora: string)
    ensures |AllSlots(DeleteSpec(exams, fecha, hora))| + ExamMatches(exams, fecha, hora) == |AllSlots(exams)|
    ensures forall s :: s in AllSlots(DeleteSpec(exams, fecha, hora)) ==> !Matches(s, fecha, hora)
  {
    DeleteSlots(exams, fecha, hora);
    KeepSlotsSpec(AllSlots(exams), fecha, hora);
    MatchesAdd(exams, fecha, hora);
  }

  lemma {:induction false} MatchesAdd(exams: seq<Exam>, fecha: Date, hora: string)
    ensures ExamMatches(exams, fecha, hora) == MatchCount(AllSlots(exams), fecha, hora)
  {
    if exams != [] {
      var init, last := exams[..|exams| - 1], exams[|exams| - 1];
      MatchesAdd(init, fecha, hora);
      MatchCountAppend(AllSlots(init), last.slots, fecha, hora);
    }
  }

  lemma {:induction false} MatchCountAppend(a: seq<Slot>, b: seq<Slot>, fecha: Date, hora: string)
    ensures MatchCount(a + b, fecha, hora) == MatchCount(a, fecha, hora) + MatchCount(b, fecha, hora)
  {
    if b == [] {
      assert a + b == a;
    } else {
      var init := b[..|b| - 1];
      MatchCountAppend(a, init, fecha, hora);
      assert (a + b)[..|a + b| - 1] == a + init;
    }
  }

  /**
   * Exams are kept or dropped as a whole: an exam with no matching slot survives unchanged, and
   * an exam without slots in the result was already without slots before (emptied exams are gone).
   */
  lemma {:induction false} DeleteExams(exams: seq<Exam>, fecha: Date, hora: string)
    ensures forall e :: e in exams && MatchCount(e.slots, fecha, hora) == 0 ==> e in DeleteSpec(exams, fecha, hora)
    ensures forall e :: e in DeleteSpec(exams, fecha, hora) && e.slots == [] ==> e in exams
  {
    if exams != [] {
      var init, last := exams[..|exams| - 1], exams[|exams| - 1];
      DeleteExams(init, fecha, hora);
      UpdateExamSlots(last, fecha, hora);
      assert exams == init + [last];
    }
  }

  /** When nothing matches, the exam list is left exactly as it was. */
  lemma {:induction false} DeleteNothing(exams: seq<Exam>, fecha: Date, hora: string)
    requires ExamMatches(exams, fecha, hora) == 0
    ensures DeleteSpec(exams, fecha, hora) == exams
  {
    if exams != [] {
      var init, last := exams[..|exams| - 1], exams[|exams| - 1];
      DeleteNothing(init, fecha, hora);
      UpdateExamSlots(last, fecha, hora);
      assert exams == init + [last];
    }
  }

  /** Deleting twice is deleting once. */
  lemma {:induction false} DeleteIdempotent(exams: seq<Exam>, fecha: Date, hora: string)
    ensures DeleteSpec(DeleteSpec(exams, fecha, hora), fecha, hora) == DeleteSpec(exams, fecha, hora)
  {
    var r := DeleteSpec(exams, fecha, hora);
    DeleteCount(exams, fecha, hora);
    MatchesAdd(r, fecha, hora);
    KeepSlotsSpec(AllSlots(r), fecha, hora);
    NoMatchNoCount(AllSlots(r), fecha, hora);
    DeleteNothing(r, fecha, hora);
  }

  lemma {:induction false} NoMatchNoCount(slots: seq<Slot>, fecha: Date, hora: string)
    requires forall s :: s in slots ==> !Matches(s, fecha, hora)
    ensures MatchCount(slots, fecha, hora) == 0
  {
    if slots != [] {
      NoMatchNoCount(slots[..|slots| - 1], fecha, hora);
    }
  }

  /** The exam list of one subject, which the deletion rewrites in place. */
  class ExamList {
    var examenes: seq<Exam>

    constructor (exams: seq<Exam>)
      ensures examenes == exams
    {
      examenes := exams;
    }

    /**
     * The loop over a copy of the list: each exam's slots are filtered; when some slot went, the
     * exam gets the remaining slots, or is removed when none remain. Returns whether anything
     * was deleted.
     */
    method DeleteSlot(fecha: Date, hora: string) returns (eliminado: bool)
      modifies this
      ensures examenes == DeleteSpec(old(examenes), fecha, hora)
      ensures eliminado <==> ExamMatches(old(examenes), fecha, hora) > 0
    {
      examenes, eliminado := DeleteLoop(examenes, fecha, hora);
    }
  }

  /** The loop over a copy of the list, rewriting the list as it goes. */
  method DeleteLoop(copia: seq<Exam>, fecha: Date, hora: string) returns (examenes: seq<Exam>, eliminado: bool)
    ensures examenes == DeleteSpec(copia, fecha, hora)
    ensures eliminado <==> ExamMatches(copia, fecha, hora) > 0
  {
    examenes := copia;
    eliminado := false;
    var pos := 0;
    for i := 0 to |copia|
      invariant examenes == DeleteSpec(copia[..i], fecha, hora) + copia[i..]
      invariant pos == |DeleteSpec(copia[..i], fecha, hora)|
      invariant eliminado <==> ExamMatches(copia[..i], fecha, hora) > 0
    {
      ghost var done, u := DeleteSpec(copia[..i], fecha, hora), UpdateExam(copia[i], fecha, hora);
      DeleteSpecStep(copia, i, fecha, hora);
      assert copia[i..][0] == copia[i] && copia[i..][1..] == copia[i + 1..];
      var hit;
      examenes, pos, hit := RewriteExam(examenes, pos, fecha, hora, done, copia[i..]);
      assert examenes == (done + u) + copia[i + 1..];
      eliminado := eliminado || hit;
    }
    assert copia[..|copia|] == copia;
  }

  lemma DeleteSpecStep(copia: seq<Exam>, i: nat, fecha: Date, hora: string)
    requires i < |copia|
    ensures DeleteSpec(copia[..i + 1], fecha, hora) == DeleteSpec(copia[..i], fecha, hora) + UpdateExam(copia[i], fecha, hora)
    ensures ExamMatches(copia[..i + 1], fecha, hora) == ExamMatches(copia[..i], fecha, hora) + MatchCount(copia[i].slots, fecha, hora)
  {
    assert copia[..i + 1][..i] == copia[..i];
  }

  /**
   * One step of the loop on the list being rewritten, whose exam at `pos` is the current one:
   * its slots are filtered and, when some slot went, it is given the remaining slots or, when none
   * remain, removed; `pos` moves past it unless it was removed.
   */
  method RewriteExam(cur: seq<Exam>, pos: nat, fecha: Date, hora: string, ghost done: seq<Exam>, ghost rest: seq<Exam>)
    returns (next: seq<Exam>, pos': nat, hit: bool)
    requires rest != [] && cur == done + rest && pos == |done|
    ensures next == done + UpdateExam(rest[0], fecha, hora) + rest[1..]
    ensures pos' == pos + |UpdateExam(rest[0], fecha, hora)|
    ensures hit <==> MatchCount(rest[0].slots, fecha, hora) > 0
  {
    UpdateExamSlots(rest[0], fecha, hora);
    StepCases(done, rest, fecha, hora);
    var ex := cur[pos];
    var nuevas := KeepSlots(ex.slots, fecha, hora);
    hit := |nuevas| != |ex.slots|;
    if hit {
      if nuevas == [] {
        next, pos' := cur[..pos] + cur[pos + 1..], pos;
      } else {
        next, pos' := cur[pos := ex.(slots := nuevas)], pos + 1;
      }
    } else {
      next, pos' := cur, pos + 1;
    }
  }

  /** Rewriting the current exam in place: leaving it, removing it, or replacing its slots. */
  lemma StepCases(done: seq<Exam>, rest: seq<Exam>, fecha: Date, hora: string)
    requires rest != []
    ensures var ex, nuevas := rest[0], KeepSlots(rest[0].slots, fecha, hora);
            var cur, next := done + rest, done + UpdateExam(rest[0], fecha, hora) + rest[1..];
            (|nuevas| == |ex.slots| ==> cur == next && |UpdateExam(ex, fecha, hora)| == 1) &&
            (|nuevas| != |ex.slots| && nuevas == [] ==> cur[..|done|] + cur[|done| + 1..] == next && |UpdateExam(ex, fecha, hora)| == 0) &&
            (|nuevas| != |ex.slots| && nuevas != [] ==> cur[|done| := ex.(slots := nuevas)] == next && |UpdateExam(ex, fecha, hora)| == 1)
  {
    assert done + rest == done + [rest[0]] + rest[1..];
  }

  // ---------- the request ----------

  /** The answer of the request: the subject is unknown (404), nothing matched (404), or deleted. */
  datatype Outcome = SubjectNotFound | NotFound | Deleted

  /** Position of the first subject named `name`. */
  function SubjectIndex(subs: seq<(string, Subject)>, name: string): (i: nat)
    requires name in Keys(subs)
    ensures i < |subs| && subs[i].0 == name && forall j :: 0 <= j < i ==> subs[j].0 != name
  {
    if subs[0].0 == name then 0
    else
      assert Keys(subs) == [subs[0].0] + Keys(subs[1..]);
      SubjectIndex(subs[1..], name) + 1
  }

  /**
   * The request on the catalog's subjects: unknown subject, nothing matched, or the subject's
   * exams replaced by the list after deletion. Only a successful deletion changes the catalog,
   * and then only the named subject's exams.
   */
  function Eliminar(subs: seq<(string, Subject)>, asignatura: string, hora: string, fecha: Date)
    : (r: (Outcome, seq<(string, Subject)>))
    ensures r.0 == SubjectNotFound <==> asignatura !in Keys(subs)
    ensures r.0 != Deleted ==> r.1 == subs
    ensures |r.1| == |subs|
    ensures forall i :: 0 <= i < |subs| && subs[i].0 != asignatura ==> r.1[i] == subs[i]
    ensures r.0 == Deleted ==>
              (exists i :: 0 <= i < |subs| && subs[i].0 == asignatura &&
                 r.1[i] == (asignatura, subs[i].1.(examenes := DeleteSpec(subs[i].1.examenes, fecha, hora))))
  {
    if asignatura !in Keys(subs) then (SubjectNotFound, subs)
    else
      var i := SubjectIndex(subs, asignatura);
      var s := subs[i].1;
      if ExamMatches(s.examenes, fecha, hora) == 0 then (NotFound, subs)
      else (Deleted, subs[i := (asignatura, s.(examenes := DeleteSpec(s.examenes, fecha, hora)))])
  }

  /** The request fails with "not found" exactly when the subject exists and none of its slots
      is at that date and time. */
  lemma EliminarNotFound(subs: seq<(string, Subject)>, asignatura: string, hora: string, fecha: Date)
    requires asignatura in Keys(subs)
    ensures Eliminar(subs, asignatura, hora, fecha).0 == NotFound <==>
              ExamMatches(subs[SubjectIndex(subs, asignatura)].1.examenes, fecha, hora) == 0
  {
  }

  // ---------- the removal as written ----------

  /** An exam object of the running list, tagged with its position in the copy being iterated,
      which stands for its identity. */
  type Tagged = (nat, Exam)

  function Tag(exams: seq<Exam>): (r: seq<Tagged>)
    ensures |r| == |exams| && forall i :: 0 <= i < |r| ==> r[i] == (i, exams[i])
  {
    seq(|exams|, i requires 0 <= i < |exams| => (i, exams[i]))
  }

  function Untag(cur: seq<Tagged>): (r: seq<Exam>)
    ensures |r| == |cur| && forall i :: 0 <= i < |r| ==> r[i] == cur[i].1
  {
    seq(|cur|, i requires 0 <= i < |cur| => cur[i].1)
  }

  /** `ex['fechas_horas'] = nuevas_fechas`: the object `k` takes the new value wherever it is. */
  function SetById(cur: seq<Tagged>, k: nat, e: Exam): (r: seq<Tagged>)
    ensures |r| == |cur|
    ensures forall i :: 0 <= i < |cur| ==> r[i] == if cur[i].0 == k then (k, e) else cur[i]
  {
    seq(|cur|, i requires 0 <= i < |cur| => if cur[i].0 == k then (k, e) else cur[i])
  }

  /** Python's `list.remove(e)`: removes the first element EQUAL to `e`, whichever object it is. */
  function RemoveFirstEqual(cur: seq<Tagged>, e: Exam): (r: seq<Tagged>)
    ensures |r| == |cur| || |r| == |cur| - 1
  {
    if cur == [] then []
    else if cur[0].1 == e then cur[1..]
    else [cur[0]] + RemoveFirstEqual(cur[1..], e)
  }

  /** `list.remove` drops the element at the first position holding an equal value, and leaves the
      list alone when no element is equal. */
  lemma RemoveFirstEqualSpec(cur: seq<Tagged>, e: Exam)
    ensures (forall i :: 0 <= i < |cur| ==> cur[i].1 != e) ==> RemoveFirstEqual(cur, e) == cur
    ensures forall i :: 0 <= i < |cur| && cur[i].1 == e && (forall j :: 0 <= j < i ==> cur[j].1 != e) ==>
              RemoveFirstEqual(cur, e) == cur[..i] + cur[i + 1..]
  {
    if forall i :: 0 <= i < |cur| ==> cur[i].1 != e {
      RemoveFirstEqualAbsent(cur, e);
    }
    forall i | 0 <= i < |cur| && cur[i].1 == e && (forall j :: 0 <= j < i ==> cur[j].1 != e)
      ensures RemoveFirstEqual(cur, e) == cur[..i] + cur[i + 1..]
    {
      RemoveFirstEqualAt(cur, e, i);
    }
  }

  lemma {:induction false} RemoveFirstEqualAbsent(cur: seq<Tagged>, e: Exam)
    requires forall i :: 0 <= i < |cur| ==> cur[i].1 != e
    ensures RemoveFirstEqual(cur, e) == cur
  {
    if cur != [] {
      assert forall i :: 0 <= i < |cur[1..]| ==> cur[1..][i] == cur[i + 1];
      RemoveFirstEqualAbsent(cur[1..], e);
      assert cur == [cur[0]] + cur[1..];
    }
  }

  lemma {:induction false} RemoveFirstEqualAt(cur: seq<Tagged>, e: Exam, i: nat)
    requires i < |cur| && cur[i].1 == e && forall j :: 0 <= j < i ==> cur[j].1 != e
    ensures RemoveFirstEqual(cur, e) == cur[..i] + cur[i + 1..]
  {
    if i > 0 {
      var tail := cur[1..];
      assert tail[i - 1] == cur[i];
      assert forall j :: 0 <= j < i - 1 ==> tail[j] == cur[j + 1];
      RemoveFirstEqualAt(tail, e, i - 1);
      assert cur[..i] == [cur[0]] + tail[..i - 1];
      assert cur[i + 1..] == tail[i..];
    }
  }

  /** One iteration as written, for the object `k` whose value is `e`. */
  function AsWrittenStep(cur: seq<Tagged>, k: nat, e: Exam, fecha: Date, hora: string): seq<Tagged> {
    var nuevas := KeepSlots(e.slots, fecha, hora);
    if |nuevas| == |e.slots| then cur
    else
      var upd := e.(slots := nuevas);
      var cur' := SetById(cur, k, upd);
      if nuevas == [] then RemoveFirstEqual(cur', upd) else cur'
  }

  /** The loop as written, from position `i` of the copy on. */
  function AsWrittenLoop(copia: seq<Exam>, i: nat, cur: seq<Tagged>, fecha: Date, hora: string): seq<Tagged>
    requires i <= |copia|
    decreases |copia| - i
  {
    if i == |copia| then cur
    else AsWrittenLoop(copia, i + 1, AsWrittenStep(cur, i, copia[i], fecha, hora), fecha, hora)
  }

  /** The exam list `eliminar_examen` leaves behind, with `list.remove` as the source calls it. */
  function DeleteAsWritten(exams: seq<Exam>, fecha: Date, hora: string): seq<Exam> {
    Untag(AsWrittenLoop(exams, 0, Tag(exams), fecha, hora))
  }

  /**
   * An earlier exam without slots that equals the emptied exam is removed in its place: with
   * exams [E0, Y, X] where E0 has no slots and X's only slot is deleted, the source leaves
   * [Y, X'] (X' equal to E0) where [E0, Y] was meant; the order of the exams changes.
   */
  lemma RemovesAnotherExam()
    ensures var target, other := Slot(Some(1), "9:00"), Slot(Some(2), "9:00");
            var e0, y, x := Exam(None, [], None), Exam(None, [other], None), Exam(None, [target], None);
            DeleteAsWritten([e0, y, x], 1, "9:00") == [y, e0] &&
            DeleteSpec([e0, y, x], 1, "9:00") == [e0, y] &&
            DeleteAsWritten([e0, y, x], 1, "9:00") != DeleteSpec([e0, y, x], 1, "9:00")
  {
    var target, other := Slot(Some(1), "9:00"), Slot(Some(2), "9:00");
    var e0, y, x := Exam(None, [], None), Exam(None, [other], None), Exam(None, [target], None);
    var exams := [e0, y, x];
    assert [other][..0] == [] && [target][..0] == [];
    assert KeepSlots([], 1, "9:00") == [];
    assert KeepSlots([other], 1, "9:00") == [other];
    assert KeepSlots([target], 1, "9:00") == [];
    var t := Tag(exams);
    assert t == [(0, e0), (1, y), (2, x)];
    assert AsWrittenStep(t, 0, e0, 1, "9:00") == t;
    assert AsWrittenStep(t, 1, y, 1, "9:00") == t;
    var set2 := SetById(t, 2, e0);
    assert set2 == [(0, e0), (1, y), (2, e0)];
    assert RemoveFirstEqual(set2, e0) == [(1, y), (2, e0)];
    var last := [(1, y), (2, e0)];
    assert AsWrittenStep(t, 2, x, 1, "9:00") == last;
    assert AsWrittenLoop(exams, 3, last, 1, "9:00") == last;
    assert AsWrittenLoop(exams, 2, t, 1, "9:00") == last;
    assert AsWrittenLoop(exams, 1, t, 1, "9:00") == last;
    assert AsWrittenLoop(exams, 0, t, 1, "9:00") == last;
    assert exams[..2][..1] == [e0] && exams[..2] == [e0, y] && exams[..1] == [e0];
    assert DeleteSpec([e0], 1, "9:00") == [e0];
    assert DeleteSpec([e0, y], 1, "9:00") == [e0, y];
  }
}
