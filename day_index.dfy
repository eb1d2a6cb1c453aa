/**
 * The base calendar of the recommendation engine (`ordenar_calendario_en_dias`): a dictionary from
 * date to the list of exam occurrences on that date, each recorded as (date, moment, weight).
 * Subjects, exams and slots are visited in catalog order; slots without a date or a time are
 * skipped.
 */
module DayIndex {
  import opened Common
  import opened Dates
  import opened Buckets
  import opened Catalog

  /** A slot takes part in the index only when it has both a date and a time. */
  predicate Usable(slot: Slot) {
    slot.fecha.Some? && slot.hora != ""
  }

  function UsableCount(slots: seq<Slot>): nat {
    if slots == [] then 0
    else UsableCount(slots[..|slots| - 1]) + (if Usable(slots[|slots| - 1]) then 1 else 0)
  }

  /** The number of usable slots over every exam of every subject. */
  function ExamsUsable(exams: seq<Exam>): nat {
    if exams == [] then 0 else ExamsUsable(exams[..|exams| - 1]) + UsableCount(exams[|exams| - 1].slots)
  }

  function SubjectsUsable(subs: seq<(string, Subject)>): nat {
    if subs == [] then 0 else SubjectsUsable(subs[..|subs| - 1]) + ExamsUsable(subs[|subs| - 1].1.examenes)
  }

  /** Every subject that has exams has a readable weight table (the lookup reads `peso[0]`). */
  predicate WeightsReadable(db: Db) {
    forall i :: 0 <= i < |db.asignaturas| && db.asignaturas[i].1.examenes != [] ==> HasWeights(db.asignaturas[i].1)
  }

  /** The index entry of one slot, keyed by its date. */
  function SlotEntry(ms: seq<(MomentId, Moment)>, w: real, slot: Slot): (p: (Date, Entry))
    requires Usable(slot)
    ensures p.0 == p.1.fecha == slot.fecha.value && p.1.peso == w
    ensures p.1.momento.Some? <==> exists i :: 0 <= i < |ms| && ms[i].1.hora == slot.hora
    ensures p.1.momento == Resolve(ms, slot.hora, slot.fecha.value)
  {
    var d := slot.fecha.value;
    (d, Entry(d, Resolve(ms, slot.hora, d), w))
  }

  /** The entries of the usable slots of one exam, in slot order. */
  function SlotEntries(ms: seq<(MomentId, Moment)>, w: real, slots: seq<Slot>): (r: seq<(Date, Entry)>)
    ensures |r| == UsableCount(slots)
  {
    if slots == [] then []
    else
      var init, s := SlotEntries(ms, w, slots[..|slots| - 1]), slots[|slots| - 1];
      if Usable(s) then init + [SlotEntry(ms, w, s)] else init
  }

  /** The entries of a subject's exams, in exam order. */
  function ExamsEntries(ms: seq<(MomentId, Moment)>, s: Subject, exams: seq<Exam>): (r: seq<(Date, Entry)>)
    requires exams == [] || HasWeights(s)
    ensures |r| == ExamsUsable(exams)
  {
    if exams == [] then []
    else
      var last := exams[|exams| - 1];
      ExamsEntries(ms, s, exams[..|exams| - 1]) + SlotEntries(ms, IndexWeight(s, last), last.slots)
  }

  /** The entries of a run of subjects, in subject order. */
  function SubjectsEntries(ms: seq<(MomentId, Moment)>, subs: seq<(string, Subject)>): (r: seq<(Date, Entry)>)
    requires forall i :: 0 <= i < |subs| && subs[i].1.examenes != [] ==> HasWeights(subs[i].1)
    ensures |r| == SubjectsUsable(subs)
  {
    if subs == [] then []
    else
      var s := subs[|subs| - 1].1;
      SubjectsEntries(ms, subs[..|subs| - 1]) + ExamsEntries(ms, s, s.examenes)
  }

  /** The base calendar: the catalog's entries grouped by date, in order of first appearance. */
  function BaseIndex(db: Db): Dict<Date, Entry>
    requires WeightsReadable(db)
  {
    PushAll([], SubjectsEntries(db.momentos, db.asignaturas))
  }

  /**
   * Each usable slot is stored exactly once: every date lists exactly the entries of that date in
   * catalog order, only under its own date, each date is a key once, and the index holds as many
   * entries as the catalog has usable slots.
   */
  lemma BaseIndexGroups(db: Db)
    requires WeightsReadable(db)
    ensures DistinctKeys(BaseIndex(db))
    ensures Size(BaseIndex(db)) == SubjectsUsable(db.asignaturas)
    ensures forall d :: Get(BaseIndex(db), d) == ValuesFor(SubjectsEntries(db.momentos, db.asignaturas), d)
    ensures forall d, e :: e in Get(BaseIndex(db), d) ==> e.fecha == d
  {
    var kvs := SubjectsEntries(db.momentos, db.asignaturas);
    PushAllGroups(kvs);
    SubjectsEntriesKeyed(db.momentos, db.asignaturas);
    forall d, e | e in Get(BaseIndex(db), d) ensures e.fecha == d {
      ValuesForMembers(kvs, d, e);
    }
  }

  /** Every entry is keyed by its own date. */
  lemma {:induction false} SlotEntriesKeyed(ms: seq<(MomentId, Moment)>, w: real, slots: seq<Slot>)
    ensures forall p :: p in SlotEntries(ms, w, slots) ==> p.0 == p.1.fecha
  {
    if slots != [] {
      SlotEntriesKeyed(ms, w, slots[..|slots| - 1]);
    }
  }

  lemma {:induction false} ExamsEntriesKeyed(ms: seq<(MomentId, Moment)>, s: Subject, exams: seq<Exam>)
    requires exams == [] || HasWeights(s)
    ensures forall p :: p in ExamsEntries(ms, s, exams) ==> p.0 == p.1.fecha
  {
    if exams != [] {
      var last := exams[|exams| - 1];
      ExamsEntriesKeyed(ms, s, exams[..|exams| - 1]);
      SlotEntriesKeyed(ms, IndexWeight(s, last), last.slots);
    }
  }

  lemma {:induction false} SubjectsEntriesKeyed(ms: seq<(MomentId, Moment)>, subs: seq<(string, Subject)>)
    requires forall i :: 0 <= i < |subs| && subs[i].1.examenes != [] ==> HasWeights(subs[i].1)
    ensures forall p :: p in SubjectsEntries(ms, subs) ==> p.0 == p.1.fecha
  {
    if subs != [] {
      var s := subs[|subs| - 1].1;
      SubjectsEntriesKeyed(ms, subs[..|subs| - 1]);
      ExamsEntriesKeyed(ms, s, s.examenes);
    }
  }

  /**
   * The nested loops of the source: subjects, their exams, the exams' slots; the weight is looked
   * up once per exam and the moment once per usable slot.
   */
  method BuildIndex(db: Db) returns (dias: MultiMap<Date, Entry>)
    requires WeightsReadable(db)
    ensures fresh(dias) && dias.Valid()
    ensures dias.entries == BaseIndex(db)
  {
    var ms, subs := db.momentos, db.asignaturas;
    dias := new MultiMap();
    var i := 0;
    while i < |subs|
      invariant 0 <= i <= |subs|
      invariant fresh(dias) && dias.Valid()
      invariant dias.entries == PushAll([], SubjectsEntries(ms, subs[..i]))
    {
      assert subs[..i + 1][..i] == subs[..i];
      AddSubject(dias, ms, subs[i].1, SubjectsEntries(ms, subs[..i]));
      i := i + 1;
    }
    assert subs[..i] == subs;
  }

  /** The loop over the exams of one subject. */
  method AddSubject(dias: MultiMap<Date, Entry>, ms: seq<(MomentId, Moment)>, s: Subject, ghost before: seq<(Date, Entry)>)
    requires dias.Valid() && dias.entries == PushAll([], before)
    requires s.examenes == [] || HasWeights(s)
    modifies dias
    ensures dias.Valid() && dias.entries == PushAll([], before + ExamsEntries(ms, s, s.examenes))
  {
    ghost var acc := before;
    assert s.examenes[..0] == [];
    var j := 0;
    while j < |s.examenes|
      invariant 0 <= j <= |s.examenes|
      invariant dias.Valid() && dias.entries == PushAll([], acc)
      invariant acc == before + ExamsEntries(ms, s, s.examenes[..j])
    {
      var e := s.examenes[j];
      var w := IndexWeight(s, e);
      ghost var done, added := ExamsEntries(ms, s, s.examenes[..j]), SlotEntries(ms, w, e.slots);
      ExamsEntriesStep(ms, s, s.examenes, j);
      AppendAssoc(before, done, added);
      AddSlots(dias, ms, w, e.slots, acc);
      acc := acc + added;
      j := j + 1;
    }
    assert s.examenes[..j] == s.examenes;
  }

  lemma ExamsEntriesStep(ms: seq<(MomentId, Moment)>, s: Subject, exams: seq<Exam>, j: nat)
    requires j < |exams| && HasWeights(s)
    ensures ExamsEntries(ms, s, exams[..j + 1]) == ExamsEntries(ms, s, exams[..j]) + SlotEntries(ms, IndexWeight(s, exams[j]), exams[j].slots)
  {
    assert exams[..j + 1][..j] == exams[..j];
  }

  /** The loop over the slots of one exam: usable slots are resolved to a moment and appended. */
  lemma SlotEntriesStep(ms: seq<(MomentId, Moment)>, w: real, slots: seq<Slot>, k: nat)
    requires k < |slots|
    ensures SlotEntries(ms, w, slots[..k + 1]) ==
              SlotEntries(ms, w, slots[..k]) + (if Usable(slots[k]) then [SlotEntry(ms, w, slots[k])] else [])
  {
    assert slots[..k + 1][..k] == slots[..k];
  }

  method AddSlots(dias: MultiMap<Date, Entry>, ms: seq<(MomentId, Moment)>, w: real, slots: seq<Slot>, ghost done: seq<(Date, Entry)>)
    requires dias.Valid() && dias.entries == PushAll([], done)
    modifies dias
    ensures dias.Valid() && dias.entries == PushAll([], done + SlotEntries(ms, w, slots))
  {
    assert done + SlotEntries(ms, w, slots[..0]) == done;
    var k := 0;
    while k < |slots|
      invariant 0 <= k <= |slots|
      invariant dias.Valid()
      invariant dias.entries == PushAll([], done + SlotEntries(ms, w, slots[..k]))
    {
      var slot := slots[k];
      SlotEntriesStep(ms, w, slots, k);
      if slot.fecha.Some? && slot.hora != "" {
        var m := ResolveMoment(ms, slot.hora, slot.fecha.value);
        ghost var before := SlotEntries(ms, w, slots[..k]);
        AppendAssoc(done, before, [SlotEntry(ms, w, slot)]);
        assert SlotEntry(ms, w, slot) == (slot.fecha.value, Entry(slot.fecha.value, m, w));
        PushAllSnoc([], done + before, slot.fecha.value, Entry(slot.fecha.value, m, w));
        dias.Add(slot.fecha.value, Entry(slot.fecha.value, m, w));
        assert dias.entries == PushAll([], done + SlotEntries(ms, w, slots[..k + 1]));
      } else {
        assert SlotEntries(ms, w, slots[..k + 1]) == SlotEntries(ms, w, slots[..k]) + [];
        assert SlotEntries(ms, w, slots[..k]) + [] == SlotEntries(ms, w, slots[..k]);
      }
      k := k + 1;
    }
    assert slots[..k] == slots;
  }
}
