/**
 * The calendar page's exam map (`buildExamMap`): every confirmed (date, time) of every exam of
 * every subject becomes one item (subject, type, duration, date, time), stored in a `Map` under
 * its date; subjects, exams and slots are visited in order.
 */
module ExamMap {
  import opened Common
  import opened Dates
  import opened Buckets
  import opened Catalog

  /** One entry of the map's lists; a missing type, duration or time is the empty string. */
  datatype Item = Item(asignatura: string, tipo: string, duracion: string, fecha: Option<Date>, hora: string)

  /** JavaScript's `x || ''` on an optional string. */
  function OrEmpty(x: Option<string>): (r: string)
    ensures x.None? ==> r == ""
    ensures x.Some? ==> r == x.value
  {
    if x.Some? then x.value else ""
  }

  /** The item of one slot, keyed by the slot's date. */
  function SlotItem(s: string, ex: Exam, fh: Slot): (p: (Option<Date>, Item))
    ensures p.0 == p.1.fecha == fh.fecha
    ensures p.1 == Item(s, OrEmpty(ex.tipo), OrEmpty(ex.duracion), fh.fecha, fh.hora)
  {
    (fh.fecha, Item(s, OrEmpty(ex.tipo), OrEmpty(ex.duracion), fh.fecha, fh.hora))
  }

  function SlotItems(s: string, ex: Exam, slots: seq<Slot>): (r: seq<(Option<Date>, Item)>)
    ensures |r| == |slots|
  {
    if slots == [] then [] else SlotItems(s, ex, slots[..|slots| - 1]) + [SlotItem(s, ex, slots[|slots| - 1])]
  }

  function ExamItems(s: string, exams: seq<Exam>): seq<(Option<Date>, Item)> {
    if exams == [] then []
    else
      var ex := exams[|exams| - 1];
      ExamItems(s, exams[..|exams| - 1]) + SlotItems(s, ex, ex.slots)
  }

  /** Every item of the catalog, in subject order, then exam order, then slot order. */
  function CatalogItems(subs: seq<(string, Subject)>): seq<(Option<Date>, Item)> {
    if subs == [] then []
    else
      var last := subs[|subs| - 1];
      CatalogItems(subs[..|subs| - 1]) + ExamItems(last.0, last.1.examenes)
  }

  /** The number of slots of a run of exams, and of a catalog. */
  function ExamSlots(exams: seq<Exam>): nat {
    if exams == [] then 0 else ExamSlots(exams[..|exams| - 1]) + |exams[|exams| - 1].slots|
  }

  function CatalogSlots(subs: seq<(string, Subject)>): nat {
    if subs == [] then 0 else CatalogSlots(subs[..|subs| - 1]) + ExamSlots(subs[|subs| - 1].1.examenes)
  }

  /** The map `buildExamMap` returns: the items grouped by date, dates in order of first appearance. */
  function BuildExamMapSpec(subs: seq<(string, Subject)>): Dict<Option<Date>, Item> {
    PushAll<Option<Date>, Item>([], CatalogItems(subs))
  }

  /** One item per slot, and every item carries its own date as its key. */
  lemma {:induction false} ExamItemsCount(s: string, exams: seq<Exam>)
    ensures |ExamItems(s, exams)| == ExamSlots(exams)
    ensures forall p :: p in ExamItems(s, exams) ==> p.0 == p.1.fecha && p.1.asignatura == s
  {
    if exams != [] {
      var ex := exams[|exams| - 1];
      ExamItemsCount(s, exams[..|exams| - 1]);
      SlotItemsKeyed(s, ex, ex.slots);
    }
  }

  lemma {:induction false} SlotItemsKeyed(s: string, ex: Exam, slots: seq<Slot>)
    ensures forall p :: p in SlotItems(s, ex, slots) ==> p.0 == p.1.fecha && p.1.asignatura == s
  {
    if slots != [] {
      SlotItemsKeyed(s, ex, slots[..|slots| - 1]);
    }
  }

  lemma {:induction false} CatalogItemsCount(subs: seq<(string, Subject)>)
    ensures |CatalogItems(subs)| == CatalogSlots(subs)
    ensures forall p :: p in CatalogItems(subs) ==> p.0 == p.1.fecha
  {
    if subs != [] {
      var last := subs[|subs| - 1];
      CatalogItemsCount(subs[..|subs| - 1]);
      ExamItemsCount(last.0, last.1.examenes);
    }
  }

  /**
   * The map holds exactly one item per slot of the catalog; under each date it lists the items of
   * that date in subject, exam and slot order, and only those; each date is a key once.
   */
  lemma ExamMapSpec(subs: seq<(string, Subject)>)
    ensures Size(BuildExamMapSpec(subs)) == CatalogSlots(subs)
    ensures DistinctKeys(BuildExamMapSpec(subs))
    ensures forall k :: Get(BuildExamMapSpec(subs), k) == ValuesFor(CatalogItems(subs), k)
    ensures forall k, it :: it in Get(BuildExamMapSpec(subs), k) ==> it.fecha == k
  {
    var kvs := CatalogItems(subs);
    assert BuildExamMapSpec(subs) == PushAll<Option<Date>, Item>([], kvs);
    PushAllGroups<Option<Date>, Item>(kvs);
    CatalogItemsCount(subs);
    forall k: Option<Date> ensures Get(BuildExamMapSpec(subs), k) == ValuesFor(kvs, k) {
      assert Get(PushAll<Option<Date>, Item>([], kvs), k) == ValuesFor(kvs, k);
    }
    forall k, it | it in Get(BuildExamMapSpec(subs), k) ensures it.fecha == k {
      ValuesForMembers(kvs, k, it);
    }
  }

  /** A subject without exams adds nothing. */
  lemma NoExamsNoItems(subs: seq<(string, Subject)>, s: string, subj: Subject)
    requires subj.examenes == []
    ensures CatalogItems(subs + [(s, subj)]) == CatalogItems(subs)
  {
    assert (subs + [(s, subj)])[..|subs|] == subs;
  }

  /** The nested loops of the source, pushing into the map in place. */
  method BuildExamMap(subs: seq<(string, Subject)>) returns (m: MultiMap<Option<Date>, Item>)
    ensures fresh(m) && m.Valid()
    ensures m.entries == BuildExamMapSpec(subs)
  {
    m := new MultiMap();
    for i := 0 to |subs|
      invariant fresh(m) && m.Valid()
      invariant m.entries == PushAll<Option<Date>, Item>([], CatalogItems(subs[..i]))
    {
      assert subs[..i + 1][..i] == subs[..i];
      assert CatalogItems(subs[..i + 1]) == CatalogItems(subs[..i]) + ExamItems(subs[i].0, subs[i].1.examenes);
      var subj := subs[i].1;
      if subj.examenes != [] {
        AddExams(m, subs[i].0, subj.examenes, CatalogItems(subs[..i]));
      } else {
        NoExamsNoItems(subs[..i], subs[i].0, subj);
        assert subs[..i + 1] == subs[..i] + [(subs[i].0, subj)];
      }
    }
    assert subs[..|subs|] == subs;
  }

  /** The loop over the exams of one subject. */
  method AddExams(m: MultiMap<Option<Date>, Item>, s: string, exams: seq<Exam>, ghost before: seq<(Option<Date>, Item)>)
    requires m.Valid() && m.entries == PushAll<Option<Date>, Item>([], before)
    modifies m
    ensures m.Valid() && m.entries == PushAll<Option<Date>, Item>([], before + ExamItems(s, exams))
  {
    ghost var acc := before;
    assert before + ExamItems(s, exams[..0]) == before;
    for j := 0 to |exams|
      invariant m.Valid() && m.entries == PushAll<Option<Date>, Item>([], acc)
      invariant acc == before + ExamItems(s, exams[..j])
    {
      var ex := exams[j];
      ghost var done, added := ExamItems(s, exams[..j]), SlotItems(s, ex, ex.slots);
      assert exams[..j + 1][..j] == exams[..j];
      AppendAssoc(before, done, added);
      AddSlots(m, s, ex, acc);
      acc := acc + added;
    }
    assert exams[..|exams|] == exams;
  }

  /** The loop over the slots of one exam: each slot's item is pushed under its date. */
  method AddSlots(m: MultiMap<Option<Date>, Item>, s: string, ex: Exam, ghost done: seq<(Option<Date>, Item)>)
    requires m.Valid() && m.entries == PushAll<Option<Date>, Item>([], done)
    modifies m
    ensures m.Valid() && m.entries == PushAll<Option<Date>, Item>([], done + SlotItems(s, ex, ex.slots))
  {
    var tipo, dur := OrEmpty(ex.tipo), OrEmpty(ex.duracion);
    var slots := ex.slots;
    assert done + SlotItems(s, ex, slots[..0]) == done;
    for k := 0 to |slots|
      invariant m.Valid()
      invariant m.entries == PushAll<Option<Date>, Item>([], done + SlotItems(s, ex, slots[..k]))
    {
      var fh := slots[k];
      assert slots[..k + 1][..k] == slots[..k];
      var item := Item(s, tipo, dur, fh.fecha, fh.hora);
      PushAllSnoc<Option<Date>, Item>([], done + SlotItems(s, ex, slots[..k]), fh.fecha, item);
      assert done + SlotItems(s, ex, slots[..k + 1]) == done + SlotItems(s, ex, slots[..k]) + [SlotItem(s, ex, fh)];
      m.Add(fh.fecha, item);
    }
    assert slots[..|slots|] == slots;
  }
}
