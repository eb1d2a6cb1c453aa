/**
 * Grouping a date-keyed dictionary into ISO 8601 weeks (`dividir_en_semanas`): each date goes to
 * the bucket of its (week-numbering year, week number) key, a bucket keeps its dates in dictionary
 * order, and the buckets come out sorted by key.
 */
module Weeks {
  import opened Dates
  import opened Buckets
  import opened StableSort

  /** Each (date, value) pair of the dictionary, paired with its ISO week key. */
  function Tagged<V>(days: seq<(Date, V)>): (r: seq<(WeekKey, (Date, V))>)
    ensures |r| == |days|
  {
    if days == [] then [] else Tagged(days[..|days| - 1]) + [(IsoWeek(days[|days| - 1].0), days[|days| - 1])]
  }

  lemma {:induction false} TaggedMembers<V>(days: seq<(Date, V)>, k: WeekKey, p: (Date, V))
    ensures (k, p) in Tagged(days) <==> p in days && k == IsoWeek(p.0)
  {
    if days != [] {
      var init := days[..|days| - 1];
      TaggedMembers(init, k, p);
      assert days == init + [days[|days| - 1]];
    }
  }

  /** Keys ordered as Python orders `(year, week)` tuples, as one number. */
  function KeyRank(k: WeekKey): real {
    (k.year * 54 + k.week) as real
  }

  predicate ValidKey(k: WeekKey) {
    1 <= k.week <= 53
  }

  /** For real week keys the numeric rank orders keys exactly like tuple comparison. */
  lemma KeyRankOrder(a: WeekKey, b: WeekKey)
    requires ValidKey(a) && ValidKey(b)
    ensures KeyRank(a) < KeyRank(b) <==> KeyBefore(a, b)
    ensures KeyRank(a) == KeyRank(b) <==> a == b
  {
    if a.year < b.year {
      assert a.year * 54 + 54 <= b.year * 54;
    } else if a.year > b.year {
      assert b.year * 54 + 54 <= a.year * 54;
    }
  }

  /** The week keys that occur, ascending. */
  function WeekKeys<V>(days: seq<(Date, V)>): seq<WeekKey> {
    SortBy(Keys(PushAll([], Tagged(days))), KeyRank)
  }

  /** The buckets, one per week key, in ascending key order. */
  function GroupByWeek<V>(days: seq<(Date, V)>): (weeks: seq<seq<(Date, V)>>)
    ensures |weeks| == |WeekKeys(days)|
  {
    var buckets := PushAll([], Tagged(days));
    var keys := WeekKeys(days);
    seq(|keys|, i requires 0 <= i < |keys| => Get(buckets, keys[i]))
  }

  /** The source's loops: one pass filling a dictionary of weeks, a sort of its keys, and a pass
      reading the weeks out in key order. The input is a dictionary, so its dates are distinct and
      storing a date into its week's dictionary appends it. */
  method SplitIntoWeeks<V>(days: seq<(Date, V)>) returns (weeks: seq<seq<(Date, V)>>)
    requires forall i, j :: 0 <= i < j < |days| ==> days[i].0 != days[j].0
    ensures weeks == GroupByWeek(days)
  {
    var semanas := new MultiMap<WeekKey, (Date, V)>();
    for i := 0 to |days|
      invariant semanas.Valid() && semanas.entries == PushAll([], Tagged(days[..i]))
    {
      var fecha := days[i].0;
      assert days[..i + 1][..i] == days[..i];
      PushAllSnoc([], Tagged(days[..i]), IsoWeek(fecha), days[i]);
      semanas.Add(IsoWeek(fecha), days[i]);
    }
    assert days[..|days|] == days;
    var keys := SortBy(Keys(semanas.entries), KeyRank);
    weeks := [];
    for i := 0 to |keys|
      invariant |weeks| == i
      invariant forall j :: 0 <= j < i ==> weeks[j] == Get(semanas.entries, keys[j])
    {
      weeks := weeks + [Get(semanas.entries, keys[i])];
    }
  }

  /** The keys are exactly the weeks of the input dates, each once, strictly ascending. */
  lemma WeekKeysSpec<V>(days: seq<(Date, V)>)
    ensures forall k :: k in WeekKeys(days) <==> exists i :: 0 <= i < |days| && IsoWeek(days[i].0) == k
    ensures forall a, b :: 0 <= a < b < |WeekKeys(days)| ==> KeyBefore(WeekKeys(days)[a], WeekKeys(days)[b])
  {
    forall k ensures k in WeekKeys(days) <==> exists i :: 0 <= i < |days| && IsoWeek(days[i].0) == k {
      WeekKeyMember(days, k);
    }
    WeekKeysAscending(days);
  }

  lemma WeekKeyMember<V>(days: seq<(Date, V)>, k: WeekKey)
    ensures k in WeekKeys(days) <==> exists i :: 0 <= i < |days| && IsoWeek(days[i].0) == k
  {
    var tagged := Tagged(days);
    var ks := Keys(PushAll([], tagged));
    PushAllGroups(tagged);
    assert k in WeekKeys(days) <==> k in ks by {
      SortByPermutes(ks, KeyRank);
      assert k in multiset(WeekKeys(days)) <==> k in multiset(ks);
    }
    FirstOccurrencesMembers(tagged, k);
    if k in ks {
      var t :| 0 <= t < |tagged| && tagged[t].0 == k;
      TaggedMembers(days, k, tagged[t].1);
    }
    if exists i :: 0 <= i < |days| && IsoWeek(days[i].0) == k {
      var i :| 0 <= i < |days| && IsoWeek(days[i].0) == k;
      TaggedMembers(days, k, days[i]);
    }
  }

  lemma WeekKeysAscending<V>(days: seq<(Date, V)>)
    ensures forall a, b :: 0 <= a < b < |WeekKeys(days)| ==> KeyBefore(WeekKeys(days)[a], WeekKeys(days)[b])
  {
    var tagged := Tagged(days);
    var ks := Keys(PushAll([], tagged));
    var keys := WeekKeys(days);
    PushAllGroups(tagged);
    SortBySorted(ks, KeyRank);
    SortByPermutes(ks, KeyRank);
    DistinctAfterPermutation(ks, keys);
    forall a, b | 0 <= a < b < |keys| ensures KeyBefore(keys[a], keys[b]) {
      WeekKeyMember(days, keys[a]);
      WeekKeyMember(days, keys[b]);
      KeyRankOrder(keys[a], keys[b]);
    }
  }

  lemma KeyIsValid<V>(days: seq<(Date, V)>, k: WeekKey)
    requires exists i :: 0 <= i < |days| && IsoWeek(days[i].0) == k
    ensures ValidKey(k)
  {
  }

  /** A permutation of a sequence without repetitions has none either. */
  lemma DistinctAfterPermutation<T>(s: seq<T>, t: seq<T>)
    requires forall i, j :: 0 <= i < j < |s| ==> s[i] != s[j]
    requires multiset(s) == multiset(t)
    ensures forall i, j :: 0 <= i < j < |t| ==> t[i] != t[j]
  {
    forall i, j | 0 <= i < j < |t| ensures t[i] != t[j] {
      if t[i] == t[j] {
        TwiceCounted(t, i, j);
        OnceCounted(s, t[i]);
      }
    }
  }

  lemma TwiceCounted<T>(t: seq<T>, i: nat, j: nat)
    requires i < j < |t| && t[i] == t[j]
    ensures multiset(t)[t[i]] >= 2
  {
    assert t == t[..j] + [t[j]] + t[j + 1..];
    assert t[i] in t[..j];
  }

  lemma {:induction false} OnceCounted<T>(s: seq<T>, x: T)
    requires forall i, j :: 0 <= i < j < |s| ==> s[i] != s[j]
    ensures multiset(s)[x] <= 1
  {
    if s != [] {
      assert s == [s[0]] + s[1..];
      OnceCounted(s[1..], x);
      if x == s[0] {
        assert x !in s[1..];
      }
    }
  }

  /**
   * Each bucket holds exactly the input pairs of its week, unchanged and in input order; so every
   * input pair lands in the one bucket of its week and in no other.
   */
  lemma GroupByWeekContents<V>(days: seq<(Date, V)>)
    ensures forall w :: 0 <= w < |GroupByWeek(days)| ==> GroupByWeek(days)[w] == ValuesFor(Tagged(days), WeekKeys(days)[w])
    ensures forall w, i :: 0 <= w < |GroupByWeek(days)| && 0 <= i < |days| ==>
              (days[i] in GroupByWeek(days)[w] <==> IsoWeek(days[i].0) == WeekKeys(days)[w])
    ensures forall i :: 0 <= i < |days| ==> exists w :: 0 <= w < |GroupByWeek(days)| && days[i] in GroupByWeek(days)[w]
    ensures forall w, p :: 0 <= w < |GroupByWeek(days)| && p in GroupByWeek(days)[w] ==> p in days
  {
    BucketsAreValues(days);
    forall w, i | 0 <= w < |GroupByWeek(days)| && 0 <= i < |days|
      ensures days[i] in GroupByWeek(days)[w] <==> IsoWeek(days[i].0) == WeekKeys(days)[w]
    {
      BucketMembership(days, w, i);
    }
    forall i | 0 <= i < |days| ensures exists w :: 0 <= w < |GroupByWeek(days)| && days[i] in GroupByWeek(days)[w] {
      var w := InSomeBucket(days, i);
      assert 0 <= w < |GroupByWeek(days)| && days[i] in GroupByWeek(days)[w];
    }
    forall w, p | 0 <= w < |GroupByWeek(days)| && p in GroupByWeek(days)[w] ensures p in days {
      BucketMember(days, w, p);
    }
  }

  lemma BucketsAreValues<V>(days: seq<(Date, V)>)
    ensures forall w :: 0 <= w < |GroupByWeek(days)| ==> GroupByWeek(days)[w] == ValuesFor(Tagged(days), WeekKeys(days)[w])
  {
    PushAllGroups(Tagged(days));
  }

  lemma BucketMembership<V>(days: seq<(Date, V)>, w: nat, i: nat)
    requires w < |GroupByWeek(days)| && i < |days|
    ensures days[i] in GroupByWeek(days)[w] <==> IsoWeek(days[i].0) == WeekKeys(days)[w]
  {
    var tagged, k := Tagged(days), WeekKeys(days)[w];
    BucketsAreValues(days);
    assert GroupByWeek(days)[w] == ValuesFor(tagged, k);
    if days[i] in GroupByWeek(days)[w] {
      ValuesForMembers(tagged, k, days[i]);
      TaggedMembers(days, k, days[i]);
    }
    if IsoWeek(days[i].0) == k {
      TaggedMembers(days, k, days[i]);
      ValuesForContains(tagged, k, days[i]);
    }
  }

  lemma InSomeBucket<V>(days: seq<(Date, V)>, i: nat) returns (w: nat)
    requires i < |days|
    ensures w < |GroupByWeek(days)| && days[i] in GroupByWeek(days)[w]
  {
    var k := IsoWeek(days[i].0);
    WeekKeyMember(days, k);
    assert k in WeekKeys(days);
    w :| 0 <= w < |WeekKeys(days)| && WeekKeys(days)[w] == k;
    BucketMembership(days, w, i);
  }

  /** Buckets are chronological: every date of an earlier bucket precedes every date of a later one. */
  lemma GroupByWeekChronological<V>(days: seq<(Date, V)>)
    ensures forall w1, w2, p, q :: 0 <= w1 < w2 < |GroupByWeek(days)| && p in GroupByWeek(days)[w1] && q in GroupByWeek(days)[w2] ==>
              p.0 < q.0
  {
    var weeks, keys := GroupByWeek(days), WeekKeys(days);
    WeekKeysAscending(days);
    forall w1, w2, p: (Date, V), q: (Date, V) | 0 <= w1 < w2 < |weeks| && p in weeks[w1] && q in weeks[w2] ensures p.0 < q.0 {
      BucketMember(days, w1, p);
      BucketMember(days, w2, q);
      IsoWeekOrder(p.0, q.0);
    }
  }

  /** A member of bucket `w` is an input pair of week `w`. */
  lemma BucketMember<V>(days: seq<(Date, V)>, w: nat, p: (Date, V))
    requires w < |GroupByWeek(days)| && p in GroupByWeek(days)[w]
    ensures p in days && IsoWeek(p.0) == WeekKeys(days)[w]
  {
    var tagged := Tagged(days);
    PushAllGroups(tagged);
    ValuesForMembers(tagged, WeekKeys(days)[w], p);
    TaggedMembers(days, WeekKeys(days)[w], p);
  }

  /**
   * Two dictionaries with the same dates in the same order are split alike: the same number of
   * weeks, and the i-th weeks of both hold the same dates.
   */
  lemma GroupByWeekAligned<V1, V2>(d1: seq<(Date, V1)>, d2: seq<(Date, V2)>)
    requires Keys(d1) == Keys(d2)
    ensures WeekKeys(d1) == WeekKeys(d2)
    ensures |GroupByWeek(d1)| == |GroupByWeek(d2)|
    ensures forall w :: 0 <= w < |GroupByWeek(d1)| ==> Keys(GroupByWeek(d1)[w]) == Keys(GroupByWeek(d2)[w])
  {
    PushAllGroups(Tagged(d1));
    PushAllGroups(Tagged(d2));
    FirstOccurrencesAligned(d1, d2);
    var keys := WeekKeys(d1);
    forall w | 0 <= w < |GroupByWeek(d1)| ensures Keys(GroupByWeek(d1)[w]) == Keys(GroupByWeek(d2)[w]) {
      ValuesForAligned(d1, d2, keys[w]);
    }
  }

  lemma {:induction false} FirstOccurrencesAligned<V1, V2>(d1: seq<(Date, V1)>, d2: seq<(Date, V2)>)
    requires Keys(d1) == Keys(d2)
    ensures FirstOccurrences(Tagged(d1)) == FirstOccurrences(Tagged(d2))
  {
    if d1 != [] {
      var n := |d1| - 1;
      assert Keys(d1[..n]) == Keys(d2[..n]) by {
        assert forall i :: 0 <= i < n ==> Keys(d1[..n])[i] == Keys(d1)[i] == Keys(d2)[i] == Keys(d2[..n])[i];
      }
      FirstOccurrencesAligned(d1[..n], d2[..n]);
      assert Keys(d1)[n] == Keys(d2)[n];
    }
  }

  lemma {:induction false} ValuesForAligned<V1, V2>(d1: seq<(Date, V1)>, d2: seq<(Date, V2)>, k: WeekKey)
    requires Keys(d1) == Keys(d2)
    ensures Keys(ValuesFor(Tagged(d1), k)) == Keys(ValuesFor(Tagged(d2), k))
  {
    if d1 != [] {
      var n := |d1| - 1;
      KeysPrefix(d1, d2, n);
      ValuesForAligned(d1[..n], d2[..n], k);
      var last1 := ValuesForTaggedSnoc(d1, k);
      var last2 := ValuesForTaggedSnoc(d2, k);
      var v1, v2 := ValuesFor(Tagged(d1[..n]), k), ValuesFor(Tagged(d2[..n]), k);
      assert d1[n].0 == Keys(d1)[n] == Keys(d2)[n] == d2[n].0;
      assert Keys(last1) == Keys(last2);
      KeysAppend(v1, last1);
      KeysAppend(v2, last2);
      assert Keys(ValuesFor(Tagged(d1), k)) == Keys(v1) + Keys(last1);
    }
  }

  lemma KeysPrefix<V1, V2>(d1: seq<(Date, V1)>, d2: seq<(Date, V2)>, n: nat)
    requires Keys(d1) == Keys(d2) && n <= |d1|
    ensures Keys(d1[..n]) == Keys(d2[..n])
  {
    assert forall i :: 0 <= i < n ==> Keys(d1[..n])[i] == Keys(d1)[i] == Keys(d2)[i] == Keys(d2[..n])[i];
  }

  lemma ValuesForTaggedSnoc<V>(d: seq<(Date, V)>, k: WeekKey) returns (last: seq<(Date, V)>)
    requires d != []
    ensures last == if IsoWeek(d[|d| - 1].0) == k then [d[|d| - 1]] else []
    ensures ValuesFor(Tagged(d), k) == ValuesFor(Tagged(d[..|d| - 1]), k) + last
  {
    last := if IsoWeek(d[|d| - 1].0) == k then [d[|d| - 1]] else [];
    var t := Tagged(d);
    assert t[..|t| - 1] == Tagged(d[..|d| - 1]);
  }
}
