/**
 * Insertion-ordered dictionaries whose values are lists: Python's `dict` of `list` built with
 * `if k not in d: d[k] = []` followed by `d[k].append(v)`, and JavaScript's `Map` of arrays built
 * with `if (!map.has(k)) map.set(k, [])` followed by `map.get(k).push(v)`. Both iterate their keys
 * in first-insertion order, which the association list below keeps.
 */
module Buckets {

  /** Each key at most once, in the order it was first inserted, with its list of values. */
  type Dict<K, V> = seq<(K, seq<V>)>

  /** The first components of a list of pairs: the keys of a dictionary, in order. */
  function Keys<K, W>(b: seq<(K, W)>): (ks: seq<K>)
    ensures |ks| == |b|
    ensures forall i :: 0 <= i < |b| ==> ks[i] == b[i].0
  {
    if b == [] then [] else [b[0].0] + Keys(b[1..])
  }

  lemma KeysAppend<K, W>(a: seq<(K, W)>, b: seq<(K, W)>)
    ensures Keys(a + b) == Keys(a) + Keys(b)
  {
    assert forall i :: 0 <= i < |a + b| ==> Keys(a + b)[i] == (Keys(a) + Keys(b))[i];
  }

  predicate DistinctKeys<K(==), V>(b: Dict<K, V>) {
    forall i, j :: 0 <= i < j < |b| ==> b[i].0 != b[j].0
  }

  /** The list stored under `k`, or the empty list when `k` is absent. */
  function Get<K(==), V>(b: Dict<K, V>, k: K): seq<V> {
    if b == [] then [] else if b[0].0 == k then b[0].1 else Get(b[1..], k)
  }

  /** Appends `v` to the list under `k`, creating an empty list at the end first when `k` is new. */
  function Push<K(==), V>(b: Dict<K, V>, k: K, v: V): (r: Dict<K, V>)
    ensures |r| == |b| || |r| == |b| + 1
  {
    if b == [] then [(k, [v])]
    else if b[0].0 == k then [(k, b[0].1 + [v])] + b[1..]
    else [b[0]] + Push(b[1..], k, v)
  }

  /** All values, key after key: Python's loop extending one list with every `d.values()` list. */
  function Flatten<K, V>(b: Dict<K, V>): seq<V> {
    if b == [] then [] else Flatten(b[..|b| - 1]) + b[|b| - 1].1
  }

  /** Pushing keeps the key order and adds a new key at the end. */
  lemma {:induction false} PushKeys<K, V>(b: Dict<K, V>, k: K, v: V)
    ensures Keys(Push(b, k, v)) == if k in Keys(b) then Keys(b) else Keys(b) + [k]
  {
    if b != [] && b[0].0 != k {
      PushKeys(b[1..], k, v);
      assert Push(b, k, v) == [b[0]] + Push(b[1..], k, v);
      assert Keys(b) == [b[0].0] + Keys(b[1..]);
    }
  }

  /** Total number of values stored, over all keys. */
  function Size<K, V>(b: Dict<K, V>): nat {
    if b == [] then 0 else |b[0].1| + Size(b[1..])
  }

  /** Pushing adds `v` at the end of its own key's list and touches no other list. */
  lemma {:induction false} PushGet<K, V>(b: Dict<K, V>, k: K, v: V, k': K)
    ensures Get(Push(b, k, v), k') == if k' == k then Get(b, k') + [v] else Get(b, k')
  {
    if b != [] && b[0].0 != k {
      PushGet(b[1..], k, v, k');
      assert Push(b, k, v)[1..] == Push(b[1..], k, v);
    }
  }

  lemma {:induction false} PushDistinct<K, V>(b: Dict<K, V>, k: K, v: V)
    requires DistinctKeys(b)
    ensures DistinctKeys(Push(b, k, v))
  {
    var r := Push(b, k, v);
    PushKeys(b, k, v);
    forall i, j | 0 <= i < j < |r| ensures r[i].0 != r[j].0 {
      assert Keys(r)[i] == r[i].0 && Keys(r)[j] == r[j].0;
      if k !in Keys(b) && j == |b| {
        assert r[i].0 == Keys(b)[i];
      } else {
        assert r[i].0 == Keys(b)[i] && r[j].0 == Keys(b)[j];
      }
    }
  }

  lemma {:induction false} PushSize<K, V>(b: Dict<K, V>, k: K, v: V)
    ensures Size(Push(b, k, v)) == Size(b) + 1
  {
    if b != [] && b[0].0 != k {
      PushSize(b[1..], k, v);
      assert Push(b, k, v)[1..] == Push(b[1..], k, v);
    }
  }

  /** Where `Push` writes: at the first position holding `k`, or at a new position at the end. */
  lemma {:induction false} PushAt<K, V>(b: Dict<K, V>, k: K, v: V, i: nat)
    requires i <= |b| && (i < |b| ==> b[i].0 == k)
    requires forall j :: 0 <= j < i ==> b[j].0 != k
    ensures i < |b| ==> Push(b, k, v) == b[i := (k, b[i].1 + [v])]
    ensures i == |b| ==> Push(b, k, v) == b + [(k, [v])]
  {
    if i > 0 {
      PushAt(b[1..], k, v, i - 1);
    }
  }

  /** Pushes the (key, value) pairs of `kvs` one after the other, left to right. */
  function PushAll<K(==), V>(b: Dict<K, V>, kvs: seq<(K, V)>): Dict<K, V> {
    if kvs == [] then b
    else
      var last := kvs[|kvs| - 1];
      Push(PushAll(b, kvs[..|kvs| - 1]), last.0, last.1)
  }

  /** Pushing one more pair is one more `Push`. */
  lemma PushAllSnoc<K, V>(b: Dict<K, V>, kvs: seq<(K, V)>, k: K, v: V)
    ensures PushAll(b, kvs + [(k, v)]) == Push(PushAll(b, kvs), k, v)
  {
    assert (kvs + [(k, v)])[..|kvs|] == kvs;
  }

  /** The values of `kvs` whose key is `k`, in order. */
  function ValuesFor<K(==), V>(kvs: seq<(K, V)>, k: K): (vs: seq<V>)
    ensures |vs| <= |kvs|
  {
    if kvs == [] then []
    else ValuesFor(kvs[..|kvs| - 1], k) + (if kvs[|kvs| - 1].0 == k then [kvs[|kvs| - 1].1] else [])
  }

  /** The keys of `kvs` without repetitions, in order of first occurrence. */
  function FirstOccurrences<K(==), V>(kvs: seq<(K, V)>): seq<K> {
    if kvs == [] then []
    else
      var ks := FirstOccurrences(kvs[..|kvs| - 1]);
      if kvs[|kvs| - 1].0 in ks then ks else ks + [kvs[|kvs| - 1].0]
  }

  /**
   * Grouping a list of pairs from an empty dictionary: the list under each key is exactly the
   * values of that key in input order, the keys are the distinct input keys in order of first
   * occurrence, and every value is stored once.
   */
  lemma {:induction false} PushAllGroups<K, V>(kvs: seq<(K, V)>)
    ensures forall k :: Get(PushAll([], kvs), k) == ValuesFor(kvs, k)
    ensures Keys(PushAll([], kvs)) == FirstOccurrences(kvs)
    ensures DistinctKeys(PushAll([], kvs))
    ensures Size(PushAll([], kvs)) == |kvs|
  {
    if kvs != [] {
      var init, last := kvs[..|kvs| - 1], kvs[|kvs| - 1];
      PushAllGroups(init);
      var b := PushAll([], init);
      forall k ensures Get(PushAll([], kvs), k) == ValuesFor(kvs, k) {
        PushGet(b, last.0, last.1, k);
      }
      PushKeys(b, last.0, last.1);
      PushDistinct(b, last.0, last.1);
      PushSize(b, last.0, last.1);
    }
  }

  /** Every value stored under `k` came from a pair with key `k`. */
  lemma {:induction false} ValuesForMembers<K, V>(kvs: seq<(K, V)>, k: K, v: V)
    requires v in ValuesFor(kvs, k)
    ensures (k, v) in kvs
  {
    var init := kvs[..|kvs| - 1];
    if v in ValuesFor(init, k) {
      ValuesForMembers(init, k, v);
      assert forall p :: p in init ==> p in kvs;
    }
  }

  /** Every pair with key `k` contributes its value to the list under `k`. */
  lemma {:induction false} ValuesForContains<K, V>(kvs: seq<(K, V)>, k: K, v: V)
    requires (k, v) in kvs
    ensures v in ValuesFor(kvs, k)
  {
    var init := kvs[..|kvs| - 1];
    if (k, v) in init {
      ValuesForContains(init, k, v);
    }
  }

  /** A key has a list exactly when some input pair carries it. */
  lemma {:induction false} FirstOccurrencesMembers<K, V>(kvs: seq<(K, V)>, k: K)
    ensures k in FirstOccurrences(kvs) <==> exists i :: 0 <= i < |kvs| && kvs[i].0 == k
  {
    if kvs != [] {
      var init := kvs[..|kvs| - 1];
      FirstOccurrencesMembers(init, k);
      if k in FirstOccurrences(init) {
        var i :| 0 <= i < |init| && init[i].0 == k;
        assert kvs[i].0 == k;
      }
      if exists i :: 0 <= i < |kvs| && kvs[i].0 == k {
        var i :| 0 <= i < |kvs| && kvs[i].0 == k;
        if i < |init| {
          assert init[i].0 == k;
        }
      }
    }
  }

  /**
   * The dictionary object the source mutates in place: `Add` is `if k not in d: d[k] = []`
   * followed by `d[k].append(v)`, `Copy` is `copy.deepcopy(d)`.
   */
  class MultiMap<K(==), V> {
    var entries: Dict<K, V>

    ghost predicate Valid()
      reads this
    {
      DistinctKeys(entries)
    }

    constructor ()
      ensures Valid() && entries == []
    {
      entries := [];
    }

    method Add(k: K, v: V)
      requires Valid()
      modifies this
      ensures Valid()
      ensures entries == Push(old(entries), k, v)
    {
      PushDistinct(entries, k, v);
      var i := 0;
      while i < |entries| && entries[i].0 != k
        invariant 0 <= i <= |entries|
        invariant forall j :: 0 <= j < i ==> entries[j].0 != k
      {
        i := i + 1;
      }
      PushAt(entries, k, v, i);
      if i == |entries| {
        entries := entries + [(k, [])];
        assert entries[i].1 + [v] == [v];
      }
      entries := entries[i := (k, entries[i].1 + [v])];
    }

    method Copy() returns (c: MultiMap<K, V>)
      requires Valid()
      ensures fresh(c) && c.Valid() && c.entries == entries
    {
      c := new MultiMap();
      c.entries := entries;
    }
  }
}
