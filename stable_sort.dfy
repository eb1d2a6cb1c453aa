/**
 * The stable sort both runtimes provide: Python's `list.sort` / `sorted` and JavaScript's
 * `Array.prototype.sort` (stable since ECMAScript 2019). Elements are ordered by a numeric key;
 * elements with equal keys keep their input order.
 */
module StableSort {

  /** Keys never decrease along `s`. */
  predicate SortedBy<T>(s: seq<T>, key: T -> real) {
    forall i, j :: 0 <= i < j < |s| ==> key(s[i]) <= key(s[j])
  }

  /** The elements of `s` whose key is `v`, in their order in `s`. */
  function WithKey<T>(s: seq<T>, key: T -> real, v: real): (r: seq<T>)
    ensures |r| <= |s|
  {
    if s == [] then [] else (if key(s[0]) == v then [s[0]] else []) + WithKey(s[1..], key, v)
  }

  lemma {:induction false} WithKeyAppend<T>(a: seq<T>, b: seq<T>, key: T -> real, v: real)
    ensures WithKey(a + b, key, v) == WithKey(a, key, v) + WithKey(b, key, v)
  {
    if a == [] {
      assert a + b == b;
    } else {
      var x, rest := a[0], a[1..];
      assert a == [x] + rest;
      assert a + b == [x] + (rest + b);
      WithKeyCons(x, rest + b, key, v);
      WithKeyCons(x, rest, key, v);
      WithKeyAppend(rest, b, key, v);
    }
  }

  /** Places `x` after every element of `t` whose key is not larger than its own. */
  function Insert<T>(t: seq<T>, x: T, key: T -> real): (r: seq<T>)
    ensures |r| == |t| + 1
  {
    if t == [] then [x]
    else if key(x) < key(t[0]) then [x] + t
    else [t[0]] + Insert(t[1..], x, key)
  }

  /** Inserting adds `x` and loses nothing. */
  lemma {:induction false} InsertPermutes<T>(t: seq<T>, x: T, key: T -> real)
    ensures multiset(Insert(t, x, key)) == multiset(t) + multiset{x}
  {
    if t != [] && key(t[0]) <= key(x) {
      InsertPermutes(t[1..], x, key);
      assert t == [t[0]] + t[1..];
    }
  }

  /** Stable insertion sort by `key`, ascending. */
  function SortBy<T>(s: seq<T>, key: T -> real): (r: seq<T>)
    ensures |r| == |s|
  {
    if s == [] then []
    else Insert(SortBy(s[..|s| - 1], key), s[|s| - 1], key)
  }

  /** The sorted sequence is a permutation of the input. */
  lemma {:induction false} SortByPermutes<T>(s: seq<T>, key: T -> real)
    ensures multiset(SortBy(s, key)) == multiset(s)
  {
    if s != [] {
      SortByPermutes(s[..|s| - 1], key);
      InsertPermutes(SortBy(s[..|s| - 1], key), s[|s| - 1], key);
      assert s == s[..|s| - 1] + [s[|s| - 1]];
    }
  }

  lemma {:induction false} InsertSorted<T>(t: seq<T>, x: T, key: T -> real)
    requires SortedBy(t, key)
    ensures SortedBy(Insert(t, x, key), key)
  {
    if t != [] && key(t[0]) <= key(x) {
      InsertSorted(t[1..], x, key);
      InsertPermutes(t[1..], x, key);
      var r := Insert(t, x, key);
      forall i, j | 0 <= i < j < |r| ensures key(r[i]) <= key(r[j]) {
        if i == 0 {
          assert r[j] in multiset(Insert(t[1..], x, key));
          assert r[j] in multiset(t[1..]) + multiset{x};
        }
      }
    }
  }

  lemma {:induction false} SortBySorted<T>(s: seq<T>, key: T -> real)
    ensures SortedBy(SortBy(s, key), key)
  {
    if s != [] {
      SortBySorted(s[..|s| - 1], key);
      InsertSorted(SortBy(s[..|s| - 1], key), s[|s| - 1], key);
    }
  }

  lemma WithKeyCons<T>(x: T, t: seq<T>, key: T -> real, v: real)
    ensures WithKey([x] + t, key, v) == (if key(x) == v then [x] else []) + WithKey(t, key, v)
  {
    assert ([x] + t)[1..] == t;
  }

  lemma {:induction false} InsertStable<T>(t: seq<T>, x: T, key: T -> real, v: real)
    requires SortedBy(t, key)
    ensures WithKey(Insert(t, x, key), key, v) == WithKey(t, key, v) + (if key(x) == v then [x] else [])
    decreases |t|, 1
  {
    if t == [] {
      WithKeyCons(x, [], key, v);
      assert [x] + [] == [x];
    } else if key(x) < key(t[0]) {
      WithKeyCons(x, t, key, v);
      if key(x) == v {
        NoneWithKey(t, key, v);
      }
    } else {
      InsertStableAfter(t, x, key, v);
    }
  }

  /** `x` goes after the first element: the first element keeps its place in front. */
  lemma {:induction false} InsertStableAfter<T>(t: seq<T>, x: T, key: T -> real, v: real)
    requires SortedBy(t, key) && t != [] && key(t[0]) <= key(x)
    ensures WithKey(Insert(t, x, key), key, v) == WithKey(t, key, v) + (if key(x) == v then [x] else [])
    decreases |t|, 0
  {
    var first, rest := t[0], t[1..];
    var head := if key(first) == v then [first] else [];
    var tail := if key(x) == v then [x] else [];
    var ins := Insert(rest, x, key);
    assert Insert(t, x, key) == [first] + ins;
    SortedTail(t, key);
    InsertStable(rest, x, key, v);
    WithKeyCons(first, ins, key, v);
    assert WithKey(t, key, v) == head + WithKey(rest, key, v);
    assert head + (WithKey(rest, key, v) + tail) == (head + WithKey(rest, key, v)) + tail;
  }

  lemma SortedTail<T>(t: seq<T>, key: T -> real)
    requires SortedBy(t, key) && t != []
    ensures SortedBy(t[1..], key)
  {
    assert forall i :: 0 <= i < |t| - 1 ==> t[1..][i] == t[i + 1];
  }

  /** In a sorted sequence whose first key is above `v`, no element has key `v`. */
  lemma {:induction false} NoneWithKey<T>(t: seq<T>, key: T -> real, v: real)
    requires SortedBy(t, key) && t != [] && v < key(t[0])
    ensures WithKey(t, key, v) == []
  {
    WithKeyCons(t[0], t[1..], key, v);
    assert t == [t[0]] + t[1..];
    if |t| > 1 {
      NoneWithKey(t[1..], key, v);
    }
  }

  /** Stability: for every key value, the elements carrying it come out in their input order. */
  lemma {:induction false} SortByStable<T>(s: seq<T>, key: T -> real, v: real)
    ensures WithKey(SortBy(s, key), key, v) == WithKey(s, key, v)
  {
    if s != [] {
      var init, last := s[..|s| - 1], s[|s| - 1];
      var sorted := SortBy(init, key);
      assert SortBy(s, key) == Insert(sorted, last, key);
      var tail := if key(last) == v then [last] else [];
      assert WithKey([last], key, v) == tail by {
        WithKeyCons(last, [], key, v);
        assert [last] + [] == [last];
      }
      SortByStable(init, key, v);
      SortBySorted(init, key);
      InsertStable(sorted, last, key, v);
      assert WithKey(SortBy(s, key), key, v) == WithKey(init, key, v) + tail;
      assert s == init + [last];
      WithKeyAppend(init, [last], key, v);
    }
  }
}
