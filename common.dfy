/** Small value types and sums shared by the whole model. */
module Common {

  /** A value that may be missing: Python's `None`, JavaScript's `undefined`. */
  datatype Option<+T> = None | Some(value: T) {
    /** The value, or `default` when it is missing (Python's `d.get(k, default)`). */
    function GetOr(default: T): T {
      if Some? then value else default
    }
  }

  /** Sum of a sequence of reals, accumulated from the left like Python's `sum`. */
  function Sum(xs: seq<real>): real {
    if xs == [] then 0.0 else Sum(xs[..|xs| - 1]) + xs[|xs| - 1]
  }

  lemma {:induction false} SumAppend(a: seq<real>, b: seq<real>)
    ensures Sum(a + b) == Sum(a) + Sum(b)
  {
    if b != [] {
      assert (a + b)[..|a + b| - 1] == a + b[..|b| - 1];
      SumAppend(a, b[..|b| - 1]);
    } else {
      assert a + b == a;
    }
  }

  lemma {:induction false} SumNonnegative(xs: seq<real>)
    requires forall i :: 0 <= i < |xs| ==> 0.0 <= xs[i]
    ensures 0.0 <= Sum(xs)
  {
    if xs != [] {
      SumNonnegative(xs[..|xs| - 1]);
    }
  }

  /** Non-negative values, one of them positive, have a positive sum. */
  lemma {:induction false} SumPositive(xs: seq<real>, k: nat)
    requires forall i :: 0 <= i < |xs| ==> 0.0 <= xs[i]
    requires k < |xs| && xs[k] > 0.0
    ensures Sum(xs) > 0.0
  {
    var init := xs[..|xs| - 1];
    if k == |xs| - 1 {
      SumNonnegative(init);
    } else {
      SumPositive(init, k);
    }
  }

  /** A run of equal values sums to its length times the value. */
  lemma {:induction false} SumConstant(xs: seq<real>, c: real)
    requires forall i :: 0 <= i < |xs| ==> xs[i] == c
    ensures Sum(xs) == (|xs| as real) * c
  {
    if xs != [] {
      SumConstant(xs[..|xs| - 1], c);
    }
  }

  lemma AppendAssoc<T>(a: seq<T>, b: seq<T>, c: seq<T>)
    ensures (a + b) + c == a + (b + c)
  {
  }

  /** `n` raised to the power `e`, Python's `n ** e` on non-negative integers. */
  function Pow(n: nat, e: nat): (r: nat)
    ensures n >= 1 ==> r >= 1
  {
    if e == 0 then 1 else n * Pow(n, e - 1)
  }

  function Abs(x: real): (r: real)
    ensures r >= 0.0 && (r == x || r == -x)
  {
    if x < 0.0 then -x else x
  }
}
