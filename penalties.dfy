/**
 * The four penalties of the recommendation engine: consecutive moments on one day, imbalance of
 * the day weights in a week and of the week weights in a period (both from the population
 * variance), and proximity of weighted exams within a week. Every penalty carries the default
 * factor `p = 0.5`.
 */
module Penalties {
  import opened Common
  import opened Text
  import opened StableSort
  import opened Buckets
  import opened Dates
  import opened Catalog

  const Factor: real := 0.5

  /**
   * The square root is left abstract: any function that is zero at zero and never negative on
   * non-negative arguments.
   */
  type SquareRoot = f: real -> real | f(0.0) == 0.0 && forall x :: 0.0 <= x ==> 0.0 <= f(x)
    witness (x: real) => 0.0

  // ---------- consecutive moments ----------

  /** The moment codes of a day's entries read as integers, skipping entries without a moment;
      `None` when some code is not an integer (the conversion raises). */
  function MomentOrdinals(es: seq<Entry>): Option<seq<int>> {
    if es == [] then Some([])
    else
      var init, m := MomentOrdinals(es[..|es| - 1]), es[|es| - 1].momento;
      if init.None? then None
      else if m.None? then init
      else match ParseInt(m.value)
        case None => None
        case Some(n) => Some(init.value + [n])
  }

  /** The conversion fails exactly when some entry's moment code is not an integer. */
  lemma {:induction false} MomentOrdinalsDefined(es: seq<Entry>)
    ensures MomentOrdinals(es).Some? <==> forall i :: 0 <= i < |es| && es[i].momento.Some? ==> ParseInt(es[i].momento.value).Some?
  {
    if es != [] {
      var init := es[..|es| - 1];
      MomentOrdinalsDefined(init);
      assert forall i :: 0 <= i < |init| ==> init[i] == es[i];
    }
  }

  /** How many neighbours in `xs` are one apart, the later one above. */
  function AdjacentPairs(xs: seq<int>): nat {
    if |xs| <= 1 then 0
    else AdjacentPairs(xs[..|xs| - 1]) + (if xs[|xs| - 1] == xs[|xs| - 2] + 1 then 1 else 0)
  }

  function IntKey(x: int): real {
    x as real
  }

  /** `penalizacion_ex_seguidos`: `n^n * p` for `n` consecutive pairs among the sorted moment codes. */
  function ConsecutivePenalty(es: seq<Entry>): (pen: real)
    ensures pen >= 0.0
    ensures es == [] || MomentOrdinals(es).None? ==> pen == 0.0
    ensures MomentOrdinals(es).Some? ==> (pen == 0.0 <==> AdjacentPairs(SortBy(MomentOrdinals(es).value, IntKey)) == 0)
    ensures es != [] && MomentOrdinals(es).Some? ==>
              var n := AdjacentPairs(SortBy(MomentOrdinals(es).value, IntKey));
              n > 0 ==> pen == (Pow(n, n) as real) * Factor
  {
    if es == [] then 0.0
    else match MomentOrdinals(es)
      case None => 0.0
      case Some(xs) =>
        var n := AdjacentPairs(SortBy(xs, IntKey));
        if n > 0 then (Pow(n, n) as real) * Factor else 0.0
  }

  /** The counting loop of the source over the sorted codes. */
  method ConsecutivePenaltyOf(es: seq<Entry>) returns (pen: real)
    ensures pen == ConsecutivePenalty(es)
  {
    if es == [] {
      return 0.0;
    }
    var ids := MomentOrdinals(es);
    if ids.None? {
      return 0.0;
    }
    var xs := SortBy(ids.value, IntKey);
    var n := 0;
    if |xs| > 1 {
      var i := 1;
      while i < |xs|
        invariant 1 <= i <= |xs|
        invariant n == AdjacentPairs(xs[..i])
      {
        assert xs[..i + 1][..i] == xs[..i];
        if xs[i] == xs[i - 1] + 1 {
          n := n + 1;
        }
        i := i + 1;
      }
      assert xs[..i] == xs;
    }
    pen := if n > 0 then (Pow(n, n) as real) * Factor else 0.0;
  }

  /** More consecutive pairs on a day always cost more: `n^n` grows strictly with `n`. */
  lemma ConsecutiveGrows(es1: seq<Entry>, es2: seq<Entry>)
    requires es1 != [] && MomentOrdinals(es1).Some?
    requires es2 != [] && MomentOrdinals(es2).Some?
    requires AdjacentPairs(SortBy(MomentOrdinals(es1).value, IntKey)) < AdjacentPairs(SortBy(MomentOrdinals(es2).value, IntKey))
    ensures ConsecutivePenalty(es1) < ConsecutivePenalty(es2)
  {
    var n := AdjacentPairs(SortBy(MomentOrdinals(es1).value, IntKey));
    var m := AdjacentPairs(SortBy(MomentOrdinals(es2).value, IntKey));
    if n > 0 {
      PowSelfIncreasing(n, m);
    }
  }

  /** `n^n < m^m` for `1 <= n < m`. */
  lemma {:induction false} PowSelfIncreasing(n: nat, m: nat)
    requires 1 <= n < m
    ensures Pow(n, n) < Pow(m, m)
  {
    PowSelfStep(m - 1);
    if n < m - 1 {
      PowSelfIncreasing(n, m - 1);
    }
  }

  lemma PowSelfStep(n: nat)
    requires n >= 1
    ensures Pow(n, n) < Pow(n + 1, n + 1)
  {
    PowBaseMonotone(n, n + 1, n);
    var q := Pow(n + 1, n);
    assert Pow(n + 1, n + 1) == (n + 1) * q;
    MulMonotone(1, n, q);
  }

  lemma {:induction false} PowBaseMonotone(a: nat, b: nat, e: nat)
    requires a <= b
    ensures Pow(a, e) <= Pow(b, e)
  {
    if e > 0 {
      PowBaseMonotone(a, b, e - 1);
      var x, y := Pow(a, e - 1), Pow(b, e - 1);
      assert Pow(a, e) == a * x && Pow(b, e) == b * y;
      MulMonotone(x, y, a);
      MulMonotone(a, b, y);
    }
  }

  /** `a * x <= b * x` for `a <= b` and a non-negative `x`. */
  lemma {:induction false} MulMonotone(a: int, b: int, x: nat)
    requires a <= b
    ensures a * x <= b * x && x * a <= x * b
  {
    if x > 0 {
      MulMonotone(a, b, x - 1);
      assert a * x == a * (x - 1) + a;
      assert b * x == b * (x - 1) + b;
    }
  }

  /** Entries without a moment do not count towards consecutive moments, wherever they sit. */
  lemma ConsecutiveIgnoresNoMoment(a: seq<Entry>, e: Entry, b: seq<Entry>)
    requires e.momento.None?
    ensures ConsecutivePenalty(a + [e] + b) == ConsecutivePenalty(a + b)
  {
    OrdinalsSkipNoMoment(a, e, b);
    if a + b == [] {
      assert a + [e] + b == [e];
      assert [e][..0] == [];
      assert MomentOrdinals([e]) == Some([]);
      assert SortBy([], IntKey) == [];
    }
  }

  lemma {:induction false} OrdinalsSkipNoMoment(a: seq<Entry>, e: Entry, b: seq<Entry>)
    requires e.momento.None?
    ensures MomentOrdinals(a + [e] + b) == MomentOrdinals(a + b)
  {
    if b == [] {
      assert a + [e] + b == a + [e] && a + b == a;
      assert (a + [e])[..|a|] == a;
    } else {
      var init, x := b[..|b| - 1], b[|b| - 1];
      OrdinalsSkipNoMoment(a, e, init);
      assert (a + [e] + b)[..|a + [e] + b| - 1] == a + [e] + init;
      assert (a + b)[..|a + b| - 1] == a + init;
      assert (a + [e] + b)[|a + [e] + b| - 1] == x == (a + b)[|a + b| - 1];
    }
  }

  /** Codes "3" and "4" are one consecutive pair: 1^1 * 0.5; codes "3" and "5" are none. */
  lemma ConsecutiveExamples(d: Date)
    ensures ConsecutivePenalty([Entry(d, Some("3"), 1.0), Entry(d, Some("4"), 1.0)]) == 0.5
    ensures ConsecutivePenalty([Entry(d, Some("3"), 1.0), Entry(d, Some("5"), 1.0)]) == 0.0
  {
    assert "3"[..0] == [] && "4"[..0] == [] && "5"[..0] == [];
    assert ParseInt("3") == Some(3) && ParseInt("4") == Some(4) && ParseInt("5") == Some(5);
    TwoOrdinals(Entry(d, Some("3"), 1.0), Entry(d, Some("4"), 1.0), 3, 4);
    TwoOrdinals(Entry(d, Some("3"), 1.0), Entry(d, Some("5"), 1.0), 3, 5);
    assert AdjacentPairs([3, 4]) == 1 by { assert [3, 4][..1] == [3]; }
    assert AdjacentPairs([3, 5]) == 0 by { assert [3, 5][..1] == [3]; }
  }

  /** Two entries with integer codes `n < m`: their ordinals come out as `[n, m]`, already sorted. */
  lemma TwoOrdinals(a: Entry, b: Entry, n: int, m: int)
    requires a.momento.Some? && ParseInt(a.momento.value) == Some(n)
    requires b.momento.Some? && ParseInt(b.momento.value) == Some(m)
    requires n < m
    ensures MomentOrdinals([a, b]) == Some([n, m])
    ensures SortBy([n, m], IntKey) == [n, m]
  {
    OneOrdinal(a, n);
    assert [a, b][..1] == [a];
    assert [n] + [m] == [n, m];
    SortTwo(n, m);
  }

  lemma OneOrdinal(a: Entry, n: int)
    requires a.momento.Some? && ParseInt(a.momento.value) == Some(n)
    ensures MomentOrdinals([a]) == Some([n])
  {
    assert [a][..0] == [];
    assert [] + [n] == [n];
  }

  lemma SortTwo(n: int, m: int)
    requires n < m
    ensures SortBy([n, m], IntKey) == [n, m]
  {
    assert [n, m][..1] == [n] && [n][..0] == [];
    assert SortBy([n], IntKey) == [n];
    assert Insert([n], m, IntKey) == [n, m];
  }

  // ---------- imbalance ----------

  /** `desviacion_tipica`: despite its name, the population variance (0 for at most one value). */
  function Variance(xs: seq<real>): (v: real)
    ensures v >= 0.0
    ensures |xs| <= 1 ==> v == 0.0
  {
    if |xs| <= 1 then 0.0
    else
      var mean := Sum(xs) / (|xs| as real);
      var squares := seq(|xs|, i requires 0 <= i < |xs| => (xs[i] - mean) * (xs[i] - mean));
      assert forall i :: 0 <= i < |squares| ==> squares[i] >= 0.0 by {
        forall i | 0 <= i < |squares| ensures squares[i] >= 0.0 {
          SquareNonnegative(xs[i] - mean);
        }
      }
      SumNonnegative(squares);
      Sum(squares) / (|xs| as real)
  }

  lemma SquareNonnegative(a: real)
    ensures a * a >= 0.0
  {
    if a < 0.0 {
      assert a * a == (-a) * (-a);
    }
  }

  /** Equal values have no variance. */
  lemma VarianceOfConstant(xs: seq<real>, c: real)
    requires forall i :: 0 <= i < |xs| ==> xs[i] == c
    ensures Variance(xs) == 0.0
  {
    if |xs| > 1 {
      SumConstant(xs, c);
      var n := |xs| as real;
      assert Sum(xs) / n == c;
      var squares := seq(|xs|, i requires 0 <= i < |xs| => (xs[i] - c) * (xs[i] - c));
      SumConstant(squares, 0.0);
    }
  }

  /** Two different values give a positive variance: an uneven week or period is penalised. */
  lemma VariancePositive(xs: seq<real>, i: nat, j: nat)
    requires i < |xs| && j < |xs| && xs[i] != xs[j]
    ensures Variance(xs) > 0.0
  {
    var mean := Sum(xs) / (|xs| as real);
    var squares := seq(|xs|, k requires 0 <= k < |xs| => (xs[k] - mean) * (xs[k] - mean));
    var k := if xs[i] != mean then i else j;
    assert xs[k] != mean;
    forall t | 0 <= t < |squares| ensures squares[t] >= 0.0 {
      SquareNonnegative(xs[t] - mean);
    }
    assert squares[k] == (xs[k] - mean) * (xs[k] - mean);
    SquarePositive(xs[k] - mean, squares[k]);
    SumPositive(squares, k);
  }

  /** `sq`, the square of a non-zero `a`, is positive. */
  lemma SquarePositive(a: real, sq: real)
    requires a != 0.0 && sq == a * a
    ensures sq > 0.0
  {
    ProductPositive(a, a, sq);
  }

  lemma ProductPositive(a: real, b: real, p: real)
    requires a == b && a != 0.0 && p == a * b
    ensures p > 0.0
  {
    if a > 0.0 {
      assert a * b > 0.0;
    } else {
      assert (-a) * (-b) > 0.0;
      assert (-a) * (-b) == a * b;
    }
  }

  /** `penalizacion_desequilibrio_dias` and `penalizacion_desequilibrio_semanas` (the same formula). */
  function Imbalance(xs: seq<real>, sqrt: SquareRoot): (pen: real)
    ensures pen >= 0.0
    ensures |xs| <= 1 ==> pen == 0.0
  {
    Factor * sqrt(Variance(xs))
  }

  /** A week or a period of equal weights is balanced. */
  lemma ImbalanceOfConstant(xs: seq<real>, c: real, sqrt: SquareRoot)
    requires forall i :: 0 <= i < |xs| ==> xs[i] == c
    ensures Imbalance(xs, sqrt) == 0.0
  {
    VarianceOfConstant(xs, c);
  }

  // ---------- proximity ----------

  /** The number of days between two dates, `abs((d1 - d2).days)`. */
  function DayGap(d1: Date, d2: Date): (g: nat)
    ensures d1 + g == d2 || d2 + g == d1
  {
    if d1 <= d2 then d2 - d1 else d1 - d2
  }

  /** The closer two exams are, the larger the factor: 4 on the same day, 2 a day apart, 1 two days
      apart and 0.2 further apart. */
  function GapFactor(d1: Date, d2: Date): (f: real)
    ensures 0.0 < f <= 4.0
    ensures DayGap(d1, d2) <= 2 ==> f == 4.0 / Pow(2, DayGap(d1, d2)) as real
    ensures DayGap(d1, d2) > 2 ==> f == 0.2
  {
    var g := DayGap(d1, d2);
    if g == 0 then 4.0 else if g == 1 then 2.0 else if g == 2 then 1.0 else 0.2
  }

  function PairCost(a: Entry, b: Entry): real {
    (a.peso * b.peso) * GapFactor(a.fecha, b.fecha)
  }

  /** The pair costs of `a` with each of `bs`, accumulated in order. */
  function RowSum(a: Entry, bs: seq<Entry>): real {
    if bs == [] then 0.0 else RowSum(a, bs[..|bs| - 1]) + PairCost(a, bs[|bs| - 1])
  }

  /** The rows of the first `i` entries, each paired with every later entry. */
  function RowsUpTo(es: seq<Entry>, i: nat): real
    requires i <= |es|
  {
    if i == 0 then 0.0 else RowsUpTo(es, i - 1) + RowSum(es[i - 1], es[i..])
  }

  /** The pair cost summed over every pair `i < j` of entries. */
  function PairSum(es: seq<Entry>): real {
    RowsUpTo(es, |es|)
  }

  /** `penalizacion_cercania_ex_pesados` on the flattened entries of a week. */
  function Proximity(es: seq<Entry>): real {
    PairSum(es) * Factor
  }

  /** The double loop of the source over the flattened entries of a week's dictionary. */
  method ProximityOf(week: Dict<Date, Entry>) returns (pen: real)
    ensures pen == Proximity(Flatten(week))
  {
    var es: seq<Entry> := [];
    var k := 0;
    while k < |week|
      invariant 0 <= k <= |week|
      invariant es == Flatten(week[..k])
    {
      assert week[..k + 1][..k] == week[..k];
      es := es + week[k].1;
      k := k + 1;
    }
    assert week[..k] == week;
    var total := 0.0;
    var i := 0;
    while i < |es|
      invariant 0 <= i <= |es|
      invariant total == RowsUpTo(es, i)
    {
      var row := RowOf(es, i);
      total := total + row;
      i := i + 1;
    }
    pen := total * Factor;
  }

  /** The inner loop: the costs of exam `i` paired with every later exam. */
  method RowOf(es: seq<Entry>, i: nat) returns (row: real)
    requires i < |es|
    ensures row == RowSum(es[i], es[i + 1..])
  {
    row := 0.0;
    var j := i + 1;
    while j < |es|
      invariant i + 1 <= j <= |es|
      invariant row == RowSum(es[i], es[i + 1..j])
    {
      assert es[i + 1..j + 1][..j - i - 1] == es[i + 1..j];
      row := row + PairCost(es[i], es[j]);
      j := j + 1;
    }
    assert es[i + 1..j] == es[i + 1..];
  }


  /** The pair costs of each of `es` with `x`. */
  function CrossSum(es: seq<Entry>, x: Entry): real {
    if es == [] then 0.0 else CrossSum(es[..|es| - 1], x) + PairCost(es[|es| - 1], x)
  }

  /** Every unordered pair counts once: a new entry adds its pair cost with each earlier entry. */
  lemma PairSumSnoc(es: seq<Entry>, x: Entry)
    ensures PairSum(es + [x]) == PairSum(es) + CrossSum(es, x)
  {
    RowsSnoc(es, x, |es|);
    assert (es + [x])[|es| + 1..] == [];
    assert es[..|es|] == es;
  }

  lemma {:induction false} RowsSnoc(es: seq<Entry>, x: Entry, i: nat)
    requires i <= |es|
    ensures RowsUpTo(es + [x], i) == RowsUpTo(es, i) + CrossSum(es[..i], x)
  {
    if i > 0 {
      RowsSnoc(es, x, i - 1);
      var bs := es[i..];
      assert (es + [x])[i..] == bs + [x];
      assert (bs + [x])[..|bs|] == bs;
      assert es[..i][..i - 1] == es[..i - 1];
    }
  }

  /** Non-negative weights give a non-negative proximity penalty. */
  lemma ProximityNonnegative(es: seq<Entry>)
    requires forall i :: 0 <= i < |es| ==> es[i].peso >= 0.0
    ensures Proximity(es) >= 0.0
  {
    RowsNonnegative(es, |es|);
  }

  lemma {:induction false} RowsNonnegative(es: seq<Entry>, i: nat)
    requires i <= |es|
    requires forall k :: 0 <= k < |es| ==> es[k].peso >= 0.0
    ensures RowsUpTo(es, i) >= 0.0
  {
    if i > 0 {
      RowsNonnegative(es, i - 1);
      RowNonnegative(es[i - 1], es[i..]);
    }
  }

  lemma {:induction false} RowNonnegative(a: Entry, bs: seq<Entry>)
    requires a.peso >= 0.0 && forall k :: 0 <= k < |bs| ==> bs[k].peso >= 0.0
    ensures RowSum(a, bs) >= 0.0
  {
    if bs != [] {
      RowNonnegative(a, bs[..|bs| - 1]);
      var b := bs[|bs| - 1];
      assert a.peso * b.peso >= 0.0;
    }
  }

  /** No pair, no penalty. */
  lemma ProximityOfOne(es: seq<Entry>)
    requires |es| <= 1
    ensures Proximity(es) == 0.0
  {
    if |es| == 1 {
      assert RowsUpTo(es, 1) == RowSum(es[0], []);
    }
  }

  /** Weights 2 and 3 on the same date: 2 * 3 * 4 * 0.5 = 12. */
  lemma ProximityExample(d: Date, m1: Option<MomentId>, m2: Option<MomentId>)
    ensures Proximity([Entry(d, m1, 2.0), Entry(d, m2, 3.0)]) == 12.0
  {
    var es := [Entry(d, m1, 2.0), Entry(d, m2, 3.0)];
    assert GapFactor(d, d) == 4.0;
    assert PairCost(es[0], es[1]) == 24.0;
    assert es[1..] == [es[1]] && [es[1]][..0] == [];
    assert RowSum(es[0], es[1..]) == 24.0;
    assert es[2..] == [];
    assert RowsUpTo(es, 1) == 24.0;
    assert RowsUpTo(es, 2) == 24.0;
  }
}
