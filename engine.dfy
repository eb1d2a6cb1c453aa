/**
 * The recommendation engine (`algoritmo_recomendacion_un_ex`): for every candidate (date, time) of
 * the exam being placed, simulate adding it to a copy of the base calendar, compute the cost of the
 * resulting calendar, then turn the costs into scores from 0 to 100 (lower cost, higher score) and
 * rank the candidates by score.
 */
module Engine {
  import opened Common
  import opened Dates
  import opened Buckets
  import opened StableSort
  import opened Catalog
  import opened DayIndex
  import opened Penalties
  import opened Weeks

  /** One entry of `fechas_posibles`: its date (`None` when missing or empty) and its time (the
      empty string when missing, or when the candidate is a bare date string). */
  datatype Candidate = Candidate(fecha: Option<Date>, hora: string)

  /** `examen_estudiado`: the moment and the weight of the exam being placed, when known. */
  datatype Studied = Studied(momento: Option<MomentId>, peso: Option<real>)

  // ---------- the simulated entry ----------

  /** The moment of a candidate: resolved from its time, when it has one. */
  function CandidateMoment(ms: seq<(MomentId, Moment)>, c: Candidate, d: Date): (m: Option<MomentId>)
    ensures c.hora == "" ==> m.None?
    ensures m.Some? <==> c.hora != "" && exists i :: 0 <= i < |ms| && ms[i].1.hora == c.hora
    ensures c.hora != "" ==> m == Resolve(ms, c.hora, d)
  {
    if c.hora == "" then None else Resolve(ms, c.hora, d)
  }

  /** `momento_op or momento_estudiado`: the candidate's own moment wins unless it is missing or
      the empty code, which Python reads as false. */
  function FinalMoment(op: Option<MomentId>, studied: Option<MomentId>): (m: Option<MomentId>)
    ensures m == op || m == studied
    ensures op.Some? && op.value != "" ==> m == op
    ensures op.None? ==> m == studied
  {
    if op.Some? && op.value != "" then op else studied
  }

  /** The entry the simulation adds for candidate `c` on its date `d`: weight 1.0 when unknown. */
  function NewEntry(ms: seq<(MomentId, Moment)>, c: Candidate, d: Date, st: Studied): (e: Entry)
    ensures e.fecha == d
    ensures st.peso.None? ==> e.peso == 1.0
    ensures st.peso.Some? ==> e.peso == st.peso.value
  {
    Entry(d, FinalMoment(CandidateMoment(ms, c, d), st.momento), st.peso.GetOr(1.0))
  }

  /** The simulated calendar holds the base calendar plus exactly one entry, at the candidate's date. */
  lemma SimulationAddsOne(base: Dict<Date, Entry>, e: Entry)
    requires DistinctKeys(base)
    ensures DistinctKeys(Push(base, e.fecha, e))
    ensures Size(Push(base, e.fecha, e)) == Size(base) + 1
    ensures forall d :: Get(Push(base, e.fecha, e), d) == if d == e.fecha then Get(base, d) + [e] else Get(base, d)
  {
    PushDistinct(base, e.fecha, e);
    PushSize(base, e.fecha, e);
    forall d ensures Get(Push(base, e.fecha, e), d) == if d == e.fecha then Get(base, d) + [e] else Get(base, d) {
      PushGet(base, e.fecha, e, d);
    }
  }

  // ---------- cost of a calendar ----------

  /** The weight of a day's entries: each subject weight times its moment's weight. */
  function WeightedSum(ms: seq<(MomentId, Moment)>, es: seq<Entry>): real {
    if es == [] then 0.0
    else WeightedSum(ms, es[..|es| - 1]) + es[|es| - 1].peso * MomentWeight(ms, es[|es| - 1].momento)
  }

  /** `peso_por_dia[dia]`: the weighted sum plus the consecutive-moments penalty. */
  function DayCost(ms: seq<(MomentId, Moment)>, es: seq<Entry>): real {
    WeightedSum(ms, es) + ConsecutivePenalty(es)
  }

  /** The cost of every day of the calendar, in the calendar's order. */
  function DayCosts(ms: seq<(MomentId, Moment)>, dias: Dict<Date, Entry>): seq<(Date, real)> {
    if dias == [] then []
    else
      var last := dias[|dias| - 1];
      DayCosts(ms, dias[..|dias| - 1]) + [(last.0, DayCost(ms, last.1))]
  }

  lemma DayCostsStep(ms: seq<(MomentId, Moment)>, dias: Dict<Date, Entry>, k: nat)
    requires k < |dias|
    ensures DayCosts(ms, dias[..k + 1]) == DayCosts(ms, dias[..k]) + [(dias[k].0, DayCost(ms, dias[k].1))]
  {
    assert dias[..k + 1][..k] == dias[..k];
  }

  /** `peso_por_dia` has the dates of the calendar, in the calendar's order. */
  lemma {:induction false} DayCostsKeys(ms: seq<(MomentId, Moment)>, dias: Dict<Date, Entry>)
    ensures Keys(DayCosts(ms, dias)) == Keys(dias)
  {
    if dias != [] {
      var init, last := dias[..|dias| - 1], dias[|dias| - 1];
      var costs, p := DayCosts(ms, init), (last.0, DayCost(ms, last.1));
      assert DayCosts(ms, dias) == costs + [p];
      DayCostsKeys(ms, init);
      assert dias == init + [last];
      KeysAppend(init, [last]);
      KeysAppend(costs, [p]);
      assert Keys([p]) == Keys([last]) == [last.0];
    }
  }

  /** The values of a dictionary, in order (`d.values()`). */
  function Values<V>(ps: seq<(Date, V)>): (vs: seq<V>)
    ensures |vs| == |ps| && forall i :: 0 <= i < |ps| ==> vs[i] == ps[i].1
  {
    seq(|ps|, i requires 0 <= i < |ps| => ps[i].1)
  }

  /** A week's cost: its day costs, their imbalance, and the proximity of its exams. */
  function WeekCost(weights: seq<(Date, real)>, exams: Dict<Date, Entry>, sqrt: SquareRoot): real {
    Sum(Values(weights)) + Imbalance(Values(weights), sqrt) + Proximity(Flatten(exams))
  }

  /** `pesos_semanas`: the i-th week of day costs is costed with the i-th week of exams, or with
      no exams when there is no i-th week of exams. */
  function WeekCosts(ms: seq<(MomentId, Moment)>, dias: Dict<Date, Entry>, sqrt: SquareRoot): (r: seq<real>)
    ensures |r| == |GroupByWeek(DayCosts(ms, dias))|
  {
    var weights, exams := GroupByWeek(DayCosts(ms, dias)), GroupByWeek(dias);
    seq(|weights|, i requires 0 <= i < |weights| => WeekCost(weights[i], if i < |exams| then exams[i] else [], sqrt))
  }

  /** `peso_total`: the week costs plus their imbalance. */
  function TotalCost(ms: seq<(MomentId, Moment)>, dias: Dict<Date, Entry>, sqrt: SquareRoot): real {
    var weeks := WeekCosts(ms, dias, sqrt);
    Sum(weeks) + Imbalance(weeks, sqrt)
  }

  /**
   * The weeks of day costs and the weeks of exams line up: there are as many of each, so the
   * fallback to "no exams" never happens, and the i-th weeks of both hold the same dates.
   */
  lemma WeeksLineUp(ms: seq<(MomentId, Moment)>, dias: Dict<Date, Entry>)
    ensures |GroupByWeek(DayCosts(ms, dias))| == |GroupByWeek(dias)|
    ensures forall i :: 0 <= i < |GroupByWeek(dias)| ==> Keys(GroupByWeek(DayCosts(ms, dias))[i]) == Keys(GroupByWeek(dias)[i])
  {
    DayCostsKeys(ms, dias);
    GroupByWeekAligned(DayCosts(ms, dias), dias);
  }

  // ---------- per candidate ----------

  /** The calendar simulated for candidate `c` on its date `d`: the base plus the new entry. */
  function Simulated(ms: seq<(MomentId, Moment)>, base: Dict<Date, Entry>, c: Candidate, d: Date, st: Studied): Dict<Date, Entry> {
    var e := NewEntry(ms, c, d, st);
    Push(base, e.fecha, e)
  }

  /** The cost of a candidate on its date: the total cost of its simulated calendar. */
  function CandidateCost(ms: seq<(MomentId, Moment)>, base: Dict<Date, Entry>, st: Studied, sqrt: SquareRoot): (Candidate, Date) -> real {
    (c: Candidate, d: Date) => TotalCost(ms, Simulated(ms, base, c, d, st), sqrt)
  }

  /** How many candidates have a date. */
  function CountDated(cands: seq<Candidate>): nat {
    if cands == [] then 0 else CountDated(cands[..|cands| - 1]) + (if cands[|cands| - 1].fecha.Some? then 1 else 0)
  }

  /** `resultados`: (date, cost) of every candidate that has a date, in candidate order. */
  function Costs(cands: seq<Candidate>, cost: (Candidate, Date) -> real): (r: seq<(Date, real)>)
    ensures |r| == CountDated(cands)
  {
    if cands == [] then []
    else
      var init, c := Costs(cands[..|cands| - 1], cost), cands[|cands| - 1];
      if c.fecha.None? then init else init + [(c.fecha.value, cost(c, c.fecha.value))]
  }

  /** Candidates do not influence each other: costing two lists one after the other is costing
      their concatenation. */
  lemma {:induction false} CostsAppend(c1: seq<Candidate>, c2: seq<Candidate>, cost: (Candidate, Date) -> real)
    ensures Costs(c1 + c2, cost) == Costs(c1, cost) + Costs(c2, cost)
  {
    if c2 == [] {
      assert c1 + c2 == c1;
    } else {
      var init := c2[..|c2| - 1];
      CostsAppend(c1, init, cost);
      assert (c1 + c2)[..|c1 + c2| - 1] == c1 + init;
    }
  }

  /** A single dated candidate is costed on its own. */
  lemma CostsSingle(c: Candidate, cost: (Candidate, Date) -> real)
    requires c.fecha.Some?
    ensures Costs([c], cost) == [(c.fecha.value, cost(c, c.fecha.value))]
  {
    assert [c][..0] == [];
  }

  /** There are no results exactly when no candidate has a date. */
  lemma {:induction false} NoResults(cands: seq<Candidate>)
    ensures CountDated(cands) == 0 <==> forall i :: 0 <= i < |cands| ==> cands[i].fecha.None?
  {
    if cands != [] {
      var init := cands[..|cands| - 1];
      NoResults(init);
      assert forall i :: 0 <= i < |init| ==> init[i] == cands[i];
    }
  }

  // ---------- scores ----------

  function MaxOf(xs: seq<real>): (m: real)
    requires xs != []
    ensures m in xs && forall i :: 0 <= i < |xs| ==> xs[i] <= m
  {
    if |xs| == 1 then xs[0]
    else
      var rest := MaxOf(xs[..|xs| - 1]);
      if xs[|xs| - 1] > rest then xs[|xs| - 1] else rest
  }

  function MinOf(xs: seq<real>): (m: real)
    requires xs != []
    ensures m in xs && forall i :: 0 <= i < |xs| ==> m <= xs[i]
  {
    if |xs| == 1 then xs[0]
    else
      var rest := MinOf(xs[..|xs| - 1]);
      if xs[|xs| - 1] < rest then xs[|xs| - 1] else rest
  }

  /** Costs closer than `1e-9` count as equal. */
  const Tolerance: real := 1.0 / 1000000000.0

  /** `round(x, 2)`, with halves rounded up. */
  function Round2(x: real): real {
    ((100.0 * x + 0.5).Floor as real) / 100.0
  }

  lemma Round2Monotone(x: real, y: real)
    requires x <= y
    ensures Round2(x) <= Round2(y)
  {
    var u, v := 100.0 * x + 0.5, 100.0 * y + 0.5;
    assert u <= v;
    var a, b := u.Floor, v.Floor;
    assert a as real <= u && v < b as real + 1.0;
    assert a <= b;
    assert (a as real) / 100.0 <= (b as real) / 100.0;
  }

  lemma Round2Range(x: real)
    requires 0.0 <= x <= 100.0
    ensures 0.0 <= Round2(x) <= 100.0
  {
    var a := (100.0 * x + 0.5).Floor;
    assert 0 <= a <= 10000;
  }

  /** `100 * (1 - (p - lo) / (hi - lo))`: 100 for the cheapest cost, 0 for the dearest. */
  function RawScore(p: real, lo: real, hi: real): real
    requires lo < hi
  {
    100.0 * (1.0 - (p - lo) / (hi - lo))
  }

  /** A strictly lower cost gets a strictly higher score, and costs in range get scores in range. */
  lemma RawScoreOrder(p: real, q: real, lo: real, hi: real)
    requires lo < hi
    ensures p < q ==> RawScore(p, lo, hi) > RawScore(q, lo, hi)
    ensures lo <= p <= hi ==> 0.0 <= RawScore(p, lo, hi) <= 100.0
    ensures RawScore(lo, lo, hi) == 100.0 && RawScore(hi, lo, hi) == 0.0
  {
    var w := hi - lo;
    assert (hi - lo) / w == 1.0;
    if p < q {
      assert (p - lo) / w < (q - lo) / w;
    }
    if lo <= p <= hi {
      assert 0.0 <= (p - lo) / w <= 1.0;
    }
  }

  /** The score of a cost when the costs are not all equal. */
  function Score(p: real, lo: real, hi: real): real
    requires lo < hi
  {
    Round2(RawScore(p, lo, hi))
  }

  /**
   * `puntuaciones`: every cost becomes a score from 0 to 100; when all costs are equal within the
   * tolerance every score is 50.
   */
  function Scores(results: seq<(Date, real)>): (r: seq<(Date, real)>)
    ensures |r| == |results|
    ensures forall i :: 0 <= i < |r| ==> r[i].0 == results[i].0 && 0.0 <= r[i].1 <= 100.0
  {
    if results == [] then []
    else
      var ps := Values(results);
      var hi, lo := MaxOf(ps), MinOf(ps);
      if Abs(hi - lo) < Tolerance then seq(|results|, i requires 0 <= i < |results| => (results[i].0, 50.0))
      else
        assert forall i :: 0 <= i < |results| ==> lo <= results[i].1 <= hi by {
          assert forall i :: 0 <= i < |results| ==> ps[i] == results[i].1;
        }
        assert forall i :: 0 <= i < |results| ==> 0.0 <= Score(results[i].1, lo, hi) <= 100.0 by {
          forall i | 0 <= i < |results| ensures 0.0 <= Score(results[i].1, lo, hi) <= 100.0 {
            RawScoreOrder(results[i].1, results[i].1, lo, hi);
            Round2Range(RawScore(results[i].1, lo, hi));
          }
        }
        seq(|results|, i requires 0 <= i < |results| => (results[i].0, Score(results[i].1, lo, hi)))
  }

  /** The loop of the source building `puntuaciones`. */
  method NormalizeScores(results: seq<(Date, real)>) returns (scores: seq<(Date, real)>)
    ensures scores == Scores(results)
  {
    if results == [] {
      return [];
    }
    var pesos := Values(results);
    var hi, lo := MaxOf(pesos), MinOf(pesos);
    scores := [];
    if Abs(hi - lo) < Tolerance {
      for i := 0 to |results|
        invariant |scores| == i && forall j :: 0 <= j < i ==> scores[j] == (results[j].0, 50.0)
      {
        scores := scores + [(results[i].0, 50.0)];
      }
    } else {
      for i := 0 to |results|
        invariant |scores| == i && forall j :: 0 <= j < i ==> scores[j] == (results[j].0, Score(results[j].1, lo, hi))
      {
        scores := scores + [(results[i].0, Score(results[i].1, lo, hi))];
      }
    }
  }

  /** All costs equal within the tolerance: every candidate scores 50. */
  lemma ScoresTie(results: seq<(Date, real)>)
    requires forall i, j :: 0 <= i < |results| && 0 <= j < |results| ==> Abs(results[i].1 - results[j].1) < Tolerance
    ensures forall i :: 0 <= i < |results| ==> Scores(results)[i].1 == 50.0
  {
    if results != [] {
      var ps := Values(results);
      var hi, lo := MaxOf(ps), MinOf(ps);
      var a :| 0 <= a < |ps| && ps[a] == hi;
      var b :| 0 <= b < |ps| && ps[b] == lo;
      assert Abs(results[a].1 - results[b].1) < Tolerance;
    }
  }

  /** Costs spread wider than the tolerance: the cheapest scores 100, the dearest 0, and a
      cheaper candidate never scores below a dearer one. */
  lemma ScoresSpread(results: seq<(Date, real)>)
    requires exists i, j :: 0 <= i < |results| && 0 <= j < |results| && Abs(results[i].1 - results[j].1) >= Tolerance
    ensures forall i :: 0 <= i < |results| && (forall j :: 0 <= j < |results| ==> results[i].1 <= results[j].1) ==>
              Scores(results)[i].1 == 100.0
    ensures forall i :: 0 <= i < |results| && (forall j :: 0 <= j < |results| ==> results[j].1 <= results[i].1) ==>
              Scores(results)[i].1 == 0.0
    ensures forall i, j :: 0 <= i < |results| && 0 <= j < |results| && results[i].1 < results[j].1 ==>
              Scores(results)[i].1 >= Scores(results)[j].1
  {
    var lo, hi := SpreadBounds(results);
    var r := Scores(results);
    forall i | 0 <= i < |results| && (forall j :: 0 <= j < |results| ==> results[i].1 <= results[j].1)
      ensures r[i].1 == 100.0
    {
      var b :| 0 <= b < |results| && results[b].1 == lo;
      assert results[i].1 == lo;
      RawScoreOrder(lo, lo, lo, hi);
      Round2Ends();
    }
    forall i | 0 <= i < |results| && (forall j :: 0 <= j < |results| ==> results[j].1 <= results[i].1)
      ensures r[i].1 == 0.0
    {
      var a :| 0 <= a < |results| && results[a].1 == hi;
      assert results[i].1 == hi;
      RawScoreOrder(hi, hi, lo, hi);
      Round2Ends();
    }
    forall i, j | 0 <= i < |results| && 0 <= j < |results| && results[i].1 < results[j].1
      ensures r[i].1 >= r[j].1
    {
      RawScoreOrder(results[i].1, results[j].1, lo, hi);
      Round2Monotone(RawScore(results[j].1, lo, hi), RawScore(results[i].1, lo, hi));
    }
  }

  /** With costs spread wider than the tolerance, every score is the rounded raw score between the
      lowest and the highest cost, both of which occur. */
  lemma SpreadBounds(results: seq<(Date, real)>) returns (lo: real, hi: real)
    requires exists i, j :: 0 <= i < |results| && 0 <= j < |results| && Abs(results[i].1 - results[j].1) >= Tolerance
    ensures lo < hi
    ensures exists a :: 0 <= a < |results| && results[a].1 == lo
    ensures exists b :: 0 <= b < |results| && results[b].1 == hi
    ensures forall i :: 0 <= i < |results| ==> lo <= results[i].1 <= hi && Scores(results)[i].1 == Score(results[i].1, lo, hi)
  {
    var i0, j0 :| 0 <= i0 < |results| && 0 <= j0 < |results| && Abs(results[i0].1 - results[j0].1) >= Tolerance;
    var ps := Values(results);
    hi, lo := MaxOf(ps), MinOf(ps);
    assert lo <= results[i0].1 <= hi && lo <= results[j0].1 <= hi;
    var a :| 0 <= a < |ps| && ps[a] == lo;
    var b :| 0 <= b < |ps| && ps[b] == hi;
    assert results[a].1 == lo && results[b].1 == hi;
  }

  lemma Round2Ends()
    ensures Round2(100.0) == 100.0 && Round2(0.0) == 0.0
  {
    assert (100.0 * 100.0 + 0.5).Floor == 10000;
    assert (100.0 * 0.0 + 0.5).Floor == 0;
  }


  // ---------- ranking ----------

  function NegScore(p: (Date, real)): real {
    -p.1
  }

  /** `puntuaciones.sort(key=score, reverse=True)`: a stable sort, best score first. */
  function Ranking(scores: seq<(Date, real)>): seq<(Date, real)> {
    SortBy(scores, NegScore)
  }

  /** The ranking is the scores reordered, best first, candidates with equal scores in input order. */
  lemma RankingSpec(scores: seq<(Date, real)>)
    ensures multiset(Ranking(scores)) == multiset(scores)
    ensures forall i, j :: 0 <= i < j < |Ranking(scores)| ==> Ranking(scores)[i].1 >= Ranking(scores)[j].1
    ensures forall k :: WithKey(Ranking(scores), NegScore, k) == WithKey(scores, NegScore, k)
  {
    SortByPermutes(scores, NegScore);
    SortBySorted(scores, NegScore);
    forall k ensures WithKey(Ranking(scores), NegScore, k) == WithKey(scores, NegScore, k) {
      SortByStable(scores, NegScore, k);
    }
  }

  /** The whole recommendation: cost every dated candidate, score the costs, rank the scores. */
  function Recommend(db: Db, cands: seq<Candidate>, st: Studied, sqrt: SquareRoot): seq<(Date, real)>
    requires WeightsReadable(db)
  {
    Ranking(Scores(Costs(cands, CandidateCost(db.momentos, BaseIndex(db), st, sqrt))))
  }

  /** One ranked entry per dated candidate, none at all when no candidate has a date, and every
      score from 0 to 100. */
  lemma RecommendShape(db: Db, cands: seq<Candidate>, st: Studied, sqrt: SquareRoot)
    requires WeightsReadable(db)
    ensures |Recommend(db, cands, st, sqrt)| == CountDated(cands)
    ensures Recommend(db, cands, st, sqrt) == [] <==> forall i :: 0 <= i < |cands| ==> cands[i].fecha.None?
    ensures forall p :: p in Recommend(db, cands, st, sqrt) ==> 0.0 <= p.1 <= 100.0
  {
    var scores := Scores(Costs(cands, CandidateCost(db.momentos, BaseIndex(db), st, sqrt)));
    RankingSpec(scores);
    NoResults(cands);
    assert |Recommend(db, cands, st, sqrt)| == |scores| by {
      assert |multiset(Ranking(scores))| == |multiset(scores)|;
    }
    forall p | p in Recommend(db, cands, st, sqrt) ensures 0.0 <= p.1 <= 100.0 {
      assert p in multiset(scores);
    }
  }

  // ---------- the imperative engine ----------

  /** The inner day loop: each entry's subject weight times its moment's weight. */
  method WeightedSumOf(ms: seq<(MomentId, Moment)>, exs: seq<Entry>) returns (suma: real)
    ensures suma == WeightedSum(ms, exs)
  {
    suma := 0.0;
    for t := 0 to |exs|
      invariant suma == WeightedSum(ms, exs[..t])
    {
      assert exs[..t + 1][..t] == exs[..t];
      suma := suma + exs[t].peso * MomentWeight(ms, exs[t].momento);
    }
    assert exs[..|exs|] == exs;
  }

  /** The day loop: each day's weighted sum plus its consecutive-moments penalty. */
  method DayCostsOf(ms: seq<(MomentId, Moment)>, dias: Dict<Date, Entry>) returns (r: seq<(Date, real)>)
    ensures r == DayCosts(ms, dias)
  {
    r := [];
    for k := 0 to |dias|
      invariant r == DayCosts(ms, dias[..k])
    {
      DayCostsStep(ms, dias, k);
      var suma := WeightedSumOf(ms, dias[k].1);
      var pen := ConsecutivePenaltyOf(dias[k].1);
      suma := suma + pen;
      r := r + [(dias[k].0, suma)];
    }
    assert dias[..|dias|] == dias;
  }

  /** The dates of `peso_por_dia` are distinct when the calendar's are. */
  lemma DayCostsDistinct(ms: seq<(MomentId, Moment)>, dias: Dict<Date, Entry>)
    requires DistinctKeys(dias)
    ensures forall i, j :: 0 <= i < j < |DayCosts(ms, dias)| ==> DayCosts(ms, dias)[i].0 != DayCosts(ms, dias)[j].0
  {
    DayCostsKeys(ms, dias);
    var r := DayCosts(ms, dias);
    forall i, j | 0 <= i < j < |r| ensures r[i].0 != r[j].0 {
      assert r[i].0 == Keys(r)[i] == Keys(dias)[i] == dias[i].0;
      assert r[j].0 == Keys(r)[j] == Keys(dias)[j] == dias[j].0;
    }
  }

  /** The loop over the weeks of day costs, each paired with the week of exams at its position. */
  method WeekLoop(semanasPesos: seq<seq<(Date, real)>>, semanasExams: seq<Dict<Date, Entry>>, sqrt: SquareRoot)
    returns (pesosSemanas: seq<real>)
    ensures |pesosSemanas| == |semanasPesos|
    ensures forall j :: 0 <= j < |semanasPesos| ==>
              pesosSemanas[j] == WeekCost(semanasPesos[j], if j < |semanasExams| then semanasExams[j] else [], sqrt)
  {
    pesosSemanas := [];
    for idx := 0 to |semanasPesos|
      invariant |pesosSemanas| == idx
      invariant forall j :: 0 <= j < idx ==>
                  pesosSemanas[j] == WeekCost(semanasPesos[j], if j < |semanasExams| then semanasExams[j] else [], sqrt)
    {
      var semana := Values(semanasPesos[idx]);
      var weekExams := if idx < |semanasExams| then semanasExams[idx] else [];
      var penCercania := ProximityOf(weekExams);
      pesosSemanas := pesosSemanas + [Sum(semana) + Imbalance(semana, sqrt) + penCercania];
    }
  }

  /** Costs every week of a calendar: day costs, split into weeks twice, then the week loop. */
  method WeekCostsOf(ms: seq<(MomentId, Moment)>, dias: Dict<Date, Entry>, sqrt: SquareRoot) returns (pesosSemanas: seq<real>)
    requires DistinctKeys(dias)
    ensures pesosSemanas == WeekCosts(ms, dias, sqrt)
  {
    var pesoPorDia := DayCostsOf(ms, dias);
    DayCostsDistinct(ms, dias);
    var semanasPesos := SplitIntoWeeks(pesoPorDia);
    var semanasExams := SplitIntoWeeks(dias);
    pesosSemanas := WeekLoop(semanasPesos, semanasExams, sqrt);
  }

  /**
   * One iteration of the candidate loop: copy the base calendar, add the candidate's entry, cost
   * the copy. The base calendar is not written to.
   */
  method CandidateCostOf(base: MultiMap<Date, Entry>, ms: seq<(MomentId, Moment)>, c: Candidate, st: Studied, sqrt: SquareRoot)
    returns (cost: real)
    requires base.Valid() && c.fecha.Some?
    ensures cost == CandidateCost(ms, base.entries, st, sqrt)(c, c.fecha.value)
  {
    var fecha := c.fecha.value;
    var momentoOp: Option<MomentId> := None;
    if c.hora != "" {
      momentoOp := ResolveMoment(ms, c.hora, fecha);
    }
    var dias := base.Copy();
    var entry := Entry(fecha, FinalMoment(momentoOp, st.momento), st.peso.GetOr(1.0));
    assert entry == NewEntry(ms, c, fecha, st);
    dias.Add(fecha, entry);
    assert dias.entries == Simulated(ms, base.entries, c, fecha, st);
    var pesosSemanas := WeekCostsOf(ms, dias.entries, sqrt);
    cost := Sum(pesosSemanas) + Imbalance(pesosSemanas, sqrt);
  }

  /** The engine: build the base calendar, cost every dated candidate, score and rank. */
  method RecommendDates(db: Db, cands: seq<Candidate>, st: Studied, sqrt: SquareRoot) returns (ranking: seq<(Date, real)>)
    requires WeightsReadable(db)
    ensures ranking == Recommend(db, cands, st, sqrt)
  {
    var base := BuildIndex(db);
    ghost var cost := CandidateCost(db.momentos, base.entries, st, sqrt);
    var resultados: seq<(Date, real)> := [];
    for i := 0 to |cands|
      invariant base.Valid() && base.entries == BaseIndex(db)
      invariant resultados == Costs(cands[..i], cost)
    {
      assert cands[..i + 1][..i] == cands[..i];
      if cands[i].fecha.Some? {
        var c := CandidateCostOf(base, db.momentos, cands[i], st, sqrt);
        resultados := resultados + [(cands[i].fecha.value, c)];
      }
    }
    assert cands[..|cands|] == cands;
    var puntuaciones := NormalizeScores(resultados);
    ranking := SortBy(puntuaciones, NegScore);
  }
}
