/** A workload with zero-weight types on which the best-effort fill admits twice the rate budget. */
module FluidLpOverspend {
  import opened Numbers
  import opened FluidLp
  import opened FluidLpOptimality
  import opened FluidLpFill
  import opened FluidLpRecovery
  import opened FluidLpBoth
  import opened FluidLpSolver
  import opened FluidLpPlan
  import opened FluidLpSolve
  import opened Vertices

  const BUDGET := Vec(1.0, 1.0, 0.0)

  const FREE := WorkloadType(0.0, 1.0, 0.0, 0.0)
  const PAID := WorkloadType(1.0, 2.0, 2.0, 0.0)
  const CHEAP := WorkloadType(0.0, 0.5, 0.0, 0.0)
  const DEAR := WorkloadType(2.0, 2.5, 0.0, 0.0)

  /** Only one type has any weight, so no pair of marginal types is usable. */
  const TYPES := [FREE, PAID, CHEAP, DEAR]

  lemma SumOfFour(a: real, b: real, c: real, d: real)
    ensures Sum([a, b, c, d]) == a + b + c + d
  {
    assert [a, b, c, d][..3] == [a, b, c] && [a, b, c][..2] == [a, b] && [a, b][..1] == [a] && [a][..0] == [];
    assert Sum([a]) == Sum([]) + a;
    assert Sum([a, b]) == Sum([a]) + b;
    assert Sum([a, b, c]) == Sum([a, b]) + c;
    assert Sum([a, b, c, d]) == Sum([a, b, c]) + d;
  }

  function DualAt(r: real, c: real): real { r + c + 2.0 * PosPart(2.0 - r - c) }

  lemma DualIs(p: Vec)
    requires p.k == 0.0
    ensures Dual(TYPES, BUDGET, p) == DualAt(p.r, p.c)
  {
    var s := Surplus(TYPES, p);
    var y := 2.0 * PosPart(2.0 - p.r - p.c);
    assert s[0] == 0.0 && s[2] == 0.0 && s[3] == 0.0;
    assert Reduced(PAID, p) == 2.0 - p.r - p.c;
    assert s == [0.0, y, 0.0, 0.0];
    SumOfFour(0.0, y, 0.0, 0.0);
  }

  /** The optimal prices are exactly those that sum to two. */
  lemma OptimalLine(p: Vec)
    requires DualOptimal(TYPES, BUDGET, p, true)
    ensures p.k == 0.0 && p.r >= 0.0 && p.c >= 0.0 && p.r + p.c == 2.0
  {
    var q := Vec(1.0, 1.0, 0.0);
    DualIs(p);
    DualIs(q);
    assert Dual(TYPES, BUDGET, p) <= Dual(TYPES, BUDGET, q);
  }

  lemma PairOnLine(s: WorkloadType, t: WorkloadType, q: Vec)
    requires s in TYPES && t in TYPES && s.cost != t.cost && q == Crossing(s, t) && q.r + q.c == 2.0
    ensures q.k == 0.0 && (q.c == 0.5 || q.c == 1.0 || q.c == 1.5)
  {
    var dc, dv := t.cost - s.cost, t.value - s.value;
    assert q.c == dv / dc;
    assert q.c * dc == dv;
    assert q.r == s.value - q.c * s.cost;
  }

  lemma CandidatesOnLine(q: Vec)
    requires IsCandidate(TYPES, q) && q.r + q.c == 2.0
    ensures q.k == 0.0 && (q.c == 0.0 || q.c == 0.5 || q.c == 1.0 || q.c == 1.5 || q.c == 2.0)
  {
    if i, j :| 0 <= i < j < |TYPES| && TYPES[i].cost != TYPES[j].cost && q == Crossing(TYPES[i], TYPES[j]) {
      PairOnLine(TYPES[i], TYPES[j], q);
    }
  }

  function CountAt(c: real): int {
    (if c < 1.0 then 1 else 0) + (if c < 1.5 then 1 else 0) + (if c > 0.5 then 1 else 0)
  }

  lemma RejectedIs(p: Vec)
    requires p.k == 0.0 && p.r + p.c == 2.0
    ensures RejectedUpTo(TYPES, p, 4) == CountAt(p.c)
  {
    assert Reduced(FREE, p) == p.c - 1.0 && Reduced(PAID, p) == 0.0 && Reduced(CHEAP, p) == p.c - 1.5 && Reduced(DEAR, p) == 0.5 - p.c;
    assert RejectedUpTo(TYPES, p, 4) == RejectedUpTo(TYPES, p, 3) + if Reduced(TYPES[3], p) < 0.0 then 1 else 0;
    assert RejectedUpTo(TYPES, p, 3) == RejectedUpTo(TYPES, p, 2) + if Reduced(TYPES[2], p) < 0.0 then 1 else 0;
    assert RejectedUpTo(TYPES, p, 2) == RejectedUpTo(TYPES, p, 1) + if Reduced(TYPES[1], p) < 0.0 then 1 else 0;
    assert RejectedUpTo(TYPES, p, 1) == RejectedUpTo(TYPES, p, 0) + if Reduced(TYPES[0], p) < 0.0 then 1 else 0;
  }

  lemma MiddleIsCandidate()
    ensures IsCandidate(TYPES, Vec(1.0, 1.0, 0.0))
  {
    assert TYPES[0] == FREE && TYPES[1] == PAID && FREE.cost != PAID.cost;
    assert Crossing(TYPES[0], TYPES[1]) == Vec(1.0, 1.0, 0.0);
  }

  /** The selection rule settles on the prices one and one. */
  lemma SelectsMiddle(p: Vec)
    requires DualOptimal(TYPES, BUDGET, p, true) && Selected(TYPES, BUDGET, p)
    ensures p == Vec(1.0, 1.0, 0.0)
  {
    var q := Vec(1.0, 1.0, 0.0);
    OptimalLine(p);
    CandidatesOnLine(p);
    MiddleIsCandidate();
    DualIs(p);
    DualIs(q);
    RejectedIs(p);
    RejectedIs(q);
    SelectiveByScore(TYPES, p, q);
    assert AsSelective(TYPES, p, q);
  }

  lemma MarginalsAtMiddle(p: Vec)
    requires p == Vec(1.0, 1.0, 0.0)
    ensures Marginals(TYPES, p) == [0, 1]
  {
    forall i | 0 <= i < 4 ensures Marginal(TYPES[i], p) <==> i < 2 { MarginalIs(i, TYPES[i], p); }
    MarginalsOfFour(TYPES, p);
  }

  lemma MarginalIs(i: nat, t: WorkloadType, p: Vec)
    requires i < 4 && t == TYPES[i] && p == Vec(1.0, 1.0, 0.0)
    ensures Marginal(t, p) <==> i < 2
  {
    assert Reduced(t, p) == t.value - 1.0 - t.cost;
  }

  lemma MarginalsOfFour(types: seq<WorkloadType>, p: Vec)
    requires |types| == 4 && forall i :: 0 <= i < 4 ==> (Marginal(types[i], p) <==> i < 2)
    ensures Marginals(types, p) == [0, 1]
  {
    assert MarginalUpTo(types, p, 0) == [];
    assert MarginalUpTo(types, p, 1) == [0];
    assert MarginalUpTo(types, p, 2) == [0, 1];
    assert MarginalUpTo(types, p, 3) == [0, 1];
    assert MarginalUpTo(types, p, 4) == [0, 1];
  }

  lemma OneWeighted(i: nat)
    requires i < |TYPES|
    ensures TYPES[i].weight > 0.0 ==> i == 1
  {
    assert i == 0 || i == 1 || i == 2 || i == 3;
  }

  lemma NoUsablePair(p: Vec)
    ensures !DistinctPair(TYPES, p)
  {
    forall i, j | 0 <= i < |TYPES| && 0 <= j < |TYPES| ensures !PairOk(TYPES, p, i, j) {
      OneWeighted(i);
      OneWeighted(j);
    }
  }

  lemma NoWeight(t: WorkloadType, y: real)
    requires t.weight == 0.0
    ensures t.weight * y == 0.0
  {
  }

  lemma TermIs(t: WorkloadType, y: real)
    requires t.weight == 0.0 || (t.weight == 2.0 && y == 1.0)
    ensures t.weight * y * Dot(t.Use(), RATE) == t.weight
  {
    RateTerm(t, y);
    if t.weight == 0.0 { NoWeight(t, y); }
  }

  lemma TermAt(types: seq<WorkloadType>, x: seq<real>, i: nat)
    requires |x| == |types| && i < |types| && (types[i].weight == 0.0 || (types[i].weight == 2.0 && x[i] == 1.0))
    ensures LoadTerms(types, x, RATE)[i] == types[i].weight
  {
    TermIs(types[i], x[i]);
  }

  lemma SumFrom(t: seq<real>)
    requires |t| == 4 && t[0] == 0.0 && t[1] == 2.0 && t[2] == 0.0 && t[3] == 0.0
    ensures Sum(t) == 2.0
  {
    assert t == [0.0, 2.0, 0.0, 0.0];
    SumOfFour(0.0, 2.0, 0.0, 0.0);
  }

  lemma RateUsed(x: seq<real>)
    requires |x| == 4 && x[1] == 1.0
    ensures Used(TYPES, x).r == 2.0
  {
    TermAt(TYPES, x, 0);
    TermAt(TYPES, x, 1);
    TermAt(TYPES, x, 2);
    TermAt(TYPES, x, 3);
    SumFrom(LoadTerms(TYPES, x, RATE));
  }

  const MIDDLE := Vec(1.0, 1.0, 0.0)

  lemma BothPriced()
    ensures BranchOf(Marginals(TYPES, MIDDLE), MIDDLE).Both? && |Marginals(TYPES, MIDDLE)| == 2
  {
    MarginalsAtMiddle(MIDDLE);
  }

  lemma NoHit(x: seq<real>, hit: bool)
    requires Priced(TYPES, BUDGET, MIDDLE) && Recovered(TYPES, BUDGET, MIDDLE, x, hit)
    ensures !hit
  {
    BothPriced();
    NoUsablePair(MIDDLE);
    HitsExactlyWhen(TYPES, BUDGET, MIDDLE, x, hit);
  }

  lemma SecondFilled(x: seq<real>)
    requires |x| == 4
    ensures |Ones(x, [0, 1], 2)| == 4 && Ones(x, [0, 1], 2)[1] == 1.0
  {
    assert Ones(x, [0, 1], 2) == Ones(x, [0, 1], 1)[1 := 1.0];
  }

  lemma Missed(types: seq<WorkloadType>, budget: Vec, p: Vec, m: seq<nat>, x: seq<real>, hit: bool)
    requires Recovered(types, budget, p, x, hit) && !hit && m == Marginals(types, p) && BranchOf(m, p).Both?
    ensures x == Ones(Forced(types, p), m, |m|)
  {
  }

  lemma RecoveredFully(x: seq<real>, hit: bool)
    requires Priced(TYPES, BUDGET, MIDDLE) && Recovered(TYPES, BUDGET, MIDDLE, x, hit)
    ensures |x| == 4 && x[1] == 1.0
  {
    NoHit(x, hit);
    BothPriced();
    MarginalsAtMiddle(MIDDLE);
    Missed(TYPES, BUDGET, MIDDLE, [0, 1], x, hit);
    SecondFilled(Forced(TYPES, MIDDLE));
  }

  /** Whatever the solver answers on this workload, its plan uses a rate of two under a rate budget of one. */
  lemma ZeroWeightOverspends(s: Solution)
    requires TwoBudgetAnswer(TYPES, BUDGET, s)
    ensures Used(TYPES, s.admitFractions).r == 2.0 && !Feasible(TYPES, BUDGET, s.admitFractions)
  {
    PlanOverspends(PricesOf(s.duals), s.admitFractions, s.objective);
  }

  lemma PlanOverspends(p: Vec, x: seq<real>, objective: real)
    requires SolvedTwo(TYPES, BUDGET, p, x, objective)
    ensures |x| == 4 && Used(TYPES, x).r == 2.0
  {
    SelectsMiddle(p);
    var hit :| Recovered(TYPES, BUDGET, p, x, hit);
    RecoveredFully(x, hit);
    RateUsed(x);
  }
}
