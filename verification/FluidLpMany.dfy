/** Ordinary workloads with more than 12 marginal types, all of positive weight, on which the best-effort fill overspends both budgets. */
module FluidLpMany {
  import opened Numbers
  import opened FluidLp
  import opened FluidLpOptimality
  import opened FluidLpFill
  import opened FluidLpRecovery
  import opened FluidLpSingle
  import opened FluidLpPlan
  import opened FluidLpSolve
  import opened FluidLpExact
  import opened Greedy
  import opened Sorting

  /** Type k (from 1 on) costs k, is worth k + 1 and weighs 1. */
  function Ladder(n: nat): (types: seq<WorkloadType>)
    ensures |types| == n
    ensures forall i :: 0 <= i < n ==> types[i] == Step(i)
  {
    seq(n, i requires 0 <= i < n => Step(i))
  }

  function Step(i: nat): WorkloadType { WorkloadType(i as real + 1.0, i as real + 2.0, 1.0, 0.0) }

  /** Room for ten of them on the average. */
  function LadderBudget(n: nat): Vec { Vec(10.0, 5.0 * (n as real + 1.0), 0.0) }

  function Uniform(n: nat, y: real): (x: seq<real>)
    ensures |x| == n && forall i :: 0 <= i < n ==> x[i] == y
  {
    seq(n, i => y)
  }

  /** The terms (i + a) * y. */
  function Rungs(n: nat, a: real, y: real): (s: seq<real>)
    ensures |s| == n && forall i :: 0 <= i < n ==> s[i] == Rung(i, a, y)
  {
    seq(n, i requires 0 <= i < n => Rung(i, a, y))
  }

  function Rung(i: nat, a: real, y: real): real { (i as real + a) * y }

  function RungSum(n: nat, a: real, y: real): real { (n as real * (n as real - 1.0) / 2.0 + a * n as real) * y }

  lemma RungNext(n: nat, a: real, y: real)
    ensures RungSum(n, a, y) + Rung(n, a, y) == RungSum(n + 1, a, y)
  {
    var r := n as real;
    assert (r + 1.0) * r / 2.0 + a * (r + 1.0) == r * (r - 1.0) / 2.0 + a * r + (r + a);
  }

  lemma {:induction false} RungsSum(n: nat, a: real, y: real)
    ensures Sum(Rungs(n, a, y)) == RungSum(n, a, y)
  {
    if n > 0 {
      RungsSum(n - 1, a, y);
      RungNext(n - 1, a, y);
      assert Rungs(n, a, y)[..n - 1] == Rungs(n - 1, a, y);
    }
  }

  lemma {:induction false} UniformSum(n: nat, y: real)
    ensures Sum(Uniform(n, y)) == n as real * y
  {
    if n > 0 {
      UniformSum(n - 1, y);
      Distributes((n - 1) as real, 1.0, y);
      assert Uniform(n, y)[..n - 1] == Uniform(n - 1, y);
    }
  }

  function Term(t: WorkloadType, y: real, d: Vec): real { t.weight * y * Dot(t.Use(), d) }

  function Worth(t: WorkloadType, y: real): real { t.weight * t.value * y }

  lemma RungTerms(i: nat, y: real)
    ensures Term(Step(i), y, RATE) == y && Term(Step(i), y, COST) == Rung(i, 1.0, y)
    ensures Term(Step(i), y, CONC) == 0.0 && Worth(Step(i), y) == Rung(i, 2.0, y)
  {
  }

  lemma {:induction false} TermOf(types: seq<WorkloadType>, x: seq<real>, d: Vec, i: nat, t: WorkloadType, y: real)
    requires i < |types| == |x| && t == types[i] && y == x[i]
    ensures LoadTerms(types, x, d)[i] == Term(t, y, d) && Earned(types, x)[i] == Worth(t, y)
  {
  }

  lemma {:induction false} UniformTerms(n: nat, y: real, i: nat)
    requires i < n
    ensures LoadTerms(Ladder(n), Uniform(n, y), RATE)[i] == y && LoadTerms(Ladder(n), Uniform(n, y), COST)[i] == Rung(i, 1.0, y)
    ensures LoadTerms(Ladder(n), Uniform(n, y), CONC)[i] == 0.0 && Earned(Ladder(n), Uniform(n, y))[i] == Rung(i, 2.0, y)
  {
    TermOf(Ladder(n), Uniform(n, y), RATE, i, Step(i), y);
    TermOf(Ladder(n), Uniform(n, y), COST, i, Step(i), y);
    TermOf(Ladder(n), Uniform(n, y), CONC, i, Step(i), y);
    RungTerms(i, y);
  }

  lemma {:induction false} SumIsRungs(s: seq<real>, a: real, y: real)
    requires forall i :: 0 <= i < |s| ==> s[i] == Rung(i, a, y)
    ensures Sum(s) == RungSum(|s|, a, y)
  {
    assert s == Rungs(|s|, a, y);
    RungsSum(|s|, a, y);
  }

  lemma {:induction false} SumIsUniform(s: seq<real>, y: real)
    requires forall i :: 0 <= i < |s| ==> s[i] == y
    ensures Sum(s) == |s| as real * y
  {
    assert s == Uniform(|s|, y);
    UniformSum(|s|, y);
  }

  lemma {:induction false} UniformUses(n: nat, y: real)
    ensures Used(Ladder(n), Uniform(n, y)) == Vec(n as real * y, RungSum(n, 1.0, y), 0.0)
    ensures Objective(Ladder(n), Uniform(n, y)) == RungSum(n, 2.0, y)
  {
    var types, x := Ladder(n), Uniform(n, y);
    var r, c, k, e := LoadTerms(types, x, RATE), LoadTerms(types, x, COST), LoadTerms(types, x, CONC), Earned(types, x);
    forall i: nat | i < n ensures r[i] == y && c[i] == Rung(i, 1.0, y) && k[i] == 0.0 && e[i] == Rung(i, 2.0, y) { UniformTerms(n, y, i); }
    SumsOf(n, y, r, c, k, e);
  }

  lemma {:induction false} SumsOf(n: nat, y: real, r: seq<real>, c: seq<real>, k: seq<real>, e: seq<real>)
    requires |r| == |c| == |k| == |e| == n
    requires forall i :: 0 <= i < n ==> r[i] == y && c[i] == Rung(i, 1.0, y) && k[i] == 0.0 && e[i] == Rung(i, 2.0, y)
    ensures Sum(r) == n as real * y && Sum(c) == RungSum(n, 1.0, y) && Sum(k) == 0.0 && Sum(e) == RungSum(n, 2.0, y)
  {
    SumIsUniform(r, y);
    SumIsRungs(c, 1.0, y);
    SumIsRungs(e, 2.0, y);
    SumZero(k);
  }

  const ONES := Vec(1.0, 1.0, 0.0)

  lemma AllMarginalAtOnes(n: nat, p: Vec, i: nat)
    requires i < n && p.r == 1.0 && p.c == 1.0 && p.k == 0.0
    ensures Reduced(Ladder(n)[i], p) == 0.0
  {
    assert p.c * (i as real + 1.0) == i as real + 1.0;
  }

  /** The share that fills both budgets. */
  function Share(n: nat): real
    requires n > 0
  {
    10.0 / n as real
  }

  lemma ShareFills(n: nat, y: real)
    requires n > 10 && y == Share(n)
    ensures 0.0 < y < 1.0 && n as real * y == 10.0
    ensures RungSum(n, 1.0, y) == 5.0 * (n as real + 1.0) && RungSum(n, 2.0, y) == 5.0 * n as real + 15.0
  {
    var r := n as real;
    assert y * r == 10.0;
    assert y <= 0.0 ==> y * r <= 0.0;
    assert y >= 1.0 ==> (y - 1.0) * r >= 0.0;
    assert (r * (r - 1.0) / 2.0 + 1.0 * r) * y == (r * y) * ((r - 1.0) / 2.0 + 1.0);
    assert (r * (r - 1.0) / 2.0 + 2.0 * r) * y == (r * y) * ((r - 1.0) / 2.0 + 2.0);
  }

  lemma {:induction false} DualAtOnes(n: nat, p: Vec)
    requires p.r == 1.0 && p.c == 1.0 && p.k == 0.0
    ensures Dual(Ladder(n), LadderBudget(n), p) == 5.0 * n as real + 15.0
  {
    var s := Surplus(Ladder(n), p);
    forall i: nat | i < n ensures s[i] == 0.0 { AllMarginalAtOnes(n, p, i); }
    SumZero(s);
  }

  lemma UndecidedTerm(w: real, y: real, red: real)
    requires w == 1.0 && 0.0 < y < 1.0 && w * y * red == w * PosPart(red)
    ensures red == 0.0
  {
    assert red > 0.0 ==> (1.0 - y) * red > 0.0;
    assert red < 0.0 ==> y * red < 0.0;
  }

  /** A plan that spends both budgets and earns the dual value gains exactly the surplus of every type. */
  lemma {:induction false} TightEverywhere(types: seq<WorkloadType>, budget: Vec, x: seq<real>, p: Vec)
    requires ValidTypes(types) && Plan(types, x) && Used(types, x) == budget && Dual(types, budget, p) <= Objective(types, x)
    ensures forall i :: 0 <= i < |types| ==> Gains(types, x, p)[i] == Surplus(types, p)[i]
  {
    ObjectiveSplits(types, x, p);
    var g, s := Gains(types, x, p), Surplus(types, p);
    forall i: nat | i < |types| ensures g[i] <= s[i] { GainBelow(types, x, p, i); }
    SumTight(g, s);
  }

  lemma {:induction false} GainBelow(types: seq<WorkloadType>, x: seq<real>, p: Vec, i: nat)
    requires ValidTypes(types) && Plan(types, x) && i < |types|
    ensures Gains(types, x, p)[i] <= Surplus(types, p)[i]
  {
    GainAtMost(types[i].weight, x[i], Reduced(types[i], p));
  }

  lemma {:induction false} UniformEarnsOptimum(n: nat, p: Vec, y: real)
    requires n > 10 && y == Share(n) && DualOptimal(Ladder(n), LadderBudget(n), p, true)
    ensures Plan(Ladder(n), Uniform(n, y)) && Used(Ladder(n), Uniform(n, y)) == LadderBudget(n)
    ensures Dual(Ladder(n), LadderBudget(n), p) <= Objective(Ladder(n), Uniform(n, y))
  {
    UniformUses(n, y);
    ShareFills(n, y);
    DualAtOnes(n, ONES);
    assert Dual(Ladder(n), LadderBudget(n), p) <= Dual(Ladder(n), LadderBudget(n), ONES);
  }

  /** Every type is undecided in the uniform plan, so optimal prices leave every type marginal. */
  lemma {:induction false} OptimalLeavesMarginal(n: nat, p: Vec, y: real)
    requires n > 10 && y == Share(n) && DualOptimal(Ladder(n), LadderBudget(n), p, true)
    ensures forall i :: 0 <= i < n ==> Reduced(Ladder(n)[i], p) == 0.0
  {
    var types, x := Ladder(n), Uniform(n, y);
    UniformEarnsOptimum(n, p, y);
    TightEverywhere(types, LadderBudget(n), x, p);
    ShareFills(n, y);
    forall i: nat | i < n ensures Reduced(types[i], p) == 0.0 { UndecidedType(types, x, p, i, y); }
  }

  lemma {:induction false} UndecidedType(types: seq<WorkloadType>, x: seq<real>, p: Vec, i: nat, y: real)
    requires i < |types| == |x| && types[i].weight == 1.0 && x[i] == y && 0.0 < y < 1.0
    requires Gains(types, x, p)[i] == Surplus(types, p)[i]
    ensures Reduced(types[i], p) == 0.0
  {
    UndecidedTerm(types[i].weight, x[i], Reduced(types[i], p));
  }

  /** The only optimal prices are one and one. */
  lemma {:induction false} OnlyOnes(n: nat, p: Vec)
    requires n > 10 && DualOptimal(Ladder(n), LadderBudget(n), p, true)
    ensures p == ONES
  {
    OptimalLeavesMarginal(n, p, Share(n));
    assert Reduced(Ladder(n)[0], p) == 2.0 - p.r - p.c;
    assert Reduced(Ladder(n)[1], p) == 3.0 - p.r - p.c * 2.0;
  }

  lemma {:induction false} EveryOneListed(types: seq<WorkloadType>, p: Vec, n: nat)
    requires n <= |types| && forall i :: 0 <= i < |types| ==> Marginal(types[i], p)
    ensures MarginalUpTo(types, p, n) == Indices(n)
  {
    if n > 0 {
      EveryOneListed(types, p, n - 1);
      assert Indices(n) == Indices(n - 1) + [n - 1];
    }
  }

  lemma {:induction false} OnesOf(x: seq<real>, n: nat, k: nat)
    requires |x| == n && k <= n
    ensures Within(Indices(n), n) && forall i :: 0 <= i < n ==> Ones(x, Indices(n), k)[i] == if i < k then 1.0 else x[i]
  {
    if k > 0 { OnesOf(x, n, k - 1); }
  }

  lemma {:induction false} LadderMarginals(n: nat, p: Vec)
    requires p == ONES
    ensures Marginals(Ladder(n), p) == Indices(n) && Forced(Ladder(n), p) == Uniform(n, 0.0)
  {
    var types := Ladder(n);
    forall i: nat | i < n ensures Marginal(types[i], p) && Reduced(types[i], p) == 0.0 { AllMarginalAtOnes(n, p, i); }
    EveryOneListed(types, p, n);
  }

  /** No pair of weight-1 types can fill a room of ten. */
  lemma {:induction false} NoPairAlone(n: nat, p: Vec)
    requires p == ONES
    ensures !PairAlone(Ladder(n), LadderBudget(n), p)
  {
    LadderMarginals(n, p);
    UniformUses(n, 0.0);
    assert n as real * 0.0 == 0.0;
    var types, budget := Ladder(n), LadderBudget(n);
    forall i: nat, j: nat, y: real, z: real | i < n && j < n ensures !AloneFits(types, budget, p, i, j, y, z) {
      assert FillsRoom(1.0, 1.0, y, z, 10.0) <==> y + z == 10.0;
    }
  }

  /** So beyond 12 types the search misses and the best-effort fill admits everything. */
  lemma {:induction false} EverythingAdmitted(n: nat, p: Vec, x: seq<real>, hit: bool)
    requires n >= 13 && p == ONES && Priced(Ladder(n), LadderBudget(n), p) && Recovered(Ladder(n), LadderBudget(n), p, x, hit)
    ensures x == Uniform(n, 1.0)
  {
    LadderMarginals(n, p);
    NoPairAlone(n, p);
    HitsBeyondTwelve(Ladder(n), LadderBudget(n), p, x, hit);
    OnesOf(Uniform(n, 0.0), n, n);
    FallbackFills(Ladder(n), LadderBudget(n), p, x, hit, Indices(n), Uniform(n, 0.0));
  }

  lemma {:induction false} FallbackFills(types: seq<WorkloadType>, budget: Vec, p: Vec, x: seq<real>, hit: bool, m: seq<nat>, f: seq<real>)
    requires Recovered(types, budget, p, x, hit) && !hit && BranchOf(m, p).Both? && m == Marginals(types, p) && f == Forced(types, p)
    ensures x == Ones(f, m, |m|)
  {
  }

  /**
   * On each of these workloads, with 13 types or more, every answer of the solver admits all types in full: it uses a rate of n
   * under a budget of ten, and reports more than any feasible plan can earn.
   */
  lemma ManyTypesOverspend(n: nat, s: Solution)
    requires n >= 13 && TwoBudgetAnswer(Ladder(n), LadderBudget(n), s)
    ensures s.admitFractions == Uniform(n, 1.0) && !Feasible(Ladder(n), LadderBudget(n), s.admitFractions)
    ensures Used(Ladder(n), s.admitFractions) == Vec(n as real, RungSum(n, 1.0, 1.0), 0.0)
    ensures s.objective == RungSum(n, 2.0, 1.0) > Dual(Ladder(n), LadderBudget(n), PricesOf(s.duals)) == 5.0 * n as real + 15.0
  {
    var p := PricesOf(s.duals);
    AnswerIsUniform(n, p, s.admitFractions, s.objective);
    UniformOverspends(n, p, s.admitFractions);
  }

  lemma UniformOverspends(n: nat, p: Vec, x: seq<real>)
    requires n >= 13 && p == ONES && x == Uniform(n, 1.0)
    ensures Used(Ladder(n), x) == Vec(n as real, RungSum(n, 1.0, 1.0), 0.0) && !Feasible(Ladder(n), LadderBudget(n), x)
    ensures Objective(Ladder(n), x) == RungSum(n, 2.0, 1.0) > Dual(Ladder(n), LadderBudget(n), p) == 5.0 * n as real + 15.0
  {
    UniformUses(n, 1.0);
    DualAtOnes(n, p);
    MoreThanOptimum(n);
  }

  lemma AnswerIsUniform(n: nat, p: Vec, x: seq<real>, objective: real)
    requires n >= 13 && SolvedTwo(Ladder(n), LadderBudget(n), p, x, objective)
    ensures p == ONES && x == Uniform(n, 1.0) && objective == Objective(Ladder(n), x)
  {
    OnlyOnes(n, p);
    var hit :| Recovered(Ladder(n), LadderBudget(n), p, x, hit);
    EverythingAdmitted(n, p, x, hit);
  }

  lemma MoreThanOptimum(n: nat)
    requires n >= 13
    ensures n as real * 1.0 == n as real && RungSum(n, 2.0, 1.0) > 5.0 * n as real + 15.0
  {
    var r := n as real;
    assert r * (r - 1.0) / 2.0 >= 6.0 * r;
  }

  /** The smallest of them: rate 13 and cost 91 under budgets of 10 and 70, reporting 104 where the optimum is 80. */
  lemma ThirteenTypes(n: nat, s: Solution)
    requires n == 13 && TwoBudgetAnswer(Ladder(n), LadderBudget(n), s)
    ensures LadderBudget(n) == Vec(10.0, 70.0, 0.0) && Used(Ladder(n), s.admitFractions) == Vec(13.0, 91.0, 0.0)
    ensures s.objective == 104.0 && Dual(Ladder(n), LadderBudget(n), PricesOf(s.duals)) == 80.0
  {
    ManyTypesOverspend(n, s);
    Thirteen(n);
  }

  lemma Thirteen(n: nat)
    requires n == 13
    ensures RungSum(n, 1.0, 1.0) == 91.0 && RungSum(n, 2.0, 1.0) == 104.0 && LadderBudget(n) == Vec(10.0, 70.0, 0.0)
  {
    assert n as real == 13.0;
  }
}
