/** Primal recovery: why the greedy fills of the marginal types meet the budgets exactly at an optimal dual point. */
module FluidLpFill {
  import opened Numbers
  import opened FluidLp
  import opened FluidLpOptimality
  import opened Greedy
  import opened Sorting

  /** Marginal types: on the bid line. */
  predicate Marginal(t: WorkloadType, p: Vec) { Reduced(t, p) == 0.0 }

  /** Along d, the plan admits the marginal types that d would make profitable and rejects those it would not. */
  ghost predicate Extreme(types: seq<WorkloadType>, p: Vec, x: seq<real>, d: Vec)
    requires |x| == |types|
  {
    forall i :: 0 <= i < |types| && Marginal(types[i], p) && types[i].weight > 0.0 ==>
      (Dot(types[i].Use(), d) < 0.0 ==> x[i] == 1.0) && (Dot(types[i].Use(), d) > 0.0 ==> x[i] == 0.0)
  }

  lemma RateIsLoad(w: real, red: real, sigma: real, y: real)
    requires w >= 0.0 && (red > 0.0 ==> y == 1.0) && (red < 0.0 ==> y == 0.0)
    requires red == 0.0 && w > 0.0 ==> (sigma < 0.0 ==> y == 1.0) && (sigma > 0.0 ==> y == 0.0)
    ensures w * Rate(red, sigma) == -1.0 * (w * y * sigma)
  {
    if w == 0.0 || sigma == 0.0 || y == 0.0 {
      assert w * y * sigma == 0.0 && w * Rate(red, sigma) == 0.0;
    } else {
      assert y == 1.0 && Rate(red, sigma) == -sigma;
    }
  }

  /** Optimality of the prices bounds what an extreme plan consumes along d. */
  lemma {:induction false} ExtremeLoad(types: seq<WorkloadType>, budget: Vec, p: Vec, x: seq<real>, d: Vec, twoBudgets: bool)
    requires ValidTypes(types) && DualOptimal(types, budget, p, twoBudgets) && Consistent(types, x, p)
    requires Admissible(p, d) && (twoBudgets ==> d.k == 0.0) && Extreme(types, p, x, d)
    ensures Load(types, x, d) <= Dot(budget, d)
  {
    OptimalSlope(types, budget, p, d, twoBudgets);
    EdgesAreLoads(types, p, x, d, Edges(types, p, d), LoadTerms(types, x, d));
  }

  lemma {:induction false} EdgesAreLoads(types: seq<WorkloadType>, p: Vec, x: seq<real>, d: Vec, edges: seq<real>, loads: seq<real>)
    requires ValidTypes(types) && Consistent(types, x, p) && Extreme(types, p, x, d)
    requires edges == Edges(types, p, d) && loads == LoadTerms(types, x, d)
    ensures Sum(edges) == -Sum(loads)
  {
    forall i | 0 <= i < |types| ensures edges[i] == -loads[i] {
      EdgeIsLoad(types, p, x, d, i);
    }
    SumNegated(loads, edges);
  }

  lemma {:induction false} EdgeIsLoad(types: seq<WorkloadType>, p: Vec, x: seq<real>, d: Vec, i: nat)
    requires ValidTypes(types) && Consistent(types, x, p) && Extreme(types, p, x, d) && i < |types|
    ensures Edges(types, p, d)[i] == -LoadTerms(types, x, d)[i]
  {
    RateIsLoad(types[i].weight, Reduced(types[i], p), Dot(types[i].Use(), d), x[i]);
  }

  /** Consumption along a difference of budgets: cost at the threshold price minus rate, and so on. */
  lemma {:induction false} LoadAlong(types: seq<WorkloadType>, x: seq<real>, d: Vec)
    requires |x| == |types|
    ensures Load(types, x, d) == Used(types, x).r * d.r + Used(types, x).c * d.c + Used(types, x).k * d.k
  {
    LoadIsLinear(types, x, d);
  }

  /** A plan that admits no marginal type stays within every budget. */
  lemma {:induction false} ForcedFits(types: seq<WorkloadType>, budget: Vec, p: Vec, x: seq<real>, twoBudgets: bool)
    requires ValidTypes(types) && DualOptimal(types, budget, p, twoBudgets) && Consistent(types, x, p)
    requires forall i :: 0 <= i < |types| && Marginal(types[i], p) ==> x[i] == 0.0
    ensures Used(types, x).r <= budget.r && Used(types, x).c <= budget.c && (!twoBudgets ==> Used(types, x).k <= budget.k)
  {
    NoneIsExtreme(types, p, x, RATE);
    NoneIsExtreme(types, p, x, COST);
    NoneIsExtreme(types, p, x, CONC);
    ExtremeLoad(types, budget, p, x, RATE, twoBudgets);
    ExtremeLoad(types, budget, p, x, COST, twoBudgets);
    if !twoBudgets { ExtremeLoad(types, budget, p, x, CONC, twoBudgets); }
  }

  lemma {:induction false} NoneIsExtreme(types: seq<WorkloadType>, p: Vec, x: seq<real>, d: Vec)
    requires ValidTypes(types) && |x| == |types| && (d == RATE || d == COST || d == CONC)
    requires forall i :: 0 <= i < |types| && Marginal(types[i], p) ==> x[i] == 0.0
    ensures Extreme(types, p, x, d)
  {
    forall i | 0 <= i < |types| ensures Dot(types[i].Use(), d) >= 0.0 { AxisUse(types[i], d); }
  }

  lemma AxisUse(t: WorkloadType, d: Vec)
    requires t.Valid() && (d == RATE || d == COST || d == CONC)
    ensures Dot(t.Use(), d) >= 0.0
    ensures Dot(t.Use(), RATE) == 1.0 && Dot(t.Use(), COST) == t.cost && Dot(t.Use(), CONC) == t.hold
  {
  }

  /** Everything marginal admitted spends at least a priced rate budget. */
  lemma {:induction false} AllMarginalSpendsRate(types: seq<WorkloadType>, budget: Vec, p: Vec, x: seq<real>, twoBudgets: bool)
    requires ValidTypes(types) && DualOptimal(types, budget, p, twoBudgets) && Consistent(types, x, p) && p.r > 0.0
    requires forall i :: 0 <= i < |types| && Marginal(types[i], p) && types[i].weight > 0.0 ==> x[i] == 1.0
    ensures Used(types, x).r >= budget.r
  {
    var d := Vec(-1.0, 0.0, 0.0);
    forall i | 0 <= i < |types| ensures Dot(types[i].Use(), d) == -1.0 {}
    ExtremeLoad(types, budget, p, x, d, twoBudgets);
    LoadAlong(types, x, d);
  }

  lemma {:induction false} AllMarginalSpendsCost(types: seq<WorkloadType>, budget: Vec, p: Vec, x: seq<real>, twoBudgets: bool)
    requires ValidTypes(types) && DualOptimal(types, budget, p, twoBudgets) && Consistent(types, x, p) && p.c > 0.0
    requires forall i :: 0 <= i < |types| && Marginal(types[i], p) && types[i].weight > 0.0 && types[i].cost > 0.0 ==> x[i] == 1.0
    ensures Used(types, x).c >= budget.c
  {
    var d := Vec(0.0, -1.0, 0.0);
    forall i | 0 <= i < |types| ensures Dot(types[i].Use(), d) == -types[i].cost {}
    ExtremeLoad(types, budget, p, x, d, twoBudgets);
    LoadAlong(types, x, d);
  }

  /** The plan fills the marginal types in cost order (cheapest or dearest first) up to a threshold cost. */
  ghost predicate CostCut(types: seq<WorkloadType>, p: Vec, x: seq<real>, cut: real, cheapest: bool)
    requires |x| == |types|
  {
    forall i :: 0 <= i < |types| && Marginal(types[i], p) && types[i].weight > 0.0 ==>
      ((if cheapest then types[i].cost < cut else types[i].cost > cut) ==> x[i] == 1.0)
      && ((if cheapest then types[i].cost > cut else types[i].cost < cut) ==> x[i] == 0.0)
  }

  /** Trading rate against cost at the threshold type's exchange rate. */
  function CutDirection(cut: real, cheapest: bool): Vec {
    if cheapest then Vec(-cut, 1.0, 0.0) else Vec(cut, -1.0, 0.0)
  }

  lemma CutSlope(t: WorkloadType, cut: real, cheapest: bool)
    ensures Dot(t.Use(), CutDirection(cut, cheapest)) == if cheapest then t.cost - cut else cut - t.cost
  {
  }

  ghost predicate WithinCut(u: Vec, budget: Vec, cut: real, cheapest: bool) {
    if cheapest then u.c - cut * u.r <= budget.c - cut * budget.r else cut * u.r - u.c <= cut * budget.r - budget.c
  }

  /** Exchange argument: a plan with a cost threshold cannot consume more of (cost - cut * rate) than the budgets hold. */
  lemma {:induction false} CutBound(types: seq<WorkloadType>, budget: Vec, p: Vec, x: seq<real>, cut: real, cheapest: bool, twoBudgets: bool)
    requires ValidTypes(types) && DualOptimal(types, budget, p, twoBudgets) && Consistent(types, x, p)
    requires CostCut(types, p, x, cut, cheapest) && Admissible(p, CutDirection(cut, cheapest))
    ensures WithinCut(Used(types, x), budget, cut, cheapest)
  {
    var d := CutDirection(cut, cheapest);
    CutIsExtreme(types, p, x, cut, cheapest);
    CutLoad(types, budget, p, x, d, Used(types, x), twoBudgets);
    CutArithmetic(Used(types, x), budget, cut, cheapest);
  }

  lemma {:induction false} CutLoad(types: seq<WorkloadType>, budget: Vec, p: Vec, x: seq<real>, d: Vec, u: Vec, twoBudgets: bool)
    requires ValidTypes(types) && DualOptimal(types, budget, p, twoBudgets) && Consistent(types, x, p)
    requires Admissible(p, d) && (twoBudgets ==> d.k == 0.0) && Extreme(types, p, x, d) && u == Used(types, x)
    ensures Dot(u, d) <= Dot(budget, d)
  {
    ExtremeLoad(types, budget, p, x, d, twoBudgets);
    LoadIsLinear(types, x, d);
  }

  lemma {:induction false} CutIsExtreme(types: seq<WorkloadType>, p: Vec, x: seq<real>, cut: real, cheapest: bool)
    requires |x| == |types| && CostCut(types, p, x, cut, cheapest)
    ensures Extreme(types, p, x, CutDirection(cut, cheapest))
  {
    var d := CutDirection(cut, cheapest);
    forall i | 0 <= i < |types|
      ensures Dot(types[i].Use(), d) == if cheapest then types[i].cost - cut else cut - types[i].cost
    {
      CutSlope(types[i], cut, cheapest);
    }
  }

  lemma CutArithmetic(u: Vec, budget: Vec, cut: real, cheapest: bool)
    requires Dot(u, CutDirection(cut, cheapest)) <= Dot(budget, CutDirection(cut, cheapest))
    ensures WithinCut(u, budget, cut, cheapest)
  {
  }
}
