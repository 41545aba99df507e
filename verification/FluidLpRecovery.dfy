/** The recovered primal plan: forced types, then the greedy fill of whichever single budget is priced. */
module FluidLpRecovery {
  import opened Numbers
  import opened FluidLp
  import opened FluidLpOptimality
  import opened FluidLpFill
  import opened Greedy
  import opened Sorting

  function RateNeed(types: seq<WorkloadType>): (need: seq<real>)
    ensures |need| == |types| && forall i :: 0 <= i < |need| ==> need[i] == types[i].weight
  {
    seq(|types|, i requires 0 <= i < |types| => types[i].weight)
  }

  function CostNeed(types: seq<WorkloadType>): (need: seq<real>)
    ensures |need| == |types| && forall i :: 0 <= i < |need| ==> need[i] == types[i].weight * types[i].cost
  {
    seq(|types|, i requires 0 <= i < |types| => types[i].weight * types[i].cost)
  }

  function Costs(types: seq<WorkloadType>): (key: seq<real>)
    ensures |key| == |types| && forall i :: 0 <= i < |key| ==> key[i] == types[i].cost
  {
    seq(|types|, i requires 0 <= i < |types| => types[i].cost)
  }

  /** Descending cost order is ascending order of the negated cost. */
  function NegatedCosts(types: seq<WorkloadType>): (key: seq<real>)
    ensures |key| == |types| && forall i :: 0 <= i < |key| ==> key[i] == -types[i].cost
  {
    seq(|types|, i requires 0 <= i < |types| => -types[i].cost)
  }

  lemma {:induction false} SpentIsRate(types: seq<WorkloadType>, x: seq<real>)
    requires |x| == |types|
    ensures Spent(RateNeed(types), x) == Used(types, x).r
  {
    forall i | 0 <= i < |x| ensures Products(RateNeed(types), x)[i] == LoadTerms(types, x, RATE)[i] {
      RateTerm(types[i], x[i]);
    }
    assert Products(RateNeed(types), x) == LoadTerms(types, x, RATE);
  }

  lemma RateTerm(t: WorkloadType, y: real)
    ensures t.weight * y == t.weight * y * Dot(t.Use(), RATE)
  {
  }

  lemma {:induction false} SpentIsCost(types: seq<WorkloadType>, x: seq<real>)
    requires |x| == |types|
    ensures Spent(CostNeed(types), x) == Used(types, x).c
  {
    forall i | 0 <= i < |x| ensures Products(CostNeed(types), x)[i] == LoadTerms(types, x, COST)[i] {
      CostTerm(types[i], x[i]);
    }
    assert Products(CostNeed(types), x) == LoadTerms(types, x, COST);
  }

  lemma CostTerm(t: WorkloadType, y: real)
    ensures t.weight * t.cost * y == t.weight * y * Dot(t.Use(), COST)
  {
    assert t.weight * t.cost * y == t.weight * y * t.cost;
  }

  /** The plan before the marginal fill. */
  function Forced(types: seq<WorkloadType>, p: Vec): (x: seq<real>)
    ensures |x| == |types| && forall i :: 0 <= i < |x| ==> x[i] == if Reduced(types[i], p) > 0.0 then 1.0 else 0.0
  {
    seq(|types|, i requires 0 <= i < |types| => if Reduced(types[i], p) > 0.0 then 1.0 else 0.0)
  }

  /** The marginal types among the first n, in input order. */
  function MarginalUpTo(types: seq<WorkloadType>, p: Vec, n: nat): (m: seq<nat>)
    requires n <= |types|
    ensures Within(m, n)
  {
    if n == 0 then [] else
      MarginalUpTo(types, p, n - 1) + if Marginal(types[n - 1], p) then [n - 1] else []
  }

  lemma {:induction false} MarginalExactly(types: seq<WorkloadType>, p: Vec, n: nat)
    requires n <= |types|
    ensures Distinct(MarginalUpTo(types, p, n))
    ensures forall i :: 0 <= i < n ==> (i in MarginalUpTo(types, p, n) <==> Marginal(types[i], p))
  {
    if n > 0 {
      MarginalExactly(types, p, n - 1);
    }
  }

  function Marginals(types: seq<WorkloadType>, p: Vec): (m: seq<nat>)
    ensures Within(m, |types|)
  {
    MarginalUpTo(types, p, |types|)
  }

  /** A plan is certified by prices p when it is feasible and earns exactly D(p). */
  ghost predicate Certified(types: seq<WorkloadType>, budget: Vec, p: Vec, x: seq<real>) {
    Feasible(types, budget, x) && Objective(types, x) == Dual(types, budget, p)
  }

  /** No feasible fractional plan earns more than a certified one. */
  lemma {:induction false} CertifiedIsBest(types: seq<WorkloadType>, budget: Vec, p: Vec, x: seq<real>, y: seq<real>)
    requires ValidTypes(types) && p.NonNeg() && Certified(types, budget, p, x) && Feasible(types, budget, y)
    ensures Objective(types, y) <= Objective(types, x)
  {
    WeakDuality(types, budget, y, p);
  }

  lemma {:induction false} NoHoldNoConc(types: seq<WorkloadType>, x: seq<real>)
    requires |x| == |types| && forall i :: 0 <= i < |types| ==> types[i].hold == 0.0
    ensures Used(types, x).k == 0.0
  {
    forall i | 0 <= i < |x| ensures LoadTerms(types, x, CONC)[i] == 0.0 { HoldTerm(types[i], x[i]); }
    SumZero(LoadTerms(types, x, CONC));
  }

  lemma HoldTerm(t: WorkloadType, y: real)
    requires t.hold == 0.0
    ensures t.weight * y * Dot(t.Use(), CONC) == 0.0
  {
  }

  /** The two-budget setting at optimal prices. */
  ghost predicate Priced(types: seq<WorkloadType>, budget: Vec, p: Vec) {
    ValidTypes(types) && (forall i :: 0 <= i < |types| ==> types[i].hold == 0.0)
    && budget.r > 0.0 && budget.c > 0.0 && budget.k == 0.0 && DualOptimal(types, budget, p, true)
  }

  lemma {:induction false} ForcedIsPlan(types: seq<WorkloadType>, p: Vec)
    ensures Consistent(types, Forced(types, p), p)
  {
  }

  lemma {:induction false} ForcedWithin(types: seq<WorkloadType>, budget: Vec, p: Vec)
    requires Priced(types, budget, p)
    ensures Used(types, Forced(types, p)).r <= budget.r && Used(types, Forced(types, p)).c <= budget.c
  {
    ForcedFits(types, budget, p, Forced(types, p), true);
  }

  lemma {:induction false} CertifiedBy(types: seq<WorkloadType>, budget: Vec, p: Vec, x: seq<real>)
    requires Priced(types, budget, p) && Consistent(types, x, p)
    requires Used(types, x).r <= budget.r && Used(types, x).c <= budget.c
    requires (p.r > 0.0 ==> Used(types, x).r == budget.r) && (p.c > 0.0 ==> Used(types, x).c == budget.c)
    ensures Certified(types, budget, p, x)
  {
    NoHoldNoConc(types, x);
    StrongDuality(types, budget, x, p);
  }

  /** Neither budget priced: the forced plan is already optimal. */
  lemma {:induction false} NeitherTight(types: seq<WorkloadType>, budget: Vec, p: Vec)
    requires Priced(types, budget, p) && p.r == 0.0 && p.c == 0.0
    ensures Certified(types, budget, p, Forced(types, p))
  {
    ForcedWithin(types, budget, p);
    CertifiedBy(types, budget, p, Forced(types, p));
  }

  /** A fill of the marginal list, in any order, over the forced plan. */
  ghost predicate FillOrder(types: seq<WorkloadType>, p: Vec, order: seq<nat>) {
    Within(order, |types|) && Distinct(order)
    && forall i :: 0 <= i < |types| ==> (i in order <==> Marginal(types[i], p))
  }

  lemma {:induction false} SortedMarginals(types: seq<WorkloadType>, p: Vec, key: seq<real>)
    requires |key| == |types|
    ensures FillOrder(types, p, SortBy(Marginals(types, p), key)) && Sorted(SortBy(Marginals(types, p), key), key)
  {
    MarginalExactly(types, p, |types|);
    SortBySorts(Marginals(types, p), key);
    DistinctPermutes(Marginals(types, p), SortBy(Marginals(types, p), key));
  }

  lemma {:induction false} ForcedIsFresh(types: seq<WorkloadType>, p: Vec, order: seq<nat>, need: seq<real>)
    requires ValidTypes(types) && FillOrder(types, p, order) && (need == RateNeed(types) || need == CostNeed(types))
    ensures Fresh(need, Forced(types, p), order)
  {
    forall a | 0 <= a < |order| ensures Forced(types, p)[order[a]] == 0.0 && need[order[a]] >= 0.0 {
      assert order[a] in order;
      assert types[order[a]].weight * types[order[a]].cost >= 0.0;
    }
  }

  lemma {:induction false} FilledIsConsistent(types: seq<WorkloadType>, p: Vec, order: seq<nat>, need: seq<real>, cap: real, idle: real)
    requires ValidTypes(types) && FillOrder(types, p, order) && (need == RateNeed(types) || need == CostNeed(types))
    requires 0.0 <= cap && 0.0 <= idle <= 1.0
    ensures Consistent(types, Filled(need, Forced(types, p), order, cap, 0.0, idle), p)
  {
    var x, z := Forced(types, p), Filled(need, Forced(types, p), order, cap, 0.0, idle);
    ForcedIsFresh(types, p, order, need);
    FilledFills(need, x, order, cap, 0.0, idle);
    Untouched(need, x, order, cap, 0.0, idle);
    forall i | 0 <= i < |types|
      ensures 0.0 <= z[i] <= 1.0
      ensures (Reduced(types[i], p) > 0.0 ==> z[i] == 1.0) && (Reduced(types[i], p) < 0.0 ==> z[i] == 0.0)
    {
      if i in order {
        var a :| 0 <= a < |order| && order[a] == i;
      }
    }
  }
}
