/** One priced budget: cheapest-first hits a priced rate, dearest-first hits a priced cost, and the other budget holds. */
module FluidLpSingle {
  import opened Numbers
  import opened FluidLp
  import opened FluidLpOptimality
  import opened FluidLpFill
  import opened FluidLpRecovery
  import opened Greedy
  import opened Sorting

  function OrderKey(types: seq<WorkloadType>, cheapest: bool): (key: seq<real>)
    ensures |key| == |types|
  {
    if cheapest then Costs(types) else NegatedCosts(types)
  }

  function RateOrder(types: seq<WorkloadType>, p: Vec, cheapest: bool): (order: seq<nat>)
    ensures Within(order, |types|)
  {
    SortBy(Marginals(types, p), OrderKey(types, cheapest))
  }

  function RateRoom(types: seq<WorkloadType>, budget: Vec, p: Vec): real {
    budget.r - Used(types, Forced(types, p)).r
  }

  function CostRoom(types: seq<WorkloadType>, budget: Vec, p: Vec): real {
    budget.c - Used(types, Forced(types, p)).c
  }

  /** The marginal types filled against the rate budget. */
  function RateFill(types: seq<WorkloadType>, budget: Vec, p: Vec, cheapest: bool): (x: seq<real>)
    ensures |x| == |types|
  {
    Filled(RateNeed(types), Forced(types, p), RateOrder(types, p, cheapest), RateRoom(types, budget, p), 0.0, 1.0)
  }

  /** The marginal types filled against the cost budget, dearest first; cost-free types stay out. */
  function CostFill(types: seq<WorkloadType>, budget: Vec, p: Vec): (x: seq<real>)
    ensures |x| == |types|
  {
    Filled(CostNeed(types), Forced(types, p), RateOrder(types, p, false), CostRoom(types, budget, p), 0.0, 0.0)
  }

  lemma {:induction false} MarginalsAscend(types: seq<WorkloadType>, p: Vec, n: nat)
    requires n <= |types|
    ensures Ascending(MarginalUpTo(types, p, n))
  {
    if n > 0 { MarginalsAscend(types, p, n - 1); }
  }

  /** Both fills take types of equal cost in list order. */
  lemma {:induction false} TiesInListOrder(types: seq<WorkloadType>, p: Vec, cheapest: bool)
    ensures Sorted(RateOrder(types, p, cheapest), OrderKey(types, cheapest)) && Stable(RateOrder(types, p, cheapest), OrderKey(types, cheapest))
  {
    MarginalsAscend(types, p, |types|);
    SortBySorts(Marginals(types, p), OrderKey(types, cheapest));
    SortByStable(Marginals(types, p), OrderKey(types, cheapest));
  }

  lemma {:induction false} RateFillHits(types: seq<WorkloadType>, budget: Vec, p: Vec, cheapest: bool)
    requires Priced(types, budget, p) && p.r > 0.0
    ensures var z := RateFill(types, budget, p, cheapest); Consistent(types, z, p) && Used(types, z).r == budget.r
  {
    var x, z := Forced(types, p), RateFill(types, budget, p, cheapest);
    var order, need := RateOrder(types, p, cheapest), RateNeed(types);
    SortedMarginals(types, p, OrderKey(types, cheapest));
    ForcedWithin(types, budget, p);
    ForcedIsFresh(types, p, order, need);
    FilledIsConsistent(types, p, order, need, RateRoom(types, budget, p), 1.0);
    FilledFills(need, x, order, RateRoom(types, budget, p), 0.0, 1.0);
    SpentIsRate(types, x);
    SpentIsRate(types, z);
    if Used(types, z).r != budget.r {
      forall i | 0 <= i < |types| && Marginal(types[i], p) && types[i].weight > 0.0 ensures z[i] == 1.0 {
        assert i in order;
        var a :| 0 <= a < |order| && order[a] == i;
      }
      AllMarginalSpendsRate(types, budget, p, z, true);
    }
  }

  lemma {:induction false} RateFillCuts(types: seq<WorkloadType>, budget: Vec, p: Vec, cheapest: bool) returns (cut: real)
    requires Priced(types, budget, p)
    ensures CostCut(types, p, RateFill(types, budget, p, cheapest), cut, cheapest)
  {
    var x, z := Forced(types, p), RateFill(types, budget, p, cheapest);
    var order, need, key := RateOrder(types, p, cheapest), RateNeed(types), OrderKey(types, cheapest);
    SortedMarginals(types, p, key);
    ForcedWithin(types, budget, p);
    ForcedIsFresh(types, p, order, need);
    var c := FilledThreshold(need, x, order, RateRoom(types, budget, p), 0.0, 1.0, key, 0.0);
    cut := if cheapest then c else -c;
    forall i | 0 <= i < |types| && Marginal(types[i], p) && types[i].weight > 0.0
      ensures (key[i] < c ==> z[i] == 1.0) && (key[i] > c ==> z[i] == 0.0)
    {
      assert i in order;
      var a :| 0 <= a < |order| && order[a] == i;
    }
  }

  /** Only the rate is priced: the cheapest-first fill spends it exactly and the cost budget still holds. */
  lemma {:induction false} RateTight(types: seq<WorkloadType>, budget: Vec, p: Vec)
    requires Priced(types, budget, p) && p.r > 0.0 && p.c == 0.0
    ensures Certified(types, budget, p, RateFill(types, budget, p, true))
  {
    var z := RateFill(types, budget, p, true);
    RateFillHits(types, budget, p, true);
    var cut := RateFillCuts(types, budget, p, true);
    CutBound(types, budget, p, z, cut, true, true);
    CertifiedBy(types, budget, p, z);
  }

  lemma {:induction false} CostFillHits(types: seq<WorkloadType>, budget: Vec, p: Vec)
    requires Priced(types, budget, p) && p.c > 0.0
    ensures var z := CostFill(types, budget, p); Consistent(types, z, p) && Used(types, z).c == budget.c
  {
    var x, z := Forced(types, p), CostFill(types, budget, p);
    var order, need := RateOrder(types, p, false), CostNeed(types);
    SortedMarginals(types, p, NegatedCosts(types));
    ForcedWithin(types, budget, p);
    ForcedIsFresh(types, p, order, need);
    FilledIsConsistent(types, p, order, need, CostRoom(types, budget, p), 0.0);
    FilledFills(need, x, order, CostRoom(types, budget, p), 0.0, 0.0);
    SpentIsCost(types, x);
    SpentIsCost(types, z);
    if Used(types, z).c != budget.c {
      AllCostlyAdmitted(types, p, order, z);
      AllMarginalSpendsCost(types, budget, p, z, true);
    }
  }

  lemma {:induction false} AllCostlyAdmitted(types: seq<WorkloadType>, p: Vec, order: seq<nat>, z: seq<real>)
    requires ValidTypes(types) && |z| == |types| && FillOrder(types, p, order)
    requires forall a :: 0 <= a < |order| && CostNeed(types)[order[a]] > 0.0 ==> z[order[a]] == 1.0
    ensures forall i :: 0 <= i < |types| && Marginal(types[i], p) && types[i].weight > 0.0 && types[i].cost > 0.0 ==> z[i] == 1.0
  {
    forall i | 0 <= i < |types| && Marginal(types[i], p) && types[i].weight > 0.0 && types[i].cost > 0.0
      ensures z[i] == 1.0
    {
      assert i in order;
      var a :| 0 <= a < |order| && order[a] == i;
      PositiveNeed(types[i]);
    }
  }

  lemma {:induction false} CostFillCuts(types: seq<WorkloadType>, budget: Vec, p: Vec) returns (cut: real)
    requires Priced(types, budget, p)
    ensures cut > 0.0 && CostCut(types, p, CostFill(types, budget, p), cut, false)
  {
    var x, z := Forced(types, p), CostFill(types, budget, p);
    var order, need, key := RateOrder(types, p, false), CostNeed(types), NegatedCosts(types);
    SortedMarginals(types, p, key);
    ForcedWithin(types, budget, p);
    ForcedIsFresh(types, p, order, need);
    FilledFills(need, x, order, CostRoom(types, budget, p), 0.0, 0.0);
    var c := FilledThreshold(need, x, order, CostRoom(types, budget, p), 0.0, 0.0, key, -1.0);
    cut := -c;
    NegativeKey(types, order, c);
    CutFromThreshold(types, p, order, z, c);
  }

  lemma {:induction false} NegativeKey(types: seq<WorkloadType>, order: seq<nat>, c: real)
    requires ValidTypes(types) && Within(order, |types|)
    requires c == -1.0 || exists a :: 0 <= a < |order| && CostNeed(types)[order[a]] > 0.0 && c == NegatedCosts(types)[order[a]]
    ensures c < 0.0
  {
    if c != -1.0 {
      var a :| 0 <= a < |order| && CostNeed(types)[order[a]] > 0.0 && c == NegatedCosts(types)[order[a]];
      PositiveNeed(types[order[a]]);
    }
  }

  lemma {:induction false} CutFromThreshold(types: seq<WorkloadType>, p: Vec, order: seq<nat>, z: seq<real>, c: real)
    requires ValidTypes(types) && |z| == |types| && FillOrder(types, p, order) && c < 0.0
    requires Threshold(CostNeed(types), z, order, NegatedCosts(types), c)
    requires forall a :: 0 <= a < |order| && CostNeed(types)[order[a]] == 0.0 ==> z[order[a]] == 0.0
    ensures CostCut(types, p, z, -c, false)
  {
    forall i | 0 <= i < |types| && Marginal(types[i], p) && types[i].weight > 0.0
      ensures (types[i].cost > -c ==> z[i] == 1.0) && (types[i].cost < -c ==> z[i] == 0.0)
    {
      assert i in order;
      var a :| 0 <= a < |order| && order[a] == i;
      PositiveNeed(types[i]);
    }
  }

  lemma PositiveNeed(t: WorkloadType)
    requires t.Valid()
    ensures t.weight * t.cost > 0.0 <==> t.weight > 0.0 && t.cost > 0.0
    ensures t.weight * t.cost >= 0.0
  {
  }

  /** Only the cost is priced: the dearest-first fill spends it exactly and the rate budget still holds. */
  lemma {:induction false} CostTight(types: seq<WorkloadType>, budget: Vec, p: Vec)
    requires Priced(types, budget, p) && p.c > 0.0 && p.r == 0.0
    ensures Certified(types, budget, p, CostFill(types, budget, p))
  {
    var z := CostFill(types, budget, p);
    CostFillHits(types, budget, p);
    var cut := CostFillCuts(types, budget, p);
    CutBound(types, budget, p, z, cut, false, true);
    CutLeavesRate(Used(types, z), budget, cut);
    CertifiedBy(types, budget, p, z);
  }

  lemma CutLeavesRate(u: Vec, budget: Vec, cut: real)
    requires cut > 0.0 && u.c == budget.c && WithinCut(u, budget, cut, false)
    ensures u.r <= budget.r
  {
    ScaleDown(u.r, budget.r, cut);
  }

  lemma ScaleDown(x: real, y: real, cut: real)
    requires cut > 0.0 && cut * x <= cut * y
    ensures x <= y
  {
    assert x > y ==> cut * (x - y) > 0.0;
  }

  /** Both budgets priced: mixing the two extreme rate fills hits both exactly. */
  lemma {:induction false} BothTightExists(types: seq<WorkloadType>, budget: Vec, p: Vec) returns (x: seq<real>)
    requires Priced(types, budget, p) && p.r > 0.0 && p.c > 0.0
    ensures Consistent(types, x, p) && Used(types, x).r == budget.r && Used(types, x).c == budget.c
  {
    var lo, hi := RateFill(types, budget, p, true), RateFill(types, budget, p, false);
    RateFillHits(types, budget, p, true);
    RateFillHits(types, budget, p, false);
    var cutLo := RateFillCuts(types, budget, p, true);
    var cutHi := RateFillCuts(types, budget, p, false);
    CutBound(types, budget, p, lo, cutLo, true, true);
    CutBound(types, budget, p, hi, cutHi, false, true);
    Straddles(Used(types, lo), Used(types, hi), budget, cutLo, cutHi);
    x := MixTo(types, budget, p, lo, hi, Used(types, lo).c, Used(types, hi).c);
  }

  lemma Straddles(lo: Vec, hi: Vec, budget: Vec, cutLo: real, cutHi: real)
    requires lo.r == budget.r && hi.r == budget.r
    requires WithinCut(lo, budget, cutLo, true) && WithinCut(hi, budget, cutHi, false)
    ensures lo.c <= budget.c <= hi.c
  {
  }

  lemma {:induction false} MixTo(types: seq<WorkloadType>, budget: Vec, p: Vec, lo: seq<real>, hi: seq<real>, a: real, b: real)
    returns (x: seq<real>)
    requires Consistent(types, lo, p) && Consistent(types, hi, p)
    requires Used(types, lo).r == budget.r && Used(types, hi).r == budget.r
    requires a == Used(types, lo).c && b == Used(types, hi).c && a <= budget.c <= b
    ensures Consistent(types, x, p) && Used(types, x).r == budget.r && Used(types, x).c == budget.c
  {
    var theta := if a == b then 0.0 else (budget.c - a) / (b - a);
    ThetaRange(a, b, budget.c, theta);
    x := Mix(lo, hi, theta);
    MixConsistent(types, p, lo, hi, theta);
    MixUsed(types, lo, hi, theta, RATE, budget.r, budget.r);
    MixUsed(types, lo, hi, theta, COST, a, b);
  }

  lemma ThetaRange(a: real, b: real, c: real, theta: real)
    requires a <= c <= b && theta == if a == b then 0.0 else (c - a) / (b - a)
    ensures 0.0 <= theta <= 1.0 && a + theta * (b - a) == c
  {
    if a != b { QuotientRange(c - a, b - a); }
  }

  lemma QuotientRange(x: real, y: real)
    requires 0.0 <= x <= y && y > 0.0
    ensures 0.0 <= x / y <= 1.0 && x / y * y == x
  {
    var t := x / y;
    assert t * y == x;
    assert t < 0.0 ==> t * y < 0.0;
    var u := t - 1.0;
    assert u > 0.0 ==> u * y > 0.0;
    assert u * y == x - y;
  }

  function Mix(lo: seq<real>, hi: seq<real>, theta: real): (x: seq<real>)
    requires |lo| == |hi|
    ensures |x| == |lo| && forall i :: 0 <= i < |x| ==> x[i] == lo[i] + theta * (hi[i] - lo[i])
  {
    seq(|lo|, i requires 0 <= i < |lo| => lo[i] + theta * (hi[i] - lo[i]))
  }

  lemma {:induction false} MixConsistent(types: seq<WorkloadType>, p: Vec, lo: seq<real>, hi: seq<real>, theta: real)
    requires Consistent(types, lo, p) && Consistent(types, hi, p) && 0.0 <= theta <= 1.0
    ensures Consistent(types, Mix(lo, hi, theta), p)
  {
    forall i | 0 <= i < |types|
      ensures 0.0 <= Mix(lo, hi, theta)[i] <= 1.0 && (lo[i] == hi[i] ==> Mix(lo, hi, theta)[i] == lo[i])
    {
      MixRange(lo[i], hi[i], theta);
    }
  }

  lemma MixRange(a: real, b: real, theta: real)
    requires 0.0 <= a <= 1.0 && 0.0 <= b <= 1.0 && 0.0 <= theta <= 1.0
    ensures 0.0 <= a + theta * (b - a) <= 1.0
  {
    SharesFit(a, b, 1.0 - theta, theta);
    assert a + theta * (b - a) == a * (1.0 - theta) + b * theta;
  }

  lemma SharesFit(a: real, b: real, u: real, v: real)
    requires 0.0 <= a <= 1.0 && 0.0 <= b <= 1.0 && 0.0 <= u && 0.0 <= v && u + v == 1.0
    ensures 0.0 <= a * u + b * v <= 1.0
  {
    UnitShare(a, u);
    UnitShare(b, v);
    AddUp(a * u, b * v, u, v);
  }

  lemma AddUp(x: real, y: real, u: real, v: real)
    requires 0.0 <= x <= u && 0.0 <= y <= v && u + v == 1.0
    ensures 0.0 <= x + y <= 1.0
  {
  }

  lemma UnitShare(a: real, w: real)
    requires 0.0 <= a <= 1.0 && 0.0 <= w
    ensures 0.0 <= a * w <= w
  {
    var rest := 1.0 - a;
    assert rest * w >= 0.0;
    assert rest * w == w - a * w;
  }

  lemma {:induction false} MixUsed(types: seq<WorkloadType>, lo: seq<real>, hi: seq<real>, theta: real, d: Vec, a: real, b: real)
    requires |lo| == |hi| == |types| && a == Load(types, lo, d) && b == Load(types, hi, d)
    ensures Load(types, Mix(lo, hi, theta), d) == a + theta * (b - a)
  {
    MixLoads(types, lo, hi, theta, d, LoadTerms(types, lo, d), LoadTerms(types, hi, d), LoadTerms(types, Mix(lo, hi, theta), d));
    MixTotals(a, b, theta);
  }

  lemma MixTotals(a: real, b: real, theta: real)
    ensures (1.0 - theta) * a + theta * b == a + theta * (b - a)
  {
  }

  lemma {:induction false} MixLoads(types: seq<WorkloadType>, lo: seq<real>, hi: seq<real>, theta: real, d: Vec,
                                    a: seq<real>, b: seq<real>, m: seq<real>)
    requires |lo| == |hi| == |types|
    requires a == LoadTerms(types, lo, d) && b == LoadTerms(types, hi, d) && m == LoadTerms(types, Mix(lo, hi, theta), d)
    ensures Sum(m) == (1.0 - theta) * Sum(a) + theta * Sum(b)
  {
    EachMixes(types, lo, hi, theta, d, a, b, m);
    SumLinear(a, b, 1.0 - theta, theta, m);
  }

  lemma {:induction false} EachMixes(types: seq<WorkloadType>, lo: seq<real>, hi: seq<real>, theta: real, d: Vec,
                                     a: seq<real>, b: seq<real>, m: seq<real>)
    requires |lo| == |hi| == |types|
    requires a == LoadTerms(types, lo, d) && b == LoadTerms(types, hi, d) && m == LoadTerms(types, Mix(lo, hi, theta), d)
    ensures forall i :: 0 <= i < |m| ==> m[i] == (1.0 - theta) * a[i] + theta * b[i]
  {
    forall i | 0 <= i < |m| ensures m[i] == (1.0 - theta) * a[i] + theta * b[i] {
      MixTerm(types[i].weight, lo[i], hi[i], theta, Dot(types[i].Use(), d), a[i], b[i], m[i]);
    }
  }

  lemma MixTerm(w: real, lo: real, hi: real, theta: real, u: real, a: real, b: real, m: real)
    requires a == w * lo * u && b == w * hi * u && m == w * (lo + theta * (hi - lo)) * u
    ensures m == (1.0 - theta) * a + theta * b
  {
    var wu := w * u;
    assert a == wu * lo && b == wu * hi && m == wu * (lo + theta * (hi - lo));
  }
}
