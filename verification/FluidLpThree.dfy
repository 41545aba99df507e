/** Exactly when the three-budget plan earns the objective it is reported with, and a workload with one binding budget where it does not. */
module FluidLpThree {
  import opened Numbers
  import opened Wrappers
  import opened FluidLp
  import opened FluidLpOptimality
  import opened FluidLpFill
  import opened FluidLpRecovery
  import opened FluidLpBoth
  import opened FluidLpPlan
  import opened FluidLpSolve
  import opened FluidLpSingle
  import opened Sorting

  // ---------------------------------------------------------------- exactly when it earns the objective

  /** The list-order fill leaves nothing of any priced budget. */
  ghost predicate FillSpends(types: seq<WorkloadType>, budget: Vec, p: Vec) {
    SpendsPriced(ThreeFilling(types, budget, p).room, p)
  }

  predicate SpendsPriced(left: Vec, p: Vec) {
    (p.r > 0.0 ==> left.r == 0.0) && (p.c > 0.0 ==> left.c == 0.0) && (p.k > 0.0 ==> left.k == 0.0)
  }

  lemma SlackCosts(budget: Vec, left: Vec, p: Vec)
    requires left.NonNeg() && p.NonNeg()
    ensures Dot(Left(budget, left), p) == Dot(budget, p) - Dot(left, p)
    ensures Dot(left, p) == 0.0 <==> SpendsPriced(left, p)
  {
    NonNegProduct(left.r, p.r);
    NonNegProduct(left.c, p.c);
    NonNegProduct(left.k, p.k);
  }

  lemma NonNegProduct(a: real, b: real)
    requires a >= 0.0 && b >= 0.0
    ensures a * b >= 0.0 && (a * b == 0.0 <==> (b > 0.0 ==> a == 0.0))
  {
  }

  /** The plan earns the reported objective exactly when its fill spends every priced budget. */
  lemma {:induction false} EarnsExactlyWhen(types: seq<WorkloadType>, budget: Vec, s: Solution)
    requires ThreeBudgetAnswer(types, budget, s)
    ensures |s.admitFractions| == |types|
    ensures Objective(types, s.admitFractions) == s.objective <==> FillSpends(types, budget, PricesOf(s.duals))
  {
    var p, x := PricesOf(s.duals), s.admitFractions;
    ConsistentEarns(types, x, p, Used(types, x), Objective(types, x));
    SlackCosts(budget, ThreeFilling(types, budget, p).room, p);
  }

  // ---------------------------------------------------------------- one priced budget

  predicate Axis(d: Vec) { d == RATE || d == COST || d == CONC }

  /** Of the three budgets only the one along d has a positive price. */
  predicate OnlyPriced(p: Vec, d: Vec) {
    Axis(d) && p.NonNeg() && (p.r > 0.0 <==> d == RATE) && (p.c > 0.0 <==> d == COST) && (p.k > 0.0 <==> d == CONC)
  }

  /** Admitting every marginal type in full stays within a budget. */
  ghost predicate FullFits(types: seq<WorkloadType>, budget: Vec, p: Vec, d: Vec) {
    Load(types, FullPlan(types, p), d) <= Dot(budget, d)
  }

  function FullPlan(types: seq<WorkloadType>, p: Vec): (x: seq<real>)
    ensures |x| == |types|
  {
    Ones(Forced(types, p), Marginals(types, p), |Marginals(types, p)|)
  }

  lemma {:induction false} OnesAt(x: seq<real>, m: seq<nat>, n: nat, k: nat)
    requires n <= |m| && Within(m, |x|) && k < n
    ensures Ones(x, m, n)[m[k]] == 1.0
  {
    if k < n - 1 { OnesAt(x, m, n - 1, k); }
  }

  lemma {:induction false} FullIsFull(types: seq<WorkloadType>, p: Vec, x: seq<real>)
    requires Consistent(types, x, p)
    ensures Consistent(types, FullPlan(types, p), p) && forall i :: 0 <= i < |types| ==> x[i] <= FullPlan(types, p)[i]
    ensures forall i :: 0 <= i < |types| && Marginal(types[i], p) ==> FullPlan(types, p)[i] == 1.0
  {
    var m := Marginals(types, p);
    OnesAreConsistent(types, p, |m|);
    MarginalExactly(types, p, |types|);
    forall i | 0 <= i < |types| && Marginal(types[i], p) ensures FullPlan(types, p)[i] == 1.0 {
      assert i in m;
      var k :| 0 <= k < |m| && m[k] == i;
      OnesAt(Forced(types, p), m, |m|, k);
    }
  }

  lemma TermOrdered(w: real, use: real, x: real, y: real, s: real, t: real)
    requires w >= 0.0 && use >= 0.0 && x <= y && s == w * x * use && t == w * y * use
    ensures s <= t && (w > 0.0 && use > 0.0 && s == t ==> x == y)
  {
    var wu, gap := w * use, y - x;
    assert wu >= 0.0 && (w > 0.0 && use > 0.0 ==> wu > 0.0);
    assert t - s == gap * wu;
    NonNegProduct(gap, wu);
  }

  lemma TermsOrdered(types: seq<WorkloadType>, x: seq<real>, y: seq<real>, d: Vec, i: nat)
    requires ValidTypes(types) && |x| == |y| == |types| && i < |types| && x[i] <= y[i] && Axis(d)
    ensures var s, t := LoadTerms(types, x, d)[i], LoadTerms(types, y, d)[i];
      s <= t && (s == t && types[i].weight > 0.0 && Dot(types[i].Use(), d) > 0.0 ==> x[i] == y[i])
  {
    AxisUse(types[i], d);
    TermOrdered(types[i].weight, Dot(types[i].Use(), d), x[i], y[i], LoadTerms(types, x, d)[i], LoadTerms(types, y, d)[i]);
  }

  /** A plan below another that uses as much of a budget admits as much of every type that needs it. */
  lemma {:induction false} FullWhereEmpty(types: seq<WorkloadType>, x: seq<real>, y: seq<real>, d: Vec, i: nat)
    requires ValidTypes(types) && |x| == |y| == |types| && (forall k :: 0 <= k < |x| ==> x[k] <= y[k]) && Axis(d)
    requires Load(types, x, d) >= Load(types, y, d)
    requires i < |types| && types[i].weight > 0.0 && Dot(types[i].Use(), d) > 0.0
    ensures x[i] == y[i]
  {
    forall k | 0 <= k < |types| ensures LoadTerms(types, x, d)[k] <= LoadTerms(types, y, d)[k] { TermsOrdered(types, x, y, d, k); }
    SumTight(LoadTerms(types, x, d), LoadTerms(types, y, d));
    TermsOrdered(types, x, y, d, i);
  }

  lemma {:induction false} AllMarginalSpendsConc(types: seq<WorkloadType>, budget: Vec, p: Vec, x: seq<real>)
    requires ValidTypes(types) && DualOptimal(types, budget, p, false) && Consistent(types, x, p) && p.k > 0.0
    requires forall i :: 0 <= i < |types| && Marginal(types[i], p) && types[i].weight > 0.0 && types[i].hold > 0.0 ==> x[i] == 1.0
    ensures Used(types, x).k >= budget.k
  {
    var d := Vec(0.0, 0.0, -1.0);
    forall i | 0 <= i < |types| ensures Dot(types[i].Use(), d) == -types[i].hold {}
    ExtremeLoad(types, budget, p, x, d, false);
    LoadAlong(types, x, d);
  }

  lemma {:induction false} AllMarginalSpends(types: seq<WorkloadType>, budget: Vec, p: Vec, x: seq<real>, d: Vec)
    requires ValidTypes(types) && DualOptimal(types, budget, p, false) && Consistent(types, x, p) && OnlyPriced(p, d)
    requires forall i :: 0 <= i < |types| && Marginal(types[i], p) ==> x[i] == 1.0
    ensures Load(types, x, d) >= Dot(budget, d)
  {
    if d == RATE {
      AllMarginalSpendsRate(types, budget, p, x, false);
    } else if d == COST {
      AllMarginalSpendsCost(types, budget, p, x, false);
    } else {
      AllMarginalSpendsConc(types, budget, p, x);
    }
  }

  /** A marginal type left short while the priced budget has room is short of an unpriced one. */
  lemma {:induction false} ShortOfUnpriced(types: seq<WorkloadType>, budget: Vec, p: Vec, x: seq<real>, d: Vec, i: nat)
    requires ValidTypes(types) && Consistent(types, x, p) && OnlyPriced(p, d) && SaturatesMarginals(types, budget, p, x)
    requires i < |types| && Marginal(types[i], p) && x[i] != 1.0 && Load(types, x, d) != Dot(budget, d)
    ensures exists e :: Axis(e) && e != d && types[i].weight > 0.0 && Dot(types[i].Use(), e) > 0.0 && Load(types, x, e) == Dot(budget, e)
  {
    var t, left := types[i], Left(budget, Used(types, x));
    assert Saturated(t, x[i], left);
    PositiveNeed(t);
    HoldNeed(t);
    assert Dot(t.Use(), RATE) == 1.0 && Dot(t.Use(), COST) == t.cost && Dot(t.Use(), CONC) == t.hold;
    assert Dot(budget, RATE) == budget.r && Dot(budget, COST) == budget.c && Dot(budget, CONC) == budget.k;
    var e := if t.weight > 0.0 && left.r == 0.0 then RATE else if t.weight * t.cost > 0.0 && left.c == 0.0 then COST else CONC;
    assert Axis(e);
  }

  lemma {:induction false} FullWhenRoomLeft(types: seq<WorkloadType>, budget: Vec, p: Vec, x: seq<real>, d: Vec, i: nat)
    requires ValidTypes(types) && Consistent(types, x, p) && OnlyPriced(p, d) && SaturatesMarginals(types, budget, p, x)
    requires OthersFit(types, budget, p, d) && Load(types, x, d) != Dot(budget, d)
    requires i < |types| && Marginal(types[i], p)
    ensures x[i] == 1.0
  {
    if x[i] != 1.0 {
      ShortOfUnpriced(types, budget, p, x, d, i);
      var e :| Axis(e) && e != d && types[i].weight > 0.0 && Dot(types[i].Use(), e) > 0.0 && Load(types, x, e) == Dot(budget, e);
      FullIsFull(types, p, x);
      assert FullFits(types, budget, p, e);
      FullWhereEmpty(types, x, FullPlan(types, p), e, i);
    }
  }

  lemma {:induction false} PricedSpent(types: seq<WorkloadType>, budget: Vec, p: Vec, x: seq<real>, d: Vec)
    requires ValidTypes(types) && DualOptimal(types, budget, p, false) && Consistent(types, x, p) && Feasible(types, budget, x)
    requires OnlyPriced(p, d) && SaturatesMarginals(types, budget, p, x) && OthersFit(types, budget, p, d)
    ensures Load(types, x, d) == Dot(budget, d)
  {
    if Load(types, x, d) != Dot(budget, d) {
      forall i | 0 <= i < |types| && Marginal(types[i], p) ensures x[i] == 1.0 {
        FullWhenRoomLeft(types, budget, p, x, d, i);
      }
      AllMarginalSpends(types, budget, p, x, d);
      AxisLoad(types, budget, x, d);
    }
  }

  lemma AxisLoad(types: seq<WorkloadType>, budget: Vec, x: seq<real>, d: Vec)
    requires |x| == |types| && Axis(d) && Used(types, x).Below(budget)
    ensures Load(types, x, d) <= Dot(budget, d)
  {
  }

  /** The marginal types in full fit into the budgets other than the one along d. */
  ghost predicate OthersFit(types: seq<WorkloadType>, budget: Vec, p: Vec, d: Vec) {
    forall e :: Axis(e) && e != d ==> FullFits(types, budget, p, e)
  }

  /** With exactly one budget priced, the plan earns the objective whenever the marginal types in full fit into the other two. */
  lemma {:induction false} OnePriceEarns(types: seq<WorkloadType>, budget: Vec, s: Solution, d: Vec)
    requires ValidTypes(types) && ThreeBudgetAnswer(types, budget, s) && OnlyPriced(PricesOf(s.duals), d)
    requires OthersFit(types, budget, PricesOf(s.duals), d)
    ensures |s.admitFractions| == |types| && Objective(types, s.admitFractions) == s.objective
  {
    var p, x := PricesOf(s.duals), s.admitFractions;
    PricedSpent(types, budget, p, x, d);
    StrongDuality(types, budget, x, p);
  }

  // ---------------------------------------------------------------- one binding budget, and the plan misses

  /** Two types of equal value under rate 1, cost 5 and concurrency 1; the dearer one is listed first. */
  ghost predicate Example(types: seq<WorkloadType>, budget: Vec) {
    && |types| == 2 && types[0] == WorkloadType(10.0, 1.0, 1.0, 0.0) && types[1] == WorkloadType(1.0, 1.0, 1.0, 0.0)
    && budget == Vec(1.0, 5.0, 1.0)
  }

  ghost predicate ExampleInput(input: Input) {
    && input.types == [TypeSpec(10.0, 1.0, 1.0, Some(0.0)), TypeSpec(1.0, 1.0, 1.0, Some(0.0))]
    && input.rateBudget == 1.0 && input.costBudget == 5.0 && input.concBudget == Some(1.0)
  }

  lemma ExampleAccepted(input: Input)
    requires ExampleInput(input)
    ensures Accepted(input) && Example(Workload(input.types), BudgetOf(input))
  {
    assert input.types[0].hold.Some?;
  }

  lemma SumOfTwo(a: real, b: real, s: seq<real>)
    requires s == [a, b]
    ensures Sum(s) == a + b
  {
    assert s[..1] == [a] && [a][..0] == [];
    assert Sum([a]) == Sum([]) + a;
  }

  function DualAt(p: Vec): real { p.r + 5.0 * p.c + p.k + PosPart(1.0 - p.r - 10.0 * p.c) + PosPart(1.0 - p.r - p.c) }

  lemma DualIs(types: seq<WorkloadType>, budget: Vec, p: Vec)
    requires Example(types, budget)
    ensures Dual(types, budget, p) == DualAt(p)
  {
    var s := Surplus(types, p);
    assert Reduced(types[0], p) == 1.0 - p.r - 10.0 * p.c && Reduced(types[1], p) == 1.0 - p.r - p.c;
    SumOfTwo(PosPart(1.0 - p.r - 10.0 * p.c), PosPart(1.0 - p.r - p.c), s);
  }

  lemma OnlyRateIsCheapest(p: Vec)
    requires p.NonNeg()
    ensures DualAt(p) >= 1.0 && (DualAt(p) == 1.0 <==> p == RATE)
  {
  }

  lemma DualBounds(types: seq<WorkloadType>, budget: Vec, p: Vec)
    requires Example(types, budget) && p.NonNeg()
    ensures Dual(types, budget, p) >= 1.0 && (Dual(types, budget, p) == 1.0 <==> p == RATE)
  {
    DualIs(types, budget, p);
    OnlyRateIsCheapest(p);
  }

  lemma OptimalBelow(types: seq<WorkloadType>, budget: Vec, p: Vec, q: Vec, low: real)
    requires DualOptimal(types, budget, p, false) && q.NonNeg() && Dual(types, budget, q) == low && Dual(types, budget, p) >= low
    ensures Dual(types, budget, p) == low
  {
  }

  /** Only the rate is priced, at one. */
  lemma RateBinds(types: seq<WorkloadType>, budget: Vec, p: Vec)
    requires Example(types, budget) && DualOptimal(types, budget, p, false)
    ensures p == RATE && Dual(types, budget, p) == 1.0
  {
    DualBounds(types, budget, p);
    DualBounds(types, budget, RATE);
    OptimalBelow(types, budget, p, RATE, 1.0);
  }

  lemma BothMarginal(types: seq<WorkloadType>, p: Vec)
    requires |types| == 2 && Reduced(types[0], p) == 0.0 && Reduced(types[1], p) == 0.0
    ensures Marginals(types, p) == [0, 1] && Forced(types, p) == [0.0, 0.0]
  {
    assert MarginalUpTo(types, p, 0) == [];
    assert MarginalUpTo(types, p, 1) == [0];
    assert MarginalUpTo(types, p, 2) == [0, 1];
  }

  lemma MarginalAtRate(t: WorkloadType, p: Vec)
    requires p == RATE && t.value == 1.0
    ensures Reduced(t, p) == 0.0
  {
  }

  lemma NothingUsed(types: seq<WorkloadType>, x: seq<real>, d: Vec)
    requires |x| == |types| && forall i :: 0 <= i < |x| ==> x[i] == 0.0
    ensures Load(types, x, d) == 0.0
  {
    forall i | 0 <= i < |x| ensures LoadTerms(types, x, d)[i] == 0.0 { ZeroTerm(types[i], x[i], d); }
    SumZero(LoadTerms(types, x, d));
  }

  lemma WholeRoom(types: seq<WorkloadType>, budget: Vec, p: Vec)
    requires forall i :: 0 <= i < |types| ==> Forced(types, p)[i] == 0.0
    ensures ThreeRoom(types, budget, p) == budget
  {
    NothingUsed(types, Forced(types, p), RATE);
    NothingUsed(types, Forced(types, p), COST);
    NothingUsed(types, Forced(types, p), CONC);
  }

  lemma FillingIs(types: seq<WorkloadType>, budget: Vec, p: Vec, m: seq<nat>, x: seq<real>, room: Vec)
    requires p != ZERO && m == Marginals(types, p) && x == Forced(types, p) && room == ThreeRoom(types, budget, p)
    ensures ThreeFilling(types, budget, p) == FillInOrder(types, m, x, room)
  {
  }

  lemma FillOfTwo(types: seq<WorkloadType>, x: seq<real>, room: Vec, n0: Vec, n1: Vec, a: real, left: Vec, b: real)
    requires |types| == |x| == 2 && n0 == Needs(types[0]) && n1 == Needs(types[1])
    requires ShareOf(n0, room) == a && RoomAfter(room, a, n0) == left && ShareOf(n1, left) == b
    ensures FillInOrder(types, [0, 1], x, room).x == [a, b]
  {
    FillInOrderStep(types, [0, 1], 0, x, room, n0);
    FillInOrderStep(types, [0, 1], 1, x[0 := a], left, n1);
    assert [0, 1][0..] == [0, 1] && [0, 1][2..] == [];
    assert x[0 := a][1 := b] == [a, b];
  }

  ghost predicate PairFill(types: seq<WorkloadType>, budget: Vec, p: Vec, n0: Vec, n1: Vec, a: real, left: Vec, b: real) {
    && |types| == 2 && p != ZERO && Reduced(types[0], p) == 0.0 && Reduced(types[1], p) == 0.0
    && n0 == Needs(types[0]) && n1 == Needs(types[1])
    && ShareOf(n0, budget) == a && RoomAfter(budget, a, n0) == left && ShareOf(n1, left) == b
  }

  /** Two marginal types over an untouched budget. */
  lemma FillOfPair(types: seq<WorkloadType>, budget: Vec, p: Vec, n0: Vec, n1: Vec, a: real, left: Vec, b: real)
    requires PairFill(types, budget, p, n0, n1, a, left, b)
    ensures ThreeFilling(types, budget, p).x == [a, b]
  {
    BothMarginal(types, p);
    WholeRoom(types, budget, p);
    FillingIs(types, budget, p, [0, 1], Forced(types, p), budget);
    FillOfTwo(types, Forced(types, p), budget, n0, n1, a, left, b);
  }

  lemma HalfFits(need: Vec, room: Vec, left: Vec)
    requires need == Vec(1.0, 10.0, 0.0) && room == Vec(1.0, 5.0, 1.0) && left == Vec(0.5, 0.0, 1.0)
    ensures ShareOf(need, room) == 0.5 && RoomAfter(room, 0.5, need) == left
  {
    SharesAre(need, room, 0.5, left);
  }

  lemma NothingFits(need: Vec, room: Vec)
    requires need.NonNeg() && room.NonNeg() && need.c > 0.0 && room.c == 0.0
    ensures ShareOf(need, room) == 0.0
  {
    SharesAre(need, room, 0.0, room);
  }

  lemma HalfEarned(types: seq<WorkloadType>, x: seq<real>)
    requires |types| == 2 && x == [0.5, 0.0] && types[0].weight == 1.0 && types[0].value == 1.0
    ensures Objective(types, x) == 0.5
  {
    assert types[1].weight * types[1].value * 0.0 == 0.0;
    SumOfTwo(0.5, 0.0, Earned(types, x));
  }

  lemma NeedsAre(t: WorkloadType, cost: real)
    requires t.weight == 1.0 && t.cost == cost && t.hold == 0.0
    ensures Needs(t) == Vec(1.0, cost, 0.0)
  {
  }

  lemma PlanIs(types: seq<WorkloadType>, budget: Vec, p: Vec, s: Solution)
    requires ThreeBudgetAnswer(types, budget, s) && p == PricesOf(s.duals)
    ensures s.admitFractions == ThreeFilling(types, budget, p).x
    ensures DualOptimal(types, budget, p, false) && s.objective == Dual(types, budget, p)
  {
  }

  lemma OnlyRate(p: Vec)
    requires p == RATE
    ensures OnlyPriced(p, RATE)
  {
  }

  lemma BothAtRate(types: seq<WorkloadType>, budget: Vec, p: Vec)
    requires Example(types, budget) && p == RATE
    ensures |types| == 2 && Reduced(types[0], p) == 0.0 && Reduced(types[1], p) == 0.0
  {
    MarginalAtRate(types[0], p);
    MarginalAtRate(types[1], p);
  }

  lemma FirstShare(t: WorkloadType, budget: Vec, need: Vec, left: Vec)
    requires t == WorkloadType(10.0, 1.0, 1.0, 0.0) && need == Needs(t) && budget == Vec(1.0, 5.0, 1.0) && left == Vec(0.5, 0.0, 1.0)
    ensures ShareOf(need, budget) == 0.5 && RoomAfter(budget, 0.5, need) == left
  {
    NeedsAre(t, 10.0);
    HalfFits(need, budget, left);
  }

  lemma SecondShare(t: WorkloadType, need: Vec, left: Vec)
    requires t == WorkloadType(1.0, 1.0, 1.0, 0.0) && need == Needs(t) && left == Vec(0.5, 0.0, 1.0)
    ensures ShareOf(need, left) == 0.0
  {
    NeedsAre(t, 1.0);
    NothingFits(need, left);
  }

  lemma PairFills(types: seq<WorkloadType>, budget: Vec, p: Vec, n0: Vec, n1: Vec, left: Vec)
    requires Example(types, budget) && p == RATE && n0 == Needs(types[0]) && n1 == Needs(types[1]) && left == Vec(0.5, 0.0, 1.0)
    ensures PairFill(types, budget, p, n0, n1, 0.5, left, 0.0)
  {
    BothAtRate(types, budget, p);
    FirstShare(types[0], budget, n0, left);
    SecondShare(types[1], n1, left);
  }

  /** The first type takes half and empties the cost room, so the second gets nothing. */
  lemma HalfPlan(types: seq<WorkloadType>, budget: Vec, p: Vec)
    requires Example(types, budget) && p == RATE
    ensures ThreeFilling(types, budget, p).x == [0.5, 0.0]
  {
    var left := Vec(0.5, 0.0, 1.0);
    PairFills(types, budget, p, Needs(types[0]), Needs(types[1]), left);
    FillOfPair(types, budget, p, Needs(types[0]), Needs(types[1]), 0.5, left, 0.0);
  }

  lemma HalfOfTheObjective(types: seq<WorkloadType>, budget: Vec, s: Solution)
    requires Example(types, budget) && ThreeBudgetAnswer(types, budget, s)
    ensures OnlyPriced(PricesOf(s.duals), RATE) && s.objective == 1.0
    ensures s.admitFractions == [0.5, 0.0] && Objective(types, s.admitFractions) == 0.5
  {
    var p := PricesOf(s.duals);
    PlanIs(types, budget, p, s);
    RateBinds(types, budget, p);
    OnlyRate(p);
    HalfPlan(types, budget, p);
    HalfEarned(types, s.admitFractions);
  }

  /** One budget binds, and whatever the solver answers its plan earns half of the objective it reports. */
  lemma OneBindingMisses(input: Input, s: Solution)
    requires ExampleInput(input) && ThreeBudgetAnswer(Workload(input.types), BudgetOf(input), s)
    ensures Accepted(input) && OnlyPriced(PricesOf(s.duals), RATE) && s.objective == 1.0
    ensures s.admitFractions == [0.5, 0.0] && Objective(Workload(input.types), s.admitFractions) == 0.5
  {
    ExampleAccepted(input);
    HalfOfTheObjective(Workload(input.types), BudgetOf(input), s);
  }
}
