/** Exactly when the two-budget plan is optimal, told by the workload, the budgets and the prices alone. */
module FluidLpExact {
  import opened Numbers
  import opened FluidLp
  import opened FluidLpOptimality
  import opened FluidLpFill
  import opened FluidLpRecovery
  import opened FluidLpSingle
  import opened FluidLpPair
  import opened FluidLpBoth
  import opened FluidLpPlan
  import opened FluidLpSolve
  import FluidLpStrong
  import opened Greedy
  import opened Sorting

  /** Two marginal types alone, the others rejected, fill what the forced plan leaves of both budgets. */
  ghost predicate AloneFits(types: seq<WorkloadType>, budget: Vec, p: Vec, i: nat, j: nat, y: real, z: real)
    requires i < |types| && j < |types|
  {
    && PairOk(types, p, i, j) && 0.0 <= y <= 1.0 && 0.0 <= z <= 1.0
    && FillsRoom(types[i].weight, types[j].weight, y, z, RateRoom(types, budget, p))
    && FillsRoom(types[i].weight * types[i].cost, types[j].weight * types[j].cost, y, z, CostRoom(types, budget, p))
  }

  ghost predicate PairAlone(types: seq<WorkloadType>, budget: Vec, p: Vec) {
    exists i: nat, j: nat, y: real, z: real :: i < |types| && j < |types| && AloneFits(types, budget, p, i, j, y, z)
  }

  lemma EmptyMask(o: nat)
    ensures Bit(0, o) == 0
  {
    if o > 0 { EmptyMask(o - 1); }
  }

  lemma {:induction false} EmptyMaskTakes(need: seq<real>, others: seq<nat>, n: nat)
    requires n <= |others| && Within(others, |need|)
    ensures Taken(need, others, 0, n) == 0.0
  {
    if n > 0 {
      EmptyMaskTakes(need, others, n - 1);
      EmptyMask(n - 1);
    }
  }

  lemma {:induction false} NothingTaken(need: seq<real>, m: seq<nat>, ai: nat, bi: nat)
    requires ai < bi < |m| && Within(m, |need|)
    ensures TakenAll(need, m, ai, bi, 0) == 0.0
  {
    EmptyMaskTakes(need, Others(m, ai, bi), |Others(m, ai, bi)|);
  }

  /** A trial with every other type at 0 fits just when the pair alone does. */
  lemma {:induction false} AloneIsEmptyMask(types: seq<WorkloadType>, budget: Vec, p: Vec, ai: nat, bi: nat, y: real, z: real)
    requires ValidTypes(types) && ai < bi < |Marginals(types, p)|
    ensures var m := Marginals(types, p);
      PairFits(RoomFor(types, budget, p), m, ai, bi, 0, y, z) <==> AloneFits(types, budget, p, m[ai], m[bi], y, z)
  {
    var g, m := RoomFor(types, budget, p), Marginals(types, p);
    RowAlone(g.rate, m, ai, bi, y, z, g.r);
    RowAlone(g.cost, m, ai, bi, y, z, g.c);
    NonSingularIff(types, budget, p, ai, bi);
  }

  lemma {:induction false} RowAlone(need: seq<real>, m: seq<nat>, ai: nat, bi: nat, y: real, z: real, room: real)
    requires ai < bi < |m| && Within(m, |need|)
    ensures Row(need, m, ai, bi, 0, y, z, room) <==> FillsRoom(need[m[ai]], need[m[bi]], y, z, room)
  {
    NothingTaken(need, m, ai, bi);
  }

  /** The shares y and z of two needs fill a room. */
  ghost predicate FillsRoom(a: real, b: real, y: real, z: real, room: real) { a * y + b * z == room }

  /** A pair that fits alone does so at two positions of the marginal list, in either order. */
  lemma {:induction false} AloneListed(types: seq<WorkloadType>, budget: Vec, p: Vec, i: nat, j: nat, y: real, z: real)
    returns (ai: nat, bi: nat, y': real, z': real)
    requires ValidTypes(types) && i < |types| && j < |types| && AloneFits(types, budget, p, i, j, y, z)
    ensures ai < bi < |Marginals(types, p)|
    ensures AloneFits(types, budget, p, Marginals(types, p)[ai], Marginals(types, p)[bi], y', z')
  {
    ai, bi := MarginalPositions(types, p, i, j);
    var m := Marginals(types, p);
    assert m[ai] in {i, j} && m[bi] in {i, j};
    assert i in {m[ai], m[bi]} && j in {m[ai], m[bi]};
    y', z' := if m[ai] == i then y else z, if m[ai] == i then z else y;
  }

  /** Beyond 12 marginal types the enumeration hits exactly when some pair fits alone. */
  lemma {:induction false} HitsBeyondTwelve(types: seq<WorkloadType>, budget: Vec, p: Vec, x: seq<real>, hit: bool)
    requires Priced(types, budget, p) && Recovered(types, budget, p, x, hit) && BranchOf(Marginals(types, p), p).Both?
    requires |Marginals(types, p)| > 12
    ensures hit <==> PairAlone(types, budget, p)
  {
    var g, m := RoomFor(types, budget, p), Marginals(types, p);
    if hit {
      var ai: nat, bi: nat, mask: nat, y: real, z: real :| FindsAt(g, Forced(types, p), m, ai, bi, mask, y, z, x);
      assert mask == 0;
      AloneIsEmptyMask(types, budget, p, ai, bi, y, z);
    } else if PairAlone(types, budget, p) {
      var i: nat, j: nat, y: real, z: real :| i < |types| && j < |types| && AloneFits(types, budget, p, i, j, y, z);
      var ai, bi, y', z' := AloneListed(types, budget, p, i, j, y, z);
      AloneIsEmptyMask(types, budget, p, ai, bi, y', z');
    }
  }

  /** Admitting every marginal type in full happens to spend both budgets. */
  ghost predicate FullMarginalsExhaust(types: seq<WorkloadType>, budget: Vec, p: Vec) {
    var m := Marginals(types, p);
    var u := Used(types, Ones(Forced(types, p), m, |m|));
    u.r == budget.r && u.c == budget.c
  }

  /** The pair search succeeds: up to 12 marginal types on any usable pair, beyond only on one that fits alone. */
  ghost predicate SearchSucceeds(types: seq<WorkloadType>, budget: Vec, p: Vec) {
    if |Marginals(types, p)| <= 12 then DistinctPair(types, p) else PairAlone(types, budget, p)
  }

  ghost predicate PlanWorks(types: seq<WorkloadType>, budget: Vec, p: Vec) {
    p.r == 0.0 || p.c == 0.0 || Marginals(types, p) == [] || SearchSucceeds(types, budget, p) || FullMarginalsExhaust(types, budget, p)
  }

  /** The recovered plan is certified exactly when the workload, the budgets and the prices say so. */
  lemma {:induction false} CertifiedExactlyWhen(types: seq<WorkloadType>, budget: Vec, p: Vec, x: seq<real>, hit: bool)
    requires Priced(types, budget, p) && Recovered(types, budget, p, x, hit)
    ensures Certified(types, budget, p, x) <==> PlanWorks(types, budget, p)
  {
    CertifiedByOutcome(types, budget, p, x, hit);
    if BranchOf(Marginals(types, p), p).Both? {
      if |Marginals(types, p)| <= 12 {
        HitsExactlyWhen(types, budget, p, x, hit);
      } else {
        HitsBeyondTwelve(types, budget, p, x, hit);
      }
    }
  }

  // ---------------------------------------------------------------- what the answers are worth

  /** The plan is feasible and no feasible fractional plan earns more than the reported objective. */
  ghost predicate IsBest(types: seq<WorkloadType>, budget: Vec, s: Solution) {
    && Feasible(types, budget, s.admitFractions)
    && forall y :: Feasible(types, budget, y) ==> Objective(types, y) <= s.objective
  }

  lemma {:induction false} DualWithoutHold(types: seq<WorkloadType>, budget: Vec, q: Vec)
    requires budget.k == 0.0 && forall i :: 0 <= i < |types| ==> types[i].hold == 0.0
    ensures Dual(types, budget, q) == Dual(types, budget, Vec(q.r, q.c, 0.0))
  {
    var flat := Vec(q.r, q.c, 0.0);
    var s, t := Surplus(types, q), Surplus(types, flat);
    forall i | 0 <= i < |types| ensures s[i] == t[i] { assert q.k * types[i].hold == 0.0; }
    assert s == t;
  }

  /** In two-budget mode the concurrency price does not matter. */
  lemma {:induction false} OptimalInOctant(types: seq<WorkloadType>, budget: Vec, p: Vec)
    requires Priced(types, budget, p)
    ensures DualOptimal(types, budget, p, false)
  {
    forall q: Vec | q.NonNeg() ensures Dual(types, budget, p) <= Dual(types, budget, q) {
      DualWithoutHold(types, budget, q);
      assert Vec(q.r, q.c, 0.0).NonNeg();
    }
  }

  /** The two-budget answer is the best plan exactly under that condition, for every accepted workload. */
  lemma {:induction false} TwoBudgetBestExactlyWhen(types: seq<WorkloadType>, budget: Vec, s: Solution)
    requires TwoBudgetAnswer(types, budget, s)
    ensures IsBest(types, budget, s) <==> PlanWorks(types, budget, PricesOf(s.duals))
  {
    var p := PricesOf(s.duals);
    var hit :| Recovered(types, budget, p, s.admitFractions, hit);
    CertifiedExactlyWhen(types, budget, p, s.admitFractions, hit);
    BestIffCertified(types, budget, p, s);
  }

  lemma {:induction false} BestIffCertified(types: seq<WorkloadType>, budget: Vec, p: Vec, s: Solution)
    requires Priced(types, budget, p) && |s.admitFractions| == |types| && s.objective == Objective(types, s.admitFractions)
    ensures IsBest(types, budget, s) <==> Certified(types, budget, p, s.admitFractions)
  {
    if Certified(types, budget, p, s.admitFractions) {
      forall y | Feasible(types, budget, y) ensures Objective(types, y) <= s.objective {
        CertifiedIsBest(types, budget, p, s.admitFractions, y);
      }
    }
    if IsBest(types, budget, s) {
      OptimalInOctant(types, budget, p);
      var y := FluidLpStrong.PrimalAttains(types, budget, p);
      WeakDuality(types, budget, s.admitFractions, p);
    }
  }

  /** The objective reported in three-budget mode is the primal optimum: some feasible plan earns it, and none earns more. */
  lemma {:induction false} ThreeBudgetObjective(types: seq<WorkloadType>, budget: Vec, s: Solution)
    requires ValidTypes(types) && budget.NonNeg() && ThreeBudgetAnswer(types, budget, s)
    ensures exists x :: Feasible(types, budget, x) && Objective(types, x) == s.objective
    ensures forall y :: Feasible(types, budget, y) ==> Objective(types, y) <= s.objective
  {
    var p := PricesOf(s.duals);
    var x := FluidLpStrong.PrimalAttains(types, budget, p);
    forall y | Feasible(types, budget, y) ensures Objective(types, y) <= s.objective { WeakDuality(types, budget, y, p); }
  }
}
