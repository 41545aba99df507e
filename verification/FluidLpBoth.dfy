/** When the pair enumeration of fillBothTight succeeds, and what its fallback does. */
module FluidLpBoth {
  import opened Numbers
  import opened Wrappers
  import opened FluidLp
  import opened FluidLpOptimality
  import opened FluidLpFill
  import opened FluidLpRecovery
  import opened FluidLpSingle
  import opened FluidLpSparse
  import opened FluidLpPair
  import opened Greedy
  import opened Sorting

  function RoomFor(types: seq<WorkloadType>, budget: Vec, p: Vec): Room {
    Room(RateNeed(types), CostNeed(types), RateRoom(types, budget, p), CostRoom(types, budget, p))
  }

  /** The enumeration covers every 0/1 pattern up to 12 marginal types, and only the empty pattern beyond. */
  function Combos(m: seq<nat>): nat
    requires |m| >= 2
  {
    if |m| <= 12 then Pow2(|m| - 2) else 1
  }

  /** Some enumerated pair and mask yields z. */
  ghost predicate Finds(types: seq<WorkloadType>, budget: Vec, p: Vec, z: seq<real>) {
    FoundBy(RoomFor(types, budget, p), Forced(types, p), Marginals(types, p), z)
  }

  ghost predicate FoundBy(g: Room, x: seq<real>, m: seq<nat>, z: seq<real>) {
    exists ai: nat, bi: nat, mask: nat, xa: real, xb: real :: FindsAt(g, x, m, ai, bi, mask, xa, xb, z)
  }

  ghost predicate FindsAt(g: Room, x: seq<real>, m: seq<nat>, ai: nat, bi: nat, mask: nat, xa: real, xb: real, z: seq<real>) {
    ai < bi < |m| && mask < Combos(m) && Solves(g, x, m, ai, bi, mask, xa, xb, z)
  }

  /** Two marginal types of positive weight and distinct cost. */
  ghost predicate DistinctPair(types: seq<WorkloadType>, p: Vec) {
    exists i, j :: 0 <= i < |types| && 0 <= j < |types| && PairOk(types, p, i, j)
  }

  ghost predicate PairOk(types: seq<WorkloadType>, p: Vec, i: nat, j: nat)
    requires i < |types| && j < |types|
  {
    Marginal(types[i], p) && Marginal(types[j], p) && types[i].weight > 0.0 && types[j].weight > 0.0
    && types[i].cost != types[j].cost
  }

  lemma {:induction false} ForcedZeroOnMarginals(types: seq<WorkloadType>, p: Vec)
    ensures var m := Marginals(types, p);
      Distinct(m) && forall k :: 0 <= k < |m| ==> Forced(types, p)[m[k]] == 0.0
  {
    MarginalExactly(types, p, |types|);
    var m := Marginals(types, p);
    forall k | 0 <= k < |m| ensures Forced(types, p)[m[k]] == 0.0 { assert m[k] in m; }
  }

  /** Whatever the enumeration finds spends both budgets exactly and touches only marginal types. */
  lemma {:induction false} FoundFacts(types: seq<WorkloadType>, budget: Vec, p: Vec, z: seq<real>)
    requires Finds(types, budget, p, z)
    ensures |z| == |types| && ExactSpend(types, budget, p, z) && Consistent(types, z, p)
  {
    var g, x, m := RoomFor(types, budget, p), Forced(types, p), Marginals(types, p);
    var ai: nat, bi: nat, mask: nat, xa: real, xb: real :| FindsAt(g, x, m, ai, bi, mask, xa, xb, z);
    ForcedZeroOnMarginals(types, p);
    TrialExact(g, x, m, ai, bi, mask, xa, xb, z);
    StillConsistent(types, p, z);
  }

  lemma {:induction false} StillConsistent(types: seq<WorkloadType>, p: Vec, z: seq<real>)
    requires |z| == |types|
    requires forall i :: 0 <= i < |z| && i !in Marginals(types, p) ==> z[i] == Forced(types, p)[i]
    requires forall i :: 0 <= i < |z| && i in Marginals(types, p) ==> 0.0 <= z[i] <= 1.0
    ensures Consistent(types, z, p)
  {
    MarginalExactly(types, p, |types|);
  }

  /** So it is certified. */
  lemma {:induction false} FoundIsCertified(types: seq<WorkloadType>, budget: Vec, p: Vec, z: seq<real>)
    requires Priced(types, budget, p) && Finds(types, budget, p, z)
    ensures Certified(types, budget, p, z)
  {
    FoundFacts(types, budget, p, z);
    SpentIsRate(types, z);
    SpentIsRate(types, Forced(types, p));
    SpentIsCost(types, z);
    SpentIsCost(types, Forced(types, p));
    CertifiedBy(types, budget, p, z);
  }

  /** The cross weights of a pair vanish exactly when a weight is 0 or the costs agree. */
  lemma PairDet(s: WorkloadType, t: WorkloadType)
    requires s.Valid() && t.Valid()
    ensures s.weight * (t.weight * t.cost) - t.weight * (s.weight * s.cost) != 0.0
      <==> s.weight > 0.0 && t.weight > 0.0 && s.cost != t.cost
  {
    assert s.weight * (t.weight * t.cost) - t.weight * (s.weight * s.cost) == (s.weight * t.weight) * (t.cost - s.cost);
    NonZeroProduct(s.weight, t.weight);
    NonZeroProduct(s.weight * t.weight, t.cost - s.cost);
  }

  lemma NonZeroProduct(a: real, b: real)
    ensures a * b != 0.0 <==> a != 0.0 && b != 0.0
  {
  }

  /** A positive-weight pair of distinct cost that contains every fractional type of a sparse plan. */
  lemma {:induction false} CoveringPair(types: seq<WorkloadType>, p: Vec, x: seq<real>) returns (a: nat, b: nat)
    requires ValidTypes(types) && Consistent(types, x, p) && Sparse(types, x) && WeightedFractions(types, x)
    requires DistinctPair(types, p)
    ensures a < |types| && b < |types| && PairOk(types, p, a, b)
    ensures forall i: nat :: IsFractional(x, i) ==> i == a || i == b
  {
    var s, t :| 0 <= s < |types| && 0 <= t < |types| && PairOk(types, p, s, t);
    a, b := s, t;
    if i: nat :| IsFractional(x, i) {
      FractionalIsMarginal(types, p, x, i);
      if j: nat :| IsFractional(x, j) && j != i {
        FractionalIsMarginal(types, p, x, j);
        a, b := i, j;
      } else {
        a, b := i, if types[s].cost != types[i].cost then s else t;
      }
    }
  }

  lemma {:induction false} FractionalIsMarginal(types: seq<WorkloadType>, p: Vec, x: seq<real>, i: nat)
    requires Consistent(types, x, p) && IsFractional(x, i)
    ensures Marginal(types[i], p)
  {
  }

  lemma {:induction false} MarginalPositions(types: seq<WorkloadType>, p: Vec, a: nat, b: nat) returns (ai: nat, bi: nat)
    requires a < |types| && b < |types| && PairOk(types, p, a, b)
    ensures ai < bi < |Marginals(types, p)|
    ensures {Marginals(types, p)[ai], Marginals(types, p)[bi]} == {a, b}
    ensures PairOk(types, p, Marginals(types, p)[ai], Marginals(types, p)[bi])
  {
    MarginalExactly(types, p, |types|);
    var m := Marginals(types, p);
    assert a in m && b in m;
    var i :| 0 <= i < |m| && m[i] == a;
    var j :| 0 <= j < |m| && m[j] == b;
    ai, bi := if i < j then i else j, if i < j then j else i;
  }

  lemma {:induction false} NonSingularIff(types: seq<WorkloadType>, budget: Vec, p: Vec, ai: nat, bi: nat)
    requires ValidTypes(types) && ai < bi < |Marginals(types, p)|
    ensures NonSingular(RoomFor(types, budget, p), Marginals(types, p), ai, bi)
      <==> PairOk(types, p, Marginals(types, p)[ai], Marginals(types, p)[bi])
  {
    var m := Marginals(types, p);
    MarginalExactly(types, p, |types|);
    assert m[ai] in m && m[bi] in m;
    NonSingularOf(types, RoomFor(types, budget, p), m, ai, bi);
  }

  lemma {:induction false} NonSingularOf(types: seq<WorkloadType>, g: Room, m: seq<nat>, ai: nat, bi: nat)
    requires ValidTypes(types) && Within(m, |types|) && ai < bi < |m| && g.rate == RateNeed(types) && g.cost == CostNeed(types)
    ensures NonSingular(g, m, ai, bi) <==>
      types[m[ai]].weight > 0.0 && types[m[bi]].weight > 0.0 && types[m[ai]].cost != types[m[bi]].cost
  {
    PairDet(types[m[ai]], types[m[bi]]);
  }

  /** A plan that spends both budgets spends exactly the room the forced plan leaves. */
  lemma {:induction false} SpendsRoom(types: seq<WorkloadType>, budget: Vec, p: Vec, x: seq<real>)
    requires |x| == |types| && Used(types, x).r == budget.r && Used(types, x).c == budget.c
    ensures ExactSpend(types, budget, p, x)
  {
    SpentIsRate(types, x);
    SpentIsCost(types, x);
    SpentIsRate(types, Forced(types, p));
    SpentIsCost(types, Forced(types, p));
  }

  ghost predicate ExactSpend(types: seq<WorkloadType>, budget: Vec, p: Vec, x: seq<real>)
    requires |x| == |types|
  {
    Spent(RateNeed(types), x) == Spent(RateNeed(types), Forced(types, p)) + RateRoom(types, budget, p)
    && Spent(CostNeed(types), x) == Spent(CostNeed(types), Forced(types, p)) + CostRoom(types, budget, p)
  }

  /** With both budgets priced, up to 12 marginal types and a usable pair, the enumeration always succeeds. */
  lemma {:induction false} EnumerationSucceeds(types: seq<WorkloadType>, budget: Vec, p: Vec) returns (z: seq<real>)
    requires Priced(types, budget, p) && p.r > 0.0 && p.c > 0.0
    requires |Marginals(types, p)| <= 12 && DistinctPair(types, p)
    ensures Finds(types, budget, p, z)
  {
    z := SparseExactPlan(types, budget, p);
    var ai, bi := CoveringPositions(types, p, z);
    SparseIsFound(types, budget, p, z, ai, bi);
  }

  lemma {:induction false} CoveringPositions(types: seq<WorkloadType>, p: Vec, z: seq<real>) returns (ai: nat, bi: nat)
    requires ValidTypes(types) && Consistent(types, z, p) && Sparse(types, z) && WeightedFractions(types, z)
    requires DistinctPair(types, p)
    ensures ai < bi < |Marginals(types, p)| && PairOk(types, p, Marginals(types, p)[ai], Marginals(types, p)[bi])
    ensures forall i: nat :: IsFractional(z, i) ==> i == Marginals(types, p)[ai] || i == Marginals(types, p)[bi]
  {
    var a, b := CoveringPair(types, p, z);
    ai, bi := MarginalPositions(types, p, a, b);
    assert a in {Marginals(types, p)[ai], Marginals(types, p)[bi]} && b in {Marginals(types, p)[ai], Marginals(types, p)[bi]};
  }

  lemma {:induction false} SparseExactPlan(types: seq<WorkloadType>, budget: Vec, p: Vec) returns (z: seq<real>)
    requires Priced(types, budget, p) && p.r > 0.0 && p.c > 0.0
    ensures Consistent(types, z, p) && Sparse(types, z) && WeightedFractions(types, z) && ExactSpend(types, budget, p, z)
  {
    var x := BothTightExists(types, budget, p);
    SpendsRoom(types, budget, p, x);
    WeightlessFree(types, p, x);
    z := SparseExists(types, p, WithoutWeightless(types, p, x));
  }

  lemma {:induction false} SparseIsFound(types: seq<WorkloadType>, budget: Vec, p: Vec, z: seq<real>, ai: nat, bi: nat)
    requires ValidTypes(types) && Consistent(types, z, p) && |Marginals(types, p)| <= 12 && ai < bi < |Marginals(types, p)|
    requires PairOk(types, p, Marginals(types, p)[ai], Marginals(types, p)[bi])
    requires forall i: nat :: IsFractional(z, i) ==> i == Marginals(types, p)[ai] || i == Marginals(types, p)[bi]
    requires ExactSpend(types, budget, p, z)
    ensures Finds(types, budget, p, z)
  {
    var m := Marginals(types, p);
    ForcedZeroOnMarginals(types, p);
    NonSingularIff(types, budget, p, ai, bi);
    IntegralElsewhere(types, p, z, m[ai], m[bi]);
    var mask := TrialComplete(RoomFor(types, budget, p), Forced(types, p), m, ai, bi, z);
    assert FindsAt(RoomFor(types, budget, p), Forced(types, p), m, ai, bi, mask, z[m[ai]], z[m[bi]], z);
  }

  lemma {:induction false} IntegralElsewhere(types: seq<WorkloadType>, p: Vec, z: seq<real>, a: nat, b: nat)
    requires Consistent(types, z, p) && forall i: nat :: IsFractional(z, i) ==> i == a || i == b
    ensures forall i :: 0 <= i < |z| && i !in Marginals(types, p) ==> z[i] == Forced(types, p)[i]
    ensures forall i :: 0 <= i < |z| && i in Marginals(types, p) && i != a && i != b ==> z[i] == 0.0 || z[i] == 1.0
  {
    MarginalExactly(types, p, |types|);
    forall i | 0 <= i < |z| && i in Marginals(types, p) && i != a && i != b ensures z[i] == 0.0 || z[i] == 1.0 {
      assert !IsFractional(z, i);
    }
  }

  /** Without such a pair every trial is singular, so the enumeration never succeeds. */
  lemma {:induction false} NoPairNoFind(types: seq<WorkloadType>, budget: Vec, p: Vec, z: seq<real>)
    requires ValidTypes(types) && Finds(types, budget, p, z)
    ensures DistinctPair(types, p)
  {
    var ai: nat, bi: nat, mask: nat, xa: real, xb: real :|
      FindsAt(RoomFor(types, budget, p), Forced(types, p), Marginals(types, p), ai, bi, mask, xa, xb, z);
    NonSingularIff(types, budget, p, ai, bi);
    assert PairOk(types, p, Marginals(types, p)[ai], Marginals(types, p)[bi]);
  }

  /** With both budgets priced a consistent plan is certified exactly when it exhausts both. */
  lemma {:induction false} CertifiedIffExhausts(types: seq<WorkloadType>, budget: Vec, p: Vec, x: seq<real>)
    requires Priced(types, budget, p) && Consistent(types, x, p) && p.r > 0.0 && p.c > 0.0
    ensures Certified(types, budget, p, x) <==> Used(types, x).r == budget.r && Used(types, x).c == budget.c
  {
    if Used(types, x).r == budget.r && Used(types, x).c == budget.c {
      CertifiedBy(types, budget, p, x);
    }
    if Certified(types, budget, p, x) {
      SlacknessForced(types, budget, p, x, Used(types, x), Objective(types, x));
    }
  }

  lemma {:induction false} SlacknessForced(types: seq<WorkloadType>, budget: Vec, p: Vec, x: seq<real>, u: Vec, earned: real)
    requires Priced(types, budget, p) && Consistent(types, x, p) && p.r > 0.0 && p.c > 0.0
    requires u == Used(types, x) && u.Below(budget) && earned == Objective(types, x) && earned == Dual(types, budget, p)
    ensures u.r == budget.r && u.c == budget.c
  {
    ConsistentEarns(types, x, p, u, earned);
    Exhausts(u, budget, p);
  }

  lemma {:induction false} ConsistentEarns(types: seq<WorkloadType>, x: seq<real>, p: Vec, u: Vec, earned: real)
    requires Consistent(types, x, p) && u == Used(types, x) && earned == Objective(types, x)
    ensures earned == Dot(u, p) + Sum(Surplus(types, p))
  {
    StrongDuality(types, Vec(u.r, u.c, u.k), x, p);
  }

  lemma Exhausts(u: Vec, b: Vec, p: Vec)
    requires u.Below(b) && p.NonNeg() && p.r > 0.0 && p.c > 0.0 && p.k == 0.0 && Dot(u, p) == Dot(b, p)
    ensures u.r == b.r && u.c == b.c
  {
    var dr, dc := b.r - u.r, b.c - u.c;
    assert dr * p.r + dc * p.c == 0.0;
    assert dr > 0.0 ==> dr * p.r > 0.0;
    assert dc > 0.0 ==> dc * p.c > 0.0;
    assert dr * p.r >= 0.0 && dc * p.c >= 0.0;
  }
}
