/** solveFluidLp itself (validation, both modes), when its two-budget plan is optimal, and a plan that overspends. */
module FluidLpSolve {
  import opened Numbers
  import opened Wrappers
  import opened FluidLp
  import opened FluidLpOptimality
  import opened FluidLpFill
  import opened FluidLpRecovery
  import opened FluidLpSingle
  import opened FluidLpPair
  import opened FluidLpBoth
  import opened FluidLpSolver
  import opened FluidLpPlan
  import opened Vertices
  import opened Greedy
  import opened Sorting

  // ---------------------------------------------------------------- exactly when the plan is optimal

  lemma CrossingOnBoth(s: WorkloadType, t: WorkloadType)
    requires s.cost != t.cost
    ensures Reduced(s, Crossing(s, t)) == 0.0 && Reduced(t, Crossing(s, t)) == 0.0
  {
    var dc, pC := t.cost - s.cost, (t.value - s.value) / (t.cost - s.cost);
    assert pC * dc == t.value - s.value;
    assert pC * dc == pC * t.cost - pC * s.cost;
  }

  /** Positive weights and at most 12 types are enough: the recovered plan is then always certified. */
  lemma {:induction false} PositiveWeightsSuffice(types: seq<WorkloadType>, budget: Vec, p: Vec)
    requires Selected(types, budget, p) && p.NonNeg() && |types| <= 12
    requires forall i :: 0 <= i < |types| ==> types[i].weight > 0.0
    ensures PairAvailable(types, p)
  {
    if p.r > 0.0 && p.c > 0.0 {
      var i, j :| 0 <= i < j < |types| && types[i].cost != types[j].cost && p == Crossing(types[i], types[j]);
      CrossingOnBoth(types[i], types[j]);
      assert PairOk(types, p, i, j);
      MarginalCount(types, p, |types|);
    }
  }

  lemma {:induction false} MarginalCount(types: seq<WorkloadType>, p: Vec, n: nat)
    requires n <= |types|
    ensures |MarginalUpTo(types, p, n)| <= n
  {
    if n > 0 { MarginalCount(types, p, n - 1); }
  }

  /** Neither a branch of one budget nor a hit leaves the fallback. */
  lemma {:induction false} OutsideFallback(types: seq<WorkloadType>, budget: Vec, p: Vec, x: seq<real>, hit: bool)
    requires Priced(types, budget, p) && Recovered(types, budget, p, x, hit)
    requires !BranchOf(Marginals(types, p), p).Both? || hit
    ensures Certified(types, budget, p, x)
  {
    RecoveredIsCertified(types, budget, p, x, hit);
  }

  /** Whatever the exit, the recovered plan is certified when a budget is unpriced, nothing is marginal or the enumeration hit. */
  lemma {:induction false} CertifiedByOutcome(types: seq<WorkloadType>, budget: Vec, p: Vec, x: seq<real>, hit: bool)
    requires Priced(types, budget, p) && Recovered(types, budget, p, x, hit)
    ensures Certified(types, budget, p, x) <==>
      !BranchOf(Marginals(types, p), p).Both? || hit || (Used(types, x).r == budget.r && Used(types, x).c == budget.c)
  {
    if !BranchOf(Marginals(types, p), p).Both? || hit {
      OutsideFallback(types, budget, p, x, hit);
    } else {
      RecoveredIsConsistent(types, budget, p, x, hit);
      CertifiedIffExhausts(types, budget, p, x);
    }
  }

  /** Up to 12 marginal types, the enumeration hits exactly when two of them have positive weight and distinct cost. */
  lemma {:induction false} HitsExactlyWhen(types: seq<WorkloadType>, budget: Vec, p: Vec, x: seq<real>, hit: bool)
    requires Priced(types, budget, p) && Recovered(types, budget, p, x, hit) && BranchOf(Marginals(types, p), p).Both?
    requires |Marginals(types, p)| <= 12
    ensures hit <==> DistinctPair(types, p)
  {
    if hit { NoPairNoFind(types, budget, p, x); }
    if DistinctPair(types, p) && !hit { MissImpossible(types, budget, p); }
  }

  // ---------------------------------------------------------------- the three-budget plan

  function Left(budget: Vec, used: Vec): Vec { Vec(budget.r - used.r, budget.c - used.c, budget.k - used.k) }

  ghost predicate Leaves(types: seq<WorkloadType>, budget: Vec, x: seq<real>, rem: Vec) {
    Plan(types, x) && rem.NonNeg() && Used(types, x) == Left(budget, rem)
  }

  /** What a fraction of a need takes. */
  function Take(frac: real, need: real): real { frac * need }

  /** The share of one type that fits into a room: types without need are not limited by it. */
  method Limit(frac: real, need: real, room: real) returns (f: real)
    requires 0.0 <= frac && need >= 0.0 && room >= 0.0
    ensures 0.0 <= f <= frac && Take(f, need) <= room
    ensures f == frac || (need > 0.0 && Take(f, need) == room)
  {
    f := frac;
    if need > 0.0 {
      var q := Max(0.0, room) / need;
      QuotientFits(room, need, q);
      f := Min(frac, q);
      MulMono(f, q, need);
    }
  }

  lemma QuotientFits(room: real, need: real, q: real)
    requires need > 0.0 && room >= 0.0 && q == room / need
    ensures q >= 0.0 && Take(q, need) == room
  {
    assert q * need == room;
    assert q < 0.0 ==> q * need < 0.0;
  }

  lemma ShrinkStillFits(a: real, b: real, need: real, room: real)
    requires 0.0 <= b <= a && need >= 0.0 && Take(a, need) <= room
    ensures Take(b, need) <= room && 0.0 <= Take(b, need)
  {
    MulMono(b, a, need);
  }

  lemma {:induction false} AdmitShare(types: seq<WorkloadType>, x: seq<real>, i: nat, y: real, d: Vec)
    requires |x| == |types| && i < |types| && x[i] == 0.0
    ensures Load(types, x[i := y], d) == Load(types, x, d) + types[i].weight * y * Dot(types[i].Use(), d)
  {
    var before, after := LoadTerms(types, x, d), LoadTerms(types, x[i := y], d);
    forall k | 0 <= k < |x| ensures after[k] == before[i := after[i]][k] {
      if k != i { assert x[i := y][k] == x[k]; }
    }
    assert after == before[i := after[i]];
    SumUpdate(before, i, after[i]);
    ZeroTerm(types[i], x[i], d);
  }

  lemma ZeroTerm(t: WorkloadType, y: real, d: Vec)
    requires y == 0.0
    ensures t.weight * y * Dot(t.Use(), d) == 0.0
  {
    assert t.weight * y == 0.0;
  }

  lemma ShareUse(t: WorkloadType, y: real)
    ensures t.weight * y * Dot(t.Use(), RATE) == y * t.weight
    ensures t.weight * y * Dot(t.Use(), COST) == y * (t.weight * t.cost)
    ensures t.weight * y * Dot(t.Use(), CONC) == y * (t.weight * t.hold)
  {
  }

  /** What admitting the whole type takes from the three budgets. */
  function Needs(t: WorkloadType): Vec { Vec(t.weight, t.weight * t.cost, t.weight * t.hold) }

  lemma NeedsNonNeg(t: WorkloadType)
    requires t.Valid()
    ensures Needs(t).NonNeg()
  {
    PositiveNeed(t);
    HoldNeed(t);
  }

  function RoomAfter(rem: Vec, frac: real, need: Vec): Vec {
    Vec(rem.r - Take(frac, need.r), rem.c - Take(frac, need.c), rem.k - Take(frac, need.k))
  }

  /** The largest share that fits into all three rooms, and what it leaves. */
  ghost predicate Shares(need: Vec, rem: Vec, frac: real, left: Vec) {
    && 0.0 <= frac <= 1.0 && left.NonNeg() && left == RoomAfter(rem, frac, need)
    && (frac == 1.0 || (need.r > 0.0 && left.r == 0.0) || (need.c > 0.0 && left.c == 0.0) || (need.k > 0.0 && left.k == 0.0))
  }

  ghost predicate IsShare(need: Vec, rem: Vec, frac: real) { Shares(need, rem, frac, RoomAfter(rem, frac, need)) }

  /** That share, the only one there is. */
  ghost function ShareOf(need: Vec, rem: Vec): real {
    if exists frac :: IsShare(need, rem, frac) then
      var frac :| IsShare(need, rem, frac); frac
    else 0.0
  }

  lemma SharesAre(need: Vec, rem: Vec, frac: real, left: Vec)
    requires need.NonNeg() && Shares(need, rem, frac, left)
    ensures frac == ShareOf(need, rem) && left == RoomAfter(rem, ShareOf(need, rem), need)
  {
    assert IsShare(need, rem, frac);
    var other := ShareOf(need, rem);
    assert IsShare(need, rem, other);
    NoLargerShare(need, rem, frac, left, other, RoomAfter(rem, other, need));
    NoLargerShare(need, rem, other, RoomAfter(rem, other, need), frac, left);
  }

  lemma NoLargerShare(need: Vec, rem: Vec, a: real, left: Vec, b: real, left': Vec)
    requires need.NonNeg() && Shares(need, rem, a, left) && Shares(need, rem, b, left')
    ensures b <= a
  {
    Exceeds(a, left.r, b, left'.r, need.r, rem.r);
    Exceeds(a, left.c, b, left'.c, need.c, rem.c);
    Exceeds(a, left.k, b, left'.k, need.k, rem.k);
  }

  /** A share that uses a room up leaves no larger one. */
  lemma Exceeds(a: real, left: real, b: real, left': real, need: real, room: real)
    requires left == room - Take(a, need) && left' == room - Take(b, need) && left' >= 0.0
    ensures need > 0.0 && left == 0.0 ==> b <= a
  {
    if a < b && need > 0.0 { TakeMore(a, b, need); }
  }

  lemma TakeMore(a: real, b: real, need: real)
    requires a < b && need > 0.0
    ensures Take(a, need) < Take(b, need)
  {
    assert (b - a) * need > 0.0;
  }

  datatype Filling = Filling(x: seq<real>, room: Vec)

  /** The fill in list order: each type takes the largest share that fits what the types before it left. */
  ghost function FillInOrder(types: seq<WorkloadType>, m: seq<nat>, x: seq<real>, room: Vec): (f: Filling)
    requires Within(m, |types|) && |x| == |types|
    ensures |f.x| == |x|
    decreases |m|
  {
    if m == [] then Filling(x, room)
    else
      var need := Needs(types[m[0]]);
      var frac := ShareOf(need, room);
      FillInOrder(types, m[1..], x[m[0] := frac], RoomAfter(room, frac, need))
  }

  lemma FillInOrderStep(types: seq<WorkloadType>, m: seq<nat>, k: nat, x: seq<real>, room: Vec, need: Vec)
    requires Within(m, |types|) && |x| == |types| && k < |m| && need == Needs(types[m[k]])
    ensures var frac := ShareOf(need, room);
      FillInOrder(types, m[k..], x, room) == FillInOrder(types, m[k + 1..], x[m[k] := frac], RoomAfter(room, frac, need))
  {
    assert m[k..][1..] == m[k + 1..];
  }

  /** The three-budget plan: the forced types in, then the marginal ones in list order, unless nothing is priced. */
  ghost function ThreeFilling(types: seq<WorkloadType>, budget: Vec, p: Vec): (f: Filling)
    ensures |f.x| == |types|
  {
    var x, room := Forced(types, p), ThreeRoom(types, budget, p);
    if p == ZERO then Filling(x, room) else FillInOrder(types, Marginals(types, p), x, room)
  }

  /** What the forced types leave of the three budgets. */
  function ThreeRoom(types: seq<WorkloadType>, budget: Vec, p: Vec): Vec {
    Left(budget, Used(types, Forced(types, p)))
  }


  /** One marginal type of the greedy fill. */
  method AdmitShareOf(need: Vec, rem: Vec) returns (frac: real, left: Vec)
    requires need.NonNeg() && rem.NonNeg()
    ensures Shares(need, rem, frac, left)
    ensures frac == ShareOf(need, rem) && left == RoomAfter(rem, ShareOf(need, rem), need)
  {
    var f1 := Limit(1.0, need.r, rem.r);
    var f2 := Limit(f1, need.c, rem.c);
    var f3 := Limit(f2, need.k, rem.k);
    frac := Max(0.0, Min(1.0, f3));
    ShrinkStillFits(f1, f3, need.r, rem.r);
    ShrinkStillFits(f2, f3, need.c, rem.c);
    left := RoomAfter(rem, frac, need);
    SharesAre(need, rem, frac, left);
  }

  lemma HoldNeed(t: WorkloadType)
    requires t.Valid()
    ensures t.weight * t.hold >= 0.0
  {
  }

  lemma {:induction false} LoadAfter(types: seq<WorkloadType>, x: seq<real>, i: nat, frac: real, d: Vec, need: real)
    requires |x| == |types| && i < |types| && x[i] == 0.0
    requires (d == RATE && need == Needs(types[i]).r) || (d == COST && need == Needs(types[i]).c) || (d == CONC && need == Needs(types[i]).k)
    ensures Load(types, x[i := frac], d) == Load(types, x, d) + Take(frac, need)
  {
    AdmitShare(types, x, i, frac, d);
    ShareUse(types[i], frac);
  }

  function Spend(used: Vec, frac: real, need: Vec): Vec {
    Vec(used.r + Take(frac, need.r), used.c + Take(frac, need.c), used.k + Take(frac, need.k))
  }

  lemma {:induction false} UsedAfter(types: seq<WorkloadType>, x: seq<real>, i: nat, frac: real, need: Vec)
    requires |x| == |types| && i < |types| && x[i] == 0.0 && need == Needs(types[i])
    ensures Used(types, x[i := frac]) == Spend(Used(types, x), frac, need)
  {
    LoadAfter(types, x, i, frac, RATE, need.r);
    LoadAfter(types, x, i, frac, COST, need.c);
    LoadAfter(types, x, i, frac, CONC, need.k);
  }

  lemma SpendMore(budget: Vec, used: Vec, rem: Vec, left: Vec, frac: real, need: Vec)
    requires used == Left(budget, rem) && left == RoomAfter(rem, frac, need)
    ensures Spend(used, frac, need) == Left(budget, left)
  {
  }

  lemma {:induction false} LeavesAfter(types: seq<WorkloadType>, budget: Vec, x: seq<real>, i: nat, frac: real, rem: Vec, left: Vec)
    requires Leaves(types, budget, x, rem) && i < |types| && x[i] == 0.0
    requires Shares(Needs(types[i]), rem, frac, left)
    ensures Leaves(types, budget, x[i := frac], left)
  {
    var need := Needs(types[i]);
    UsedAfter(types, x, i, frac, need);
    SpendMore(budget, Used(types, x), rem, left, frac, need);
    LeavesWith(types, budget, x, i, frac, left, Used(types, x[i := frac]));
  }

  lemma LeavesWith(types: seq<WorkloadType>, budget: Vec, x: seq<real>, i: nat, frac: real, left: Vec, used: Vec)
    requires Plan(types, x) && i < |types| && 0.0 <= frac <= 1.0 && left.NonNeg()
    requires used == Used(types, x[i := frac]) && used == Left(budget, left)
    ensures Leaves(types, budget, x[i := frac], left)
  {
  }

  /** A marginal type is fully admitted, or some budget it needs has nothing left. */
  ghost predicate Saturated(t: WorkloadType, y: real, rem: Vec) {
    y == 1.0 || (t.weight > 0.0 && rem.r == 0.0) || (t.weight * t.cost > 0.0 && rem.c == 0.0)
    || (t.weight * t.hold > 0.0 && rem.k == 0.0)
  }

  ghost predicate SharesUpTo(types: seq<WorkloadType>, m: seq<nat>, x: seq<real>, rem: Vec, k: nat)
    requires |x| == |types| && Within(m, |types|) && k <= |m|
  {
    forall a :: 0 <= a < k ==> Saturated(types[m[a]], x[m[a]], rem)
  }

  lemma {:induction false} SharesStep(types: seq<WorkloadType>, m: seq<nat>, x: seq<real>, rem: Vec, k: nat, frac: real, left: Vec)
    requires ValidTypes(types) && |x| == |types| && Within(m, |types|) && Distinct(m) && k < |m|
    requires SharesUpTo(types, m, x, rem, k) && rem.NonNeg()
    requires Shares(Needs(types[m[k]]), rem, frac, left)
    ensures SharesUpTo(types, m, x[m[k] := frac], left, k + 1)
  {
    var t := types[m[k]];
    PositiveNeed(t);
    HoldNeed(t);
    RoomShrinks(frac, t.weight, rem.r);
    RoomShrinks(frac, t.weight * t.cost, rem.c);
    RoomShrinks(frac, t.weight * t.hold, rem.k);
    forall a | 0 <= a < k + 1 ensures Saturated(types[m[a]], x[m[k] := frac][m[a]], left) {
      if a < k { assert Saturated(types[m[a]], x[m[a]], rem); }
    }
  }

  lemma RoomShrinks(frac: real, need: real, room: real)
    requires frac >= 0.0 && need >= 0.0
    ensures room - frac * need <= room
  {
  }

  /** The state of the greedy fill after its first k marginal types. */
  ghost predicate FilledUpTo(types: seq<WorkloadType>, budget: Vec, p: Vec, m: seq<nat>, x: seq<real>, rem: Vec, k: nat)
    requires Within(m, |types|) && k <= |m|
  {
    && Leaves(types, budget, x, rem) && Consistent(types, x, p) && SharesUpTo(types, m, x, rem, k)
    && (forall a :: k <= a < |m| ==> x[m[a]] == 0.0)
  }

  lemma {:induction false} FillStep(types: seq<WorkloadType>, budget: Vec, p: Vec, m: seq<nat>, x: seq<real>, rem: Vec, k: nat,
                                    frac: real, left: Vec)
    requires ValidTypes(types) && m == Marginals(types, p) && Distinct(m) && k < |m| && FilledUpTo(types, budget, p, m, x, rem, k)
    requires Shares(Needs(types[m[k]]), rem, frac, left)
    ensures FilledUpTo(types, budget, p, m, x[m[k] := frac], left, k + 1)
  {
    LeavesAfter(types, budget, x, m[k], frac, rem, left);
    SharesStep(types, m, x, rem, k, frac, left);
    assert m[k] in m;
    MarginalListed(types, p, m[k]);
  }

  /** Admits one marginal type into what is left and writes its fraction. */
  method AdmitInto(x: array<real>, k: nat, m: seq<nat>, types: seq<WorkloadType>, room: Vec, ghost budget: Vec, ghost p: Vec)
    returns (left: Vec)
    requires ValidTypes(types) && x.Length == |types| && m == Marginals(types, p) && Distinct(m) && k < |m|
    requires FilledUpTo(types, budget, p, m, x[..], room, k)
    modifies x
    ensures FilledUpTo(types, budget, p, m, x[..], left, k + 1)
    ensures var need := Needs(types[m[k]]);
      x[..] == old(x[..])[m[k] := ShareOf(need, room)] && left == RoomAfter(room, ShareOf(need, room), need)
  {
    var t := types[m[k]];
    ghost var before := x[..];
    var frac;
    NeedsNonNeg(t);
    frac, left := AdmitShareOf(Needs(t), room);
    FillStep(types, budget, p, m, before, room, k, frac, left);
    x[m[k]] := frac;
    assert x[..] == before[m[k] := frac];
  }

  /** The greedy fill of solveThreeBudget. */
  method FillThree(x: array<real>, m: seq<nat>, types: seq<WorkloadType>, room: Vec, ghost budget: Vec, ghost p: Vec) returns (ghost rem: Vec)
    requires ValidTypes(types) && x.Length == |types| && m == Marginals(types, p) && Distinct(m)
    requires FilledUpTo(types, budget, p, m, x[..], room, 0)
    modifies x
    ensures FilledUpTo(types, budget, p, m, x[..], rem, |m|) && Filling(x[..], rem) == FillInOrder(types, m, old(x[..]), room)
  {
    var left := room;
    for k := 0 to |m|
      invariant FilledUpTo(types, budget, p, m, x[..], left, k)
      invariant FillInOrder(types, m[k..], x[..], left) == FillInOrder(types, m, old(x[..]), room)
    {
      FillInOrderStep(types, m, k, x[..], left, Needs(types[m[k]]));
      left := AdmitInto(x, k, m, types, left, budget, p);
    }
    rem := left;
    assert m[|m|..] == [];
  }

  /** The plan is the list-order fill, its room is what the budgets have left, and it cannot be extended greedily. */
  ghost predicate FilledThree(types: seq<WorkloadType>, budget: Vec, p: Vec, x: seq<real>) {
    var f := ThreeFilling(types, budget, p);
    x == f.x && Leaves(types, budget, x, f.room) && (p != ZERO ==> SaturatesMarginals(types, budget, p, x))
  }

  /** Greedy maximality: a marginal type left short has exhausted a budget it needs. */
  ghost predicate SaturatesMarginals(types: seq<WorkloadType>, budget: Vec, p: Vec, x: seq<real>)
    requires |x| == |types|
  {
    forall i :: 0 <= i < |types| && Marginal(types[i], p) ==>
      Saturated(types[i], x[i], Left(budget, Used(types, x)))
  }

  lemma {:induction false} AllShared(types: seq<WorkloadType>, budget: Vec, p: Vec, x: seq<real>, rem: Vec)
    requires Leaves(types, budget, x, rem)
    requires var m := Marginals(types, p); SharesUpTo(types, m, x, rem, |m|)
    ensures SaturatesMarginals(types, budget, p, x)
  {
    MarginalExactly(types, p, |types|);
    var m := Marginals(types, p);
    forall i | 0 <= i < |types| && Marginal(types[i], p) ensures Saturated(types[i], x[i], rem) {
      assert i in m;
      var a :| 0 <= a < |m| && m[a] == i;
    }
  }

  lemma {:induction false} MarginalListed(types: seq<WorkloadType>, p: Vec, i: nat)
    requires i in Marginals(types, p)
    ensures Marginal(types[i], p)
  {
    MarginalExactly(types, p, |types|);
  }

  method EvalConc(types: seq<WorkloadType>, x: seq<real>) returns (used: real)
    requires |x| == |types|
    ensures used == Used(types, x).k
  {
    used := 0.0;
    ghost var terms := LoadTerms(types, x, CONC);
    for i := 0 to |types|
      invariant used == Sum(terms[..i])
    {
      used := used + x[i] * types[i].weight * types[i].hold;
      ConcTerm(types[i], x[i]);
      SumPrefix(terms, i);
    }
    assert terms[..|types|] == terms;
  }

  lemma ConcTerm(t: WorkloadType, y: real)
    ensures y * t.weight * t.hold == t.weight * y * Dot(t.Use(), CONC)
  {
  }

  lemma {:induction false} ForcedThree(types: seq<WorkloadType>, budget: Vec, p: Vec)
    requires ValidTypes(types) && DualOptimal(types, budget, p, false)
    ensures Consistent(types, Forced(types, p), p) && Used(types, Forced(types, p)).Below(budget)
  {
    ForcedIsPlan(types, p);
    ForcedFits(types, budget, p, Forced(types, p), false);
  }

  /** With no budget priced the marginal types stay out. */
  method FillPriced(x: array<real>, m: seq<nat>, types: seq<WorkloadType>, rem: Vec, ghost budget: Vec, p: Vec) returns (ghost left: Vec)
    requires ValidTypes(types) && DualOptimal(types, budget, p, false)
    requires x.Length == |types| && x[..] == Forced(types, p) && m == Marginals(types, p) && rem == ThreeRoom(types, budget, p)
    modifies x
    ensures AfterPricedFill(types, budget, p, x[..], left)
  {
    BeforeFill(types, budget, p);
    left := rem;
    if p.r > 0.0 || p.c > 0.0 || p.k > 0.0 {
      left := FillThree(x, m, types, rem, budget, p);
    }
  }

  ghost predicate AfterPricedFill(types: seq<WorkloadType>, budget: Vec, p: Vec, x: seq<real>, left: Vec) {
    && FilledUpTo(types, budget, p, Marginals(types, p), x, left, if p == ZERO then 0 else |Marginals(types, p)|)
    && Filling(x, left) == ThreeFilling(types, budget, p)
  }

  /** The plan of solveThreeBudget: forced types in, then the marginal types share whatever is left of all three budgets. */
  method RecoverThree(types: seq<WorkloadType>, budget: Vec, p: Vec) returns (fractions: seq<real>)
    requires ValidTypes(types) && DualOptimal(types, budget, p, false)
    ensures Consistent(types, fractions, p) && Feasible(types, budget, fractions) && FilledThree(types, budget, p, fractions)
  {
    var x, marginal, forcedRate, forcedCost := Classify(types, p);
    var forcedConc := EvalConc(types, x[..]);
    var rem := Vec(budget.r - forcedRate, budget.c - forcedCost, budget.k - forcedConc);
    ghost var left := FillPriced(x, marginal, types, rem, budget, p);
    fractions := x[..];
    AfterFill(types, budget, p, fractions, left);
  }

  lemma {:induction false} BeforeFill(types: seq<WorkloadType>, budget: Vec, p: Vec)
    requires ValidTypes(types) && DualOptimal(types, budget, p, false)
    ensures Distinct(Marginals(types, p))
    ensures FilledUpTo(types, budget, p, Marginals(types, p), Forced(types, p), ThreeRoom(types, budget, p), 0)
  {
    ForcedThree(types, budget, p);
    ForcedZeroOnMarginals(types, p);
  }

  lemma {:induction false} AfterFill(types: seq<WorkloadType>, budget: Vec, p: Vec, x: seq<real>, left: Vec)
    requires AfterPricedFill(types, budget, p, x, left)
    ensures Consistent(types, x, p) && Feasible(types, budget, x) && FilledThree(types, budget, p, x)
  {
    if p != ZERO { AllShared(types, budget, p, x, left); }
  }

  /** solveThreeBudget: optimal prices, a plan within all three budgets, and the dual optimum. */
  method SolveThreeBudget(types: seq<WorkloadType>, budget: Vec) returns (p: Vec, fractions: seq<real>, objective: real)
    requires ValidTypes(types) && budget.NonNeg()
    ensures DualOptimal(types, budget, p, false) && SelectedTriple(types, budget, p)
    ensures Consistent(types, fractions, p) && Feasible(types, budget, fractions) && FilledThree(types, budget, p, fractions)
    ensures objective == Dual(types, budget, p)
  {
    p, objective := ThreeBudgetPrices(types, budget);
    fractions := RecoverThree(types, budget, p);
  }

  // ---------------------------------------------------------------- solveFluidLp

  datatype TypeSpec = TypeSpec(cost: real, value: real, weight: real, hold: Option<real>)

  datatype Input = Input(types: seq<TypeSpec>, rateBudget: real, costBudget: real, concBudget: Option<real>)

  /** Finite numbers are built in: every real is one. */
  datatype InputError = NoTypes | BadCost(i: nat) | BadValue(i: nat) | BadWeight(i: nat) | BadRateBudget | BadCostBudget
    | HalfConcurrency | BadConcBudget | BadHold(i: nat)

  datatype Duals = Duals(rate: real, cost: real, conc: Option<real>)

  datatype Solution = Solution(duals: Duals, admitFractions: seq<real>, objective: real)

  predicate TypeOk(t: TypeSpec) { t.cost >= 0.0 && t.value >= 0.0 && t.weight >= 0.0 }

  function AnyHold(types: seq<TypeSpec>): bool {
    exists i :: 0 <= i < |types| && types[i].hold.Some?
  }

  /** What validate accepts. */
  predicate Accepted(input: Input) {
    && input.types != [] && (forall i :: 0 <= i < |input.types| ==> TypeOk(input.types[i]))
    && input.rateBudget > 0.0 && input.costBudget > 0.0
    && input.concBudget.Some? == AnyHold(input.types)
    && (input.concBudget.Some? ==> input.concBudget.value > 0.0)
    && (input.concBudget.Some? ==>
          forall i :: 0 <= i < |input.types| ==> input.types[i].hold.Some? && input.types[i].hold.value >= 0.0)
  }

  /** The field an error names is at fault. */
  predicate AtFault(error: InputError, input: Input) {
    match error
    case NoTypes => input.types == []
    case BadCost(i) => i < |input.types| && input.types[i].cost < 0.0
    case BadValue(i) => i < |input.types| && input.types[i].value < 0.0
    case BadWeight(i) => i < |input.types| && input.types[i].weight < 0.0
    case BadRateBudget => input.rateBudget <= 0.0
    case BadCostBudget => input.costBudget <= 0.0
    case HalfConcurrency => input.concBudget.Some? != exists i :: 0 <= i < |input.types| && input.types[i].hold.Some?
    case BadConcBudget => input.concBudget.Some? && input.concBudget.value <= 0.0
    case BadHold(i) => i < |input.types| && (input.types[i].hold.None? || input.types[i].hold.value < 0.0)
  }

  method Validate(input: Input) returns (error: Option<InputError>)
    ensures error.None? <==> Accepted(input)
    ensures error.Some? ==> AtFault(error.value, input)
  {
    if |input.types| == 0 { return Some(NoTypes); }
    for i := 0 to |input.types|
      invariant forall k :: 0 <= k < i ==> TypeOk(input.types[k])
    {
      var t := input.types[i];
      if t.cost < 0.0 { return Some(BadCost(i)); }
      if t.value < 0.0 { return Some(BadValue(i)); }
      if t.weight < 0.0 { return Some(BadWeight(i)); }
    }
    if input.rateBudget <= 0.0 { return Some(BadRateBudget); }
    if input.costBudget <= 0.0 { return Some(BadCostBudget); }
    if input.concBudget.Some? != AnyHold(input.types) { return Some(HalfConcurrency); }
    if input.concBudget.Some? {
      if input.concBudget.value <= 0.0 { return Some(BadConcBudget); }
      for i := 0 to |input.types|
        invariant forall k :: 0 <= k < i ==> input.types[k].hold.Some? && input.types[k].hold.value >= 0.0
      {
        if input.types[i].hold.None? || input.types[i].hold.value < 0.0 { return Some(BadHold(i)); }
      }
    }
    return None;
  }

  function Workload(types: seq<TypeSpec>): (ts: seq<WorkloadType>)
    ensures |ts| == |types|
    ensures forall i :: 0 <= i < |ts| ==>
      ts[i] == WorkloadType(types[i].cost, types[i].value, types[i].weight, types[i].hold.GetOr(0.0))
  {
    seq(|types|, i requires 0 <= i < |types| =>
      WorkloadType(types[i].cost, types[i].value, types[i].weight, types[i].hold.GetOr(0.0)))
  }

  function BudgetOf(input: Input): Vec {
    Vec(input.rateBudget, input.costBudget, input.concBudget.GetOr(0.0))
  }

  function PricesOf(d: Duals): Vec { Vec(d.rate, d.cost, d.conc.GetOr(0.0)) }

  /** What a two-budget answer promises. */
  ghost predicate TwoBudgetAnswer(types: seq<WorkloadType>, budget: Vec, s: Solution) {
    s.duals.conc.None? && SolvedTwo(types, budget, PricesOf(s.duals), s.admitFractions, s.objective)
  }

  /** What a three-budget answer promises. */
  ghost predicate ThreeBudgetAnswer(types: seq<WorkloadType>, budget: Vec, s: Solution) {
    var p := PricesOf(s.duals);
    && s.duals.conc.Some? && DualOptimal(types, budget, p, false) && SelectedTriple(types, budget, p)
    && Consistent(types, s.admitFractions, p) && Feasible(types, budget, s.admitFractions)
    && FilledThree(types, budget, p, s.admitFractions)
    && s.objective == Dual(types, budget, p)
  }

  method AnswerTwo(types: seq<WorkloadType>, budget: Vec) returns (s: Solution)
    requires ValidTypes(types) && (forall i :: 0 <= i < |types| ==> types[i].hold == 0.0)
    requires budget.r > 0.0 && budget.c > 0.0 && budget.k == 0.0
    ensures TwoBudgetAnswer(types, budget, s)
  {
    var p, fractions, objective := SolveTwoBudget(types, budget);
    s := Solution(Duals(p.r, p.c, None), fractions, objective);
    assert PricesOf(s.duals) == p by { assert p == Vec(p.r, p.c, 0.0); }
  }

  method AnswerThree(types: seq<WorkloadType>, budget: Vec) returns (s: Solution)
    requires ValidTypes(types) && budget.NonNeg()
    ensures ThreeBudgetAnswer(types, budget, s)
  {
    var p, fractions, objective := SolveThreeBudget(types, budget);
    s := Solution(Duals(p.r, p.c, Some(p.k)), fractions, objective);
    assert PricesOf(s.duals) == p;
  }

  // ---------------------------------------------------------------- the answer in the input's own terms

  /** What admitting a type earns above the prices of the budgets it uses, if that is positive. */
  function SurplusOf(t: TypeSpec, rate: real, cost: real, conc: real): real {
    t.weight * PosPart(t.value - rate - cost * t.cost - conc * t.hold.GetOr(0.0))
  }

  function Surpluses(types: seq<TypeSpec>, rate: real, cost: real, conc: real): (s: seq<real>)
    ensures |s| == |types| && forall i :: 0 <= i < |s| ==> s[i] == SurplusOf(types[i], rate, cost, conc)
  {
    seq(|types|, i requires 0 <= i < |types| => SurplusOf(types[i], rate, cost, conc))
  }

  lemma SurplusIs(t: TypeSpec, u: WorkloadType, p: Vec)
    requires u == WorkloadType(t.cost, t.value, t.weight, t.hold.GetOr(0.0))
    ensures SurplusOf(t, p.r, p.c, p.k) == u.weight * PosPart(Reduced(u, p))
  {
  }

  /** The dual of an input at prices for its rate, cost and concurrency budgets. */
  function InputDual(input: Input, rate: real, cost: real, conc: real): real {
    input.rateBudget * rate + input.costBudget * cost + input.concBudget.GetOr(0.0) * conc + Sum(Surpluses(input.types, rate, cost, conc))
  }

  lemma {:induction false} InputDualIs(input: Input, p: Vec)
    ensures InputDual(input, p.r, p.c, p.k) == Dual(Workload(input.types), BudgetOf(input), p)
  {
    var types, s := Workload(input.types), Surpluses(input.types, p.r, p.c, p.k);
    forall i | 0 <= i < |s| ensures s[i] == Surplus(types, p)[i] { SurplusIs(input.types[i], types[i], p); }
    assert s == Surplus(types, p);
    DotOf(input.rateBudget, input.costBudget, input.concBudget.GetOr(0.0), BudgetOf(input), p);
  }

  lemma DotOf(r: real, c: real, k: real, budget: Vec, p: Vec)
    requires budget == Vec(r, c, k)
    ensures Dot(budget, p) == r * p.r + c * p.c + k * p.k
  {
  }

  /** Prices of at least 0, one for each budget there is, and no others give a smaller dual. */
  ghost predicate PricesMinimise(input: Input, d: Duals) {
    && d.rate >= 0.0 && d.cost >= 0.0 && d.conc.GetOr(0.0) >= 0.0 && d.conc.Some? == input.concBudget.Some?
    && forall rate, cost, conc :: rate >= 0.0 && cost >= 0.0 && conc >= 0.0 && (input.concBudget.None? ==> conc == 0.0) ==>
      InputDual(input, d.rate, d.cost, d.conc.GetOr(0.0)) <= InputDual(input, rate, cost, conc)
  }

  lemma PricesAre(d: Duals, p: Vec)
    requires p == PricesOf(d)
    ensures p.r == d.rate && p.c == d.cost && p.k == d.conc.GetOr(0.0)
  {
  }

  lemma {:induction false} OptimalMinimises(input: Input, d: Duals)
    requires d.conc.Some? == input.concBudget.Some?
    requires DualOptimal(Workload(input.types), BudgetOf(input), PricesOf(d), input.concBudget.None?)
    ensures PricesMinimise(input, d)
  {
    PricesAre(d, PricesOf(d));
    InputDualIs(input, PricesOf(d));
    forall rate, cost, conc | rate >= 0.0 && cost >= 0.0 && conc >= 0.0 && (input.concBudget.None? ==> conc == 0.0)
      ensures InputDual(input, d.rate, d.cost, d.conc.GetOr(0.0)) <= InputDual(input, rate, cost, conc)
    {
      InputDualIs(input, Vec(rate, cost, conc));
      assert Vec(rate, cost, conc).NonNeg();
    }
  }

  /**
   * The public solver. Its prices minimise the dual over all of p >= 0; the reported objective is the plan's own
   * in two-budget mode and the dual optimum in three-budget mode.
   */
  method SolveFluidLp(input: Input) returns (r: Result<Solution, InputError>)
    ensures r.Ok? <==> Accepted(input)
    ensures r.Ok? && input.concBudget.None? ==> TwoBudgetAnswer(Workload(input.types), BudgetOf(input), r.value)
    ensures r.Ok? && input.concBudget.Some? ==> ThreeBudgetAnswer(Workload(input.types), BudgetOf(input), r.value)
    ensures r.Ok? ==> PricesMinimise(input, r.value.duals)
    ensures r.Err? ==> AtFault(r.error, input)
  {
    var error := Validate(input);
    if error.Some? { return Err(error.value); }
    var types, budget := Workload(input.types), BudgetOf(input);
    var s;
    if input.concBudget.Some? {
      s := AnswerThree(types, budget);
    } else {
      s := AnswerTwo(types, budget);
    }
    OptimalMinimises(input, s.duals);
    return Ok(s);
  }
}
