/** The primal plan of the two-budget solver, filled in place by fillMarginal and fillBothTight. */
module FluidLpPlan {
  import opened Numbers
  import opened Wrappers
  import opened FluidLp
  import opened FluidLpOptimality
  import opened FluidLpFill
  import opened FluidLpRecovery
  import opened FluidLpSingle
  import opened FluidLpPair
  import opened FluidLpBoth
  import opened FluidLpSolver
  import opened Greedy
  import opened Sorting

  /** Forced types are admitted, marginal types are listed, the rest stay out. */
  method Classify(types: seq<WorkloadType>, p: Vec) returns (x: array<real>, marginal: seq<nat>, forcedRate: real, forcedCost: real)
    ensures fresh(x) && x[..] == Forced(types, p) && marginal == Marginals(types, p)
    ensures forcedRate == Used(types, Forced(types, p)).r && forcedCost == Used(types, Forced(types, p)).c
  {
    x := new real[|types|](_ => 0.0);
    marginal, forcedRate, forcedCost := [], 0.0, 0.0;
    ghost var forced := Forced(types, p);
    ghost var rates, costs := Products(RateNeed(types), forced), Products(CostNeed(types), forced);
    for i := 0 to |types|
      invariant x.Length == |types| && fresh(x)
      invariant x[..i] == forced[..i] && forall k :: i <= k < |types| ==> x[k] == 0.0
      invariant marginal == MarginalUpTo(types, p, i)
      invariant forcedRate == Sum(rates[..i]) && forcedCost == Sum(costs[..i])
    {
      ForcedStep(types, p, i, forced[i], rates, costs);
      var reduced, need := Reduced(types[i], p), types[i].weight * types[i].cost;
      if reduced > 0.0 {
        x[i] := 1.0;
        forcedRate := forcedRate + types[i].weight;
        forcedCost := forcedCost + need;
      } else if reduced >= 0.0 {
        marginal := marginal + [i];
      }
      assert x[..i + 1] == x[..i] + [x[i]] && forced[..i + 1] == forced[..i] + [forced[i]];
    }
    assert x[..] == x[..|types|] && forced == forced[..|types|];
    assert rates[..|types|] == rates && costs[..|types|] == costs;
    SpentIsRate(types, forced);
    SpentIsCost(types, forced);
  }

  lemma {:induction false} ForcedStep(types: seq<WorkloadType>, p: Vec, i: nat, y: real, rates: seq<real>, costs: seq<real>)
    requires i < |types| && y == Forced(types, p)[i]
    requires rates == Products(RateNeed(types), Forced(types, p)) && costs == Products(CostNeed(types), Forced(types, p))
    ensures Sum(rates[..i + 1]) == Sum(rates[..i]) + (if y == 1.0 then types[i].weight else 0.0)
    ensures Sum(costs[..i + 1]) == Sum(costs[..i]) + (if y == 1.0 then CostNeed(types)[i] else 0.0)
  {
    SumPrefix(rates, i);
    SumPrefix(costs, i);
  }

  /** fillMarginal with only rate priced: cheapest types first until the rate room is spent. */
  method FillRate(x: array<real>, order: seq<nat>, w: seq<real>, remR: real)
    requires x.Length == |w| && Within(order, |w|)
    modifies x
    ensures x[..] == Filled(w, old(x[..]), order, remR, 0.0, 1.0)
  {
    var r := 0.0;
    for k := 0 to |order|
      invariant Filled(w, x[..], order[k..], remR, r, 1.0) == Filled(w, old(x[..]), order, remR, 0.0, 1.0)
    {
      var i, need := order[k], w[order[k]];
      ghost var before := x[..];
      FilledStep(w, before, order[k..], remR, r, 1.0);
      assert order[k..][1..] == order[k + 1..];
      if need <= 0.0 {
        x[i] := 1.0;
        assert x[..] == before[i := 1.0];
        continue;
      }
      if r + need <= remR {
        x[i] := 1.0;
        r := r + need;
        assert x[..] == before[i := 1.0];
      } else {
        x[i] := Max(0.0, Min(1.0, (remR - r) / need));
        r := remR;
        assert x[..] == before[i := x[i]];
      }
    }
    assert order[|order|..] == [];
  }

  /** fillMarginal with only cost priced: dearest types first until the cost room is spent; cost-free types are skipped. */
  method FillCost(x: array<real>, order: seq<nat>, need: seq<real>, remC: real)
    requires x.Length == |need| && Within(order, |need|) && Distinct(order) && forall k :: 0 <= k < |order| ==> x[order[k]] == 0.0
    modifies x
    ensures x[..] == Filled(need, old(x[..]), order, remC, 0.0, 0.0)
  {
    var spent := 0.0;
    for k := 0 to |order|
      invariant Filled(need, x[..], order[k..], remC, spent, 0.0) == Filled(need, old(x[..]), order, remC, 0.0, 0.0)
      invariant forall a :: k <= a < |order| ==> x[order[a]] == 0.0
    {
      var i, n := order[k], need[order[k]];
      ghost var before := x[..];
      FilledStep(need, before, order[k..], remC, spent, 0.0);
      assert order[k..][1..] == order[k + 1..];
      if n <= 0.0 {
        assert before == before[i := 0.0];
        continue;
      }
      if spent + n <= remC {
        x[i] := 1.0;
        spent := spent + n;
        assert x[..] == before[i := 1.0];
      } else {
        x[i] := Max(0.0, Min(1.0, (remC - spent) / n));
        spent := remC;
        assert x[..] == before[i := x[i]];
      }
    }
    assert order[|order|..] == [];
  }

  // ---------------------------------------------------------------- both budgets tight

  ghost predicate PairFits(g: Room, m: seq<nat>, ai: nat, bi: nat, mask: nat, xa: real, xb: real)
    requires ai < bi < |m| && Within(m, |g.rate|) && |g.cost| == |g.rate|
  {
    NonSingular(g, m, ai, bi) && 0.0 <= xa <= 1.0 && 0.0 <= xb <= 1.0
    && Row(g.rate, m, ai, bi, mask, xa, xb, g.r) && Row(g.cost, m, ai, bi, mask, xa, xb, g.c)
  }

  /** One trial of fillBothTight: the 2x2 solution of one pair and mask, if it lies in the unit box. */
  method TryPair(g: Room, m: seq<nat>, ai: nat, bi: nat, mask: nat) returns (s: Option<(real, real)>)
    requires ai < bi < |m| && Within(m, |g.rate|) && |g.cost| == |g.rate| && NonSingular(g, m, ai, bi)
    ensures forall xa, xb :: PairFits(g, m, ai, bi, mask, xa, xb) <==> s == Some((xa, xb))
  {
    var others := Others(m, ai, bi);
    var fr, fc := 0.0, 0.0;
    for oi := 0 to |others|
      invariant fr == Taken(g.rate, others, mask, oi) && fc == Taken(g.cost, others, mask, oi)
    {
      if Bit(mask, oi) == 1 {
        fr := fr + g.rate[others[oi]];
        fc := fc + g.cost[others[oi]];
      }
    }
    var a, b := m[ai], m[bi];
    var b1, b2 := g.r - fr, g.c - fc;
    var sol := SolvePair(g.rate[a], g.rate[b], g.cost[a], g.cost[b], b1, b2);
    var (xa, xb) := sol.value;
    s := if 0.0 <= xa <= 1.0 && 0.0 <= xb <= 1.0 then Some((xa, xb)) else None;
    PairSolves(g.rate[a], g.rate[b], g.cost[a], g.cost[b], b1, b2);
    forall ya, yb ensures PairFits(g, m, ai, bi, mask, ya, yb) <==> s == Some((ya, yb)) {
      if PairFits(g, m, ai, bi, mask, ya, yb) {
        PairUnique(g.rate[a], g.rate[b], g.cost[a], g.cost[b], b1, b2, ya, yb);
      }
    }
  }

  /** Writes the pair and the 0/1 pattern. */
  method WritePair(x: array<real>, m: seq<nat>, ai: nat, bi: nat, mask: nat, xa: real, xb: real)
    requires Within(m, x.Length) && Distinct(m) && ai < bi < |m| && 0.0 <= xa <= 1.0 && 0.0 <= xb <= 1.0
    modifies x
    ensures x[..] == PairPlan(old(x[..]), m, ai, bi, mask, xa, xb)
  {
    var others, a, b := Others(m, ai, bi), m[ai], m[bi];
    ghost var x0 := x[..];
    OthersExactly(m, ai, bi);
    x[a] := Max(0.0, Min(1.0, xa));
    x[b] := Max(0.0, Min(1.0, xb));
    for oi := 0 to |others|
      invariant x[..] == Toggled(x0, others, mask, oi)[a := xa][b := xb]
    {
      assert others[oi] in others;
      x[others[oi]] := if Bit(mask, oi) == 1 then 1.0 else 0.0;
    }
  }

  ghost predicate NoneBefore(g: Room, m: seq<nat>, i: nat, j: nat, k: nat)
    requires Within(m, |g.rate|) && |g.cost| == |g.rate|
  {
    forall ai: nat, bi: nat, mask: nat, xa: real, xb: real ::
      ai < bi < |m| && mask < Combos(m) && Before(ai, bi, mask, i, j, k) ==> !PairFits(g, m, ai, bi, mask, xa, xb)
  }

  /** The pair and mask are the first that fit, and x is what they give. */
  ghost predicate FindsFirst(g: Room, x: seq<real>, m: seq<nat>, ai: nat, bi: nat, mask: nat, xa: real, xb: real, z: seq<real>)
    requires Within(m, |g.rate|) && |g.cost| == |g.rate|
  {
    FindsAt(g, x, m, ai, bi, mask, xa, xb, z) && NoneBefore(g, m, ai, bi, mask)
  }

  ghost predicate FoundFirst(g: Room, x: seq<real>, m: seq<nat>, z: seq<real>)
    requires Within(m, |g.rate|) && |g.cost| == |g.rate|
  {
    exists ai: nat, bi: nat, mask: nat, xa: real, xb: real :: FindsFirst(g, x, m, ai, bi, mask, xa, xb, z)
  }

  lemma FirstIsFound(g: Room, x: seq<real>, m: seq<nat>, z: seq<real>)
    requires Within(m, |g.rate|) && |g.cost| == |g.rate| && FoundFirst(g, x, m, z)
    ensures FoundBy(g, x, m, z)
  {
    var ai: nat, bi: nat, mask: nat, xa: real, xb: real :| FindsFirst(g, x, m, ai, bi, mask, xa, xb, z);
    assert FindsAt(g, x, m, ai, bi, mask, xa, xb, z);
  }

  function Ones(x: seq<real>, m: seq<nat>, n: nat): (z: seq<real>)
    requires n <= |m| && Within(m, |x|)
    ensures |z| == |x|
  {
    if n == 0 then x else Ones(x, m, n - 1)[m[n - 1] := 1.0]
  }

  /** fillBothTight: the first pair and mask that fit, else every marginal type fully. */
  method FillBothTight(x: array<real>, m: seq<nat>, g: Room) returns (ghost hit: bool)
    requires x.Length == |g.rate| == |g.cost| && Within(m, |g.rate|) && Distinct(m)
    modifies x
    ensures hit ==> FoundFirst(g, old(x[..]), m, x[..])
    ensures !hit ==> x[..] == Ones(old(x[..]), m, |m|) && NoneBefore(g, m, |m|, 0, 0)
  {
    ghost var x0 := x[..];
    for ai := 0 to |m|
      invariant x[..] == x0 && NoneBefore(g, m, ai, 0, 0)
    {
      for bi := ai + 1 to |m|
        invariant x[..] == x0 && NoneBefore(g, m, ai, bi, 0)
      {
        var a, b := m[ai], m[bi];
        if g.rate[a] * g.cost[b] - g.rate[b] * g.cost[a] == 0.0 {
          SkipPair(g, m, ai, bi);
          continue;
        }
        for mask := 0 to Combos(m)
          invariant x[..] == x0 && NoneBefore(g, m, ai, bi, mask)
        {
          var s := TryPair(g, m, ai, bi, mask);
          if s.Some? {
            var (xa, xb) := s.value;
            assert PairFits(g, m, ai, bi, mask, xa, xb);
            WritePair(x, m, ai, bi, mask, xa, xb);
            hit := true;
            assert FindsFirst(g, x0, m, ai, bi, mask, xa, xb, x[..]);
            return;
          }
        }
      }
    }
    hit := false;
    for k := 0 to |m|
      invariant x[..] == Ones(x0, m, k)
    {
      x[m[k]] := 1.0;
    }
  }

  lemma {:induction false} SkipPair(g: Room, m: seq<nat>, ai: nat, bi: nat)
    requires Within(m, |g.rate|) && |g.cost| == |g.rate| && ai < bi < |m| && !NonSingular(g, m, ai, bi)
    requires NoneBefore(g, m, ai, bi, 0)
    ensures NoneBefore(g, m, ai, bi + 1, 0)
  {
  }

  // ---------------------------------------------------------------- the two-budget solver

  /** Which branch of fillMarginal runs. */
  datatype Branch = Untouched | RateOnly | CostOnly | Both

  function BranchOf(marginals: seq<nat>, p: Vec): Branch {
    if marginals == [] || (p.r == 0.0 && p.c == 0.0) then Untouched
    else if p.c == 0.0 then RateOnly
    else if p.r == 0.0 then CostOnly
    else Both
  }

  /** What fillMarginal leaves in x, over the forced plan at prices p. */
  ghost predicate Recovered(types: seq<WorkloadType>, budget: Vec, p: Vec, x: seq<real>, hit: bool) {
    match BranchOf(Marginals(types, p), p)
    case Untouched => x == Forced(types, p)
    case RateOnly => x == RateFill(types, budget, p, true)
    case CostOnly => x == CostFill(types, budget, p)
    case Both => BothRecovered(types, budget, p, x, hit)
  }

  ghost predicate BothRecovered(types: seq<WorkloadType>, budget: Vec, p: Vec, x: seq<real>, hit: bool) {
    var m := Marginals(types, p);
    if hit then Finds(types, budget, p, x)
    else x == Ones(Forced(types, p), m, |m|) && NoneBefore(RoomFor(types, budget, p), m, |m|, 0, 0)
  }

  /** fillMarginal with one tight budget. */
  method FillSingle(x: array<real>, m: seq<nat>, types: seq<WorkloadType>, room: real, rateTight: bool, ghost budget: Vec, ghost p: Vec)
    requires x.Length == |types| && x[..] == Forced(types, p) && m == Marginals(types, p)
    requires room == if rateTight then RateRoom(types, budget, p) else CostRoom(types, budget, p)
    modifies x
    ensures x[..] == if rateTight then RateFill(types, budget, p, true) else CostFill(types, budget, p)
  {
    if rateTight {
      FillRate(x, SortBy(m, Costs(types)), RateNeed(types), room);
    } else {
      var order := SortBy(m, NegatedCosts(types));
      SortedMarginals(types, p, NegatedCosts(types));
      ForcedZeroOnMarginals(types, p);
      forall k | 0 <= k < |order| ensures x[order[k]] == 0.0 { assert order[k] in order; }
      FillCost(x, order, CostNeed(types), room);
    }
  }

  method FillBoth(x: array<real>, m: seq<nat>, types: seq<WorkloadType>, remR: real, remC: real, ghost budget: Vec, ghost p: Vec)
    returns (ghost hit: bool)
    requires x.Length == |types| && x[..] == Forced(types, p) && m == Marginals(types, p)
    requires remR == RateRoom(types, budget, p) && remC == CostRoom(types, budget, p)
    modifies x
    ensures BothRecovered(types, budget, p, x[..], hit)
  {
    ForcedZeroOnMarginals(types, p);
    hit := FillBothTight(x, m, Room(RateNeed(types), CostNeed(types), remR, remC));
    if hit { FirstIsFound(RoomFor(types, budget, p), Forced(types, p), m, x[..]); }
  }

  /** fillMarginal: dispatch on which budgets are tight. */
  method FillMarginal(x: array<real>, m: seq<nat>, types: seq<WorkloadType>, remR: real, remC: real,
                      rateTight: bool, costTight: bool, ghost budget: Vec, ghost p: Vec) returns (ghost hit: bool)
    requires x.Length == |types| && x[..] == Forced(types, p) && m == Marginals(types, p)
    requires remR == RateRoom(types, budget, p) && remC == CostRoom(types, budget, p)
    requires p.NonNeg() && rateTight == (p.r > 0.0) && costTight == (p.c > 0.0)
    modifies x
    ensures Recovered(types, budget, p, x[..], hit)
  {
    hit := false;
    if |m| == 0 { return; }
    if !rateTight && !costTight { return; }
    if rateTight && !costTight {
      FillSingle(x, m, types, remR, true, budget, p);
      return;
    }
    if costTight && !rateTight {
      FillSingle(x, m, types, remC, false, budget, p);
      return;
    }
    hit := FillBoth(x, m, types, remR, remC, budget, p);
  }

  /** When the recovered plan is certified: always, unless both budgets are priced and no marginal pair is usable. */
  ghost predicate PairAvailable(types: seq<WorkloadType>, p: Vec) {
    p.r == 0.0 || p.c == 0.0 || (|Marginals(types, p)| <= 12 && DistinctPair(types, p))
  }

  lemma {:induction false} RecoveredIsCertified(types: seq<WorkloadType>, budget: Vec, p: Vec, x: seq<real>, hit: bool)
    requires Priced(types, budget, p) && Recovered(types, budget, p, x, hit)
    requires PairAvailable(types, p) || hit || Marginals(types, p) == []
    ensures Certified(types, budget, p, x)
  {
    var m := Marginals(types, p);
    if m == [] {
      NoMarginals(types, budget, p);
    } else if p.r == 0.0 && p.c == 0.0 {
      NeitherTight(types, budget, p);
    } else if p.c == 0.0 {
      RateTight(types, budget, p);
    } else if p.r == 0.0 {
      CostTight(types, budget, p);
    } else {
      if !hit { MissImpossible(types, budget, p); }
      FoundIsCertified(types, budget, p, x);
    }
  }

  lemma {:induction false} MissImpossible(types: seq<WorkloadType>, budget: Vec, p: Vec)
    requires Priced(types, budget, p) && p.r > 0.0 && p.c > 0.0
    requires |Marginals(types, p)| <= 12 && DistinctPair(types, p)
    ensures !NoneBefore(RoomFor(types, budget, p), Marginals(types, p), |Marginals(types, p)|, 0, 0)
  {
    var g, m := RoomFor(types, budget, p), Marginals(types, p);
    var z := EnumerationSucceeds(types, budget, p);
    var ai: nat, bi: nat, mask: nat, xa: real, xb: real :| FindsAt(g, Forced(types, p), m, ai, bi, mask, xa, xb, z);
    assert PairFits(g, m, ai, bi, mask, xa, xb);
    assert Before(ai, bi, mask, |m|, 0, 0);
  }

  lemma {:induction false} NoMarginals(types: seq<WorkloadType>, budget: Vec, p: Vec)
    requires Priced(types, budget, p) && Marginals(types, p) == []
    ensures Certified(types, budget, p, Forced(types, p))
  {
    var x := Forced(types, p);
    ForcedWithin(types, budget, p);
    MarginalExactly(types, p, |types|);
    forall i | 0 <= i < |types| ensures !Marginal(types[i], p) { assert i !in Marginals(types, p); }
    if p.r > 0.0 { AllMarginalSpendsRate(types, budget, p, x, true); }
    if p.c > 0.0 { AllMarginalSpendsCost(types, budget, p, x, true); }
    CertifiedBy(types, budget, p, x);
  }

  lemma {:induction false} OnesAreConsistent(types: seq<WorkloadType>, p: Vec, n: nat)
    requires n <= |Marginals(types, p)|
    ensures Consistent(types, Ones(Forced(types, p), Marginals(types, p), n), p)
  {
    if n > 0 {
      OnesAreConsistent(types, p, n - 1);
      MarginalExactly(types, p, |types|);
      assert Marginals(types, p)[n - 1] in Marginals(types, p);
    }
  }

  /** Every exit leaves a plan that admits what is priced in and rejects what is priced out. */
  lemma {:induction false} RecoveredIsConsistent(types: seq<WorkloadType>, budget: Vec, p: Vec, x: seq<real>, hit: bool)
    requires Priced(types, budget, p) && Recovered(types, budget, p, x, hit)
    ensures Consistent(types, x, p)
  {
    var m := Marginals(types, p);
    if BranchOf(m, p).Untouched? {
      ForcedIsPlan(types, p);
    } else if p.c == 0.0 {
      RateFillHits(types, budget, p, true);
    } else if p.r == 0.0 {
      CostFillHits(types, budget, p);
    } else if hit {
      FoundFacts(types, budget, p, x);
    } else {
      OnesAreConsistent(types, p, |m|);
    }
  }

  method EvalObjective(types: seq<WorkloadType>, x: seq<real>) returns (objective: real)
    requires |x| == |types|
    ensures objective == Objective(types, x)
  {
    objective := 0.0;
    ghost var terms := Earned(types, x);
    for i := 0 to |types|
      invariant objective == Sum(terms[..i])
    {
      objective := objective + types[i].weight * types[i].value * x[i];
      SumPrefix(terms, i);
    }
    assert terms[..|types|] == terms;
  }

  /** The primal plan at optimal prices. */
  method RecoverPlan(types: seq<WorkloadType>, budget: Vec, p: Vec) returns (fractions: seq<real>, ghost hit: bool)
    requires Priced(types, budget, p)
    ensures Recovered(types, budget, p, fractions, hit)
  {
    var x, marginal, forcedRate, forcedCost := Classify(types, p);
    ForcedWithin(types, budget, p);
    hit := FillMarginal(x, marginal, types, Max(0.0, budget.r - forcedRate), Max(0.0, budget.c - forcedCost),
                        p.r > 0.0, p.c > 0.0, budget, p);
    fractions := x[..];
  }

  /** What the two-budget solver returns: optimal, most selective prices and the recovered plan with its objective. */
  ghost predicate SolvedTwo(types: seq<WorkloadType>, budget: Vec, p: Vec, x: seq<real>, objective: real) {
    && Priced(types, budget, p) && Selected(types, budget, p)
    && (exists hit :: Recovered(types, budget, p, x, hit))
    && Consistent(types, x, p) && objective == Objective(types, x)
    && (PairAvailable(types, p) ==> Certified(types, budget, p, x))
  }

  /** solveFluidLp in two-budget mode. */
  method SolveTwoBudget(types: seq<WorkloadType>, budget: Vec) returns (p: Vec, fractions: seq<real>, objective: real)
    requires ValidTypes(types) && (forall i :: 0 <= i < |types| ==> types[i].hold == 0.0)
    requires budget.r > 0.0 && budget.c > 0.0 && budget.k == 0.0
    ensures SolvedTwo(types, budget, p, fractions, objective)
  {
    var minD;
    ghost var hit;
    p, minD := TwoBudgetPrices(types, budget);
    fractions, hit := RecoverPlan(types, budget, p);
    RecoveredIsConsistent(types, budget, p, fractions, hit);
    if PairAvailable(types, p) { RecoveredIsCertified(types, budget, p, fractions, hit); }
    objective := EvalObjective(types, fractions);
  }
}
