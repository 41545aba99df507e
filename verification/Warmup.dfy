/** Online refinement of the bid prices: learned duals replace the prior only if they earn strictly more on the sample. */
module Warmup {
  import opened Numbers
  import opened Wrappers
  import opened FluidLp
  import opened FluidLpOptimality
  import FluidLpSolve

  const MAX_OBSERVED_TYPES: nat := 64

  datatype Arrival = Arrival(cost: real, value: real)

  datatype Bids = Bids(rate: real, cost: real)

  datatype Bucket = Bucket(arrival: Arrival, count: nat)

  // ---------------------------------------------------------------- the replay

  /** The budgets left and the revenue so far of a replay. */
  datatype Replay = Replay(rate: real, cost: real, revenue: real)

  predicate Admits(r: Replay, bids: Bids, a: Arrival) {
    r.rate >= 1.0 && r.cost >= a.cost && a.value >= bids.rate + bids.cost * a.cost
  }

  function Replayed(sample: seq<Arrival>, bids: Bids, rate: real, cost: real): Replay {
    if sample == [] then Replay(rate, cost, 0.0)
    else
      var r, a := Replayed(sample[..|sample| - 1], bids, rate, cost), sample[|sample| - 1];
      if Admits(r, bids, a) then Replay(r.rate - 1.0, r.cost - a.cost, r.revenue + a.value) else r
  }

  function Revenue(sample: seq<Arrival>, bids: Bids, rate: real, cost: real): real {
    Replayed(sample, bids, rate, cost).revenue
  }

  /** replaySampleRevenue */
  method ReplaySampleRevenue(sample: seq<Arrival>, bids: Bids, rateBudget: real, costBudget: real) returns (rev: real)
    ensures rev == Revenue(sample, bids, rateBudget, costBudget)
  {
    var rateRem, costRem := rateBudget, costBudget;
    rev := 0.0;
    for i := 0 to |sample|
      invariant Replay(rateRem, costRem, rev) == Replayed(sample[..i], bids, rateBudget, costBudget)
    {
      var a := sample[i];
      assert sample[..i + 1][..i] == sample[..i];
      if Admits(Replay(rateRem, costRem, rev), bids, a) {
        rateRem := rateRem - 1.0;
        costRem := costRem - a.cost;
        rev := rev + a.value;
      }
    }
    assert sample[..|sample|] == sample;
  }

  // ---------------------------------------------------------------- what a replay can earn

  /** The sample as a workload: every arrival a type of its own, of weight 1. */
  function Sampled(sample: seq<Arrival>): (types: seq<WorkloadType>)
    ensures |types| == |sample|
    ensures forall i :: 0 <= i < |sample| ==> types[i] == WorkloadType(sample[i].cost, sample[i].value, 1.0, 0.0)
  {
    seq(|sample|, i requires 0 <= i < |sample| => WorkloadType(sample[i].cost, sample[i].value, 1.0, 0.0))
  }

  /** Which arrivals a replay admits, as a plan for that workload. */
  function PlanOf(sample: seq<Arrival>, bids: Bids, rate: real, cost: real): (x: seq<real>)
    ensures |x| == |sample|
  {
    if sample == [] then []
    else
      var before, a := sample[..|sample| - 1], sample[|sample| - 1];
      PlanOf(before, bids, rate, cost) + [if Admits(Replayed(before, bids, rate, cost), bids, a) then 1.0 else 0.0]
  }

  ghost predicate SoundSample(sample: seq<Arrival>) {
    forall i :: 0 <= i < |sample| ==> sample[i].cost >= 0.0 && sample[i].value >= 0.0
  }

  /** The replay's running totals are the use and the earnings of its plan, and stay within the budgets. */
  ghost predicate Replays(sample: seq<Arrival>, x: seq<real>, r: Replay, rate: real, cost: real) {
    && Plan(Sampled(sample), x) && r.rate >= 0.0 && r.cost >= 0.0
    && Used(Sampled(sample), x) == Vec(rate - r.rate, cost - r.cost, 0.0) && Objective(Sampled(sample), x) == r.revenue
  }

  lemma {:induction false} LastTerm(s: seq<real>, before: seq<real>, last: real)
    requires s == before + [last]
    ensures Sum(s) == Sum(before) + last
  {
    assert s[..|s| - 1] == before;
  }

  /** One arrival more in the workload and its plan. */
  lemma {:induction false} PlanGrows(before: seq<Arrival>, a: Arrival, x: seq<real>, y: real)
    requires |x| == |before| && (y == 0.0 || y == 1.0)
    ensures var u := Used(Sampled(before), x);
      Used(Sampled(before + [a]), x + [y]) == Vec(u.r + y, u.c + a.cost * y, u.k)
    ensures Objective(Sampled(before + [a]), x + [y]) == Objective(Sampled(before), x) + a.value * y
  {
    var types, all := Sampled(before), Sampled(before + [a]);
    assert all[..|types|] == types;
    LoadGrows(types, all, x, y, RATE, y);
    LoadGrows(types, all, x, y, COST, a.cost * y);
    LoadGrows(types, all, x, y, CONC, 0.0);
    EarnedGrows(types, all, x, y, a.value * y);
  }

  lemma {:induction false} EarnedGrows(types: seq<WorkloadType>, all: seq<WorkloadType>, x: seq<real>, y: real, last: real)
    requires |x| == |types| && |all| == |types| + 1 && all[..|types|] == types && last == all[|types|].weight * all[|types|].value * y
    ensures Objective(all, x + [y]) == Objective(types, x) + last
  {
    var s, t := Earned(all, x + [y]), Earned(types, x);
    forall i | 0 <= i < |s| ensures s[i] == (t + [last])[i] { if i < |t| { assert all[i] == all[..|types|][i]; } }
    assert s == t + [last];
    LastTerm(s, t, last);
  }

  lemma {:induction false} LoadGrows(types: seq<WorkloadType>, all: seq<WorkloadType>, x: seq<real>, y: real, d: Vec, last: real)
    requires |x| == |types| && |all| == |types| + 1 && all[..|types|] == types && all[|types|].weight == 1.0
    requires last == all[|types|].weight * y * Dot(all[|types|].Use(), d)
    ensures Load(all, x + [y], d) == Load(types, x, d) + last
  {
    var s, t := LoadTerms(all, x + [y], d), LoadTerms(types, x, d);
    forall i | 0 <= i < |s| ensures s[i] == (t + [last])[i] { if i < |t| { assert all[i] == all[..|types|][i]; } }
    assert s == t + [last];
    LastTerm(s, t, last);
  }

  lemma {:induction false} ReplayIsPlan(sample: seq<Arrival>, bids: Bids, rate: real, cost: real)
    requires SoundSample(sample) && rate >= 0.0 && cost >= 0.0
    ensures Replays(sample, PlanOf(sample, bids, rate, cost), Replayed(sample, bids, rate, cost), rate, cost)
  {
    if sample != [] {
      var before, a := sample[..|sample| - 1], sample[|sample| - 1];
      ReplayIsPlan(before, bids, rate, cost);
      var x, y := PlanOf(before, bids, rate, cost), if Admits(Replayed(before, bids, rate, cost), bids, a) then 1.0 else 0.0;
      PlanGrows(before, a, x, y);
      assert sample == before + [a];
    }
  }

  /** Whatever prices it is replayed with, a sample earns at most the fluid dual at any prices. */
  lemma {:induction false} ReplayBelowDual(sample: seq<Arrival>, bids: Bids, rate: real, cost: real, p: Vec)
    requires SoundSample(sample) && rate >= 0.0 && cost >= 0.0 && p.NonNeg()
    ensures Revenue(sample, bids, rate, cost) <= Dual(Sampled(sample), Vec(rate, cost, 0.0), p)
  {
    ReplayIsPlan(sample, bids, rate, cost);
    WeakDuality(Sampled(sample), Vec(rate, cost, 0.0), PlanOf(sample, bids, rate, cost), p);
  }

  lemma {:induction false} PlanPrefix(sample: seq<Arrival>, bids: Bids, rate: real, cost: real, i: nat)
    requires i < |sample|
    ensures PlanOf(sample, bids, rate, cost)[..i] == PlanOf(sample[..i], bids, rate, cost)
    ensures PlanOf(sample, bids, rate, cost)[i] == if Admits(Replayed(sample[..i], bids, rate, cost), bids, sample[i]) then 1.0 else 0.0
  {
    var n := |sample| - 1;
    if i < n {
      PlanPrefix(sample[..n], bids, rate, cost, i);
      assert sample[..n][..i] == sample[..i];
      assert PlanOf(sample, bids, rate, cost)[..n] == PlanOf(sample[..n], bids, rate, cost);
    }
  }

  /** A type's value covers the prices of what it uses, and the budgets hold it on top of what is used. */
  predicate Deserves(t: WorkloadType, p: Vec, used: Vec, rate: real, cost: real) {
    Reduced(t, p) >= 0.0 && used.r + 1.0 <= rate && used.c + t.cost <= cost
  }

  lemma AdmitsDeserving(r: Replay, bids: Bids, a: Arrival, t: WorkloadType, used: Vec, rate: real, cost: real)
    requires t == WorkloadType(a.cost, a.value, 1.0, 0.0) && used == Vec(rate - r.rate, cost - r.cost, 0.0)
    ensures Admits(r, bids, a) <==> Deserves(t, Vec(bids.rate, bids.cost, 0.0), used, rate, cost)
  {
    ReducedIs(a, bids);
  }

  lemma ReducedIs(a: Arrival, bids: Bids)
    ensures Reduced(WorkloadType(a.cost, a.value, 1.0, 0.0), Vec(bids.rate, bids.cost, 0.0)) == a.value - bids.rate - bids.cost * a.cost
  {
  }

  /** The replay admits an arrival, in full, exactly when it deserves it after what was admitted before it. */
  lemma ReplayAdmitsExactlyWhen(sample: seq<Arrival>, bids: Bids, rate: real, cost: real, i: nat, used: Vec)
    requires SoundSample(sample) && rate >= 0.0 && cost >= 0.0 && i < |sample|
    requires used == Used(Sampled(sample[..i]), PlanOf(sample, bids, rate, cost)[..i])
    ensures PlanOf(sample, bids, rate, cost)[i]
      == if Deserves(Sampled(sample)[i], Vec(bids.rate, bids.cost, 0.0), used, rate, cost) then 1.0 else 0.0
  {
    PlanPrefix(sample, bids, rate, cost, i);
    ReplayIsPlan(sample[..i], bids, rate, cost);
    AdmitsDeserving(Replayed(sample[..i], bids, rate, cost), bids, sample[i], Sampled(sample)[i], used, rate, cost);
  }

  // ---------------------------------------------------------------- the tally of observed types

  ghost function Occurrences(sample: seq<Arrival>, a: Arrival): nat { multiset(sample)[a] }

  /** Every bucket holds its type's count, no type has two buckets, and a type is missing only when the table is full. */
  ghost predicate Tallies(buckets: seq<Bucket>, sample: seq<Arrival>) {
    && |buckets| <= 64
    && (forall i, j :: 0 <= i < j < |buckets| ==> buckets[i].arrival != buckets[j].arrival)
    && (forall i :: 0 <= i < |buckets| ==> 1 <= buckets[i].count <= Occurrences(sample, buckets[i].arrival))
    && (|buckets| < 64 ==> forall a :: a in sample ==> Bucketed(buckets, a))
    && (|buckets| < 64 ==> forall i :: 0 <= i < |buckets| ==> buckets[i].count == Occurrences(sample, buckets[i].arrival))
  }

  ghost predicate Bucketed(buckets: seq<Bucket>, a: Arrival) {
    exists i :: 0 <= i < |buckets| && buckets[i].arrival == a
  }

  method FindBucket(buckets: seq<Bucket>, a: Arrival) returns (at: Option<nat>)
    ensures at.Some? <==> Bucketed(buckets, a)
    ensures at.Some? ==> at.value < |buckets| && buckets[at.value].arrival == a
  {
    for i := 0 to |buckets|
      invariant forall j :: 0 <= j < i ==> buckets[j].arrival != a
    {
      if buckets[i].arrival == a { return Some(i); }
    }
    return None;
  }

  lemma OccursMore(sample: seq<Arrival>, a: Arrival, b: Arrival)
    ensures Occurrences(sample + [a], b) == Occurrences(sample, b) + (if a == b then 1 else 0)
  {
    assert multiset(sample + [a]) == multiset(sample) + multiset{a};
  }

  lemma BumpTallies(buckets: seq<Bucket>, sample: seq<Arrival>, a: Arrival, at: nat)
    requires Tallies(buckets, sample) && at < |buckets| && buckets[at].arrival == a
    ensures Tallies(buckets[at := Bucket(a, buckets[at].count + 1)], sample + [a])
  {
    var after := buckets[at := Bucket(a, buckets[at].count + 1)];
    forall i | 0 <= i < |after| ensures 1 <= after[i].count <= Occurrences(sample + [a], after[i].arrival) {
      OccursMore(sample, a, after[i].arrival);
    }
    if |after| < MAX_OBSERVED_TYPES {
      forall i | 0 <= i < |after| ensures after[i].count == Occurrences(sample + [a], after[i].arrival) {
        OccursMore(sample, a, after[i].arrival);
      }
      forall b | b in sample + [a] ensures Bucketed(after, b) {
        if b == a { assert after[at].arrival == a; } else {
          assert Bucketed(buckets, b);
          var i :| 0 <= i < |buckets| && buckets[i].arrival == b;
          assert after[i].arrival == b;
        }
      }
    }
  }

  lemma NewTallies(buckets: seq<Bucket>, sample: seq<Arrival>, a: Arrival)
    requires Tallies(buckets, sample) && !Bucketed(buckets, a) && |buckets| < MAX_OBSERVED_TYPES
    ensures Tallies(buckets + [Bucket(a, 1)], sample + [a])
  {
    var after := buckets + [Bucket(a, 1)];
    OccursMore(sample, a, a);
    assert a !in sample;
    forall i | 0 <= i < |after| ensures after[i].count == Occurrences(sample + [a], after[i].arrival) && after[i].count >= 1 {
      OccursMore(sample, a, after[i].arrival);
    }
    forall b | b in sample + [a] ensures Bucketed(after, b) {
      if b == a { assert after[|buckets|].arrival == a; } else {
        assert Bucketed(buckets, b);
        var i :| 0 <= i < |buckets| && buckets[i].arrival == b;
        assert after[i].arrival == b;
      }
    }
  }

  lemma FullTallies(buckets: seq<Bucket>, sample: seq<Arrival>, a: Arrival)
    requires Tallies(buckets, sample) && |buckets| >= MAX_OBSERVED_TYPES
    ensures Tallies(buckets, sample + [a])
  {
    forall i | 0 <= i < |buckets| ensures buckets[i].count <= Occurrences(sample + [a], buckets[i].arrival) {
      OccursMore(sample, a, buckets[i].arrival);
    }
  }

  method Tally(buckets: seq<Bucket>, a: Arrival, ghost sample: seq<Arrival>) returns (after: seq<Bucket>)
    requires Tallies(buckets, sample)
    ensures Tallies(after, sample + [a])
  {
    var at := FindBucket(buckets, a);
    if at.Some? {
      BumpTallies(buckets, sample, a, at.value);
      return buckets[at.value := Bucket(a, buckets[at.value].count + 1)];
    }
    if |buckets| < MAX_OBSERVED_TYPES {
      NewTallies(buckets, sample, a);
      return buckets + [Bucket(a, 1)];
    }
    FullTallies(buckets, sample, a);
    return buckets;
  }

  // ---------------------------------------------------------------- adoption

  function Mixture(buckets: seq<Bucket>, seen: nat): seq<FluidLpSolve.TypeSpec>
    requires seen > 0
  {
    seq(|buckets|, i requires 0 <= i < |buckets| =>
      FluidLpSolve.TypeSpec(buckets[i].arrival.cost, buckets[i].arrival.value, buckets[i].count as real / seen as real, None))
  }

  /** Each observed type with its share of the arrivals as weight. */
  ghost predicate IsMixture(types: seq<FluidLpSolve.TypeSpec>, buckets: seq<Bucket>, seen: nat) {
    |types| == |buckets| && forall i :: 0 <= i < |types| ==> IsShare(types[i], buckets[i], seen)
  }

  ghost predicate IsShare(t: FluidLpSolve.TypeSpec, b: Bucket, seen: nat) {
    t.cost == b.arrival.cost && t.value == b.arrival.value && t.weight * seen as real == b.count as real && t.hold.None?
  }

  lemma MixtureIs(buckets: seq<Bucket>, seen: nat)
    requires seen > 0
    ensures IsMixture(Mixture(buckets, seen), buckets, seen)
  {
    forall i | 0 <= i < |buckets| ensures IsShare(Mixture(buckets, seen)[i], buckets[i], seen) {
      Fraction(buckets[i].count as real, seen as real);
    }
  }

  lemma Fraction(part: real, whole: real)
    requires whole > 0.0
    ensures part / whole * whole == part
  {
  }

  /** Prices that minimise the dual of that mixture under the per-arrival budgets, or none where the solver takes no such input. */
  ghost predicate Proposed(learned: Option<Bids>, types: seq<FluidLpSolve.TypeSpec>, perArrivalRate: real, perArrivalCost: real) {
    var input := FluidLpSolve.Input(types, perArrivalRate, perArrivalCost, None);
    && (learned.Some? <==> FluidLpSolve.Accepted(input))
    && (learned.Some? ==> FluidLpSolve.PricesMinimise(input, FluidLpSolve.Duals(learned.value.rate, learned.value.cost, None)))
  }

  /** The re-solve's proposal from a tally. */
  ghost predicate ProposedFrom(learned: Option<Bids>, buckets: seq<Bucket>, seen: nat, perArrivalRate: real, perArrivalCost: real) {
    exists types :: IsMixture(types, buckets, seen) && Proposed(learned, types, perArrivalRate, perArrivalCost)
  }

  /** The prices the re-solve proposes; a sample the solver rejects proposes none. */
  method Learn(buckets: seq<Bucket>, seen: nat, perArrivalRate: real, perArrivalCost: real) returns (learned: Option<Bids>)
    requires seen > 0
    ensures ProposedFrom(learned, buckets, seen, perArrivalRate, perArrivalCost)
  {
    var types := Mixture(buckets, seen);
    MixtureIs(buckets, seen);
    var solved := FluidLpSolve.SolveFluidLp(FluidLpSolve.Input(types, perArrivalRate, perArrivalCost, None));
    if solved.Err? {
      learned := None;
    } else {
      var d := solved.value.duals;
      learned := Some(Bids(d.rate, d.cost));
      assert d == FluidLpSolve.Duals(d.rate, d.cost, None);
    }
    assert Proposed(learned, types, perArrivalRate, perArrivalCost);
  }

  /** The proposal is adopted exactly when it earns strictly more than the prior on the sample. */
  ghost predicate Adopts(chosen: Bids, prior: Bids, learned: Option<Bids>, sample: seq<Arrival>, rate: real, cost: real) {
    chosen ==
      if learned.Some? && Revenue(sample, learned.value, rate, cost) > Revenue(sample, prior, rate, cost) then learned.value else prior
  }

  /** A choice made from a full window: from its tally, on its arrivals under the budgets of so many arrivals. */
  ghost predicate Chosen(chosen: Bids, prior: Bids, sample: seq<Arrival>, perArrivalRate: real, perArrivalCost: real) {
    exists learned, tally :: ChosenBy(chosen, prior, learned, tally, sample, perArrivalRate, perArrivalCost)
  }

  ghost predicate ChosenBy(chosen: Bids, prior: Bids, learned: Option<Bids>, tally: seq<Bucket>, sample: seq<Arrival>,
                           perArrivalRate: real, perArrivalCost: real) {
    && Tallies(tally, sample) && ProposedFrom(learned, tally, |sample|, perArrivalRate, perArrivalCost)
    && forall rate, cost :: ScaledTo(rate, perArrivalRate, |sample|) && ScaledTo(cost, perArrivalCost, |sample|) ==>
         Adopts(chosen, prior, learned, sample, rate, cost)
  }

  /** The budget of n arrivals. */
  ghost predicate ScaledTo(total: real, perArrival: real, n: nat) { total == perArrival * n as real }

  lemma ChosenFrom(chosen: Bids, prior: Bids, learned: Option<Bids>, tally: seq<Bucket>, sample: seq<Arrival>,
                   perArrivalRate: real, perArrivalCost: real, rate: real, cost: real)
    requires Tallies(tally, sample) && ProposedFrom(learned, tally, |sample|, perArrivalRate, perArrivalCost)
    requires rate == ForArrivals(perArrivalRate, |sample|) && cost == ForArrivals(perArrivalCost, |sample|)
    requires Adopts(chosen, prior, learned, sample, rate, cost)
    ensures Chosen(chosen, prior, sample, perArrivalRate, perArrivalCost)
  {
    assert ChosenBy(chosen, prior, learned, tally, sample, perArrivalRate, perArrivalCost);
  }

  /** A per-arrival budget, scaled to a number of arrivals. */
  function ForArrivals(perArrival: real, n: nat): real { perArrival * n as real }

  class AdaptiveState {
    const window: nat
    const perArrivalRate: real
    const perArrivalCost: real
    const prior: Bids
    var active: Bids
    var seen: nat
    var frozen: bool
    var buf: seq<Arrival>
    var buckets: seq<Bucket>
    ghost var observed: seq<Arrival>

    /** Warming up, the prior is live and the whole sample is kept; frozen, the choice made on the full window is. */
    ghost predicate Valid()
      reads this
    {
      && window >= 1 && seen == |observed| && (frozen <==> seen >= window) && seen <= window
      && (!frozen ==> active == prior && buf == observed && Tallies(buckets, observed))
      && (frozen ==> buf == [] && buckets == [])
      && (frozen ==> Chosen(active, prior, observed, perArrivalRate, perArrivalCost))
    }

    constructor (window: nat, perArrivalRate: real, perArrivalCost: real, prior: Bids)
      requires window >= 1
      ensures Valid() && !frozen && active == prior && observed == [] && this.window == window && this.prior == prior
    {
      this.window, this.perArrivalRate, this.perArrivalCost, this.prior := window, perArrivalRate, perArrivalCost, prior;
      active, seen, frozen, buf, buckets, observed := prior, 0, false, [], [], [];
    }

    /** The prices in force for one arrival: refined while warming up, and once frozen never changed again. */
    method Price(a: Arrival) returns (live: Bids)
      requires Valid()
      modifies this
      ensures Valid() && live == active && (!frozen ==> live == prior)
      ensures old(frozen) ==> frozen && active == old(active) && observed == old(observed)
      ensures !old(frozen) ==> observed == old(observed) + [a] && (frozen <==> |observed| == window)
    {
      if !frozen { Refine(a); }
      live := active;
    }

    /** A whole run of arrivals: the prior until the window is full, and from its last arrival on one choice that beats it or is it. */
    method PriceAll(arrivals: seq<Arrival>) returns (lives: seq<Bids>)
      requires Valid() && observed == []
      modifies this
      ensures Valid() && |lives| == |arrivals|
      ensures forall i :: 0 <= i < |lives| && i < window - 1 ==> lives[i] == prior
      ensures forall i :: window - 1 <= i < |lives| ==> lives[i] == lives[window - 1]
      ensures |arrivals| >= window ==> Chosen(lives[window - 1], prior, arrivals[..window], perArrivalRate, perArrivalCost)
    {
      lives := [];
      for n := 0 to |arrivals|
        invariant Valid() && |lives| == n
        invariant observed == arrivals[..if n < window then n else window]
        invariant forall i :: 0 <= i < n && i < window - 1 ==> lives[i] == prior
        invariant forall i :: window - 1 <= i < n ==> lives[i] == active
      {
        var live := Price(arrivals[n]);
        lives := lives + [live];
      }
    }

    /** refineWarmup, called only while not frozen. */
    method Refine(a: Arrival)
      requires Valid() && !frozen
      modifies this
      ensures Valid() && observed == old(observed) + [a] && seen == old(seen) + 1
      ensures frozen <==> seen == window
    {
      seen := seen + 1;
      if |buf| < window { buf := buf + [a]; }
      buckets := Tally(buckets, a, observed);
      observed := observed + [a];
      if seen < window { return; }
      var scaledR, scaledC := ForArrivals(perArrivalRate, |buf|), ForArrivals(perArrivalCost, |buf|);
      ghost var learned;
      var chosen;
      chosen, learned := Choose(buf, scaledR, scaledC);
      ChosenFrom(chosen, prior, learned, buckets, observed, perArrivalRate, perArrivalCost, scaledR, scaledC);
      active := chosen;
      frozen := true;
      buf := [];
      buckets := [];
    }

    method Choose(sample: seq<Arrival>, scaledR: real, scaledC: real) returns (chosen: Bids, ghost proposal: Option<Bids>)
      requires seen > 0
      ensures ProposedFrom(proposal, buckets, seen, perArrivalRate, perArrivalCost)
      ensures Adopts(chosen, prior, proposal, sample, scaledR, scaledC)
    {
      chosen := prior;
      var learned := Learn(buckets, seen, perArrivalRate, perArrivalCost);
      proposal := learned;
      if learned.Some? {
        var better := ReplaySampleRevenue(sample, learned.value, scaledR, scaledC);
        var base := ReplaySampleRevenue(sample, prior, scaledR, scaledC);
        if better > base { chosen := learned.value; }
      }
    }
  }
}
