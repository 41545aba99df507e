/** Exactly when weightedMaxMin gives a tenant its guaranteed share: the order in which the drip hands out the leftover decides. */
module MaxMinGuarantee {
  import opened Numbers
  import opened MaxMin
  import opened MaxMinInteger

  function Floors(share: seq<real>): (f: seq<int>)
    ensures |f| == |share| && forall i :: 0 <= i < |f| ==> f[i] == Floor(share[i])
  {
    seq(|share|, i requires 0 <= i < |share| => Floor(share[i]))
  }

  ghost predicate IsFairSplit(demands: seq<real>, weights: seq<real>, limit: real, x: seq<real>) {
    |x| == |demands| == |weights| && MaxMin.Feasible(demands, limit, x) && Fair(demands, weights, limit, x)
  }

  /** The weighted max-min fair shares of real credits, before any rounding: the input alone fixes them. */
  ghost function FairShares(demands: seq<real>, weights: seq<real>, limit: real): (share: seq<real>)
    ensures |share| == |demands|
  {
    if exists x :: IsFairSplit(demands, weights, limit, x) then
      var x :| IsFairSplit(demands, weights, limit, x); x
    else demands
  }

  /** Water-filling finds them. */
  lemma {:induction false} FairSharesAre(demands: seq<real>, weights: seq<real>, limit: real, level: real, share: seq<real>)
    requires Valid(demands, weights, limit) && WaterFilled(demands, weights, limit, level, share)
    ensures FairShares(demands, weights, limit) == share && IsFairSplit(demands, weights, limit, share)
  {
    TheFairSplit(demands, weights, limit, level, share, share);
    assert IsFairSplit(demands, weights, limit, share);
    TheFairSplit(demands, weights, limit, level, share, FairShares(demands, weights, limit));
  }

  /** The tenants before i in the drip's queue: they want more than their floored share and come ahead of i. */
  ghost function Queue(demands: seq<real>, weights: seq<real>, limit: real, i: nat): set<nat>
    requires Valid(demands, weights, limit) && i < |demands|
  {
    var share := FairShares(demands, weights, limit);
    set j: nat | j < |share| && Wants(demands[j], Floor(share[j]))
                 && Ahead(Floor(share[j]), weights[j], j, Floor(share[i]), weights[i], i)
  }

  /** The credits that flooring the fair shares leaves to hand out. */
  ghost function Leftover(demands: seq<real>, weights: seq<real>, limit: real): real {
    Min(Total(Ceilings(demands)) as real, Floor(limit) as real) - Total(Floors(FairShares(demands, weights, limit))) as real
  }

  ghost function Dripped(share: seq<real>, a: seq<int>, n: nat): set<nat>
    requires n <= |share| == |a|
  {
    set j: nat | j < n && Bumped(share[j], a[j])
  }

  lemma DrippedStep(share: seq<real>, a: seq<int>, n: nat)
    requires 0 < n <= |share| == |a|
    ensures |Dripped(share, a, n)| == |Dripped(share, a, n - 1)| + (if Bumped(share[n - 1], a[n - 1]) then 1 else 0)
  {
    var before := Dripped(share, a, n - 1);
    if Bumped(share[n - 1], a[n - 1]) {
      assert Dripped(share, a, n) == before + {n - 1};
    } else {
      assert Dripped(share, a, n) == before;
    }
  }

  lemma {:induction false} CountDripped(share: seq<real>, a: seq<int>, f: seq<int>, n: nat)
    requires Rounded(share, a) && n <= |a| && f == Floors(share)
    ensures Total(a[..n]) == Total(f[..n]) + |Dripped(share, a, n)|
  {
    if n > 0 {
      CountDripped(share, a, f, n - 1);
      TotalPrefix(a, n - 1);
      TotalPrefix(f, n - 1);
      OneBump(share[n - 1], a[n - 1]);
      DrippedStep(share, a, n);
    } else {
      assert Dripped(share, a, 0) == {};
    }
  }

  lemma OneBump(share: real, a: int)
    requires a == Floor(share) || a == Ceil(share)
    ensures a == Floor(share) + (if Bumped(share, a) then 1 else 0)
    ensures Bumped(share, a) ==> a == Ceil(share) && (Floor(share) as real) < share
  {
  }

  lemma {:induction false} LeftoverIsDripped(demands: seq<real>, weights: seq<real>, limit: real, share: seq<real>, a: seq<int>)
    requires Split(demands, weights, limit, share, a) && share == FairShares(demands, weights, limit)
    ensures Leftover(demands, weights, limit) == |Dripped(share, a, |a|)| as real
  {
    CountDripped(share, a, Floors(share), |a|);
    assert a[..|a|] == a && Floors(share)[..|a|] == Floors(share);
  }

  lemma {:induction false} QueueServed(demands: seq<real>, weights: seq<real>, limit: real, share: seq<real>, a: seq<int>, i: nat)
    requires Split(demands, weights, limit, share, a) && share == FairShares(demands, weights, limit)
    requires i < |a| && Bumped(share[i], a[i])
    ensures Queue(demands, weights, limit, i) <= Dripped(share, a, |a|) - {i}
  {
    forall j | j in Queue(demands, weights, limit, i) ensures Bumped(share[j], a[j]) { OneBump(share[j], a[j]); }
  }

  lemma {:induction false} OnlyQueueServed(demands: seq<real>, weights: seq<real>, limit: real, share: seq<real>, a: seq<int>, i: nat)
    requires Split(demands, weights, limit, share, a) && share == FairShares(demands, weights, limit)
    requires forall j :: 0 <= j < |share| ==> share[j] <= demands[j]
    requires i < |a| && !Bumped(share[i], a[i]) && Wants(demands[i], Floor(share[i]))
    ensures Dripped(share, a, |a|) <= Queue(demands, weights, limit, i)
  {
    OneBump(share[i], a[i]);
    forall j | j in Dripped(share, a, |a|) ensures j in Queue(demands, weights, limit, i) { OneBump(share[j], a[j]); }
  }

  lemma Subsets(small: set<nat>, large: set<nat>)
    requires small <= large
    ensures |small| <= |large|
  {
    if small != {} {
      var x :| x in small;
      Subsets(small - {x}, large - {x});
    }
  }

  lemma {:induction false} DrippedFrom(demands: seq<real>, weights: seq<real>, limit: real, share: seq<real>, a: seq<int>, i: nat)
    requires Split(demands, weights, limit, share, a) && share == FairShares(demands, weights, limit)
    requires forall j :: 0 <= j < |share| ==> share[j] <= demands[j]
    requires i < |a| && Wants(demands[i], Floor(share[i]))
    ensures Bumped(share[i], a[i]) <==> |Queue(demands, weights, limit, i)| as real < Leftover(demands, weights, limit)
  {
    var served, queue := Dripped(share, a, |a|), Queue(demands, weights, limit, i);
    LeftoverIsDripped(demands, weights, limit, share, a);
    if Bumped(share[i], a[i]) {
      QueueServed(demands, weights, limit, share, a, i);
      Subsets(queue, served - {i});
    } else {
      OnlyQueueServed(demands, weights, limit, share, a, i);
      Subsets(served, queue);
    }
  }

  /** A tenant that wants more than its floored fair share gets one more credit exactly when its place in the queue is reached. */
  lemma {:induction false} DrippedExactlyWhen(demands: seq<real>, weights: seq<real>, limit: real, a: seq<int>, i: nat)
    requires Valid(demands, weights, limit) && SplitsFairly(demands, weights, limit, a) && i < |demands|
    requires Wants(demands[i], Floor(FairShares(demands, weights, limit)[i]))
    ensures |a| == |demands|
    ensures a[i] > Floor(FairShares(demands, weights, limit)[i]) <==>
      |Queue(demands, weights, limit, i)| as real < Leftover(demands, weights, limit)
  {
    var level, share := FairLevel(demands, weights, limit, a);
    ShareBelowDemand(demands, weights, limit, level, share);
    DrippedFrom(demands, weights, limit, share, a, i);
  }

  lemma {:induction false} FairLevel(demands: seq<real>, weights: seq<real>, limit: real, a: seq<int>)
    returns (level: real, share: seq<real>)
    requires Valid(demands, weights, limit) && SplitsFairly(demands, weights, limit, a)
    ensures WaterFilledSplit(demands, weights, limit, level, share, a) && share == FairShares(demands, weights, limit)
  {
    level, share :| WaterFilled(demands, weights, limit, level, share) && Split(demands, weights, limit, share, a);
    FairSharesAre(demands, weights, limit, level, share);
  }

  /** A tenant that got less than it demands, a backlogged one, is promised its slice. */
  predicate Kept(demand: real, a: int, slice: int) { a as real >= demand || a >= slice }

  lemma KeptUnless(demand: real, share: real, a: int, slice: int)
    requires 0.0 <= share <= demand && (a == Floor(share) || a == Ceil(share))
    requires share == demand || Floor(share) >= slice
    ensures Kept(demand, a, slice) <==> WholeNumber(demand) || demand >= slice as real || Bumped(share, a)
  {
    OneBump(share, a);
    if share == demand { WholeCeil(demand); }
  }

  /**
   * A tenant keeps its guaranteed share exactly when its demand is whole, or reaches the guaranteed share, or its place in the
   * drip's queue is within the leftover.
   */
  lemma {:induction false} GuaranteeKeptExactlyWhen(demands: seq<real>, weights: seq<real>, limit: real, a: seq<int>, i: nat)
    requires Valid(demands, weights, limit) && SplitsFairly(demands, weights, limit, a) && i < |demands|
    ensures |a| == |demands| && Sum(weights) > 0.0
    ensures var slice := GuaranteedShare(weights, limit, i);
      Kept(demands[i], a[i], slice) <==>
        || WholeNumber(demands[i]) || demands[i] >= slice as real
        || |Queue(demands, weights, limit, i)| as real < Leftover(demands, weights, limit)
  {
    var level, share := FairLevel(demands, weights, limit, a);
    WeightsPositive(weights);
    ShareOrSlice(demands, weights, limit, level, share, i, Sum(weights));
    ShareBelowDemand(demands, weights, limit, level, share);
    KeptUnless(demands[i], share[i], a[i], GuaranteedShare(weights, limit, i));
    if !WholeNumber(demands[i]) && demands[i] < GuaranteedShare(weights, limit, i) as real {
      assert Wants(demands[i], Floor(share[i]));
      DrippedFrom(demands, weights, limit, share, a, i);
    }
  }

  // ---------------------------------------------------------------- a backlogged tenant below its slice

  lemma SumOfThree(x: real, y: real, z: real, s: seq<real>)
    requires s == [x, y, z]
    ensures Sum(s) == x + y + z
  {
    assert s[..2] == [x, y] && s[..2][..1] == [x] && [x][..0] == [];
    assert Sum(s[..2]) == Sum(s[..2][..1]) + y;
  }

  lemma TotalOfThree(x: int, y: int, z: int, s: seq<int>)
    requires s == [x, y, z]
    ensures Total(s) == x + y + z
  {
    assert s[..2] == [x, y] && s[..2][..1] == [x] && [x][..0] == [];
    assert Total(s[..2]) == Total(s[..2][..1]) + y;
  }

  /** The water level of the example: the first tenant is satisfied, the others share the rest. */
  lemma ExampleShares(demands: seq<real>, weights: seq<real>, level: real, share: seq<real>)
    requires demands == [2.5, 10.0, 10.0] && weights == [3.0, 0.3, 0.3] && WaterFilled(demands, weights, 4.0, level, share)
    ensures share == [2.5, 0.75, 0.75]
  {
    SumOfThree(2.5, 10.0, 10.0, demands);
    SumOfThree(share[0], share[1], share[2], share);
    assert AtLevel(2.5, 3.0, level, share[0]) && AtLevel(10.0, 0.3, level, share[1]) && AtLevel(10.0, 0.3, level, share[2]);
  }

  lemma FirstComesLast(demands: seq<real>, weights: seq<real>, share: seq<real>, a: seq<int>, j: nat)
    requires |demands| == |weights| == |share| == |a| == 3 && weights == [3.0, 0.3, 0.3] && share[0] == 2.5 && Rounded(share, a)
    requires NeediestFirst(demands, weights, share, a) && 1 <= j < 3 && a[j] == 0 && share[j] == 0.75 && demands[j] == 10.0
    ensures !Bumped(share[0], a[0])
  {
    FloorIs(2.5, 2);
    FloorIs(0.75, 0);
    assert Service(2, 3.0) == 2.0 / 3.0 && Service(0, 0.3) == 0.0;
    assert !Ahead(2, 3.0, 0, 0, 0.3, j);
    assert !Bumped(share[j], a[j]) && Wants(demands[j], a[j]);
  }

  lemma RoundedExample(share: seq<real>, a: seq<int>)
    requires share == [2.5, 0.75, 0.75] && Rounded(share, a)
    ensures |a| == 3 && (a[0] == 2 || (a[0] == 3 && Bumped(share[0], a[0]))) && 0 <= a[1] <= 1 && 0 <= a[2] <= 1
  {
    FloorIs(2.5, 2);
    FloorIs(0.75, 0);
  }

  lemma {:induction false} BacklogAt(demands: seq<real>, weights: seq<real>, level: real, share: seq<real>, a: seq<int>)
    requires demands == [2.5, 10.0, 10.0] && weights == [3.0, 0.3, 0.3]
    requires WaterFilledSplit(demands, weights, 4.0, level, share, a)
    ensures a == [2, 1, 1] && Sum(weights) > 0.0 && GuaranteedShare(weights, 4.0, 0) == 3
  {
    ExampleShares(demands, weights, level, share);
    SumOfThree(3.0, 0.3, 0.3, weights);
    ExampleSlice(Sum(weights));
    RoundedExample(share, a);
    TotalOfThree(a[0], a[1], a[2], a);
    TotalOfThree(3, 10, 10, Ceilings(demands));
    FloorIs(4.0, 4);
    if a[0] == 3 {
      FirstComesLast(demands, weights, share, a, if a[1] == 0 then 1 else 2);
    }
  }

  /** Weights 3, 0.3 and 0.3 under a limit of 4: the first tenant wants 2.5, gets 2, and its guaranteed share is 3. */
  lemma {:induction false} BacklogBelowGuarantee(demands: seq<real>, weights: seq<real>, limit: real, a: seq<int>)
    requires demands == [2.5, 10.0, 10.0] && weights == [3.0, 0.3, 0.3] && limit == 4.0 && SplitsFairly(demands, weights, limit, a)
    ensures a == [2, 1, 1] && Sum(weights) > 0.0 && GuaranteedShare(weights, limit, 0) == 3 && !Kept(demands[0], a[0], 3)
  {
    var level, share :| WaterFilled(demands, weights, limit, level, share) && Split(demands, weights, limit, share, a);
    BacklogAt(demands, weights, level, share, a);
  }

  lemma ExampleSlice(total: real)
    requires total == 3.6
    ensures Slice(3.0, 4.0, total) == 3
  {
    var q := 3.0 * 4.0 / total;
    assert q * 3.6 == 12.0;
    FloorIs(q, 3);
  }
}
