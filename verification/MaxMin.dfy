/** Weighted max-min fair split: continuous water-filling, then an integer drip of the rounding remainder. */
module MaxMin {
  import opened Numbers
  import opened Wrappers
  import opened Sorting

  // ---------------------------------------------------------------- sums over an index list

  function Over(xs: seq<nat>, v: seq<real>): real
    requires Within(xs, |v|)
  {
    if xs == [] then 0.0 else v[xs[0]] + Over(xs[1..], v)
  }

  lemma {:induction false} OverInsert(i: nat, order: seq<nat>, key: seq<real>, v: seq<real>)
    requires |key| == |v| && i < |v| && Within(order, |v|)
    ensures Over(Insert(i, order, key), v) == v[i] + Over(order, v)
  {
    if order == [] || key[i] <= key[order[0]] {
      assert ([i] + order)[1..] == order;
    } else {
      OverInsert(i, order[1..], key, v);
      assert ([order[0]] + Insert(i, order[1..], key))[1..] == Insert(i, order[1..], key);
    }
  }

  lemma {:induction false} OverSorted(xs: seq<nat>, key: seq<real>, v: seq<real>)
    requires |key| == |v| && Within(xs, |v|)
    ensures Over(SortBy(xs, key), v) == Over(xs, v)
  {
    if xs != [] {
      OverSorted(xs[1..], key, v);
      OverInsert(xs[0], SortBy(xs[1..], key), key, v);
    }
  }

  lemma {:induction false} OverAppend(xs: seq<nat>, i: nat, v: seq<real>)
    requires Within(xs, |v|) && i < |v|
    ensures Over(xs + [i], v) == Over(xs, v) + v[i]
  {
    if xs == [] {
      assert [i][1..] == [];
    } else {
      OverAppend(xs[1..], i, v);
      assert (xs + [i])[1..] == xs[1..] + [i];
    }
  }

  lemma {:induction false} OverAll(n: nat, v: seq<real>)
    requires n <= |v|
    ensures Over(Indices(n), v) == Sum(v[..n])
  {
    if n > 0 {
      OverAll(n - 1, v);
      OverAppend(Indices(n - 1), n - 1, v);
      assert Indices(n) == Indices(n - 1) + [n - 1];
      SumPrefix(v, n - 1);
    }
  }

  /** Summing in sorted order gives the plain sum. */
  lemma {:induction false} OverOrder(key: seq<real>, v: seq<real>)
    requires |key| == |v|
    ensures Over(SortBy(Indices(|v|), key), v) == Sum(v)
  {
    OverSorted(Indices(|v|), key, v);
    OverAll(|v|, v);
    assert v[..|v|] == v;
  }

  lemma {:induction false} OverNonNeg(xs: seq<nat>, v: seq<real>)
    requires Within(xs, |v|) && forall i :: 0 <= i < |v| ==> v[i] > 0.0
    ensures Over(xs, v) >= 0.0 && (xs != [] ==> Over(xs, v) > 0.0)
  {
    if xs != [] { OverNonNeg(xs[1..], v); }
  }

  // ---------------------------------------------------------------- the water level

  /** Demands and weights a caller may pass. */
  ghost predicate Valid(demands: seq<real>, weights: seq<real>, limit: real) {
    && |demands| == |weights| && limit >= 0.0
    && (forall i :: 0 <= i < |weights| ==> weights[i] > 0.0)
    && (forall i :: 0 <= i < |demands| ==> demands[i] >= 0.0)
  }

  /** Tenant i stands at the common level: it takes its demand or its weight's worth of the level, the smaller. */
  ghost predicate AtLevel(d: real, w: real, level: real, share: real) {
    share == Min(d, w * level)
  }

  /** One level for everybody, and nothing stranded. */
  ghost predicate WaterFilled(demands: seq<real>, weights: seq<real>, limit: real, level: real, share: seq<real>)
    requires |demands| == |weights|
  {
    && |share| == |demands| && level >= 0.0
    && (forall i :: 0 <= i < |share| ==> AtLevel(demands[i], weights[i], level, share[i]))
    && Sum(share) == Min(Sum(demands), limit)
  }

  ghost predicate HasLevel(demands: seq<real>, weights: seq<real>, limit: real, share: seq<real>)
    requires |demands| == |weights|
  {
    exists level: real :: WaterFilled(demands, weights, limit, level, share)
  }

  /** What a tenant can be handed at all. */
  ghost predicate Feasible(demands: seq<real>, limit: real, y: seq<real>) {
    |y| == |demands| && (forall i :: 0 <= i < |y| ==> 0.0 <= y[i] <= demands[i]) && Sum(y) <= limit
  }

  /** Normalised service a/w of the first tenant is no larger than the second's. */
  ghost predicate NoLarger(a: real, w: real, b: real, v: real) { a * v <= b * w }

  /** Some tenant that loses from x to y was served no better than tenant i. */
  ghost predicate SomeoneLoses(weights: seq<real>, x: seq<real>, y: seq<real>, i: nat)
    requires |x| == |y| == |weights| && i < |x|
  {
    exists j :: 0 <= j < |x| && y[j] < x[j] && NoLarger(x[j], weights[j], x[i], weights[i])
  }

  /** Weighted max-min fairness: raising any share must lower one whose normalised service is no larger. */
  ghost predicate Fair(demands: seq<real>, weights: seq<real>, limit: real, x: seq<real>)
    requires |x| == |demands| == |weights|
  {
    forall y: seq<real>, i: nat ::
      Feasible(demands, limit, y) && i < |x| && y[i] > x[i] ==> SomeoneLoses(weights, x, y, i)
  }

  lemma {:induction false} SomeSmaller(x: seq<real>, y: seq<real>, i: nat)
    requires |x| == |y| && i < |x| && y[i] > x[i] && Sum(y) <= Sum(x)
    ensures exists j :: 0 <= j < |x| && y[j] < x[j]
  {
    if forall j :: 0 <= j < |x| ==> x[j] <= y[j] { SumTight(x, y); }
  }

  lemma CapBinds(d: real, w: real, level: real, share: real, y: real)
    requires AtLevel(d, w, level, share) && share < y <= d
    ensures share == w * level
  {
  }

  lemma LevelOrders(a: real, w: real, b: real, v: real, level: real)
    requires w > 0.0 && v > 0.0 && a <= w * level && b == v * level
    ensures NoLarger(a, w, b, v)
  {
    MulMono(a, w * level, v);
    assert w * level * v == b * w;
  }

  lemma {:induction false} ShareBelowDemand(demands: seq<real>, weights: seq<real>, limit: real, level: real, share: seq<real>)
    requires Valid(demands, weights, limit) && WaterFilled(demands, weights, limit, level, share)
    ensures Feasible(demands, limit, share)
  {
    forall i | 0 <= i < |share| ensures 0.0 <= share[i] <= demands[i] {
      assert AtLevel(demands[i], weights[i], level, share[i]);
      assert weights[i] * level >= 0.0;
    }
  }

  lemma LoserIs(dj: real, wj: real, sj: real, di: real, wi: real, si: real, yi: real, level: real)
    requires wj > 0.0 && wi > 0.0 && AtLevel(dj, wj, level, sj) && AtLevel(di, wi, level, si) && si < yi <= di
    ensures NoLarger(sj, wj, si, wi)
  {
    CapBinds(di, wi, level, si, yi);
    LevelOrders(sj, wj, si, wi, level);
  }

  lemma {:induction false} RaisingCosts(demands: seq<real>, weights: seq<real>, limit: real, level: real, share: seq<real>,
                                        y: seq<real>, i: nat)
    requires Valid(demands, weights, limit) && WaterFilled(demands, weights, limit, level, share)
    requires Feasible(demands, limit, y) && i < |share| && y[i] > share[i]
    ensures SomeoneLoses(weights, share, y, i)
  {
    SumMonotone(y, demands);
    SomeSmaller(share, y, i);
    var j :| 0 <= j < |share| && y[j] < share[j];
    assert AtLevel(demands[j], weights[j], level, share[j]) && AtLevel(demands[i], weights[i], level, share[i]);
    LoserIs(demands[j], weights[j], share[j], demands[i], weights[i], share[i], y[i], level);
  }

  lemma {:induction false} LevelledIsFair(demands: seq<real>, weights: seq<real>, limit: real, level: real, share: seq<real>)
    requires Valid(demands, weights, limit) && WaterFilled(demands, weights, limit, level, share)
    ensures Fair(demands, weights, limit, share)
  {
    forall y: seq<real>, i: nat | Feasible(demands, limit, y) && i < |share| && y[i] > share[i]
      ensures SomeoneLoses(weights, share, y, i)
    {
      RaisingCosts(demands, weights, limit, level, share, y, i);
    }
  }

  /** A tenant above its share outranks one below its share. */
  lemma LevelsApart(dj: real, wj: real, sj: real, xj: real, di: real, wi: real, si: real, xi: real, level: real)
    requires wj > 0.0 && wi > 0.0 && AtLevel(dj, wj, level, sj) && AtLevel(di, wi, level, si)
    requires sj < xj <= dj && xi < si
    ensures !NoLarger(xj, wj, xi, wi)
  {
    var e, f := xj - wj * level, wi * level - xi;
    assert e * wi > 0.0 && f * wj > 0.0;
    assert xj * wi == wj * level * wi + e * wi;
    assert xi * wj == wi * level * wj - f * wj;
  }

  lemma {:induction false} FairReaches(demands: seq<real>, weights: seq<real>, limit: real, level: real, share: seq<real>, x: seq<real>, i: nat)
    requires Valid(demands, weights, limit) && WaterFilled(demands, weights, limit, level, share)
    requires Feasible(demands, limit, x) && Fair(demands, weights, limit, x) && Feasible(demands, limit, share) && i < |x|
    ensures x[i] >= share[i]
  {
    if share[i] > x[i] {
      assert SomeoneLoses(weights, x, share, i);
      var j :| 0 <= j < |x| && share[j] < x[j] && NoLarger(x[j], weights[j], x[i], weights[i]);
      LevelsApart(demands[j], weights[j], share[j], x[j], demands[i], weights[i], share[i], x[i], level);
    }
  }

  lemma {:induction false} FairIsUnique(demands: seq<real>, weights: seq<real>, limit: real, level: real, share: seq<real>, x: seq<real>)
    requires Valid(demands, weights, limit) && WaterFilled(demands, weights, limit, level, share)
    requires Feasible(demands, limit, x) && Fair(demands, weights, limit, x)
    ensures x == share
  {
    ShareBelowDemand(demands, weights, limit, level, share);
    forall i | 0 <= i < |x| ensures share[i] <= x[i] {
      FairReaches(demands, weights, limit, level, share, x, i);
    }
    SumMonotone(x, demands);
    SumTight(share, x);
  }

  /** The water-filled split is the one feasible split that is weighted max-min fair. */
  lemma {:induction false} TheFairSplit(demands: seq<real>, weights: seq<real>, limit: real, level: real, share: seq<real>, x: seq<real>)
    requires Valid(demands, weights, limit) && WaterFilled(demands, weights, limit, level, share)
    ensures Feasible(demands, limit, x) && Fair(demands, weights, limit, x) <==> x == share
  {
    ShareBelowDemand(demands, weights, limit, level, share);
    LevelledIsFair(demands, weights, limit, level, share);
    if Feasible(demands, limit, x) && Fair(demands, weights, limit, x) {
      FairIsUnique(demands, weights, limit, level, share, x);
    }
  }

  // ---------------------------------------------------------------- water-filling by sort and loop

  function Ratios(demands: seq<real>, weights: seq<real>): (key: seq<real>)
    requires |demands| == |weights| && forall i :: 0 <= i < |weights| ==> weights[i] > 0.0
    ensures |key| == |demands|
    ensures forall i :: 0 <= i < |key| ==> key[i] == demands[i] / weights[i]
  {
    seq(|demands|, i requires 0 <= i < |demands| => demands[i] / weights[i])
  }

  /** The level serves this tenant's whole demand. */
  predicate Reaches(d: real, w: real, level: real) { w * level >= d }

  /** Every tenant in the list is satisfied at this level. */
  ghost predicate Satisfied(demands: seq<real>, weights: seq<real>, xs: seq<nat>, level: real)
    requires |demands| == |weights| && Within(xs, |demands|)
  {
    forall a :: 0 <= a < |xs| ==> demands[xs[a]] <= weights[xs[a]] * level
  }

  /** No tenant in the list is satisfied before this level is passed. */
  ghost predicate Unsatisfied(demands: seq<real>, weights: seq<real>, xs: seq<nat>, level: real)
    requires |demands| == |weights| && Within(xs, |demands|)
  {
    forall a :: 0 <= a < |xs| ==> weights[xs[a]] * level <= demands[xs[a]]
  }

  lemma {:induction false} SatisfiedRises(demands: seq<real>, weights: seq<real>, xs: seq<nat>, i: nat, low: real, level: real)
    requires |demands| == |weights| && Within(xs, |demands|) && i < |demands| && low <= level
    requires forall k :: 0 <= k < |weights| ==> weights[k] > 0.0
    requires Satisfied(demands, weights, xs, low) && demands[i] <= weights[i] * level
    ensures Satisfied(demands, weights, xs + [i], level)
  {
    forall a | 0 <= a < |xs + [i]| ensures demands[(xs + [i])[a]] <= weights[(xs + [i])[a]] * level {
      if a < |xs| {
        assert demands[xs[a]] <= weights[xs[a]] * low;
        MulMono(low, level, weights[xs[a]]);
      }
    }
  }

  lemma RatioOrders(d: real, w: real, e: real, v: real, level: real)
    requires w > 0.0 && v > 0.0 && d / w <= e / v && w * level < d
    ensures v * level <= e
  {
    var p, q := d / w, e / v;
    assert p * w == d && q * v == e;
    assert p <= level ==> p * w <= level * w;
    MulMono(level, q, v);
  }

  lemma {:induction false} RestUnsatisfied(demands: seq<real>, weights: seq<real>, order: seq<nat>, k: nat, level: real)
    requires |demands| == |weights| && (forall i :: 0 <= i < |weights| ==> weights[i] > 0.0)
    requires Within(order, |demands|) && Sorted(order, Ratios(demands, weights)) && k < |order|
    requires weights[order[k]] * level < demands[order[k]]
    ensures Unsatisfied(demands, weights, order[k..], level)
  {
    var key := Ratios(demands, weights);
    forall a | 0 <= a < |order[k..]| ensures weights[order[k..][a]] * level <= demands[order[k..][a]] {
      assert order[k..][a] == order[k + a];
      assert key[order[k]] <= key[order[k + a]];
      RatioOrders(demands[order[k]], weights[order[k]], demands[order[k + a]], weights[order[k + a]], level);
    }
  }

  /** The quotient rises when a tenant satisfied at it leaves, and what it leaves still covers the old level. */
  lemma LevelStep(rem: real, active: real, w: real, d: real, reached: real, level: real)
    requires active > 0.0 && level * active == rem && reached * active <= rem && w * level >= d
    ensures reached <= level && level * (active - w) <= rem - d
  {
    assert reached > level ==> reached * active > level * active;
    assert level * (active - w) == rem - w * level;
  }

  lemma ReachedBelow(rem: real, active: real, reached: real, level: real)
    requires active > 0.0 && level * active == rem && reached * active <= rem
    ensures reached <= level
  {
    assert reached > level ==> reached * active > level * active;
  }

  lemma Quotient(rem: real, active: real, level: real)
    requires active > 0.0 && rem >= 0.0 && level == rem / active
    ensures level * active == rem && level >= 0.0
  {
    assert level * active == rem;
    assert level < 0.0 ==> level * active < 0.0;
  }

  lemma LevelKeepsRoom(reached: real, active: real, rem: real)
    requires reached >= 0.0 && active >= 0.0 && reached * active <= rem
    ensures rem >= 0.0
  {
    MulMono(0.0, reached, active);
  }

  lemma {:induction false} OverDrop(order: seq<nat>, k: nat, v: seq<real>)
    requires Within(order, |v|) && k < |order|
    ensures Over(order[k..], v) == v[order[k]] + Over(order[k + 1..], v)
  {
    assert order[k..][1..] == order[k + 1..];
  }

  lemma {:induction false} OverSame(xs: seq<nat>, v: seq<real>, u: seq<real>)
    requires |v| == |u| && Within(xs, |v|) && forall a :: 0 <= a < |xs| ==> v[xs[a]] == u[xs[a]]
    ensures Over(xs, v) == Over(xs, u)
  {
    if xs != [] { OverSame(xs[1..], v, u); }
  }

  /** What a weight is worth at a level. */
  function Worth(w: real, level: real): real { w * level }

  ghost predicate Scaled(xs: seq<nat>, v: seq<real>, u: seq<real>, level: real)
    requires |v| == |u| && Within(xs, |v|)
  {
    forall a :: 0 <= a < |xs| ==> u[xs[a]] == Worth(v[xs[a]], level)
  }

  lemma WorthAdds(a: real, b: real, level: real)
    ensures Worth(a + b, level) == Worth(a, level) + Worth(b, level) && Worth(0.0, level) == 0.0
  {
  }

  lemma {:induction false} OverScaled(xs: seq<nat>, v: seq<real>, u: seq<real>, level: real)
    requires |v| == |u| && Within(xs, |v|) && Scaled(xs, v, u, level)
    ensures Over(xs, u) == Worth(Over(xs, v), level)
  {
    if xs != [] {
      forall a | 0 <= a < |xs[1..]| ensures u[xs[1..][a]] == Worth(v[xs[1..][a]], level) { assert xs[1..][a] == xs[a + 1]; }
      OverScaled(xs[1..], v, u, level);
      WorthAdds(v[xs[0]], Over(xs[1..], v), level);
    } else {
      WorthAdds(0.0, 0.0, level);
    }
  }

  lemma {:induction false} OverSplit(order: seq<nat>, k: nat, v: seq<real>)
    requires Within(order, |v|) && k <= |order|
    ensures Over(order, v) == Over(order[..k], v) + Over(order[k..], v)
  {
    if k > 0 {
      OverSplit(order[1..], k - 1, v);
      assert order[1..][..k - 1] == order[..k][1..];
      assert order[1..][k - 1..] == order[k..];
    } else {
      assert order[k..] == order;
    }
  }

  /** Tenants already served hold their demand, the others nothing yet. */
  ghost predicate ServedUpTo(demands: seq<real>, order: seq<nat>, alloc: seq<real>, k: nat)
    requires Within(order, |demands|) && |alloc| == |demands| && k <= |order|
  {
    forall a :: 0 <= a < k ==> alloc[order[a]] == demands[order[a]]
  }

  ghost predicate Covers(order: seq<nat>, n: nat) {
    Within(order, n) && Distinct(order) && (forall i: nat :: i < n ==> i in order)
  }

  lemma {:induction false} OrderCovers(demands: seq<real>, weights: seq<real>)
    requires |demands| == |weights| && forall i :: 0 <= i < |weights| ==> weights[i] > 0.0
    ensures var order := SortBy(Indices(|demands|), Ratios(demands, weights));
      Covers(order, |demands|) && Sorted(order, Ratios(demands, weights)) && |order| == |demands|
  {
    var xs, key := Indices(|demands|), Ratios(demands, weights);
    SortBySorts(xs, key);
    DistinctPermutes(xs, SortBy(xs, key));
    forall i: nat | i < |demands| ensures i in SortBy(xs, key) { assert xs[i] == i; }
    assert |SortBy(xs, key)| == |multiset(SortBy(xs, key))| == |multiset(xs)|;
  }

  /** The loop's state before its k-th tenant. */
  ghost predicate Draining(demands: seq<real>, weights: seq<real>, limit: real, order: seq<nat>, k: nat,
                           rem: real, active: real, reached: real)
    requires |demands| == |weights| && Within(order, |demands|) && k <= |order|
  {
    && rem == limit - Over(order[..k], demands) && active == Over(order[k..], weights)
    && reached >= 0.0 && reached * active <= rem && Satisfied(demands, weights, order[..k], reached)
  }

  lemma {:induction false} DrainStep(demands: seq<real>, weights: seq<real>, limit: real, order: seq<nat>, k: nat,
                                     rem: real, active: real, reached: real, level: real)
    requires Valid(demands, weights, limit) && Within(order, |demands|) && k < |order|
    requires Draining(demands, weights, limit, order, k, rem, active, reached)
    requires active > 0.0 && level >= 0.0 && level * active == rem && Reaches(demands[order[k]], weights[order[k]], level)
    ensures Draining(demands, weights, limit, order, k + 1, rem - demands[order[k]], active - weights[order[k]], level)
  {
    LevelStep(rem, active, weights[order[k]], demands[order[k]], reached, level);
    SatisfiedRises(demands, weights, order[..k], order[k], reached, level);
    OverAppend(order[..k], order[k], demands);
    assert order[..k + 1] == order[..k] + [order[k]];
    OverDrop(order, k, weights);
  }

  /** Tenants from position k on hold their weight's worth of the level. */
  ghost predicate CappedFrom(weights: seq<real>, order: seq<nat>, alloc: seq<real>, k: nat, level: real)
    requires Within(order, |weights|) && |alloc| == |weights| && k <= |order|
  {
    Scaled(order[k..], weights, alloc, level)
  }

  lemma SatisfiedAtLevel(d: real, w: real, reached: real, level: real)
    requires w > 0.0 && reached <= level && d <= w * reached
    ensures AtLevel(d, w, level, d)
  {
    MulMono(reached, level, w);
  }

  lemma {:induction false} StandsAtLevel(demands: seq<real>, weights: seq<real>, order: seq<nat>, k: nat,
                                         reached: real, level: real, alloc: seq<real>, i: nat)
    requires |demands| == |weights| == |alloc| && Covers(order, |demands|) && k <= |order| && i < |demands|
    requires weights[i] > 0.0 && reached <= level
    requires Satisfied(demands, weights, order[..k], reached) && ServedUpTo(demands, order, alloc, k)
    requires Unsatisfied(demands, weights, order[k..], level) && CappedFrom(weights, order, alloc, k, level)
    ensures AtLevel(demands[i], weights[i], level, alloc[i]) && alloc[i] <= demands[i]
  {
    assert i in order;
    var a :| 0 <= a < |order| && order[a] == i;
    if a < k {
      assert order[..k][a] == i;
      SatisfiedAtLevel(demands[i], weights[i], reached, level);
    } else {
      assert order[k..][a - k] == i;
    }
  }

  ghost predicate AllAtLevel(demands: seq<real>, weights: seq<real>, level: real, alloc: seq<real>)
    requires |demands| == |weights|
  {
    && |alloc| == |demands|
    && (forall i :: 0 <= i < |alloc| ==> AtLevel(demands[i], weights[i], level, alloc[i]) && alloc[i] <= demands[i])
  }

  lemma {:induction false} EverybodyAtLevel(demands: seq<real>, weights: seq<real>, order: seq<nat>, k: nat,
                                            reached: real, level: real, alloc: seq<real>)
    requires |demands| == |weights| == |alloc| && Covers(order, |demands|) && k <= |order| && reached <= level
    requires forall i :: 0 <= i < |weights| ==> weights[i] > 0.0
    requires Satisfied(demands, weights, order[..k], reached) && ServedUpTo(demands, order, alloc, k)
    requires Unsatisfied(demands, weights, order[k..], level) && CappedFrom(weights, order, alloc, k, level)
    ensures AllAtLevel(demands, weights, level, alloc)
  {
    forall i | 0 <= i < |alloc| ensures AtLevel(demands[i], weights[i], level, alloc[i]) && alloc[i] <= demands[i] {
      StandsAtLevel(demands, weights, order, k, reached, level, alloc, i);
    }
  }

  lemma {:induction false} ServedTotal(demands: seq<real>, order: seq<nat>, k: nat, alloc: seq<real>)
    requires |demands| == |alloc| && Within(order, |demands|) && k <= |order| && ServedUpTo(demands, order, alloc, k)
    ensures Over(order[..k], alloc) == Over(order[..k], demands)
  {
    forall a | 0 <= a < |order[..k]| ensures alloc[order[..k][a]] == demands[order[..k][a]] { assert order[..k][a] == order[a]; }
    OverSame(order[..k], alloc, demands);
  }

  /** What the split of the first k demands and of the level's worth for the rest adds up to. */
  lemma {:induction false} SplitTotal(demands: seq<real>, weights: seq<real>, order: seq<nat>, k: nat, level: real, alloc: seq<real>)
    requires |demands| == |weights| == |alloc| && (forall i :: 0 <= i < |weights| ==> weights[i] > 0.0) && k <= |order|
    requires order == SortBy(Indices(|demands|), Ratios(demands, weights))
    requires ServedUpTo(demands, order, alloc, k) && CappedFrom(weights, order, alloc, k, level)
    ensures Sum(alloc) == Over(order[..k], demands) + Worth(Over(order[k..], weights), level)
  {
    ServedTotal(demands, order, k, alloc);
    OverScaled(order[k..], weights, alloc, level);
    OverSplit(order, k, alloc);
    OverOrder(Ratios(demands, weights), alloc);
  }

  /** Everybody was satisfied: the last level reached serves all demands. */
  lemma {:induction false} AllSatisfied(demands: seq<real>, weights: seq<real>, limit: real, order: seq<nat>,
                                        rem: real, active: real, reached: real, alloc: seq<real>)
    requires Valid(demands, weights, limit) && Covers(order, |demands|)
    requires order == SortBy(Indices(|demands|), Ratios(demands, weights))
    requires Draining(demands, weights, limit, order, |order|, rem, active, reached)
    requires |alloc| == |demands| && ServedUpTo(demands, order, alloc, |order|)
    ensures WaterFilled(demands, weights, limit, reached, alloc)
  {
    EverybodyAtLevel(demands, weights, order, |order|, reached, reached, alloc);
    SplitTotal(demands, weights, order, |order|, reached, alloc);
    assert order[..|order|] == order;
    OverOrder(Ratios(demands, weights), demands);
    Emptied(reached, active, rem);
  }

  lemma Emptied(reached: real, active: real, rem: real)
    requires active == 0.0 && reached * active <= rem
    ensures rem >= 0.0 && Worth(active, reached) == 0.0
  {
    assert reached * active == 0.0;
  }

  lemma DryTotal(total: real, first: real, active: real, level: real, rem: real, limit: real)
    requires total == first + Worth(active, level) && rem == limit - first && level * active == rem
    ensures total == limit
  {
    assert Worth(active, level) == rem;
  }

  lemma {:induction false} DrySum(demands: seq<real>, weights: seq<real>, limit: real, order: seq<nat>, k: nat,
                                  rem: real, active: real, reached: real, level: real, alloc: seq<real>)
    requires Valid(demands, weights, limit) && k <= |order|
    requires order == SortBy(Indices(|demands|), Ratios(demands, weights))
    requires Draining(demands, weights, limit, order, k, rem, active, reached) && level * active == rem
    requires |alloc| == |demands| && ServedUpTo(demands, order, alloc, k) && CappedFrom(weights, order, alloc, k, level)
    ensures Sum(alloc) == limit
  {
    SplitTotal(demands, weights, order, k, level, alloc);
    DryTotal(Sum(alloc), Over(order[..k], demands), active, level, rem, limit);
  }

  lemma {:induction false} DryLevel(demands: seq<real>, weights: seq<real>, limit: real, order: seq<nat>, k: nat,
                                    rem: real, active: real, reached: real, level: real, alloc: seq<real>)
    requires Valid(demands, weights, limit) && Covers(order, |demands|) && k < |order|
    requires order == SortBy(Indices(|demands|), Ratios(demands, weights)) && Sorted(order, Ratios(demands, weights))
    requires Draining(demands, weights, limit, order, k, rem, active, reached)
    requires active > 0.0 && level * active == rem && !Reaches(demands[order[k]], weights[order[k]], level)
    requires |alloc| == |demands| && ServedUpTo(demands, order, alloc, k) && CappedFrom(weights, order, alloc, k, level)
    ensures AllAtLevel(demands, weights, level, alloc)
  {
    ReachedBelow(rem, active, reached, level);
    RestUnsatisfied(demands, weights, order, k, level);
    EverybodyAtLevel(demands, weights, order, k, reached, level, alloc);
  }

  lemma {:induction false} FilledFrom(demands: seq<real>, weights: seq<real>, limit: real, level: real, alloc: seq<real>)
    requires |demands| == |weights| && level >= 0.0 && AllAtLevel(demands, weights, level, alloc) && Sum(alloc) == limit
    ensures WaterFilled(demands, weights, limit, level, alloc)
  {
    SumMonotone(alloc, demands);
  }

  /** The pool ran dry at this level: the rest share it by weight and the split sums to the limit. */
  lemma {:induction false} PoolDry(demands: seq<real>, weights: seq<real>, limit: real, order: seq<nat>, k: nat,
                                   rem: real, active: real, reached: real, level: real, alloc: seq<real>)
    requires Valid(demands, weights, limit) && Covers(order, |demands|) && k < |order|
    requires order == SortBy(Indices(|demands|), Ratios(demands, weights)) && Sorted(order, Ratios(demands, weights))
    requires Draining(demands, weights, limit, order, k, rem, active, reached)
    requires active > 0.0 && level >= 0.0 && level * active == rem && !Reaches(demands[order[k]], weights[order[k]], level)
    requires |alloc| == |demands| && ServedUpTo(demands, order, alloc, k) && CappedFrom(weights, order, alloc, k, level)
    ensures WaterFilled(demands, weights, limit, level, alloc)
  {
    DryLevel(demands, weights, limit, order, k, rem, active, reached, level, alloc);
    DrySum(demands, weights, limit, order, k, rem, active, reached, level, alloc);
    FilledFrom(demands, weights, limit, level, alloc);
  }

  /** Gives the tenants from position k on their weight's worth of the level. */
  method CapRest(alloc: array<real>, weights: seq<real>, order: seq<nat>, k: nat, level: real, ghost demands: seq<real>)
    requires alloc.Length == |weights| == |demands| && Within(order, |weights|) && Distinct(order) && k <= |order|
    requires ServedUpTo(demands, order, alloc[..], k)
    modifies alloc
    ensures ServedUpTo(demands, order, alloc[..], k) && CappedFrom(weights, order, alloc[..], k, level)
  {
    for j := k to |order|
      invariant forall a :: 0 <= a < k ==> alloc[order[a]] == demands[order[a]]
      invariant forall a :: k <= a < j ==> alloc[order[a]] == weights[order[a]] * level
    {
      alloc[order[j]] := weights[order[j]] * level;
    }
  }

  method LevelOf(rem: real, active: real) returns (level: real)
    requires active > 0.0 && rem >= 0.0
    ensures level * active == rem && level >= 0.0
  {
    level := if active > 0.0 then rem / active else 0.0;
    Quotient(rem, active, level);
  }

  lemma {:induction false} ServedStep(demands: seq<real>, order: seq<nat>, alloc: seq<real>, k: nat)
    requires Within(order, |demands|) && |alloc| == |demands| && k < |order| && Distinct(order)
    requires ServedUpTo(demands, order, alloc, k)
    ensures ServedUpTo(demands, order, alloc[order[k] := demands[order[k]]], k + 1)
  {
  }

  /** One turn of the loop: the next tenant saturates, or the pool runs dry and the split is complete. */
  method Pour(alloc: array<real>, demands: seq<real>, weights: seq<real>, order: seq<nat>, k: nat, rem: real, active: real,
              ghost limit: real, ghost reached: real)
    returns (dry: bool, rem': real, active': real, ghost level: real)
    requires Valid(demands, weights, limit) && Covers(order, |demands|) && k < |order| && alloc.Length == |demands|
    requires order == SortBy(Indices(|demands|), Ratios(demands, weights)) && Sorted(order, Ratios(demands, weights))
    requires ServedUpTo(demands, order, alloc[..], k) && Draining(demands, weights, limit, order, k, rem, active, reached)
    modifies alloc
    ensures dry ==> WaterFilled(demands, weights, limit, level, alloc[..])
    ensures !dry ==> ServedUpTo(demands, order, alloc[..], k + 1)
    ensures !dry ==> Draining(demands, weights, limit, order, k + 1, rem', active', level)
  {
    var w, d := weights[order[k]], demands[order[k]];
    OverNonNeg(order[k..], weights);
    LevelKeepsRoom(reached, active, rem);
    var here := LevelOf(rem, active);
    dry, rem', active', level := !Reaches(d, w, here), rem, active, here;
    if !dry {
      DrainStep(demands, weights, limit, order, k, rem, active, reached, here);
      ServedStep(demands, order, alloc[..], k);
      ghost var before := alloc[..];
      alloc[order[k]] := d;
      assert alloc[..] == before[order[k] := d];
      rem', active' := rem - d, active - w;
    } else {
      CapRest(alloc, weights, order, k, here, demands);
      PoolDry(demands, weights, limit, order, k, rem, active, reached, here, alloc[..]);
    }
  }

  lemma {:induction false} DrainStart(demands: seq<real>, weights: seq<real>, limit: real, order: seq<nat>)
    requires Valid(demands, weights, limit) && order == SortBy(Indices(|demands|), Ratios(demands, weights))
    ensures Draining(demands, weights, limit, order, 0, limit, Sum(weights), 0.0)
  {
    OverOrder(Ratios(demands, weights), weights);
    assert order[0..] == order;
  }

  /** waterfillContinuous: cheapest demand per weight first; the pool either satisfies everybody or runs dry at one level. */
  method WaterfillContinuous(demands: seq<real>, weights: seq<real>, limit: real) returns (share: seq<real>)
    requires Valid(demands, weights, limit)
    ensures HasLevel(demands, weights, limit, share)
  {
    var n := |demands|;
    var alloc := new real[n](_ => 0.0);
    var order := SortBy(Indices(n), Ratios(demands, weights));
    OrderCovers(demands, weights);
    var dry, rem := false, limit;
    var active := SumOf(weights);
    DrainStart(demands, weights, limit, order);
    ghost var level := 0.0;
    for k := 0 to n
      invariant ServedUpTo(demands, order, alloc[..], k)
      invariant Draining(demands, weights, limit, order, k, rem, active, level)
    {
      dry, rem, active, level := Pour(alloc, demands, weights, order, k, rem, active, limit, level);
      if dry {
        assert WaterFilled(demands, weights, limit, level, alloc[..]);
        return alloc[..];
      }
    }
    AllSatisfied(demands, weights, limit, order, rem, active, level, alloc[..]);
    share := alloc[..];
  }

  method SumOf(xs: seq<real>) returns (s: real)
    ensures s == Sum(xs)
  {
    s := 0.0;
    for i := 0 to |xs|
      invariant s == Sum(xs[..i])
    {
      SumPrefix(xs, i);
      s := s + xs[i];
    }
    assert xs[..|xs|] == xs;
  }
}
