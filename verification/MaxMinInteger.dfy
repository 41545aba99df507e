/** Integer weighted max-min: the water-filled split floored, then dripped one credit at a time to the neediest tenant. */
module MaxMinInteger {
  import opened Numbers
  import opened Wrappers
  import opened MaxMin

  // ---------------------------------------------------------------- integer totals

  function Total(a: seq<int>): int {
    if a == [] then 0 else Total(a[..|a| - 1]) + a[|a| - 1]
  }

  function Reals(a: seq<int>): (r: seq<real>)
    ensures |r| == |a| && forall i :: 0 <= i < |a| ==> r[i] == a[i] as real
  {
    seq(|a|, i requires 0 <= i < |a| => a[i] as real)
  }

  function Ceilings(d: seq<real>): (r: seq<int>)
    ensures |r| == |d| && forall i :: 0 <= i < |d| ==> r[i] == Ceil(d[i])
  {
    seq(|d|, i requires 0 <= i < |d| => Ceil(d[i]))
  }

  lemma {:induction false} TotalIsSum(a: seq<int>)
    ensures Total(a) as real == Sum(Reals(a))
  {
    if a != [] {
      var n := |a| - 1;
      TotalIsSum(a[..n]);
      assert Reals(a)[..n] == Reals(a[..n]);
    }
  }

  lemma {:induction false} TotalBump(a: seq<int>, i: nat)
    requires i < |a|
    ensures Total(a[i := a[i] + 1]) == Total(a) + 1
  {
    var n := |a| - 1;
    if i < n {
      TotalBump(a[..n], i);
      assert a[i := a[i] + 1][..n] == a[..n][i := a[i] + 1];
    } else {
      assert a[i := a[i] + 1][..n] == a[..n];
    }
  }

  lemma TotalPrefix(a: seq<int>, i: nat)
    requires i < |a|
    ensures Total(a[..i + 1]) == Total(a[..i]) + a[i]
  {
    assert a[..i + 1][..i] == a[..i];
  }

  lemma {:induction false} TotalOrdered(a: seq<int>, b: seq<int>)
    requires |a| == |b| && forall i :: 0 <= i < |a| ==> a[i] <= b[i]
    ensures Total(a) <= Total(b)
  {
    if a != [] { TotalOrdered(a[..|a| - 1], b[..|a| - 1]); }
  }

  // ---------------------------------------------------------------- what the drip keeps

  /** Normalised service of a tenant holding a credits. */
  function Service(a: int, w: real): real
    requires w > 0.0
  {
    a as real / w
  }

  /** Each tenant holds the floor or the ceiling of its water-filled share. */
  ghost predicate Rounded(share: seq<real>, a: seq<int>) {
    |a| == |share| && forall i :: 0 <= i < |a| ==> a[i] == Floor(share[i]) || a[i] == Ceil(share[i])
  }

  ghost predicate Bumped(share: real, a: int) { a > Floor(share) }

  /** Tenant i comes before tenant j in the drip: less normalised service, or as much and listed first. */
  predicate Ahead(a: int, w: real, i: nat, b: int, v: real, j: nat)
    requires w > 0.0 && v > 0.0
  {
    Service(a, w) < Service(b, v) || (Service(a, w) == Service(b, v) && i < j)
  }

  /** A dripped credit never overtakes a tenant that still wants one and comes before. */
  ghost predicate NeediestFirst(demands: seq<real>, weights: seq<real>, share: seq<real>, a: seq<int>)
    requires |a| == |share| == |demands| == |weights| && forall i :: 0 <= i < |weights| ==> weights[i] > 0.0
  {
    forall i, j :: 0 <= i < |a| && 0 <= j < |a| && Bumped(share[i], a[i]) && !Bumped(share[j], a[j]) && Wants(demands[j], a[j]) ==>
      Ahead(Floor(share[i]), weights[i], i, a[j], weights[j], j)
  }

  predicate Wants(d: real, a: int) { (a as real) < d }

  /** Of the tenants that still want a credit, this one comes first. */
  ghost predicate Least(demands: seq<real>, weights: seq<real>, a: seq<int>, best: nat)
    requires |a| == |demands| == |weights| && (forall i :: 0 <= i < |weights| ==> weights[i] > 0.0)
  {
    && best < |a| && Wants(demands[best], a[best])
    && forall j :: 0 <= j < |a| && j != best && Wants(demands[j], a[j]) ==> Ahead(a[best], weights[best], best, a[j], weights[j], j)
  }

  ghost predicate AllMet(demands: seq<real>, a: seq<int>)
    requires |a| == |demands|
  {
    forall j :: 0 <= j < |a| ==> !Wants(demands[j], a[j])
  }

  /** What weightedMaxMin promises, for every real demand. */
  ghost predicate Split(demands: seq<real>, weights: seq<real>, limit: real, share: seq<real>, a: seq<int>) {
    && Valid(demands, weights, limit) && |share| == |demands| && Rounded(share, a)
    && NeediestFirst(demands, weights, share, a)
    && Total(a) as real == Min(Total(Ceilings(demands)) as real, Floor(limit) as real)
  }

  lemma BelowLevel(a: int, w: real, level: real)
    requires w > 0.0
    ensures (a as real) < w * level <==> Service(a, w) < level
  {
    var q, x := Service(a, w), a as real;
    assert q * w == x;
    assert q < level ==> q * w < level * w;
    assert q >= level ==> q * w >= level * w;
  }

  lemma NextIsCeil(share: real, a: int)
    requires (a == Floor(share) || a == Ceil(share)) && (a as real) < share
    ensures a + 1 == Ceil(share)
  {
  }

  lemma {:induction false} SomeShort(share: seq<real>, a: seq<int>, limit: real)
    requires |a| == |share| && Sum(share) == limit && Total(a) < Floor(limit)
    ensures exists i :: 0 <= i < |a| && (a[i] as real) < share[i]
  {
    TotalIsSum(a);
    if forall i :: 0 <= i < |a| ==> share[i] <= a[i] as real { SumMonotone(share, Reals(a)); }
  }

  lemma Outranked(di: real, wi: real, si: real, ai: int, db: real, wb: real, sb: real, ab: int, level: real)
    requires wi > 0.0 && wb > 0.0 && AtLevel(di, wi, level, si) && AtLevel(db, wb, level, sb)
    requires (ai as real) < si && Wants(db, ab) && Service(ab, wb) <= Service(ai, wi)
    ensures (ab as real) < sb
  {
    BelowLevel(ai, wi, level);
    BelowLevel(ab, wb, level);
  }

  /** While credits are left, the neediest tenant is one whose share was floored and not yet made up. */
  lemma {:induction false} NeediestIsShort(demands: seq<real>, weights: seq<real>, limit: real, level: real, share: seq<real>,
                                           a: seq<int>, best: nat)
    requires Valid(demands, weights, limit) && WaterFilled(demands, weights, limit, level, share) && |a| == |share|
    requires Total(a) < Floor(limit) && Least(demands, weights, a, best)
    ensures (a[best] as real) < share[best]
  {
    if Sum(share) == Sum(demands) {
      ShareBelowDemand(demands, weights, limit, level, share);
      SumTight(share, demands);
    } else {
      SomeShort(share, a, limit);
      var i :| 0 <= i < |a| && (a[i] as real) < share[i];
      ShareWanted(demands, weights, limit, level, share, a, i);
      assert AtLevel(demands[i], weights[i], level, share[i]) && AtLevel(demands[best], weights[best], level, share[best]);
      Outranked(demands[i], weights[i], share[i], a[i], demands[best], weights[best], share[best], a[best], level);
    }
  }

  lemma ShareWanted(demands: seq<real>, weights: seq<real>, limit: real, level: real, share: seq<real>, a: seq<int>, i: nat)
    requires Valid(demands, weights, limit) && WaterFilled(demands, weights, limit, level, share) && |a| == |share| && i < |a|
    requires (a[i] as real) < share[i]
    ensures Wants(demands[i], a[i])
  {
    assert AtLevel(demands[i], weights[i], level, share[i]);
  }

  lemma {:induction false} DripStep(demands: seq<real>, weights: seq<real>, limit: real, share: seq<real>, a: seq<int>, best: nat)
    requires Valid(demands, weights, limit) && |share| == |demands| && Rounded(share, a) && best < |a|
    requires NeediestFirst(demands, weights, share, a) && (a[best] as real) < share[best] && Least(demands, weights, a, best)
    ensures Rounded(share, a[best := a[best] + 1]) && NeediestFirst(demands, weights, share, a[best := a[best] + 1])
  {
    NextIsCeil(share[best], a[best]);
    var b := a[best := a[best] + 1];
    forall i, j | 0 <= i < |b| && 0 <= j < |b| && Bumped(share[i], b[i]) && !Bumped(share[j], b[j]) && Wants(demands[j], b[j])
      ensures Ahead(Floor(share[i]), weights[i], i, b[j], weights[j], j)
    {
      assert j != best && b[j] == a[j];
      if i == best { assert a[best] == Floor(share[best]); } else { assert b[i] == a[i]; }
    }
  }

  /** The drip ends with the whole limit handed out, or with every demand met. */
  lemma {:induction false} DripTotal(demands: seq<real>, weights: seq<real>, limit: real, level: real, share: seq<real>, a: seq<int>)
    requires Valid(demands, weights, limit) && WaterFilled(demands, weights, limit, level, share) && Rounded(share, a)
    requires Total(a) <= Floor(limit)
    requires Total(a) == Floor(limit) || AllMet(demands, a)
    ensures Total(a) as real == Min(Total(Ceilings(demands)) as real, Floor(limit) as real)
  {
    ShareBelowDemand(demands, weights, limit, level, share);
    TotalOrdered(a, Ceilings(demands));
    if Total(a) < Floor(limit) { TotalOrdered(Ceilings(demands), a); }
  }

  lemma {:induction false} FloorsFit(demands: seq<real>, weights: seq<real>, limit: real, level: real, share: seq<real>, a: seq<int>)
    requires Valid(demands, weights, limit) && WaterFilled(demands, weights, limit, level, share)
    requires |a| == |share| && forall i :: 0 <= i < |a| ==> a[i] == Floor(share[i])
    ensures Dripping(demands, weights, limit, share, a)
  {
    TotalIsSum(a);
    SumMonotone(Reals(a), share);
  }

  // ---------------------------------------------------------------- the operations

  datatype AllocationError = LengthMismatch | BadLimit | BadWeight(i: nat) | BadDemand(i: nat)

  /** The argument an error names is at fault. */
  predicate AtFault(error: AllocationError, demands: seq<real>, weights: seq<real>, limit: real) {
    match error
    case LengthMismatch => |demands| != |weights|
    case BadLimit => limit < 0.0
    case BadWeight(i) => i < |weights| && weights[i] <= 0.0
    case BadDemand(i) => i < |demands| && demands[i] < 0.0
  }

  method Validate(demands: seq<real>, weights: seq<real>, limit: real) returns (error: Option<AllocationError>)
    ensures error.None? <==> Valid(demands, weights, limit)
    ensures error.Some? ==> AtFault(error.value, demands, weights, limit)
  {
    if |demands| != |weights| { return Some(LengthMismatch); }
    if limit < 0.0 { return Some(BadLimit); }
    for i := 0 to |weights|
      invariant forall k :: 0 <= k < i ==> weights[k] > 0.0
    {
      if weights[i] <= 0.0 { return Some(BadWeight(i)); }
    }
    for i := 0 to |demands|
      invariant forall k :: 0 <= k < i ==> demands[k] >= 0.0
    {
      if demands[i] < 0.0 { return Some(BadDemand(i)); }
    }
    return None;
  }

  /** The first tenant of least service among those that still want a credit. */
  method Neediest(a: seq<int>, demands: seq<real>, weights: seq<real>) returns (best: Option<nat>)
    requires |a| == |demands| == |weights| && forall i :: 0 <= i < |weights| ==> weights[i] > 0.0
    ensures best.None? ==> AllMet(demands, a)
    ensures best.Some? ==> Least(demands, weights, a, best.value)
  {
    best := None;
    var bestRatio: Option<real> := None;
    for i := 0 to |a|
      invariant best.None? ==> bestRatio.None? && forall j :: 0 <= j < i ==> !Wants(demands[j], a[j])
      invariant best.Some? ==> best.value < i && Wants(demands[best.value], a[best.value])
      invariant best.Some? ==> bestRatio == Some(Service(a[best.value], weights[best.value]))
      invariant best.Some? ==> forall j :: 0 <= j < i && Wants(demands[j], a[j]) ==>
        bestRatio.value <= Service(a[j], weights[j]) && (j < best.value ==> bestRatio.value < Service(a[j], weights[j]))
    {
      if Wants(demands[i], a[i]) {
        var ratio := Service(a[i], weights[i]);
        if bestRatio.None? || ratio < bestRatio.value {
          bestRatio, best := Some(ratio), Some(i);
        }
      }
    }
  }

  method TotalOf(a: array<int>) returns (s: int)
    ensures s == Total(a[..])
  {
    s := 0;
    for i := 0 to a.Length
      invariant s == Total(a[..i])
    {
      TotalPrefix(a[..], i);
      assert a[..][..i + 1] == a[..i + 1] && a[..][..i] == a[..i];
      s := s + a[i];
    }
    assert a[..a.Length] == a[..];
  }

  method FloorAll(share: seq<real>) returns (a: array<int>)
    ensures fresh(a) && a.Length == |share| && forall i :: 0 <= i < |share| ==> a[i] == Floor(share[i])
  {
    a := new int[|share|](i requires 0 <= i < |share| => Floor(share[i]));
  }

  /** The drip's state: some shares rounded up, the neediest first, and the limit not passed. */
  ghost predicate Dripping(demands: seq<real>, weights: seq<real>, limit: real, share: seq<real>, a: seq<int>)
    requires Valid(demands, weights, limit) && |share| == |demands|
  {
    Rounded(share, a) && NeediestFirst(demands, weights, share, a) && Total(a) <= Floor(limit)
  }

  lemma {:induction false} DripOne(demands: seq<real>, weights: seq<real>, limit: real, level: real, share: seq<real>, a: seq<int>, best: nat)
    requires Valid(demands, weights, limit) && WaterFilled(demands, weights, limit, level, share)
    requires Dripping(demands, weights, limit, share, a) && Total(a) < Floor(limit) && Least(demands, weights, a, best)
    ensures Dripping(demands, weights, limit, share, a[best := a[best] + 1])
    ensures Total(a[best := a[best] + 1]) == Total(a) + 1
  {
    NeediestIsShort(demands, weights, limit, level, share, a, best);
    DripStep(demands, weights, limit, share, a, best);
    TotalBump(a, best);
  }

  /** One credit for the neediest tenant, if any tenant wants one. */
  method DripNext(alloc: array<int>, demands: seq<real>, weights: seq<real>, limit: real, ghost level: real, ghost share: seq<real>)
    returns (served: bool)
    requires Valid(demands, weights, limit) && WaterFilled(demands, weights, limit, level, share)
    requires Dripping(demands, weights, limit, share, alloc[..]) && Total(alloc[..]) < Floor(limit)
    modifies alloc
    ensures Dripping(demands, weights, limit, share, alloc[..])
    ensures served ==> Total(alloc[..]) == Total(old(alloc[..])) + 1
    ensures !served ==> alloc[..] == old(alloc[..]) && AllMet(demands, alloc[..])
  {
    var best := Neediest(alloc[..], demands, weights);
    if best.None? { return false; }
    ghost var before := alloc[..];
    DripOne(demands, weights, limit, level, share, before, best.value);
    alloc[best.value] := alloc[best.value] + 1;
    assert alloc[..] == before[best.value := before[best.value] + 1];
    return true;
  }

  /** Hands the leftover credits out, neediest first, until none is left or nobody wants one. */
  method Drip(alloc: array<int>, demands: seq<real>, weights: seq<real>, limit: real, ghost level: real, ghost share: seq<real>)
    requires Valid(demands, weights, limit) && WaterFilled(demands, weights, limit, level, share)
    requires Dripping(demands, weights, limit, share, alloc[..])
    modifies alloc
    ensures Split(demands, weights, limit, share, alloc[..])
  {
    var total := TotalOf(alloc);
    var leftover := Floor(limit) - total;
    while leftover > 0
      invariant leftover >= 0 && leftover == Floor(limit) - Total(alloc[..])
      invariant Dripping(demands, weights, limit, share, alloc[..])
    {
      var served := DripNext(alloc, demands, weights, limit, level, share);
      if !served { break; }
      leftover := leftover - 1;
    }
    DripTotal(demands, weights, limit, level, share, alloc[..]);
  }

  /** A split of the water-filled shares, which TheFairSplit shows to be the only fair ones. */
  ghost predicate SplitsFairly(demands: seq<real>, weights: seq<real>, limit: real, alloc: seq<int>)
    requires |demands| == |weights|
  {
    exists level: real, share: seq<real> ::
      WaterFilled(demands, weights, limit, level, share) && Split(demands, weights, limit, share, alloc)
  }

  /** The public split. */
  method WeightedMaxMin(demands: seq<real>, weights: seq<real>, limit: real) returns (r: Result<seq<int>, AllocationError>)
    ensures r.Ok? <==> Valid(demands, weights, limit)
    ensures r.Err? ==> AtFault(r.error, demands, weights, limit)
    ensures r.Ok? ==> SplitsFairly(demands, weights, limit, r.value)
  {
    var error := Validate(demands, weights, limit);
    if error.Some? { return Err(error.value); }
    var share := WaterfillContinuous(demands, weights, limit);
    ghost var level :| WaterFilled(demands, weights, limit, level, share);
    var alloc := FloorAll(share);
    FloorsFit(demands, weights, limit, level, share, alloc[..]);
    Drip(alloc, demands, weights, limit, level, share);
    r := Ok(alloc[..]);
  }

  // ---------------------------------------------------------------- what the split promises a tenant

  /** The static slice of a tenant, floor(w * limit / W), for total weight W. */
  function Slice(w: real, limit: real, total: real): int
    requires total > 0.0
  {
    Floor(w * limit / total)
  }

  function GuaranteedShare(weights: seq<real>, limit: real, i: nat): int
    requires i < |weights| && Sum(weights) > 0.0
  {
    Slice(weights[i], limit, Sum(weights))
  }

  lemma LevelIsHighEnough(w: real, limit: real, total: real, level: real)
    requires w > 0.0 && total > 0.0 && limit <= total * level
    ensures Slice(w, limit, total) <= Floor(w * level)
  {
    var q := w * limit / total;
    assert q * total == w * limit;
    MulMono(limit, total * level, w);
    assert w * limit <= w * level * total;
    assert q > w * level ==> q * total > w * level * total;
  }

  lemma {:induction false} WeightsPositive(weights: seq<real>)
    requires weights != [] && forall i :: 0 <= i < |weights| ==> weights[i] > 0.0
    ensures Sum(weights) > 0.0
  {
    if |weights| > 1 { WeightsPositive(weights[..|weights| - 1]); }
  }

  function Times(v: seq<real>, c: real): (u: seq<real>)
    ensures |u| == |v| && forall i :: 0 <= i < |u| ==> u[i] == Worth(v[i], c)
  {
    seq(|v|, i requires 0 <= i < |v| => Worth(v[i], c))
  }

  lemma TimesPrefix(v: seq<real>, c: real, n: nat)
    requires n <= |v|
    ensures Times(v, c)[..n] == Times(v[..n], c)
  {
  }

  lemma {:induction false} SumTimes(v: seq<real>, c: real)
    ensures Sum(Times(v, c)) == Worth(Sum(v), c)
  {
    if v == [] {
      WorthAdds(0.0, 0.0, c);
    } else {
      var n := |v| - 1;
      SumTimes(v[..n], c);
      TimesPrefix(v, c, n);
      WorthAdds(Sum(v[..n]), v[n], c);
    }
  }

  lemma {:induction false} LevelCoversLimit(demands: seq<real>, weights: seq<real>, limit: real, level: real, share: seq<real>)
    requires Valid(demands, weights, limit) && WaterFilled(demands, weights, limit, level, share) && Sum(share) == limit
    ensures limit <= Sum(weights) * level
  {
    var caps := Times(weights, level);
    forall i | 0 <= i < |share| ensures share[i] <= caps[i] { assert AtLevel(demands[i], weights[i], level, share[i]); }
    SumMonotone(share, caps);
    SumTimes(weights, level);
  }

  lemma {:induction false} ShortMeansDry(demands: seq<real>, weights: seq<real>, limit: real, level: real, share: seq<real>, i: nat)
    requires |demands| == |weights| && WaterFilled(demands, weights, limit, level, share) && i < |share| && share[i] < demands[i]
    requires Feasible(demands, limit, share)
    ensures Sum(share) == limit
  {
    if Sum(share) == Sum(demands) { SumTight(share, demands); }
  }

  lemma CappedSlice(d: real, w: real, level: real, share: real, limit: real, total: real)
    requires w > 0.0 && total > 0.0 && limit <= total * level && AtLevel(d, w, level, share) && share < d
    ensures Floor(share) >= Slice(w, limit, total)
  {
    LevelIsHighEnough(w, limit, total, level);
  }

  lemma {:induction false} ShareOrSlice(demands: seq<real>, weights: seq<real>, limit: real, level: real, share: seq<real>, i: nat, total: real)
    requires Valid(demands, weights, limit) && WaterFilled(demands, weights, limit, level, share) && i < |share|
    requires total == Sum(weights) && total > 0.0
    ensures 0.0 <= share[i] <= demands[i]
    ensures share[i] == demands[i] || Floor(share[i]) >= Slice(weights[i], limit, total)
  {
    ShareBelowDemand(demands, weights, limit, level, share);
    if share[i] < demands[i] {
      ShortMeansDry(demands, weights, limit, level, share, i);
      LevelCoversLimit(demands, weights, limit, level, share);
      CappedSlice(demands[i], weights[i], level, share[i], limit, total);
    }
  }

  lemma RoundedWithin(share: real, demand: real, a: int)
    requires 0.0 <= share <= demand && (a == Floor(share) || a == Ceil(share))
    ensures 0 <= a <= Ceil(demand) && (share == demand ==> a >= Floor(demand))
  {
  }

  /** Every tenant gets its demand or its guaranteed share, the smaller, and never more than its demand rounded up. */
  lemma {:induction false} Guarantee(demands: seq<real>, weights: seq<real>, limit: real, level: real, share: seq<real>, a: seq<int>, i: nat)
    requires WaterFilledSplit(demands, weights, limit, level, share, a) && i < |a|
    ensures Sum(weights) > 0.0 && 0 <= a[i] <= Ceil(demands[i])
    ensures a[i] >= Floor(demands[i]) || a[i] >= GuaranteedShare(weights, limit, i)
  {
    WeightsPositive(weights);
    ShareOrSlice(demands, weights, limit, level, share, i, Sum(weights));
    RoundedWithin(share[i], demands[i], a[i]);
  }

  ghost predicate WaterFilledSplit(demands: seq<real>, weights: seq<real>, limit: real, level: real, share: seq<real>, a: seq<int>) {
    Valid(demands, weights, limit) && WaterFilled(demands, weights, limit, level, share) && Split(demands, weights, limit, share, a)
  }

  predicate WholeNumber(x: real) { x == Floor(x) as real }

  ghost predicate Whole(d: seq<real>) {
    forall i :: 0 <= i < |d| ==> WholeNumber(d[i])
  }

  lemma WholeCeil(x: real)
    ensures x <= Ceil(x) as real
    ensures WholeNumber(x) <==> x == Ceil(x) as real
  {
    RoundsTo(x, Floor(x), Ceil(x));
  }

  lemma RoundsTo(x: real, f: int, c: int)
    requires f as real <= x < f as real + 1.0 && c as real - 1.0 < x <= c as real
    ensures x == f as real <==> x == c as real
  {
    if x == f as real { assert c - 1 < f <= c; }
    if x == c as real { assert f <= c < f + 1; }
  }

  lemma {:induction false} CeilingsOf(d: seq<real>)
    ensures Sum(d) <= Total(Ceilings(d)) as real
    ensures Sum(d) == Total(Ceilings(d)) as real <==> Whole(d)
  {
    TotalIsSum(Ceilings(d));
    var up := Reals(Ceilings(d));
    forall i | 0 <= i < |d| ensures d[i] <= up[i] && (WholeNumber(d[i]) <==> d[i] == up[i]) {
      assert up[i] == Ceil(d[i]) as real;
      WholeCeil(d[i]);
    }
    SumMonotone(d, up);
    if Sum(d) == Sum(up) { SumTight(d, up); }
    if Whole(d) { SumMonotone(up, d); }
  }

  /**
   * The documented total, min(sum of demands, floor(limit)), is exact just when the demands are whole or add up to
   * at least floor(limit).
   */
  lemma {:induction false} ExactTotalWhen(demands: seq<real>, weights: seq<real>, limit: real, share: seq<real>, a: seq<int>)
    requires Split(demands, weights, limit, share, a)
    ensures Total(a) as real == Min(Sum(demands), Floor(limit) as real) <==> Whole(demands) || Sum(demands) >= Floor(limit) as real
  {
    CeilingsOf(demands);
  }

  /** For whole demands: the exact total, no tenant above its demand, and the guaranteed share for whoever wants it. */
  lemma {:induction false} WholeDemands(demands: seq<real>, weights: seq<real>, limit: real, level: real, share: seq<real>, a: seq<int>)
    requires Whole(demands) && WaterFilledSplit(demands, weights, limit, level, share, a)
    ensures Total(a) as real == Min(Sum(demands), Floor(limit) as real)
    ensures forall i :: 0 <= i < |a| ==> Sum(weights) > 0.0 && Honoured(demands[i], a[i], GuaranteedShare(weights, limit, i))
  {
    CeilingsOf(demands);
    forall i | 0 <= i < |a| ensures Sum(weights) > 0.0 && Honoured(demands[i], a[i], GuaranteedShare(weights, limit, i)) {
      Guarantee(demands, weights, limit, level, share, a, i);
      WholeHonoured(demands[i], a[i], GuaranteedShare(weights, limit, i));
    }
  }

  ghost predicate Honoured(demand: real, a: int, slice: int) {
    a as real <= demand && (a as real == demand || a >= slice)
  }

  lemma WholeHonoured(demand: real, a: int, slice: int)
    requires WholeNumber(demand) && 0 <= a <= Ceil(demand) && (a >= Floor(demand) || a >= slice)
    ensures Honoured(demand, a, slice)
  {
    WholeCeil(demand);
    var f, c := Floor(demand), Ceil(demand);
    assert f == c;
  }

  /** Half a credit of demand under a limit of one is rounded up past the demand. */
  lemma {:induction false} FractionalDemandOvershoots(level: real, share: seq<real>, a: seq<int>)
    requires WaterFilledSplit([0.5], [1.0], 1.0, level, share, a)
    ensures a == [1] && !(Total(a) as real == Min(Sum([0.5]), Floor(1.0) as real))
  {
    assert Ceilings([0.5]) == [1];
    assert Total([1]) == Total([]) + 1 by { assert [1][..0] == []; }
    assert Total(a) == Total(a[..0]) + a[0];
    assert Sum([0.5]) == Sum([]) + 0.5 by { assert [0.5][..0] == []; }
  }

  /** The guaranteed shares together fit into the limit. */
  lemma {:induction false} GuaranteesFit(weights: seq<real>, limit: real, g: seq<int>)
    requires weights != [] && (forall i :: 0 <= i < |weights| ==> weights[i] > 0.0) && limit >= 0.0 && Sum(weights) > 0.0
    requires |g| == |weights| && forall i :: 0 <= i < |g| ==> g[i] == GuaranteedShare(weights, limit, i)
    ensures Total(g) as real <= limit
  {
    SlicesFit(weights, limit, g, Sum(weights), limit / Sum(weights));
  }

  lemma {:induction false} SlicesBelow(weights: seq<real>, limit: real, g: seq<int>, total: real, rate: real)
    requires total > 0.0 && rate == limit / total
    requires |g| == |weights| && forall i :: 0 <= i < |g| ==> g[i] == Slice(weights[i], limit, total)
    ensures Sum(Reals(g)) <= Sum(Times(weights, rate))
  {
    forall i | 0 <= i < |g| ensures Reals(g)[i] <= Times(weights, rate)[i] { SliceAs(weights[i], limit, total, rate); }
    SumMonotone(Reals(g), Times(weights, rate));
  }

  lemma {:induction false} SlicesFit(weights: seq<real>, limit: real, g: seq<int>, total: real, rate: real)
    requires total == Sum(weights) && total > 0.0 && rate == limit / total
    requires |g| == |weights| && forall i :: 0 <= i < |g| ==> g[i] == Slice(weights[i], limit, total)
    ensures Total(g) as real <= limit
  {
    SlicesBelow(weights, limit, g, total, rate);
    SumTimes(weights, rate);
    TotalIsSum(g);
    RateTimes(rate, total, limit);
  }

  lemma RateTimes(rate: real, total: real, limit: real)
    requires total > 0.0 && rate == limit / total
    ensures Worth(total, rate) == limit
  {
  }

  lemma SliceAs(w: real, limit: real, total: real, rate: real)
    requires total > 0.0 && rate == limit / total
    ensures Slice(w, limit, total) as real <= Worth(w, rate)
  {
    assert rate * total == limit;
    assert w * rate * total == w * limit;
    assert w * limit / total == w * rate;
  }
}
