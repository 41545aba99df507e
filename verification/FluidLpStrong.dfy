/**
 * Strong duality: at optimal prices some feasible plan earns the whole dual optimum. The constraints on such a plan are solved
 * by eliminating one type after the other, and every row on the way is backed by prices.
 */
module FluidLpStrong {
  import opened Numbers
  import opened FluidLp
  import opened FluidLpOptimality
  import opened Greedy

  /** The constraint a.x <= b, with the weight and the prices that back it. */
  datatype Row = Row(a: seq<real>, b: real, weight: real, prices: Vec)

  ghost predicate Holds(row: Row, x: seq<real>) {
    |row.a| == |x| && Spent(row.a, x) <= row.b
  }

  function Affine(s: real, y: real, t: real, z: real): real { s * y + t * z }

  function Mixed(s: real, u: Vec, t: real, v: Vec): Vec { Vec(Affine(s, u.r, t, v.r), Affine(s, u.c, t, v.c), Affine(s, u.k, t, v.k)) }

  /** The positive combination s*p + t*q of two rows. */
  function Combine(s: real, p: Row, t: real, q: Row): Row
    requires |p.a| == |q.a|
  {
    Row(seq(|p.a|, i requires 0 <= i < |p.a| => Affine(s, p.a[i], t, q.a[i])), Affine(s, p.b, t, q.b),
        Affine(s, p.weight, t, q.weight), Mixed(s, p.prices, t, q.prices))
  }

  lemma {:induction false} CombineSpent(s: real, p: Row, t: real, q: Row, x: seq<real>)
    requires |p.a| == |q.a| == |x|
    ensures Spent(Combine(s, p, t, q).a, x) == Affine(s, Spent(p.a, x), t, Spent(q.a, x))
  {
    var c := Combine(s, p, t, q);
    var u, v, w := Products(p.a, x), Products(q.a, x), Products(c.a, x);
    forall i | 0 <= i < |x| ensures w[i] == s * u[i] + t * v[i] { AffineTimes(s, p.a[i], t, q.a[i], x[i]); }
    SumLinear(u, v, s, t, w);
  }

  lemma AffineTimes(s: real, y: real, t: real, z: real, x: real)
    ensures Affine(s, y, t, z) * x == s * (y * x) + t * (z * x)
  {
  }

  // ---------------------------------------------------------------- rows backed by prices

  /** What a row demands of a type beyond its weighted value at the row's prices. */
  function Demand(t: WorkloadType, a: real, weight: real, prices: Vec): real {
    a + t.weight * (weight * t.value - Dot(t.Use(), prices))
  }

  function Excess(types: seq<WorkloadType>, row: Row): (s: seq<real>)
    requires |row.a| == |types|
    ensures |s| == |types|
    ensures forall i :: 0 <= i < |s| ==> s[i] == PosPart(Demand(types[i], row.a[i], row.weight, row.prices))
  {
    seq(|types|, i requires 0 <= i < |types| => PosPart(Demand(types[i], row.a[i], row.weight, row.prices)))
  }

  /** A row that follows from the budgets at its prices, from the target at its weight, and from the plan's range. */
  ghost predicate Backed(types: seq<WorkloadType>, budget: Vec, target: real, row: Row) {
    && |row.a| == |types| && row.weight >= 0.0 && row.prices.NonNeg()
    && row.b >= Backing(Dot(budget, row.prices), row.weight, target, Sum(Excess(types, row)))
  }

  function Backing(paid: real, weight: real, target: real, excess: real): real { paid - weight * target + excess }

  /** u is q, weight times. */
  ghost predicate IsTimes(u: Vec, weight: real, q: Vec) { q.r * weight == u.r && q.c * weight == u.c && q.k * weight == u.k }

  lemma DemandMixes(t: WorkloadType, s: real, a: real, w: real, u: Vec, s': real, a': real, w': real, u': Vec)
    ensures Demand(t, Affine(s, a, s', a'), Affine(s, w, s', w'), Mixed(s, u, s', u'))
      == Affine(s, Demand(t, a, w, u), s', Demand(t, a', w', u'))
  {
    DotMixes(t.Use(), s, u, s', u');
    var y, y' := w * t.value - Dot(t.Use(), u), w' * t.value - Dot(t.Use(), u');
    assert Affine(s, w, s', w') * t.value == s * (w * t.value) + s' * (w' * t.value);
    assert t.weight * Affine(s, y, s', y') == s * (t.weight * y) + s' * (t.weight * y');
  }

  lemma DotMixes(b: Vec, s: real, u: Vec, t: real, v: Vec)
    ensures Dot(b, Mixed(s, u, t, v)) == Affine(s, Dot(b, u), t, Dot(b, v))
  {
    assert b.r * Affine(s, u.r, t, v.r) == s * (b.r * u.r) + t * (b.r * v.r);
    assert b.c * Affine(s, u.c, t, v.c) == s * (b.c * u.c) + t * (b.c * v.c);
    assert b.k * Affine(s, u.k, t, v.k) == s * (b.k * u.k) + t * (b.k * v.k);
  }

  lemma PosPartMixes(s: real, y: real, t: real, z: real)
    requires s >= 0.0 && t >= 0.0
    ensures PosPart(Affine(s, y, t, z)) <= s * PosPart(y) + t * PosPart(z)
  {
    MulMono(y, PosPart(y), s);
    MulMono(z, PosPart(z), t);
    assert s * PosPart(y) >= 0.0 && t * PosPart(z) >= 0.0;
  }

  lemma {:induction false} ExcessTermMixes(types: seq<WorkloadType>, s: real, p: Row, t: real, q: Row, i: nat)
    requires |p.a| == |q.a| == |types| && s >= 0.0 && t >= 0.0 && i < |types|
    ensures Excess(types, Combine(s, p, t, q))[i] <= Affine(s, Excess(types, p)[i], t, Excess(types, q)[i])
  {
    DemandMixes(types[i], s, p.a[i], p.weight, p.prices, t, q.a[i], q.weight, q.prices);
    PosPartMixes(s, Demand(types[i], p.a[i], p.weight, p.prices), t, Demand(types[i], q.a[i], q.weight, q.prices));
  }

  lemma {:induction false} SumMixed(s: real, u: seq<real>, t: real, v: seq<real>, e: seq<real>)
    requires |u| == |v| == |e| && forall i :: 0 <= i < |e| ==> e[i] <= Affine(s, u[i], t, v[i])
    ensures Sum(e) <= Affine(s, Sum(u), t, Sum(v))
  {
    var w := seq(|e|, i requires 0 <= i < |e| => Affine(s, u[i], t, v[i]));
    SumMonotone(e, w);
    SumLinear(u, v, s, t, w);
  }

  lemma {:induction false} ExcessMixes(types: seq<WorkloadType>, s: real, p: Row, t: real, q: Row)
    requires |p.a| == |q.a| == |types| && s >= 0.0 && t >= 0.0
    ensures Sum(Excess(types, Combine(s, p, t, q))) <= Affine(s, Sum(Excess(types, p)), t, Sum(Excess(types, q)))
  {
    var u, v, e := Excess(types, p), Excess(types, q), Excess(types, Combine(s, p, t, q));
    forall i: nat | i < |types| ensures e[i] <= Affine(s, u[i], t, v[i]) { ExcessTermMixes(types, s, p, t, q, i); }
    SumMixed(s, u, t, v, e);
  }

  lemma AffineNonNeg(s: real, y: real, t: real, z: real)
    requires s >= 0.0 && t >= 0.0 && y >= 0.0 && z >= 0.0
    ensures Affine(s, y, t, z) >= 0.0
  {
    assert s * y >= 0.0 && t * z >= 0.0;
  }

  lemma {:induction false} CombineBacked(types: seq<WorkloadType>, budget: Vec, target: real, s: real, p: Row, t: real, q: Row)
    requires Backed(types, budget, target, p) && Backed(types, budget, target, q) && s >= 0.0 && t >= 0.0
    ensures Backed(types, budget, target, Combine(s, p, t, q))
  {
    ExcessMixes(types, s, p, t, q);
    DotMixes(budget, s, p.prices, t, q.prices);
    AffineNonNeg(s, p.weight, t, q.weight);
    AffineNonNeg(s, p.prices.r, t, q.prices.r);
    AffineNonNeg(s, p.prices.c, t, q.prices.c);
    AffineNonNeg(s, p.prices.k, t, q.prices.k);
    BoundsMix(s, p.b, Dot(budget, p.prices), p.weight, Sum(Excess(types, p)),
              t, q.b, Dot(budget, q.prices), q.weight, Sum(Excess(types, q)), target, Sum(Excess(types, Combine(s, p, t, q))));
  }

  lemma BoundsMix(s: real, b: real, d: real, w: real, e: real, t: real, b': real, d': real, w': real, e': real, target: real, mixed: real)
    requires s >= 0.0 && t >= 0.0 && b >= Backing(d, w, target, e) && b' >= Backing(d', w', target, e') && mixed <= Affine(s, e, t, e')
    ensures Affine(s, b, t, b') >= Backing(Affine(s, d, t, d'), Affine(s, w, t, w'), target, mixed)
  {
    MulMono(d - w * target + e, b, s);
    MulMono(d' - w' * target + e', b', t);
    assert (d - w * target + e) * s == s * d - (s * w) * target + s * e;
    assert (d' - w' * target + e') * t == t * d' - (t * w') * target + t * e';
    assert Affine(s, w, t, w') * target == (s * w) * target + (t * w') * target;
  }

  /** Optimal prices leave no backed row without variables unsatisfied. */
  lemma {:induction false} EmptyRowFine(types: seq<WorkloadType>, budget: Vec, p: Vec, row: Row)
    requires ValidTypes(types) && budget.NonNeg() && DualOptimal(types, budget, p, false)
    requires Backed(types, budget, Dual(types, budget, p), row) && forall i :: 0 <= i < |row.a| ==> row.a[i] == 0.0
    ensures row.b >= 0.0
  {
    if row.weight == 0.0 {
      SumNonNeg(Excess(types, row));
      PricedNonNeg(budget, row.prices);
      WeightlessBacking(Dot(budget, row.prices), Dual(types, budget, p), Sum(Excess(types, row)));
    } else {
      var q := PerWeight(row.prices, row.weight);
      WeightedRowFine(types, budget, Dual(types, budget, p), row, row.weight, q);
    }
  }

  lemma {:induction false} WeightedRowFine(types: seq<WorkloadType>, budget: Vec, target: real, row: Row, weight: real, q: Vec)
    requires ValidTypes(types) && Backed(types, budget, target, row) && forall i :: 0 <= i < |row.a| ==> row.a[i] == 0.0
    requires weight == row.weight > 0.0 && target <= Dual(types, budget, q) && IsTimes(row.prices, weight, q)
    ensures row.b >= 0.0
  {
    var paid, excess := WeightedPieces(types, budget, row, weight, q);
    WeightedOptimum(row.b, paid, excess, weight, target, Dot(budget, q), Sum(Surplus(types, q)));
  }

  lemma {:induction false} WeightedPieces(types: seq<WorkloadType>, budget: Vec, row: Row, weight: real, q: Vec)
    returns (paid: real, excess: real)
    requires ValidTypes(types) && |row.a| == |types| && forall i :: 0 <= i < |row.a| ==> row.a[i] == 0.0
    requires weight == row.weight > 0.0 && IsTimes(row.prices, weight, q)
    ensures paid == Dot(budget, row.prices) && paid == Affine(weight, Dot(budget, q), 0.0, 0.0)
    ensures excess == Sum(Excess(types, row)) && excess == Affine(weight, Sum(Surplus(types, q)), 0.0, 0.0)
  {
    paid, excess := Dot(budget, row.prices), Sum(Excess(types, row));
    ExcessIsSurplus(types, row, weight, q);
    DotScales(budget, row.prices, weight, q);
    TimesIsAffine(weight, Dot(budget, q));
    TimesIsAffine(weight, Sum(Surplus(types, q)));
  }

  lemma TimesIsAffine(weight: real, y: real)
    ensures y * weight == Affine(weight, y, 0.0, 0.0)
  {
  }

  lemma WeightlessBacking(paid: real, target: real, excess: real)
    ensures Backing(paid, 0.0, target, excess) == paid + excess
  {
  }

  lemma PricedNonNeg(budget: Vec, prices: Vec)
    requires budget.NonNeg() && prices.NonNeg()
    ensures Dot(budget, prices) >= 0.0
  {
    assert budget.r * prices.r >= 0.0 && budget.c * prices.c >= 0.0 && budget.k * prices.k >= 0.0;
  }

  lemma WeightedOptimum(b: real, d: real, e: real, w: real, target: real, dq: real, sq: real)
    requires b >= Backing(d, w, target, e) && d == Affine(w, dq, 0.0, 0.0) && e == Affine(w, sq, 0.0, 0.0)
    requires target <= dq + sq && w >= 0.0
    ensures b >= 0.0
  {
    MulMono(target, dq + sq, w);
    Distributes(dq, sq, w);
  }

  lemma PerWeight(prices: Vec, weight: real) returns (q: Vec)
    requires weight > 0.0 && prices.NonNeg()
    ensures q.NonNeg() && IsTimes(prices, weight, q)
  {
    q := Vec(prices.r / weight, prices.c / weight, prices.k / weight);
    assert q.r < 0.0 ==> q.r * weight < 0.0;
    assert q.c < 0.0 ==> q.c * weight < 0.0;
    assert q.k < 0.0 ==> q.k * weight < 0.0;
  }

  lemma DotScales(b: Vec, prices: Vec, weight: real, q: Vec)
    requires IsTimes(prices, weight, q)
    ensures Dot(b, prices) == Dot(b, q) * weight
  {
    assert b.r * prices.r == b.r * q.r * weight && b.c * prices.c == b.c * q.c * weight && b.k * prices.k == b.k * q.k * weight;
  }

  lemma {:induction false} ExcessIsSurplus(types: seq<WorkloadType>, row: Row, weight: real, q: Vec)
    requires ValidTypes(types) && |row.a| == |types| && weight == row.weight > 0.0 && forall i :: 0 <= i < |row.a| ==> row.a[i] == 0.0
    requires IsTimes(row.prices, weight, q)
    ensures Sum(Excess(types, row)) == Sum(Surplus(types, q)) * weight
  {
    var e, s := Excess(types, row), Surplus(types, q);
    forall i: nat | i < |types| ensures e[i] == Affine(weight, s[i], 0.0, s[i]) { ExcessTerm(types[i], weight, row.prices, q); }
    SumScaled(e, s, weight);
  }

  lemma {:induction false} SumScaled(e: seq<real>, s: seq<real>, weight: real)
    requires |e| == |s| && forall i :: 0 <= i < |e| ==> e[i] == Affine(weight, s[i], 0.0, s[i])
    ensures Sum(e) == Sum(s) * weight
  {
    SumLinear(s, s, weight, 0.0, e);
  }

  lemma ExcessTerm(t: WorkloadType, weight: real, prices: Vec, q: Vec)
    requires t.Valid() && weight > 0.0 && IsTimes(prices, weight, q)
    ensures PosPart(Demand(t, 0.0, weight, prices)) == weight * (t.weight * PosPart(Reduced(t, q)))
  {
    DotScales(t.Use(), prices, weight, q);
    var red := Reduced(t, q);
    assert red == t.value - Dot(t.Use(), q);
    assert weight * t.value - Dot(t.Use(), prices) == weight * red;
    assert t.weight * (weight * red) == weight * (t.weight * red);
    ScaledPart(weight * t.weight, red);
    assert weight * t.weight >= 0.0;
    assert weight * (t.weight * PosPart(red)) == (weight * t.weight) * PosPart(red);
    assert weight * (t.weight * red) == (weight * t.weight) * red;
  }

  lemma ScaledPart(w: real, y: real)
    requires w >= 0.0
    ensures PosPart(w * y) == w * PosPart(y)
  {
    if y > 0.0 { assert w * y >= 0.0; } else { assert w * -y >= 0.0; }
  }

  // ---------------------------------------------------------------- elimination

  ghost predicate ZeroFrom(row: Row, n: nat) {
    forall i :: n <= i < |row.a| ==> row.a[i] == 0.0
  }

  ghost predicate AllBacked(types: seq<WorkloadType>, budget: Vec, target: real, rows: set<Row>, n: nat) {
    forall r :: r in rows ==> Backed(types, budget, target, r) && ZeroFrom(r, n)
  }

  /** The combination that eliminates entry n. */
  function Cancelled(p: Row, q: Row, n: nat): Row
    requires n < |p.a| == |q.a|
  {
    Combine(-q.a[n], p, p.a[n], q)
  }

  /** One step of Fourier-Motzkin elimination. */
  ghost function Eliminated(rows: set<Row>, n: nat): set<Row>
    requires forall r, r' :: r in rows && r' in rows ==> n < |r.a| == |r'.a|
  {
    (set r | r in rows && r.a[n] == 0.0) +
    (set p, q | p in rows && q in rows && p.a[n] > 0.0 && q.a[n] < 0.0 :: Cancelled(p, q, n))
  }

  lemma CancelledIsZero(types: seq<WorkloadType>, budget: Vec, target: real, p: Row, q: Row, n: nat)
    requires Backed(types, budget, target, p) && Backed(types, budget, target, q) && n < |types|
    requires ZeroFrom(p, n + 1) && ZeroFrom(q, n + 1) && p.a[n] > 0.0 && q.a[n] < 0.0
    ensures Backed(types, budget, target, Cancelled(p, q, n)) && ZeroFrom(Cancelled(p, q, n), n)
  {
    CombineBacked(types, budget, target, -q.a[n], p, p.a[n], q);
    var c := Cancelled(p, q, n);
    forall i | n <= i < |c.a| ensures c.a[i] == 0.0 {
      if i == n { assert Affine(-q.a[n], p.a[n], p.a[n], q.a[n]) == 0.0; } else { assert Affine(-q.a[n], 0.0, p.a[n], 0.0) == 0.0; }
    }
  }

  lemma {:induction false} EliminatedBacked(types: seq<WorkloadType>, budget: Vec, target: real, rows: set<Row>, n: nat)
    requires AllBacked(types, budget, target, rows, n + 1) && n < |types|
    ensures AllBacked(types, budget, target, Eliminated(rows, n), n)
  {
    forall r | r in Eliminated(rows, n) ensures Backed(types, budget, target, r) && ZeroFrom(r, n) {
      if !(r in rows && r.a[n] == 0.0) {
        var p, q :| p in rows && q in rows && p.a[n] > 0.0 && q.a[n] < 0.0 && r == Cancelled(p, q, n);
        CancelledIsZero(types, budget, target, p, q, n);
      }
    }
  }

  lemma {:induction false} Largest(rows: set<Row>, key: Row -> real) returns (best: Row)
    requires rows != {}
    ensures best in rows && forall r :: r in rows ==> key(r) <= key(best)
    decreases |rows|
  {
    best :| best in rows;
    var rest := rows - {best};
    if rest != {} {
      var other := Largest(rest, key);
      if key(other) > key(best) { best := other; }
    }
  }

  /** What a row leaves for entry n once the others are chosen. */
  function Slack(row: Row, x: seq<real>): real
    requires |row.a| == |x|
  {
    row.b - Spent(row.a, x)
  }

  function Ratio(row: Row, x: seq<real>, n: nat): real {
    if |row.a| == |x| && n < |x| && row.a[n] != 0.0 then Slack(row, x) / row.a[n] else 0.0
  }

  lemma RatioIs(row: Row, x: seq<real>, n: nat)
    requires n < |row.a| == |x| && row.a[n] != 0.0
    ensures Ratio(row, x, n) * row.a[n] == Slack(row, x)
  {
  }

  /** Lower bounds stay below upper bounds: that is what the cancelled row says. */
  lemma {:induction false} BoundsMeet(p: Row, q: Row, x: seq<real>, n: nat)
    requires n < |p.a| == |q.a| == |x| && p.a[n] > 0.0 && q.a[n] < 0.0 && Holds(Cancelled(p, q, n), x)
    ensures Ratio(q, x, n) <= Ratio(p, x, n)
  {
    CombineSpent(-q.a[n], p, p.a[n], q, x);
    RatioIs(p, x, n);
    RatioIs(q, x, n);
    RatiosMeet(p.a[n], q.a[n], Slack(p, x), Slack(q, x), Ratio(p, x, n), Ratio(q, x, n));
  }

  lemma RatiosMeet(p: real, q: real, sp: real, sq: real, rp: real, rq: real)
    requires p > 0.0 && q < 0.0 && rp * p == sp && rq * q == sq && Affine(-q, sp, p, sq) >= 0.0
    ensures rq <= rp
  {
    var m := -q;
    assert m * sp == (m * p) * rp && p * sq == -((m * p) * rq);
    assert m * p > 0.0;
    PositiveFactor(m * p, rp - rq);
  }

  lemma PositiveFactor(a: real, b: real)
    requires a > 0.0 && a * b >= 0.0
    ensures b >= 0.0
  {
    assert b < 0.0 ==> a * b < 0.0;
  }

  /** A value between all lower and all upper bounds. */
  lemma {:induction false} Between(rows: set<Row>, x: seq<real>, n: nat) returns (y: real)
    requires n < |x| && forall r :: r in rows ==> |r.a| == |x|
    requires forall p, q :: p in rows && q in rows && p.a[n] > 0.0 && q.a[n] < 0.0 ==> Ratio(q, x, n) <= Ratio(p, x, n)
    ensures forall r :: r in rows && r.a[n] > 0.0 ==> y <= Ratio(r, x, n)
    ensures forall r :: r in rows && r.a[n] < 0.0 ==> Ratio(r, x, n) <= y
  {
    var lower, upper := set r | r in rows && r.a[n] < 0.0, set r | r in rows && r.a[n] > 0.0;
    if lower != {} {
      var key := r => Ratio(r, x, n);
      var best := Largest(lower, key);
      y := Ratio(best, x, n);
      forall r | r in rows && r.a[n] < 0.0 ensures Ratio(r, x, n) <= y { assert key(r) <= key(best); }
    } else if upper != {} {
      var key := r => -Ratio(r, x, n);
      var best := Largest(upper, key);
      y := Ratio(best, x, n);
      forall r | r in rows && r.a[n] > 0.0 ensures y <= Ratio(r, x, n) { assert key(r) <= key(best); }
      forall r | r in rows ensures r.a[n] >= 0.0 { assert r !in lower; }
    } else {
      y := 0.0;
      forall r | r in rows ensures r.a[n] == 0.0 { assert r !in lower && r !in upper; }
    }
  }

  lemma {:induction false} EntryFits(r: Row, x: seq<real>, n: nat, y: real)
    requires n < |r.a| == |x| && x[n] == 0.0
    requires r.a[n] > 0.0 ==> y <= Ratio(r, x, n)
    requires r.a[n] < 0.0 ==> Ratio(r, x, n) <= y
    requires r.a[n] == 0.0 ==> Holds(r, x)
    ensures Holds(r, x[n := y])
  {
    SpentUpdate(r.a, x, n, y);
    if r.a[n] != 0.0 {
      RatioIs(r, x, n);
      EntryBelow(r.a[n], y, Ratio(r, x, n));
    }
  }

  lemma EntryBelow(a: real, y: real, ratio: real)
    requires (a > 0.0 && y <= ratio) || (a < 0.0 && ratio <= y)
    ensures a * y <= ratio * a
  {
    if a > 0.0 { MulMono(y, ratio, a); } else { MulMono(ratio, y, -a); assert ratio * -a == -(ratio * a) && y * -a == -(a * y); }
  }

  lemma {:induction false} ZeroedHolds(r: Row, x: seq<real>, n: nat)
    requires n < |x| && Holds(r, x) && r.a[n] == 0.0
    ensures Holds(r, x[n := 0.0])
  {
    SpentUpdate(r.a, x, n, 0.0);
  }

  lemma {:induction false} EmptySolved(types: seq<WorkloadType>, budget: Vec, p: Vec, rows: set<Row>) returns (x: seq<real>)
    requires ValidTypes(types) && budget.NonNeg() && DualOptimal(types, budget, p, false)
    requires AllBacked(types, budget, Dual(types, budget, p), rows, 0)
    ensures Solves(rows, x, |types|)
  {
    x := seq(|types|, i => 0.0);
    forall r | r in rows ensures Holds(r, x) {
      EmptyRowFine(types, budget, p, r);
      SumZero(Products(r.a, x));
    }
  }

  ghost predicate Solves(rows: set<Row>, x: seq<real>, n: nat) {
    |x| == n && forall r :: r in rows ==> Holds(r, x)
  }

  lemma {:induction false} ReadyToEliminate(types: seq<WorkloadType>, budget: Vec, target: real, rows: set<Row>, n: nat)
    requires AllBacked(types, budget, target, rows, n + 1) && n < |types|
    ensures Eliminable(rows, |types|, n)
  {
    forall p, q | p in rows && q in rows && p.a[n] > 0.0 && q.a[n] < 0.0 ensures Cancelled(p, q, n).a[n] == 0.0 {
      CancelledIsZero(types, budget, target, p, q, n);
    }
  }

  ghost predicate Eliminable(rows: set<Row>, len: nat, n: nat) {
    n < len && (forall r :: r in rows ==> |r.a| == len)
    && forall p, q :: p in rows && q in rows && p.a[n] > 0.0 && q.a[n] < 0.0 ==> Cancelled(p, q, n).a[n] == 0.0
  }

  /** Backed rows have a common solution. */
  lemma {:induction false} Solvable(types: seq<WorkloadType>, budget: Vec, p: Vec, target: real, rows: set<Row>, n: nat)
    returns (x: seq<real>)
    requires ValidTypes(types) && budget.NonNeg() && DualOptimal(types, budget, p, false) && n <= |types|
    requires target == Dual(types, budget, p) && AllBacked(types, budget, target, rows, n)
    ensures Solves(rows, x, |types|)
    decreases n
  {
    if n == 0 {
      x := EmptySolved(types, budget, p, rows);
    } else {
      ReadyToEliminate(types, budget, target, rows, n - 1);
      EliminatedBacked(types, budget, target, rows, n - 1);
      var x' := Solvable(types, budget, p, target, Eliminated(rows, n - 1), n - 1);
      x := Extended(rows, x', n - 1);
    }
  }

  lemma {:induction false} Extended(rows: set<Row>, x: seq<real>, n: nat) returns (z: seq<real>)
    requires Eliminable(rows, |x|, n) && Solves(Eliminated(rows, n), x, |x|)
    ensures Solves(rows, z, |x|)
  {
    var x0 := x[n := 0.0];
    forall p, q | p in rows && q in rows && p.a[n] > 0.0 && q.a[n] < 0.0 ensures Ratio(q, x0, n) <= Ratio(p, x0, n) {
      assert Cancelled(p, q, n) in Eliminated(rows, n);
      ZeroedHolds(Cancelled(p, q, n), x, n);
      BoundsMeet(p, q, x0, n);
    }
    var y := Between(rows, x0, n);
    z := x0[n := y];
    forall r | r in rows ensures Holds(r, z) {
      if r.a[n] == 0.0 {
        assert r in Eliminated(rows, n);
        ZeroedHolds(r, x, n);
      }
      EntryFits(r, x0, n, y);
    }
  }

  // ---------------------------------------------------------------- the rows of the primal

  function Entry(n: nat, i: nat, y: real): (a: seq<real>)
    ensures |a| == n && forall j :: 0 <= j < n ==> a[j] == if j == i then y else 0.0
  {
    seq(n, j requires 0 <= j < n => if j == i then y else 0.0)
  }

  /** x[i] <= 1 and -x[i] <= 0. */
  function TopRow(n: nat, i: nat): Row { Row(Entry(n, i, 1.0), 1.0, 0.0, ZERO) }

  function FloorRow(n: nat, i: nat): Row { Row(Entry(n, i, -1.0), 0.0, 0.0, ZERO) }

  function BudgetRow(types: seq<WorkloadType>, budget: Vec, d: Vec): Row {
    Row(seq(|types|, i requires 0 <= i < |types| => types[i].weight * Dot(types[i].Use(), d)), Dot(budget, d), 0.0, d)
  }

  function TargetRow(types: seq<WorkloadType>, target: real): Row {
    Row(seq(|types|, i requires 0 <= i < |types| => -(types[i].weight * types[i].value)), -target, 1.0, ZERO)
  }

  lemma DemandOfEntry(t: WorkloadType, a: real)
    ensures Demand(t, a, 0.0, ZERO) == a
  {
    assert Dot(t.Use(), ZERO) == 0.0;
  }

  lemma {:induction false} EntryBacked(types: seq<WorkloadType>, budget: Vec, target: real, i: nat, y: real, b: real)
    requires i < |types| && b >= PosPart(y)
    ensures Backed(types, budget, target, Row(Entry(|types|, i, y), b, 0.0, ZERO))
  {
    var row := Row(Entry(|types|, i, y), b, 0.0, ZERO);
    var e, zero := Excess(types, row), seq(|types|, j => 0.0);
    forall j | 0 <= j < |types| ensures e[j] == zero[i := PosPart(y)][j] { DemandOfEntry(types[j], row.a[j]); }
    assert e == zero[i := PosPart(y)];
    SumUpdate(zero, i, PosPart(y));
    SumZero(zero);
    assert Dot(budget, ZERO) == 0.0;
  }

  lemma {:induction false} BudgetBacked(types: seq<WorkloadType>, budget: Vec, target: real, d: Vec)
    requires d.NonNeg()
    ensures Backed(types, budget, target, BudgetRow(types, budget, d))
  {
    var row := BudgetRow(types, budget, d);
    forall i | 0 <= i < |types| ensures Excess(types, row)[i] == 0.0 {
      assert Demand(types[i], row.a[i], 0.0, d) == 0.0;
    }
    SumZero(Excess(types, row));
  }

  lemma {:induction false} TargetBacked(types: seq<WorkloadType>, budget: Vec, target: real)
    ensures Backed(types, budget, target, TargetRow(types, target))
  {
    var row := TargetRow(types, target);
    forall i | 0 <= i < |types| ensures Excess(types, row)[i] == 0.0 {
      assert Dot(types[i].Use(), ZERO) == 0.0;
      assert Demand(types[i], row.a[i], 1.0, ZERO) == 0.0;
    }
    SumZero(Excess(types, row));
    assert Dot(budget, ZERO) == 0.0;
  }

  lemma {:induction false} EntrySpent(n: nat, i: nat, y: real, x: seq<real>)
    requires |x| == n && i < n
    ensures Spent(Entry(n, i, y), x) == y * x[i]
  {
    var zero := seq(n, j => 0.0);
    var t := Products(Entry(n, i, y), x);
    forall j | 0 <= j < n ensures t[j] == zero[i := y * x[i]][j] { assert j != i ==> 0.0 * x[j] == 0.0; }
    assert t == zero[i := y * x[i]];
    SumUpdate(zero, i, y * x[i]);
    SumZero(zero);
  }

  lemma {:induction false} BudgetSpent(types: seq<WorkloadType>, budget: Vec, d: Vec, x: seq<real>)
    requires |x| == |types|
    ensures Spent(BudgetRow(types, budget, d).a, x) == Load(types, x, d)
  {
    var s, t := Products(BudgetRow(types, budget, d).a, x), LoadTerms(types, x, d);
    forall i | 0 <= i < |x| ensures s[i] == t[i] { Commutes(types[i].weight, Dot(types[i].Use(), d), x[i]); }
    assert s == t;
  }

  lemma Commutes(w: real, d: real, y: real)
    ensures w * d * y == w * y * d
  {
  }

  lemma {:induction false} TargetSpent(types: seq<WorkloadType>, target: real, x: seq<real>)
    requires |x| == |types|
    ensures Spent(TargetRow(types, target).a, x) == -Objective(types, x)
  {
    var s, t := Products(TargetRow(types, target).a, x), Earned(types, x);
    forall i | 0 <= i < |x| ensures s[i] == -t[i] { NegatedTerm(types[i].weight * types[i].value, x[i]); }
    SumNegated(t, s);
  }

  lemma NegatedTerm(v: real, y: real)
    ensures -v * y == -(v * y)
  {
  }

  ghost function PrimalRows(types: seq<WorkloadType>, budget: Vec, target: real): set<Row> {
    (set i | 0 <= i < |types| :: TopRow(|types|, i)) + (set i | 0 <= i < |types| :: FloorRow(|types|, i)) +
    {BudgetRow(types, budget, RATE), BudgetRow(types, budget, COST), BudgetRow(types, budget, CONC), TargetRow(types, target)}
  }

  lemma {:induction false} PrimalBacked(types: seq<WorkloadType>, budget: Vec, target: real)
    ensures AllBacked(types, budget, target, PrimalRows(types, budget, target), |types|)
  {
    BudgetBacked(types, budget, target, RATE);
    BudgetBacked(types, budget, target, COST);
    BudgetBacked(types, budget, target, CONC);
    TargetBacked(types, budget, target);
    forall i | 0 <= i < |types|
      ensures Backed(types, budget, target, TopRow(|types|, i)) && Backed(types, budget, target, FloorRow(|types|, i))
    {
      EntryBacked(types, budget, target, i, 1.0, 1.0);
      EntryBacked(types, budget, target, i, -1.0, 0.0);
    }
  }

  lemma {:induction false} RowsMeanPlan(types: seq<WorkloadType>, budget: Vec, target: real, x: seq<real>)
    requires Solves(PrimalRows(types, budget, target), x, |types|)
    ensures Feasible(types, budget, x) && Objective(types, x) >= target
  {
    var rows := PrimalRows(types, budget, target);
    forall i: nat | i < |x| ensures 0.0 <= x[i] <= 1.0 {
      assert TopRow(|types|, i) in rows && FloorRow(|types|, i) in rows;
      EntryInRange(x, i);
    }
    assert BudgetRow(types, budget, RATE) in rows && BudgetRow(types, budget, COST) in rows;
    assert BudgetRow(types, budget, CONC) in rows && TargetRow(types, target) in rows;
    WithinBudget(types, budget, RATE, x);
    WithinBudget(types, budget, COST, x);
    WithinBudget(types, budget, CONC, x);
    AxisBudgets(budget);
    TargetSpent(types, target, x);
  }

  lemma {:induction false} EntryInRange(x: seq<real>, i: nat)
    requires i < |x| && Holds(TopRow(|x|, i), x) && Holds(FloorRow(|x|, i), x)
    ensures 0.0 <= x[i] <= 1.0
  {
    EntrySpent(|x|, i, 1.0, x);
    EntrySpent(|x|, i, -1.0, x);
  }

  lemma {:induction false} WithinBudget(types: seq<WorkloadType>, budget: Vec, d: Vec, x: seq<real>)
    requires |x| == |types| && Holds(BudgetRow(types, budget, d), x)
    ensures Load(types, x, d) <= Dot(budget, d)
  {
    BudgetSpent(types, budget, d, x);
  }

  lemma AxisBudgets(budget: Vec)
    ensures Dot(budget, RATE) == budget.r && Dot(budget, COST) == budget.c && Dot(budget, CONC) == budget.k
  {
  }

  /** Strong duality: some feasible plan earns the dual optimum, with any number of binding budgets. */
  lemma {:induction false} PrimalAttains(types: seq<WorkloadType>, budget: Vec, p: Vec) returns (x: seq<real>)
    requires ValidTypes(types) && budget.NonNeg() && DualOptimal(types, budget, p, false)
    ensures Feasible(types, budget, x) && Objective(types, x) == Dual(types, budget, p)
  {
    var target := Dual(types, budget, p);
    PrimalBacked(types, budget, target);
    x := Solvable(types, budget, p, target, PrimalRows(types, budget, target), |types|);
    RowsMeanPlan(types, budget, target, x);
    WeakDuality(types, budget, x, p);
  }
}
