/** Every exact fill of the marginal types can be reduced to one with at most two fractional types, of distinct cost. */
module FluidLpSparse {
  import opened Numbers
  import opened FluidLp
  import opened FluidLpFill
  import opened FluidLpRecovery
  import opened Greedy
  import L = LineSearch

  ghost predicate InBox(x: seq<real>) {
    forall i :: 0 <= i < |x| ==> 0.0 <= x[i] <= 1.0
  }

  ghost predicate IsFractional(x: seq<real>, i: nat) {
    i < |x| && 0.0 < x[i] < 1.0
  }

  ghost function Fractional(x: seq<real>): set<nat> {
    set i: nat | i < |x| && IsFractional(x, i)
  }

  function Rest(x: seq<real>): (r: seq<real>)
    ensures |r| == |x| && forall i :: 0 <= i < |x| ==> r[i] == 1.0 - x[i]
  {
    seq(|x|, i requires 0 <= i < |x| => 1.0 - x[i])
  }

  /** Walking inside the box along a direction supported on fractional entries until one of them becomes integral. */
  lemma {:induction false} BoxWalk(x: seq<real>, z: seq<real>, k: nat) returns (y: seq<real>, s: real, j: nat)
    requires |x| == |z| && InBox(x) && k < |x| && z[k] != 0.0
    requires forall i :: 0 <= i < |x| && z[i] != 0.0 ==> IsFractional(x, i)
    ensures |y| == |x| && InBox(y) && (forall i :: 0 <= i < |x| ==> y[i] == x[i] + s * z[i])
    ensures j < |x| && z[j] != 0.0 && (y[j] == 0.0 || y[j] == 1.0)
  {
    var rho, sigma := x + Rest(x), L.Negated(z) + z;
    NoHitContradiction(rho, sigma, |x|, k, x[k], z[k]);
    var j';
    s, j' := BoxHit(rho, sigma);
    y := Moved(x, z, s);
    StaysInBox(x, z, s, rho, sigma);
    j := if j' < |x| then j' else j' - |x|;
    Arrives(x[j], z[j], s, y[j], rho[j'], sigma[j'], j' < |x|);
  }

  lemma {:induction false} BoxHit(rho: seq<real>, sigma: seq<real>) returns (s: real, j: nat)
    requires |rho| == |sigma| && !L.NeverHit(rho, sigma)
    ensures j < |rho| && L.HitAt(rho[j], sigma[j], s)
    ensures forall i :: 0 <= i < |rho| ==> L.OneSided(rho[i], rho[i] - s * sigma[i])
  {
    var found;
    found, s, j := L.FirstHit(rho, sigma);
    L.NearSideKept(rho, sigma, s);
  }

  function Moved(x: seq<real>, z: seq<real>, s: real): (y: seq<real>)
    requires |x| == |z|
    ensures |y| == |x| && forall i :: 0 <= i < |y| ==> y[i] == x[i] + s * z[i]
  {
    seq(|x|, i requires 0 <= i < |x| => x[i] + s * z[i])
  }

  lemma {:induction false} StaysInBox(x: seq<real>, z: seq<real>, s: real, rho: seq<real>, sigma: seq<real>)
    requires |x| == |z| && InBox(x) && (forall i :: 0 <= i < |x| && z[i] != 0.0 ==> IsFractional(x, i))
    requires rho == x + Rest(x) && sigma == L.Negated(z) + z
    requires forall j :: 0 <= j < |rho| ==> L.OneSided(rho[j], rho[j] - s * sigma[j])
    ensures InBox(Moved(x, z, s))
  {
    var n := |x|;
    forall i | 0 <= i < n ensures 0.0 <= Moved(x, z, s)[i] <= 1.0 {
      assert L.OneSided(rho[i], rho[i] - s * sigma[i]) && L.OneSided(rho[n + i], rho[n + i] - s * sigma[n + i]);
      Sides(x[i], z[i], s, sigma[i], Moved(x, z, s)[i]);
    }
  }

  lemma Arrives(x: real, z: real, s: real, y: real, rho: real, sigma: real, low: bool)
    requires y == x + s * z && L.HitAt(rho, sigma, s)
    requires if low then rho == x && sigma == -z else rho == 1.0 - x && sigma == z
    ensures z != 0.0 && (y == 0.0 || y == 1.0)
  {
    if low { assert s * sigma == -(s * z); }
  }

  lemma Sides(x: real, z: real, s: real, back: real, y: real)
    requires back == -z && y == x + s * z
    ensures x - s * back == y && (1.0 - x) - s * z == 1.0 - y
    ensures 0.0 < x < 1.0 && L.OneSided(x, x - s * back) && L.OneSided(1.0 - x, (1.0 - x) - s * z) ==> 0.0 <= y <= 1.0
    ensures z == 0.0 ==> y == x
  {
  }

  lemma NoHitContradiction(rho: seq<real>, sigma: seq<real>, n: nat, k: nat, x: real, z: real)
    requires |rho| == |sigma| == 2 * n && k < n && 0.0 < x < 1.0 && z != 0.0
    requires rho[k] == x && rho[n + k] == 1.0 - x && sigma[k] == -z && sigma[n + k] == z
    ensures !L.NeverHit(rho, sigma)
  {
    var j := if z < 0.0 then k else n + k;
    var t := rho[j] / sigma[j];
    PositiveQuotient(rho[j], sigma[j]);
    assert L.HitAt(rho[j], sigma[j], t);
  }

  lemma PositiveQuotient(a: real, b: real)
    requires a > 0.0 && b > 0.0
    ensures a / b > 0.0 && a == a / b * b
  {
  }

  // ---------------------------------------------------------------- one reduction

  lemma {:induction false} SpentMoves(need: seq<real>, x: seq<real>, z: seq<real>, s: real, px: seq<real>, pz: seq<real>, py: seq<real>)
    requires |need| == |x| == |z|
    requires px == Products(need, x) && pz == Products(need, z) && py == Products(need, Moved(x, z, s))
    ensures Sum(py) == Sum(px) + s * Sum(pz)
  {
    EachMoves(need, x, z, s, px, pz, py);
    SumLinear(px, pz, 1.0, s, py);
  }

  lemma {:induction false} EachMoves(need: seq<real>, x: seq<real>, z: seq<real>, s: real, px: seq<real>, pz: seq<real>, py: seq<real>)
    requires |need| == |x| == |z|
    requires px == Products(need, x) && pz == Products(need, z) && py == Products(need, Moved(x, z, s))
    ensures forall i :: 0 <= i < |py| ==> py[i] == 1.0 * px[i] + s * pz[i]
  {
    forall i | 0 <= i < |py| ensures py[i] == 1.0 * px[i] + s * pz[i] {
      ProductMoves(need[i], x[i], z[i], s);
    }
  }

  lemma ProductMoves(n: real, x: real, z: real, s: real)
    ensures n * (x + s * z) == 1.0 * (n * x) + s * (n * z)
  {
  }

  /** A direction that changes no load and moves only fractional types, one of them being k. */
  ghost predicate Neutral(types: seq<WorkloadType>, x: seq<real>, z: seq<real>, k: nat) {
    |x| == |z| == |types| && k < |z| && z[k] != 0.0
    && (forall i :: 0 <= i < |x| && z[i] != 0.0 ==> IsFractional(x, i))
    && Spent(RateNeed(types), z) == 0.0 && Spent(CostNeed(types), z) == 0.0
  }

  lemma {:induction false} Reduce(types: seq<WorkloadType>, p: Vec, x: seq<real>, z: seq<real>, k: nat) returns (y: seq<real>)
    requires Consistent(types, x, p) && Neutral(types, x, z, k)
    ensures Consistent(types, y, p) && Fractional(y) < Fractional(x)
    ensures Spent(RateNeed(types), y) == Spent(RateNeed(types), x) && Spent(CostNeed(types), y) == Spent(CostNeed(types), x)
  {
    var s, j;
    y, s, j := BoxWalk(x, z, k);
    assert y == Moved(x, z, s);
    SpentKept(RateNeed(types), x, z, s, y);
    SpentKept(CostNeed(types), x, z, s, y);
    OthersStay(x, z, s, y);
    Shrinks(x, y, z, j);
    StaysConsistent(types, p, x, y, z);
  }

  lemma {:induction false} SpentKept(need: seq<real>, x: seq<real>, z: seq<real>, s: real, y: seq<real>)
    requires |need| == |x| == |z| && y == Moved(x, z, s) && Spent(need, z) == 0.0
    ensures Spent(need, y) == Spent(need, x)
  {
    SpentMoves(need, x, z, s, Products(need, x), Products(need, z), Products(need, y));
  }

  lemma {:induction false} OthersStay(x: seq<real>, z: seq<real>, s: real, y: seq<real>)
    requires |x| == |z| && y == Moved(x, z, s)
    ensures forall i :: 0 <= i < |x| && z[i] == 0.0 ==> y[i] == x[i]
  {
    forall i | 0 <= i < |x| && z[i] == 0.0 ensures y[i] == x[i] { Sides(x[i], z[i], s, -z[i], y[i]); }
  }

  lemma {:induction false} StaysConsistent(types: seq<WorkloadType>, p: Vec, x: seq<real>, y: seq<real>, z: seq<real>)
    requires Consistent(types, x, p) && |y| == |z| == |x| && InBox(y)
    requires forall i :: 0 <= i < |x| && z[i] == 0.0 ==> y[i] == x[i]
    requires forall i :: 0 <= i < |x| && z[i] != 0.0 ==> IsFractional(x, i)
    ensures Consistent(types, y, p)
  {
    forall i | 0 <= i < |types|
      ensures (Reduced(types[i], p) > 0.0 ==> y[i] == 1.0) && (Reduced(types[i], p) < 0.0 ==> y[i] == 0.0)
    {
      if z[i] != 0.0 { assert IsFractional(x, i); }
    }
  }

  lemma Shrinks(x: seq<real>, y: seq<real>, z: seq<real>, j: nat)
    requires |x| == |y| == |z| && (forall i :: 0 <= i < |x| && z[i] == 0.0 ==> y[i] == x[i])
    requires forall i :: 0 <= i < |x| && z[i] != 0.0 ==> IsFractional(x, i)
    requires j < |x| && z[j] != 0.0 && (y[j] == 0.0 || y[j] == 1.0)
    ensures Fractional(y) < Fractional(x)
  {
    forall i | i in Fractional(y) ensures i in Fractional(x) {
      if z[i] == 0.0 { assert IsFractional(x, i); }
    }
    assert j in Fractional(x) && j !in Fractional(y);
  }

  // ---------------------------------------------------------------- neutral directions

  function Zeros(n: nat): (z: seq<real>)
    ensures |z| == n && forall i :: 0 <= i < n ==> z[i] == 0.0
  {
    seq(n, _ => 0.0)
  }

  lemma {:induction false} SpentZeros(need: seq<real>)
    ensures Spent(need, Zeros(|need|)) == 0.0
  {
    SumZero(Products(need, Zeros(|need|)));
  }

  function Two(n: nat, i: nat, a: real, j: nat, b: real): (z: seq<real>)
    requires i < n && j < n
    ensures |z| == n
  {
    Zeros(n)[i := a][j := b]
  }

  function Three(n: nat, i: nat, a: real, j: nat, b: real, k: nat, c: real): (z: seq<real>)
    requires i < n && j < n && k < n
    ensures |z| == n
  {
    Two(n, i, a, j, b)[k := c]
  }

  lemma {:induction false} SpentTwo(need: seq<real>, i: nat, a: real, j: nat, b: real)
    requires i < |need| && j < |need| && i != j
    ensures Spent(need, Two(|need|, i, a, j, b)) == need[i] * a + need[j] * b
  {
    var n := |need|;
    SpentZeros(need);
    SpentUpdate(need, Zeros(n), i, a);
    SpentUpdate(need, Zeros(n)[i := a], j, b);
  }

  lemma {:induction false} SpentThree(need: seq<real>, i: nat, a: real, j: nat, b: real, k: nat, c: real)
    requires i < |need| && j < |need| && k < |need| && i != j && i != k && j != k
    ensures Spent(need, Three(|need|, i, a, j, b, k, c)) == need[i] * a + need[j] * b + need[k] * c
  {
    SpentTwo(need, i, a, j, b);
    SpentUpdate(need, Two(|need|, i, a, j, b), k, c);
  }

  /** Two fractional types of equal cost can trade mass freely. */
  lemma {:induction false} PairNeutral(types: seq<WorkloadType>, x: seq<real>, i: nat, j: nat) returns (z: seq<real>)
    requires |x| == |types| && i != j && IsFractional(x, i) && IsFractional(x, j)
    requires types[i].weight > 0.0 && types[j].weight > 0.0 && types[i].cost == types[j].cost
    ensures Neutral(types, x, z, i)
  {
    var a, b := 1.0 / types[i].weight, -1.0 / types[j].weight;
    z := Two(|types|, i, a, j, b);
    SpentTwo(RateNeed(types), i, a, j, b);
    SpentTwo(CostNeed(types), i, a, j, b);
    PairArithmetic(types[i].weight, types[j].weight, types[i].cost, a, b);
  }

  lemma PairArithmetic(u: real, v: real, c: real, a: real, b: real)
    requires u > 0.0 && v > 0.0 && a == 1.0 / u && b == -1.0 / v
    ensures a != 0.0 && u * a + v * b == 0.0 && (u * c) * a + (v * c) * b == 0.0
  {
    assert u * a == 1.0 && v * b == -1.0;
    assert (u * c) * a == c * (u * a) && (v * c) * b == c * (v * b);
  }

  /** Three fractional types, two of them of distinct cost, can trade mass along their cost differences. */
  lemma {:induction false} TripleNeutral(types: seq<WorkloadType>, x: seq<real>, i: nat, j: nat, k: nat) returns (z: seq<real>)
    requires |x| == |types| && i != j && i != k && j != k
    requires IsFractional(x, i) && IsFractional(x, j) && IsFractional(x, k)
    requires types[i].weight > 0.0 && types[j].weight > 0.0 && types[k].weight > 0.0 && types[i].cost != types[j].cost
    ensures Neutral(types, x, z, k)
  {
    var a := (types[j].cost - types[k].cost) / types[i].weight;
    var b := (types[k].cost - types[i].cost) / types[j].weight;
    var c := (types[i].cost - types[j].cost) / types[k].weight;
    z := Three(|types|, i, a, j, b, k, c);
    SpentThree(RateNeed(types), i, a, j, b, k, c);
    SpentThree(CostNeed(types), i, a, j, b, k, c);
    TripleArithmetic(types[i].weight, types[j].weight, types[k].weight, types[i].cost, types[j].cost, types[k].cost, a, b, c);
  }

  lemma TripleArithmetic(u: real, v: real, w: real, ci: real, cj: real, ck: real, a: real, b: real, c: real)
    requires u > 0.0 && v > 0.0 && w > 0.0 && ci != cj
    requires a == (cj - ck) / u && b == (ck - ci) / v && c == (ci - cj) / w
    ensures c != 0.0 && u * a + v * b + w * c == 0.0 && (u * ci) * a + (v * cj) * b + (w * ck) * c == 0.0
  {
    Cancels(cj - ck, u);
    Cancels(ck - ci, v);
    Cancels(ci - cj, w);
    assert (u * ci) * a == ci * (u * a) && (v * cj) * b == cj * (v * b) && (w * ck) * c == ck * (w * c);
  }

  lemma Cancels(n: real, u: real)
    requires u > 0.0
    ensures u * (n / u) == n && (n != 0.0 ==> n / u != 0.0)
  {
  }

  // ---------------------------------------------------------------- the reduction

  /** At most two fractional types, and if two then of distinct cost. */
  ghost predicate Sparse(types: seq<WorkloadType>, x: seq<real>)
    requires |x| == |types|
  {
    (forall i: nat, j: nat, k: nat :: IsFractional(x, i) && IsFractional(x, j) && IsFractional(x, k) ==> i == j || i == k || j == k)
    && (forall i: nat, j: nat :: IsFractional(x, i) && IsFractional(x, j) && i != j ==> types[i].cost != types[j].cost)
  }

  /** Only types of positive weight are fractional. */
  ghost predicate WeightedFractions(types: seq<WorkloadType>, x: seq<real>)
    requires |x| == |types|
  {
    forall i: nat :: IsFractional(x, i) ==> types[i].weight > 0.0
  }

  /** Weightless marginal types consume nothing, so they can be left out. */
  function WithoutWeightless(types: seq<WorkloadType>, p: Vec, x: seq<real>): (y: seq<real>)
    requires |x| == |types|
    ensures |y| == |x|
    ensures forall i :: 0 <= i < |y| ==> y[i] == if types[i].weight == 0.0 && Marginal(types[i], p) then 0.0 else x[i]
  {
    seq(|x|, i requires 0 <= i < |x| => if types[i].weight == 0.0 && Marginal(types[i], p) then 0.0 else x[i])
  }

  lemma {:induction false} WeightlessFree(types: seq<WorkloadType>, p: Vec, x: seq<real>)
    requires ValidTypes(types) && Consistent(types, x, p)
    ensures var y := WithoutWeightless(types, p, x);
      Consistent(types, y, p) && WeightedFractions(types, y)
      && Spent(RateNeed(types), y) == Spent(RateNeed(types), x) && Spent(CostNeed(types), y) == Spent(CostNeed(types), x)
  {
    var y := WithoutWeightless(types, p, x);
    forall i: nat | IsFractional(y, i) ensures types[i].weight > 0.0 {
      assert Reduced(types[i], p) == 0.0;
    }
    forall i | 0 <= i < |types| ensures Products(RateNeed(types), y)[i] == Products(RateNeed(types), x)[i] {
      if types[i].weight == 0.0 { assert types[i].weight * y[i] == 0.0 && types[i].weight * x[i] == 0.0; }
    }
    assert Products(RateNeed(types), y) == Products(RateNeed(types), x);
    forall i | 0 <= i < |types| ensures Products(CostNeed(types), y)[i] == Products(CostNeed(types), x)[i] {
      if types[i].weight == 0.0 { assert types[i].weight * types[i].cost == 0.0; }
    }
    assert Products(CostNeed(types), y) == Products(CostNeed(types), x);
  }

  lemma {:induction false} Direction(types: seq<WorkloadType>, x: seq<real>) returns (z: seq<real>, k: nat)
    requires |x| == |types| && !Sparse(types, x) && WeightedFractions(types, x)
    ensures Neutral(types, x, z, k)
  {
    if i: nat, j: nat :| IsFractional(x, i) && IsFractional(x, j) && i != j && types[i].cost == types[j].cost {
      z := PairNeutral(types, x, i, j);
      k := i;
    } else {
      var i: nat, j: nat, l: nat :| IsFractional(x, i) && IsFractional(x, j) && IsFractional(x, l) && i != j && i != l && j != l;
      z := TripleNeutral(types, x, i, j, l);
      k := l;
    }
  }

  lemma {:induction false} SparseExists(types: seq<WorkloadType>, p: Vec, x: seq<real>) returns (y: seq<real>)
    requires Consistent(types, x, p) && WeightedFractions(types, x)
    ensures Consistent(types, y, p) && Sparse(types, y) && WeightedFractions(types, y)
    ensures Spent(RateNeed(types), y) == Spent(RateNeed(types), x) && Spent(CostNeed(types), y) == Spent(CostNeed(types), x)
    decreases |Fractional(x)|
  {
    y := x;
    if !Sparse(types, x) {
      var z, k := Direction(types, x);
      var smaller := Reduce(types, p, x, z, k);
      SmallerCount(Fractional(smaller), Fractional(x));
      forall i: nat | IsFractional(smaller, i) ensures types[i].weight > 0.0 {
        assert i in Fractional(smaller);
        assert IsFractional(x, i);
      }
      y := SparseExists(types, p, smaller);
    }
  }

  lemma SmallerCount(a: set<nat>, b: set<nat>)
    requires a < b
    ensures |a| < |b|
  {
    var rest := b - a;
    assert b == a + rest && a !! rest;
    assert rest != {};
  }
}
