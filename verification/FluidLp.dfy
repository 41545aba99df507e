/** The fluid LP of src/admission/fluid-lp.ts: workload, dual objective, and the vertex theorem behind the enumeration. */
module FluidLp {
  import opened Numbers

  /** A vector over the three budgets (rate, cost, concurrency). In 2-budget mode every `k` is 0. */
  datatype Vec = Vec(r: real, c: real, k: real) {
    function Plus(s: real, d: Vec): Vec { Vec(r + s * d.r, c + s * d.c, k + s * d.k) }

    predicate NonNeg() { r >= 0.0 && c >= 0.0 && k >= 0.0 }

    predicate Below(b: Vec) { r <= b.r && c <= b.c && k <= b.k }
  }

  function Dot(a: Vec, b: Vec): real { a.r * b.r + a.c * b.c + a.k * b.k }

  function Cross(a: Vec, b: Vec): Vec {
    Vec(a.c * b.k - a.k * b.c, a.k * b.r - a.r * b.k, a.r * b.c - a.c * b.r)
  }

  const ZERO := Vec(0.0, 0.0, 0.0)
  const RATE := Vec(1.0, 0.0, 0.0)
  const COST := Vec(0.0, 1.0, 0.0)
  const CONC := Vec(0.0, 0.0, 1.0)

  /** One request archetype. `hold` is 0 in 2-budget mode, where it is never read. */
  datatype WorkloadType = WorkloadType(cost: real, value: real, weight: real, hold: real) {
    predicate Valid() { cost >= 0.0 && value >= 0.0 && weight >= 0.0 && hold >= 0.0 }

    function Use(): Vec { Vec(1.0, cost, hold) }
  }

  ghost predicate ValidTypes(types: seq<WorkloadType>) {
    forall i :: 0 <= i < |types| ==> types[i].Valid()
  }

  /** The reduced value of a type at bid prices p: positive means forced in, negative forced out. */
  function Reduced(t: WorkloadType, p: Vec): real {
    t.value - p.r - p.c * t.cost - p.k * t.hold
  }

  function Surplus(types: seq<WorkloadType>, p: Vec): (s: seq<real>)
    ensures |s| == |types|
    ensures forall i :: 0 <= i < |s| ==> s[i] == types[i].weight * PosPart(Reduced(types[i], p))
  {
    seq(|types|, i requires 0 <= i < |types| => types[i].weight * PosPart(Reduced(types[i], p)))
  }

  /** The Lagrangian dual D(p) = B.p + sum of weight * max(0, value - p.use). */
  function Dual(types: seq<WorkloadType>, budget: Vec, p: Vec): real {
    Dot(budget, p) + Sum(Surplus(types, p))
  }

  // ---------------------------------------------------------------- primal side

  ghost predicate Plan(types: seq<WorkloadType>, x: seq<real>) {
    |x| == |types| && forall i :: 0 <= i < |x| ==> 0.0 <= x[i] <= 1.0
  }

  function Earned(types: seq<WorkloadType>, x: seq<real>): (s: seq<real>)
    requires |x| == |types|
    ensures |s| == |x| && forall i :: 0 <= i < |s| ==> s[i] == types[i].weight * types[i].value * x[i]
  {
    seq(|x|, i requires 0 <= i < |x| => types[i].weight * types[i].value * x[i])
  }

  function Objective(types: seq<WorkloadType>, x: seq<real>): real
    requires |x| == |types|
  {
    Sum(Earned(types, x))
  }

  /** Per-type consumption along a price direction d: weight * x * (use . d). */
  function LoadTerms(types: seq<WorkloadType>, x: seq<real>, d: Vec): (s: seq<real>)
    requires |x| == |types|
    ensures |s| == |x| && forall i :: 0 <= i < |s| ==> s[i] == types[i].weight * x[i] * Dot(types[i].Use(), d)
  {
    seq(|x|, i requires 0 <= i < |x| => types[i].weight * x[i] * Dot(types[i].Use(), d))
  }

  /** Consumption along a direction; along RATE, COST and CONC it is the use of that one budget. */
  function Load(types: seq<WorkloadType>, x: seq<real>, d: Vec): real
    requires |x| == |types|
  {
    Sum(LoadTerms(types, x, d))
  }

  function Used(types: seq<WorkloadType>, x: seq<real>): Vec
    requires |x| == |types|
  {
    Vec(Load(types, x, RATE), Load(types, x, COST), Load(types, x, CONC))
  }

  ghost predicate Feasible(types: seq<WorkloadType>, budget: Vec, x: seq<real>) {
    Plan(types, x) && Used(types, x).Below(budget)
  }

  lemma {:induction false} LoadIsLinear(types: seq<WorkloadType>, x: seq<real>, d: Vec)
    requires |x| == |types|
    ensures Load(types, x, d) == Dot(Used(types, x), d)
  {
    var r, c, k := LoadTerms(types, x, RATE), LoadTerms(types, x, COST), LoadTerms(types, x, CONC);
    var all := LoadTerms(types, x, d);
    forall i | 0 <= i < |x| ensures all[i] == d.r * r[i] + d.c * c[i] + d.k * k[i] {
      LoadTermAt(types, x, d, i);
    }
    Combine(r, c, k, d, all);
  }

  lemma {:induction false} Combine(r: seq<real>, c: seq<real>, k: seq<real>, d: Vec, all: seq<real>)
    requires |r| == |c| == |k| == |all|
    requires forall i :: 0 <= i < |all| ==> all[i] == d.r * r[i] + d.c * c[i] + d.k * k[i]
    ensures Sum(all) == Dot(Vec(Sum(r), Sum(c), Sum(k)), d)
  {
    SumLinear3(r, c, k, d.r, d.c, d.k, all);
  }

  lemma {:induction false} LoadTermAt(types: seq<WorkloadType>, x: seq<real>, d: Vec, i: nat)
    requires i < |x| == |types|
    ensures LoadTerms(types, x, d)[i] ==
      d.r * LoadTerms(types, x, RATE)[i] + d.c * LoadTerms(types, x, COST)[i] + d.k * LoadTerms(types, x, CONC)[i]
  {
    LoadTermSplit(types[i].weight * x[i], types[i].Use(), d);
  }

  lemma {:induction false} LoadTermSplit(y: real, a: Vec, d: Vec)
    ensures y * Dot(a, d) == d.r * (y * Dot(a, RATE)) + d.c * (y * Dot(a, COST)) + d.k * (y * Dot(a, CONC))
  {
    assert Dot(a, RATE) == a.r && Dot(a, COST) == a.c && Dot(a, CONC) == a.k;
    assert y * Dot(a, d) == y * (a.r * d.r) + y * (a.c * d.c) + y * (a.k * d.k);
  }

  /** The value a plan collects above its bid prices, type by type. */
  function Gains(types: seq<WorkloadType>, x: seq<real>, p: Vec): (s: seq<real>)
    requires |x| == |types|
    ensures |s| == |x| && forall i :: 0 <= i < |s| ==> s[i] == types[i].weight * x[i] * Reduced(types[i], p)
  {
    seq(|x|, i requires 0 <= i < |x| => types[i].weight * x[i] * Reduced(types[i], p))
  }

  /** Every plan's objective splits into the priced consumption plus its gains. */
  lemma {:induction false} ObjectiveSplits(types: seq<WorkloadType>, x: seq<real>, p: Vec)
    requires |x| == |types|
    ensures Objective(types, x) == Dot(Used(types, x), p) + Sum(Gains(types, x, p))
  {
    LoadIsLinear(types, x, p);
    forall i | 0 <= i < |x|
      ensures Earned(types, x)[i] == 1.0 * LoadTerms(types, x, p)[i] + 1.0 * Gains(types, x, p)[i]
    {
      EarnedSplit(types[i].weight * x[i], types[i], p);
      assert types[i].weight * types[i].value * x[i] == (types[i].weight * x[i]) * types[i].value;
    }
    SumLinear(LoadTerms(types, x, p), Gains(types, x, p), 1.0, 1.0, Earned(types, x));
  }

  lemma {:induction false} EarnedSplit(y: real, t: WorkloadType, p: Vec)
    ensures y * t.value == y * Dot(t.Use(), p) + y * Reduced(t, p)
  {
    assert t.value == Dot(t.Use(), p) + Reduced(t, p);
  }

  lemma {:induction false} GainAtMost(w: real, y: real, red: real)
    requires w >= 0.0 && 0.0 <= y <= 1.0
    ensures w * y * red <= w * PosPart(red)
  {
    if red > 0.0 {
      MulMono(y, 1.0, w * red);
      assert w * y * red == y * (w * red);
    } else {
      assert w * y >= 0.0;
      assert (w * y) * (-red) >= 0.0;
    }
  }

  /** Weak duality: at any prices p >= 0, the dual bounds every feasible plan. */
  lemma {:induction false} WeakDuality(types: seq<WorkloadType>, budget: Vec, x: seq<real>, p: Vec)
    requires ValidTypes(types) && Feasible(types, budget, x) && p.NonNeg()
    ensures Objective(types, x) <= Dual(types, budget, p)
  {
    ObjectiveSplits(types, x, p);
    GainsAtMost(types, x, p);
    DotMonotone(Used(types, x), budget, p);
  }

  /** No plan gains more than the whole surplus. */
  lemma {:induction false} GainsAtMost(types: seq<WorkloadType>, x: seq<real>, p: Vec)
    requires ValidTypes(types) && Plan(types, x)
    ensures Sum(Gains(types, x, p)) <= Sum(Surplus(types, p))
  {
    var g, s := Gains(types, x, p), Surplus(types, p);
    forall i | 0 <= i < |x| ensures g[i] <= s[i] {
      GainAtMost(types[i].weight, x[i], Reduced(types[i], p));
    }
    SumMonotone(g, s);
  }

  lemma {:induction false} DotMonotone(u: Vec, v: Vec, p: Vec)
    requires u.Below(v) && p.NonNeg()
    ensures Dot(u, p) <= Dot(v, p)
  {
    MulMono(u.r, v.r, p.r);
    MulMono(u.c, v.c, p.c);
    MulMono(u.k, v.k, p.k);
  }

  /** The plan admits what is priced in, rejects what is priced out. */
  ghost predicate Consistent(types: seq<WorkloadType>, x: seq<real>, p: Vec) {
    Plan(types, x) &&
    forall i :: 0 <= i < |x| ==>
      (Reduced(types[i], p) > 0.0 ==> x[i] == 1.0) && (Reduced(types[i], p) < 0.0 ==> x[i] == 0.0)
  }

  /** Complementary slackness: a consistent plan that exhausts every priced budget earns exactly D(p). */
  lemma {:induction false} StrongDuality(types: seq<WorkloadType>, budget: Vec, x: seq<real>, p: Vec)
    requires Consistent(types, x, p)
    requires p.r != 0.0 ==> Used(types, x).r == budget.r
    requires p.c != 0.0 ==> Used(types, x).c == budget.c
    requires p.k != 0.0 ==> Used(types, x).k == budget.k
    ensures Objective(types, x) == Dual(types, budget, p)
  {
    ObjectiveSplits(types, x, p);
    var g, s := Gains(types, x, p), Surplus(types, p);
    forall i | 0 <= i < |x| ensures g[i] == s[i] {
      GainExactly(types[i].weight, x[i], Reduced(types[i], p));
    }
    assert g == s;
    PricedExactly(Used(types, x), budget, p);
  }

  lemma {:induction false} GainExactly(w: real, y: real, red: real)
    requires (red > 0.0 ==> y == 1.0) && (red < 0.0 ==> y == 0.0)
    ensures w * y * red == w * PosPart(red)
  {
  }

  lemma {:induction false} PricedExactly(u: Vec, b: Vec, p: Vec)
    requires (p.r != 0.0 ==> u.r == b.r) && (p.c != 0.0 ==> u.c == b.c) && (p.k != 0.0 ==> u.k == b.k)
    ensures Dot(u, p) == Dot(b, p)
  {
    assert u.r * p.r == b.r * p.r;
    assert u.c * p.c == b.c * p.c;
    assert u.k * p.k == b.k * p.k;
  }

  // ---------------------------------------------------------------- planes and lines

  /** The plane a.p == b of the dual space. */
  datatype Plane = Plane(a: Vec, b: real)

  /** The three axis planes, then one bid plane per type, in the order solveThreeBudget lists them. */
  function Planes(types: seq<WorkloadType>): (ps: seq<Plane>)
    ensures |ps| == |types| + 3
    ensures ps[0] == Plane(RATE, 0.0) && ps[1] == Plane(COST, 0.0) && ps[2] == Plane(CONC, 0.0)
    ensures forall i :: 0 <= i < |types| ==> ps[i + 3] == Plane(types[i].Use(), types[i].value)
  {
    [Plane(RATE, 0.0), Plane(COST, 0.0), Plane(CONC, 0.0)]
    + seq(|types|, i requires 0 <= i < |types| => Plane(types[i].Use(), types[i].value))
  }

  function Gap(pl: Plane, p: Vec): real { pl.b - Dot(pl.a, p) }

  lemma GapAlong(pl: Plane, p: Vec, s: real, d: Vec)
    ensures Gap(pl, p.Plus(s, d)) == Gap(pl, p) - s * Dot(pl.a, d)
  {
    assert Dot(pl.a, p.Plus(s, d)) == Dot(pl.a, p) + s * Dot(pl.a, d) by {
      assert pl.a.r * (s * d.r) == s * (pl.a.r * d.r);
      assert pl.a.c * (s * d.c) == s * (pl.a.c * d.c);
      assert pl.a.k * (s * d.k) == s * (pl.a.k * d.k);
    }
  }
}
