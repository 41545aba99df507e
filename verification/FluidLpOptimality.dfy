/** First-order conditions: at an optimal dual point every admissible direction has a non-negative one-sided slope. */
module FluidLpOptimality {
  import opened Numbers
  import opened FluidLp
  import opened FluidLpVertex
  import L = LineSearch

  /** One-sided rate of change of max(0, rho - s * sigma) at s = 0. */
  function Rate(rho: real, sigma: real): real {
    if rho > 0.0 then -sigma else if rho == 0.0 then PosPart(-sigma) else 0.0
  }

  function RateTerms(w: seq<real>, rho: seq<real>, sigma: seq<real>): (terms: seq<real>)
    requires |w| == |rho| == |sigma|
    ensures |terms| == |w| && forall i :: 0 <= i < |w| ==> terms[i] == w[i] * Rate(rho[i], sigma[i])
  {
    seq(|w|, i requires 0 <= i < |w| => w[i] * Rate(rho[i], sigma[i]))
  }

  /** No plane not already touched is crossed in (0, s). */
  ghost predicate OpenUpTo(rho: seq<real>, sigma: seq<real>, s: real)
    requires |rho| == |sigma|
  {
    forall j, t :: 0 <= j < |rho| && L.HitAt(rho[j], sigma[j], t) && 0.0 < t ==> s <= t
  }

  lemma {:induction false} SmallStep(rho: seq<real>, sigma: seq<real>) returns (s: real)
    requires |rho| == |sigma|
    ensures s > 0.0 && OpenUpTo(rho, sigma, s)
  {
    s := 1.0;
    if rho != [] {
      var n := |rho| - 1;
      s := SmallStep(rho[..n], sigma[..n]);
      if sigma[n] != 0.0 {
        var t := rho[n] / sigma[n];
        assert L.HitAt(rho[n], sigma[n], t);
        L.HitUnique(rho[n], sigma[n], t);
        if 0.0 < t < s { s := t; }
      }
    }
  }

  lemma NearSide(rho: real, sigma: real, s: real)
    requires s > 0.0 && rho != 0.0
    requires forall t :: L.HitAt(rho, sigma, t) && 0.0 < t ==> s <= t
    ensures L.OneSided(rho, rho - s * sigma)
  {
    if sigma != 0.0 {
      var t := rho / sigma;
      assert t * sigma == rho;
      assert L.HitAt(rho, sigma, t);
      assert rho - s * sigma == (t - s) * sigma;
      L.SignOfProduct(t, t - s, sigma);
    }
  }

  lemma TermRight(w: real, rho: real, sigma: real, s: real)
    requires s > 0.0
    requires forall t :: L.HitAt(rho, sigma, t) && 0.0 < t ==> s <= t
    ensures w * PosPart(rho - s * sigma) == w * PosPart(rho) + s * (w * Rate(rho, sigma))
  {
    if rho == 0.0 {
      ScaledPosPart(s, sigma);
      assert w * (s * PosPart(-sigma)) == s * (w * PosPart(-sigma));
    } else {
      NearSide(rho, sigma, s);
      assert w * (rho - s * sigma) == w * rho + s * (w * -sigma);
    }
  }

  lemma ScaledPosPart(s: real, sigma: real)
    requires s > 0.0
    ensures PosPart(0.0 - s * sigma) == s * PosPart(-sigma)
  {
  }

  lemma {:induction false} EachTermRight(w: seq<real>, rho: seq<real>, sigma: seq<real>, s: real,
                                         at0: seq<real>, atS: seq<real>, m: seq<real>)
    requires |w| == |rho| == |sigma| && s > 0.0 && OpenUpTo(rho, sigma, s)
    requires at0 == L.Terms(w, rho) && atS == L.Terms(w, L.Along(rho, sigma, s)) && m == RateTerms(w, rho, sigma)
    ensures forall i :: 0 <= i < |w| ==> atS[i] == 1.0 * at0[i] + s * m[i]
  {
    forall i | 0 <= i < |w| ensures atS[i] == 1.0 * at0[i] + s * m[i] {
      TermRight(w[i], rho[i], sigma[i], s);
    }
  }

  lemma {:induction false} TermsRight(w: seq<real>, rho: seq<real>, sigma: seq<real>, s: real,
                                      at0: seq<real>, atS: seq<real>, m: seq<real>)
    requires |w| == |rho| == |sigma| && s > 0.0 && OpenUpTo(rho, sigma, s)
    requires at0 == L.Terms(w, rho) && atS == L.Terms(w, L.Along(rho, sigma, s)) && m == RateTerms(w, rho, sigma)
    ensures Sum(atS) == Sum(at0) + s * Sum(m)
  {
    EachTermRight(w, rho, sigma, s, at0, atS, m);
    SumLinear(at0, m, 1.0, s, atS);
  }

  lemma {:induction false} ValueRight(w: seq<real>, rho: seq<real>, sigma: seq<real>, s: real, rho': seq<real>,
                                      v0: real, v1: real, m: real)
    requires |w| == |rho| == |sigma| && s > 0.0 && OpenUpTo(rho, sigma, s) && rho' == L.Along(rho, sigma, s)
    requires v0 == Sum(L.Terms(w, rho)) && v1 == Sum(L.Terms(w, rho')) && m == Sum(RateTerms(w, rho, sigma))
    ensures v1 == v0 + s * m
  {
    TermsRight(w, rho, sigma, s, L.Terms(w, rho), L.Terms(w, rho'), RateTerms(w, rho, sigma));
  }

  /** An axis with a positive coordinate, or a direction not leaving the orthant there. */
  ghost predicate Admissible(p: Vec, d: Vec) {
    (p.r == 0.0 ==> d.r >= 0.0) && (p.c == 0.0 ==> d.c >= 0.0) && (p.k == 0.0 ==> d.k >= 0.0)
  }

  lemma {:induction false} StepInOrthant(types: seq<WorkloadType>, p: Vec, d: Vec, s: real)
    requires p.NonNeg() && Admissible(p, d) && s > 0.0 && OpenUpTo(Gaps(types, p), Slopes(types, d), s)
    ensures p.Plus(s, d).NonNeg()
  {
    var g, m := Gaps(types, p), Slopes(types, d);
    AxisEntries(types, p, d);
    StepOnPlane(g, m, s, 0, p.r, d.r);
    StepOnPlane(g, m, s, 1, p.c, d.c);
    StepOnPlane(g, m, s, 2, p.k, d.k);
  }

  lemma {:induction false} AxisEntries(types: seq<WorkloadType>, p: Vec, d: Vec)
    ensures var g := Gaps(types, p); g[0] == -p.r && g[1] == -p.c && g[2] == -p.k
    ensures var m := Slopes(types, d); m[0] == d.r && m[1] == d.c && m[2] == d.k
  {
    assert Planes(types)[0] == Plane(RATE, 0.0) && Planes(types)[1] == Plane(COST, 0.0) && Planes(types)[2] == Plane(CONC, 0.0);
  }

  lemma {:induction false} StepOnPlane(rho: seq<real>, sigma: seq<real>, s: real, j: nat, x: real, dx: real)
    requires |rho| == |sigma| && j < |rho| && rho[j] == -x && sigma[j] == dx
    requires x >= 0.0 && (x == 0.0 ==> dx >= 0.0) && s > 0.0 && OpenUpTo(rho, sigma, s)
    ensures x + s * dx >= 0.0
  {
    StepOnAxis(x, dx, s, rho[j], sigma[j]);
  }

  lemma StepOnAxis(x: real, dx: real, s: real, rho: real, sigma: real)
    requires x >= 0.0 && (x == 0.0 ==> dx >= 0.0) && s > 0.0 && rho == -x && sigma == dx
    requires forall t :: L.HitAt(rho, sigma, t) && 0.0 < t ==> s <= t
    ensures x + s * dx >= 0.0
  {
    if x != 0.0 { NearSide(rho, sigma, s); } else { assert s * dx >= 0.0; }
  }

  /** Per-type one-sided slope of the dual surplus in direction d. */
  function Edges(types: seq<WorkloadType>, p: Vec, d: Vec): (terms: seq<real>)
    ensures |terms| == |types|
    ensures forall i :: 0 <= i < |types| ==> terms[i] == types[i].weight * Rate(Reduced(types[i], p), Dot(types[i].Use(), d))
  {
    seq(|types|, i requires 0 <= i < |types| => types[i].weight * Rate(Reduced(types[i], p), Dot(types[i].Use(), d)))
  }

  lemma {:induction false} EdgesAreRates(types: seq<WorkloadType>, p: Vec, d: Vec, edges: seq<real>, rates: seq<real>)
    requires edges == Edges(types, p, d) && rates == RateTerms(Weights(types), Gaps(types, p), Slopes(types, d))
    ensures Sum(rates) == Sum(edges)
  {
    forall j | 0 <= j < |types| + 3 ensures rates[j] == ([0.0, 0.0, 0.0] + edges)[j] {
      if j < 3 { AxisRate(types, p, d, j); } else { BidRate(types, p, d, j - 3); }
    }
    assert rates == [0.0, 0.0, 0.0] + edges;
    SumAppend([0.0, 0.0, 0.0], edges);
    SumZero([0.0, 0.0, 0.0]);
  }

  lemma {:induction false} AxisRate(types: seq<WorkloadType>, p: Vec, d: Vec, j: nat)
    requires j < 3
    ensures RateTerms(Weights(types), Gaps(types, p), Slopes(types, d))[j] == 0.0
  {
    assert Weights(types)[j] == 0.0;
  }

  lemma {:induction false} BidRate(types: seq<WorkloadType>, p: Vec, d: Vec, i: nat)
    requires i < |types|
    ensures RateTerms(Weights(types), Gaps(types, p), Slopes(types, d))[i + 3] == Edges(types, p, d)[i]
  {
    BidGap(types, p, i);
    assert Planes(types)[i + 3] == Plane(types[i].Use(), types[i].value);
  }

  /** p minimises the dual over p >= 0; in 2-budget mode over the points with no concurrency price. */
  ghost predicate DualOptimal(types: seq<WorkloadType>, budget: Vec, p: Vec, twoBudgets: bool) {
    p.NonNeg() && (twoBudgets ==> p.k == 0.0)
    && forall q: Vec :: q.NonNeg() && (twoBudgets ==> q.k == 0.0) ==> Dual(types, budget, p) <= Dual(types, budget, q)
  }

  lemma {:induction false} OptimalSlope(types: seq<WorkloadType>, budget: Vec, p: Vec, d: Vec, twoBudgets: bool)
    requires DualOptimal(types, budget, p, twoBudgets) && Admissible(p, d) && (twoBudgets ==> d.k == 0.0)
    ensures Dot(budget, d) + Sum(Edges(types, p, d)) >= 0.0
  {
    var s := SmallStep(Gaps(types, p), Slopes(types, d));
    StepInOrthant(types, p, d, s);
    EdgesAreRates(types, p, d, Edges(types, p, d), RateTerms(Weights(types), Gaps(types, p), Slopes(types, d)));
    StepNoWorse(types, budget, p, d, s, p.Plus(s, d), twoBudgets);
    DualRight(types, budget, p, d, s, p.Plus(s, d), Sum(Edges(types, p, d)), Dot(budget, p), Dot(budget, p.Plus(s, d)),
              Dot(budget, d), Sum(Surplus(types, p)), Sum(Surplus(types, p.Plus(s, d))));
  }

  lemma {:induction false} StepNoWorse(types: seq<WorkloadType>, budget: Vec, p: Vec, d: Vec, s: real, q: Vec, twoBudgets: bool)
    requires DualOptimal(types, budget, p, twoBudgets) && (twoBudgets ==> d.k == 0.0) && q == p.Plus(s, d) && q.NonNeg()
    ensures Dual(types, budget, p) <= Dual(types, budget, q)
  {
    assert twoBudgets ==> q.k == 0.0;
  }

  lemma SlopeSign(s: real, m: real, before: real, after: real)
    requires s > 0.0 && after == before + s * m && before <= after
    ensures m >= 0.0
  {
    assert m < 0.0 ==> s * m < 0.0;
  }

  lemma {:induction false} DualRight(types: seq<WorkloadType>, budget: Vec, p: Vec, d: Vec, s: real, q: Vec, m: real,
                                     b0: real, b1: real, g: real, v0: real, v1: real)
    requires s > 0.0 && OpenUpTo(Gaps(types, p), Slopes(types, d), s) && q == p.Plus(s, d)
    requires m == Sum(RateTerms(Weights(types), Gaps(types, p), Slopes(types, d)))
    requires b0 == Dot(budget, p) && b1 == Dot(budget, q) && g == Dot(budget, d)
    requires v0 == Sum(Surplus(types, p)) && v1 == Sum(Surplus(types, q)) && b0 + v0 <= b1 + v1
    ensures g + m >= 0.0
  {
    SurplusRight(types, p, d, s, q, m, v0, v1);
    DotStep(budget, p, d, s, q, b0, b1, g);
    Collect(b0, b1, g, s, m, v0, v1);
  }

  lemma {:induction false} DotStep(budget: Vec, p: Vec, d: Vec, s: real, q: Vec, b0: real, b1: real, g: real)
    requires q == p.Plus(s, d) && b0 == Dot(budget, p) && b1 == Dot(budget, q) && g == Dot(budget, d)
    ensures b1 == b0 + s * g
  {
    DotAlong(budget, p, s, d);
  }

  lemma Collect(b0: real, b1: real, g: real, s: real, m: real, v0: real, v1: real)
    requires b1 == b0 + s * g && v1 == v0 + s * m && b0 + v0 <= b1 + v1 && s > 0.0
    ensures g + m >= 0.0
  {
    Distributes(g, m, s);
    SlopeSign(s, g + m, b0 + v0, b1 + v1);
  }

  lemma {:induction false} SurplusRight(types: seq<WorkloadType>, p: Vec, d: Vec, s: real, q: Vec, m: real, v0: real, v1: real)
    requires s > 0.0 && OpenUpTo(Gaps(types, p), Slopes(types, d), s) && q == p.Plus(s, d)
    requires m == Sum(RateTerms(Weights(types), Gaps(types, p), Slopes(types, d)))
    requires v0 == Sum(Surplus(types, p)) && v1 == Sum(Surplus(types, q))
    ensures v1 == v0 + s * m
  {
    SurplusIsTerms(types, p);
    SurplusIsTerms(types, q);
    GapsMove(types, p, s, d);
    ValueRight(Weights(types), Gaps(types, p), Slopes(types, d), s, Gaps(types, q), v0, v1, m);
  }
}
