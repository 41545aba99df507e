/** The vertex theorem: the dual of the fluid LP attains its minimum over p >= 0 on the arrangement's vertices. */
module FluidLpVertex {
  import opened Numbers
  import opened FluidLp
  import L = LineSearch

  const AXES := 3

  function Weights(types: seq<WorkloadType>): (w: seq<real>)
    ensures |w| == |types| + 3
  {
    [0.0, 0.0, 0.0] + seq(|types|, i requires 0 <= i < |types| => types[i].weight)
  }

  function Gaps(types: seq<WorkloadType>, p: Vec): (gaps: seq<real>)
    ensures |gaps| == |types| + 3
    ensures forall j :: 0 <= j < |gaps| ==> gaps[j] == Gap(Planes(types)[j], p)
  {
    seq(|types| + 3, j requires 0 <= j < |types| + 3 => Gap(Planes(types)[j], p))
  }

  function Slopes(types: seq<WorkloadType>, d: Vec): (slopes: seq<real>)
    ensures |slopes| == |types| + 3
    ensures forall j :: 0 <= j < |slopes| ==> slopes[j] == Dot(Planes(types)[j].a, d)
  {
    seq(|types| + 3, j requires 0 <= j < |types| + 3 => Dot(Planes(types)[j].a, d))
  }

  lemma {:induction false} GapsMove(types: seq<WorkloadType>, p: Vec, s: real, d: Vec)
    ensures Gaps(types, p.Plus(s, d)) == L.Along(Gaps(types, p), Slopes(types, d), s)
  {
    var rho, sigma, moved := Gaps(types, p), Slopes(types, d), Gaps(types, p.Plus(s, d));
    forall j: nat | j < |types| + 3 ensures moved[j] == rho[j] - s * sigma[j] {
      GapMoves(types, p, s, d, j);
    }
    L.AlongIs(rho, sigma, s, moved);
  }

  lemma {:induction false} GapMoves(types: seq<WorkloadType>, p: Vec, s: real, d: Vec, j: nat)
    requires j < |types| + 3
    ensures Gaps(types, p.Plus(s, d))[j] == Gaps(types, p)[j] - s * Slopes(types, d)[j]
  {
    GapAlong(Planes(types)[j], p, s, d);
  }

  lemma ReducedIsGap(t: WorkloadType, p: Vec)
    ensures Reduced(t, p) == Gap(Plane(t.Use(), t.value), p)
  {
  }

  lemma {:induction false} SurplusIsTerms(types: seq<WorkloadType>, p: Vec)
    ensures Sum(Surplus(types, p)) == Sum(L.Terms(Weights(types), Gaps(types, p)))
  {
    var terms, surplus := L.Terms(Weights(types), Gaps(types, p)), Surplus(types, p);
    SurplusIsTail(types, p, terms, surplus);
    ThreeZeros(surplus, terms);
  }

  lemma {:induction false} ThreeZeros(s: seq<real>, t: seq<real>)
    requires t == [0.0, 0.0, 0.0] + s
    ensures Sum(t) == Sum(s)
  {
    SumAppend([0.0, 0.0, 0.0], s);
    SumZero([0.0, 0.0, 0.0]);
  }

  lemma {:induction false} SurplusIsTail(types: seq<WorkloadType>, p: Vec, terms: seq<real>, surplus: seq<real>)
    requires terms == L.Terms(Weights(types), Gaps(types, p)) && surplus == Surplus(types, p)
    ensures terms == [0.0, 0.0, 0.0] + surplus
  {
    forall j | 0 <= j < |types| + 3 ensures terms[j] == ([0.0, 0.0, 0.0] + surplus)[j] {
      if j < 3 { AxisTerm(types, p, j); } else { BidTerm(types, p, j - 3); }
    }
  }

  lemma {:induction false} AxisTerm(types: seq<WorkloadType>, p: Vec, j: nat)
    requires j < 3
    ensures L.Terms(Weights(types), Gaps(types, p))[j] == 0.0
  {
    assert Weights(types)[j] == 0.0;
  }

  lemma {:induction false} BidTerm(types: seq<WorkloadType>, p: Vec, i: nat)
    requires i < |types|
    ensures L.Terms(Weights(types), Gaps(types, p))[i + 3] == Surplus(types, p)[i]
  {
    BidGap(types, p, i);
  }

  lemma {:induction false} BidGap(types: seq<WorkloadType>, p: Vec, i: nat)
    requires i < |types|
    ensures Gaps(types, p)[i + 3] == Reduced(types[i], p)
    ensures Weights(types)[i + 3] == types[i].weight
  {
    assert Planes(types)[i + 3] == Plane(types[i].Use(), types[i].value);
    ReducedIsGap(types[i], p);
  }

  lemma {:induction false} DotAlong(b: Vec, p: Vec, s: real, d: Vec)
    ensures Dot(b, p.Plus(s, d)) == Dot(b, p) + s * Dot(b, d)
  {
    GapAlong(Plane(b, 0.0), p, s, d);
  }

  lemma DotNonNeg(a: Vec, d: Vec)
    requires a.NonNeg() && d.NonNeg()
    ensures Dot(a, d) >= 0.0
  {
    assert a.r * d.r >= 0.0 && a.c * d.c >= 0.0 && a.k * d.k >= 0.0;
  }

  lemma {:induction false} OrthantAscends(types: seq<WorkloadType>, budget: Vec, d: Vec)
    requires ValidTypes(types) && budget.NonNeg()
    ensures L.Ascending(Slopes(types, d), Dot(budget, d), AXES)
  {
    var slopes := Slopes(types, d);
    assert slopes[0] == d.r && slopes[1] == d.c && slopes[2] == d.k;
    if d.NonNeg() {
      DotNonNeg(budget, d);
      forall j | 0 <= j < |slopes| ensures slopes[j] >= 0.0 {
        if j >= 3 { assert Planes(types)[j] == Plane(types[j - 3].Use(), types[j - 3].value); }
        DotNonNeg(Planes(types)[j].a, d);
      }
    }
  }

  function Back(d: Vec): Vec { Vec(-d.r, -d.c, -d.k) }

  lemma {:induction false} SlopesBack(types: seq<WorkloadType>, budget: Vec, d: Vec)
    ensures Slopes(types, Back(d)) == L.Negated(Slopes(types, d))
    ensures Dot(budget, Back(d)) == -Dot(budget, d)
  {
    DotBack(budget, d);
    forall j | 0 <= j < |types| + 3 ensures Slopes(types, Back(d))[j] == -Slopes(types, d)[j] {
      DotBack(Planes(types)[j].a, d);
    }
  }

  lemma DotBack(a: Vec, d: Vec)
    ensures Dot(a, Back(d)) == -Dot(a, d)
  {
  }

  /** One step of the descent: along any line some plane crossing it carries a point of the orthant no worse than p. */
  lemma {:induction false} Descend(types: seq<WorkloadType>, budget: Vec, p: Vec, d: Vec) returns (q: Vec, s: real, j: nat)
    requires ValidTypes(types) && budget.NonNeg() && p.NonNeg() && d != ZERO
    ensures q == p.Plus(s, d) && q.NonNeg()
    ensures Dual(types, budget, q) <= Dual(types, budget, p)
    ensures j < |types| + 3 && Gap(Planes(types)[j], q) == 0.0 && Dot(Planes(types)[j].a, d) != 0.0
  {
    OrthantAscends(types, budget, d);
    OrthantAscends(types, budget, Back(d));
    SlopesBack(types, budget, d);
    AxesOf(types, p, d);
    s, j := L.LineDescent(Weights(types), Gaps(types, p), Slopes(types, d), Dot(budget, d), AXES);
    q := p.Plus(s, d);
    GapsMove(types, p, s, d);
    AxesOf(types, q, d);
    HitLands(types, p, s, d, j);
    CheaperAt(types, budget, p, s, d, Sum(Surplus(types, q)), Sum(Surplus(types, p)));
  }

  lemma {:induction false} AxesOf(types: seq<WorkloadType>, p: Vec, d: Vec)
    ensures L.Feasible(Gaps(types, p), AXES) <==> p.NonNeg()
    ensures d != ZERO ==> exists i :: 0 <= i < AXES && Slopes(types, d)[i] != 0.0
  {
    var g, s := Gaps(types, p), Slopes(types, d);
    assert g[0] == -p.r && g[1] == -p.c && g[2] == -p.k;
    assert s[0] == d.r && s[1] == d.c && s[2] == d.k;
  }

  lemma {:induction false} HitLands(types: seq<WorkloadType>, p: Vec, s: real, d: Vec, j: nat)
    requires j < |types| + 3 && L.HitAt(Gaps(types, p)[j], Slopes(types, d)[j], s)
    ensures Gap(Planes(types)[j], p.Plus(s, d)) == 0.0 && Dot(Planes(types)[j].a, d) != 0.0
  {
    GapAlong(Planes(types)[j], p, s, d);
  }

  lemma {:induction false} CheaperAt(types: seq<WorkloadType>, budget: Vec, p: Vec, s: real, d: Vec, atQ: real, atP: real)
    requires L.NoWorse(Weights(types), Gaps(types, p), Slopes(types, d), Dot(budget, d), s)
    requires atQ == Sum(Surplus(types, p.Plus(s, d))) && atP == Sum(Surplus(types, p))
    ensures Dot(budget, p.Plus(s, d)) + atQ <= Dot(budget, p) + atP
  {
    GapsMove(types, p, s, d);
    SurplusIsTerms(types, p);
    SurplusIsTerms(types, p.Plus(s, d));
    DotAlong(budget, p, s, d);
  }
}
