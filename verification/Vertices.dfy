/** From any dual-feasible point the descent reaches an enumerated vertex: plane triples, or bid-line candidates. */
module Vertices {
  import opened Numbers
  import opened Wrappers
  import opened FluidLp
  import opened Cramer
  import opened FluidLpVertex

  const STEP1 := RATE

  /** A direction inside the first plane. */
  function Step2(a: Vec): Vec { Vec(-a.c, 1.0, 0.0) }

  lemma {:induction false} FirstPlane(types: seq<WorkloadType>, j: nat)
    requires j < |types| + 3 && Dot(Planes(types)[j].a, STEP1) != 0.0
    ensures j != 1 && j != 2 && Planes(types)[j].a.r == 1.0
  {
    if j >= 3 { assert Planes(types)[j] == Plane(types[j - 3].Use(), types[j - 3].value); }
  }

  /** Moving inside a plane stays on it. */
  lemma StaysOn(pl: Plane, p: Vec, s: real, d: Vec)
    requires On(pl, p) && Dot(pl.a, d) == 0.0
    ensures On(pl, p.Plus(s, d))
  {
    GapAlong(pl, p, s, d);
  }

  lemma CrossFacts(a: Vec, b: Vec)
    ensures Dot(a, Cross(a, b)) == 0.0 && Dot(b, Cross(a, b)) == 0.0
    ensures a.r == 1.0 ==> Cross(a, b).k == Dot(b, Step2(a))
  {
  }

  lemma DetIsTriple(a: Vec, b: Vec, c: Vec)
    ensures Det(a, b, c) == Dot(c, Cross(a, b))
  {
  }

  lemma DetSwaps(a: Vec, b: Vec, c: Vec)
    ensures Det(b, a, c) == -Det(a, b, c) && Det(a, c, b) == -Det(a, b, c) && Det(c, b, a) == -Det(a, b, c)
    ensures Det(b, c, a) == Det(a, b, c) && Det(c, a, b) == Det(a, b, c)
  {
  }

  ghost predicate MeetAt(types: seq<WorkloadType>, q: Vec, i: nat, j: nat, k: nat) {
    i < |types| + 3 && j < |types| + 3 && k < |types| + 3
    && On(Planes(types)[i], q) && On(Planes(types)[j], q) && On(Planes(types)[k], q)
    && Det(Planes(types)[i].a, Planes(types)[j].a, Planes(types)[k].a) != 0.0
  }

  lemma {:induction false} DistinctRows(a: Vec, b: Vec)
    ensures Det(a, a, b) == 0.0 && Det(a, b, a) == 0.0 && Det(b, a, a) == 0.0
  {
  }

  lemma {:induction false} SortIndices(types: seq<WorkloadType>, q: Vec, i: nat, j: nat, k: nat) returns (x: nat, y: nat, z: nat)
    requires MeetAt(types, q, i, j, k)
    ensures x < y < z && MeetAt(types, q, x, y, z)
  {
    var a, b, c := Planes(types)[i].a, Planes(types)[j].a, Planes(types)[k].a;
    DistinctRows(a, b);
    DistinctRows(a, c);
    DistinctRows(b, a);
    DetSwaps(a, b, c);
    x, y, z := i, j, k;
    if x > y { x, y := y, x; }
    if y > z { y, z := z, y; }
    if x > y { x, y := y, x; }
  }

  /** Three-budget mode: some plane triple solves to a dual-feasible point no worse than p. */
  lemma {:induction false} TripleVertex(types: seq<WorkloadType>, budget: Vec, p: Vec)
    returns (q: Vec, x: nat, y: nat, z: nat)
    requires ValidTypes(types) && budget.NonNeg() && p.NonNeg()
    ensures x < y < z < |types| + 3 && Solve3x3(Planes(types)[x], Planes(types)[y], Planes(types)[z]) == Some(q)
    ensures q.NonNeg() && Dual(types, budget, q) <= Dual(types, budget, p)
  {
    var i, j, k;
    q, i, j := TwoPlanes(types, budget, p);
    var a, b := Planes(types)[i].a, Planes(types)[j].a;
    CrossFacts(a, b);
    var s;
    var p2 := q;
    q, s, k := Descend(types, budget, p2, Cross(a, b));
    StaysOn(Planes(types)[i], p2, s, Cross(a, b));
    StaysOn(Planes(types)[j], p2, s, Cross(a, b));
    DetIsTriple(a, b, Planes(types)[k].a);
    x, y, z := SortIndices(types, q, i, j, k);
    SolvesExactly(Planes(types)[x], Planes(types)[y], Planes(types)[z], q);
  }

  /** Two descents reach two transversal planes without moving the concurrency price. */
  lemma {:induction false} TwoPlanes(types: seq<WorkloadType>, budget: Vec, p: Vec) returns (q: Vec, i: nat, j: nat)
    requires ValidTypes(types) && budget.NonNeg() && p.NonNeg()
    ensures q.NonNeg() && q.k == p.k && Dual(types, budget, q) <= Dual(types, budget, p)
    ensures i < |types| + 3 && j < |types| + 3 && i != 1 && i != 2 && j != 2
    ensures On(Planes(types)[i], q) && On(Planes(types)[j], q)
    ensures Planes(types)[i].a.r == 1.0 && Dot(Planes(types)[j].a, Step2(Planes(types)[i].a)) != 0.0
  {
    var p1;
    p1, i := FirstStep(types, budget, p);
    q, j := SecondStep(types, budget, p1, i);
  }

  lemma {:induction false} FirstStep(types: seq<WorkloadType>, budget: Vec, p: Vec) returns (q: Vec, i: nat)
    requires ValidTypes(types) && budget.NonNeg() && p.NonNeg()
    ensures q.NonNeg() && q.k == p.k && Dual(types, budget, q) <= Dual(types, budget, p)
    ensures i < |types| + 3 && i != 1 && i != 2 && On(Planes(types)[i], q) && Planes(types)[i].a.r == 1.0
  {
    var s;
    q, s, i := Descend(types, budget, p, STEP1);
    FirstPlane(types, i);
    KeepsConc(p, s, STEP1);
  }

  lemma {:induction false} SecondStep(types: seq<WorkloadType>, budget: Vec, p: Vec, i: nat) returns (q: Vec, j: nat)
    requires ValidTypes(types) && budget.NonNeg() && p.NonNeg()
    requires i < |types| + 3 && On(Planes(types)[i], p) && Planes(types)[i].a.r == 1.0
    ensures q.NonNeg() && q.k == p.k && Dual(types, budget, q) <= Dual(types, budget, p)
    ensures j < |types| + 3 && j != 2 && On(Planes(types)[i], q) && On(Planes(types)[j], q)
    ensures Dot(Planes(types)[j].a, Step2(Planes(types)[i].a)) != 0.0
  {
    var a, s := Planes(types)[i].a, 0.0;
    Step2Inside(a);
    q, s, j := Descend(types, budget, p, Step2(a));
    StaysOn(Planes(types)[i], p, s, Step2(a));
    KeepsConc(p, s, Step2(a));
  }

  lemma Step2Inside(a: Vec)
    requires a.r == 1.0
    ensures Dot(a, Step2(a)) == 0.0 && Dot(CONC, Step2(a)) == 0.0
  {
  }

  lemma KeepsConc(p: Vec, s: real, d: Vec)
    requires d.k == 0.0
    ensures p.Plus(s, d).k == p.k
  {
  }

  // ---------------------------------------------------------------- two-budget candidates

  /** Where the bid lines of types i and j cross; it is computed for i < j with distinct costs. */
  function Crossing(s: WorkloadType, t: WorkloadType): Vec
    requires s.cost != t.cost
  {
    var pC := (t.value - s.value) / (t.cost - s.cost);
    Vec(s.value - pC * s.cost, pC, 0.0)
  }

  ghost predicate IsCandidate(types: seq<WorkloadType>, q: Vec) {
    || q == ZERO
    || (exists i :: 0 <= i < |types| && q == Vec(types[i].value, 0.0, 0.0))
    || (exists i :: 0 <= i < |types| && types[i].cost > 0.0 && q == Vec(0.0, types[i].value / types[i].cost, 0.0))
    || (exists i, j :: 0 <= i < j < |types| && types[i].cost != types[j].cost && q == Crossing(types[i], types[j]))
  }

  lemma CrossingIs(s: WorkloadType, t: WorkloadType, q: Vec)
    requires s.cost != t.cost && q.k == 0.0 && Reduced(s, q) == 0.0 && Reduced(t, q) == 0.0
    ensures q == Crossing(s, t)
  {
    var dc := t.cost - s.cost;
    assert q.c * dc == t.value - s.value;
    assert q.c * dc / dc == q.c;
  }

  lemma AxisCrossingIs(t: WorkloadType, q: Vec)
    requires t.cost > 0.0 && q.k == 0.0 && q.r == 0.0 && Reduced(t, q) == 0.0
    ensures q == Vec(0.0, t.value / t.cost, 0.0)
  {
    assert q.c * t.cost == t.value;
    assert q.c * t.cost / t.cost == q.c;
  }

  /** Two-budget mode: some enumerated candidate is dual-feasible and no worse than p. */
  lemma {:induction false} CandidateVertex(types: seq<WorkloadType>, budget: Vec, p: Vec) returns (q: Vec)
    requires ValidTypes(types) && budget.NonNeg() && p.NonNeg() && p.k == 0.0
    ensures IsCandidate(types, q) && q.NonNeg() && q.k == 0.0 && Dual(types, budget, q) <= Dual(types, budget, p)
  {
    var i, j;
    q, i, j := TwoPlanes(types, budget, p);
    CandidateOn(types, q, i, j);
  }

  /** Without a concurrency price, the point on two such planes is one of the enumerated candidates. */
  lemma {:induction false} CandidateOn(types: seq<WorkloadType>, q: Vec, i: nat, j: nat)
    requires ValidTypes(types) && q.k == 0.0 && i < |types| + 3 && j < |types| + 3 && i != 1 && i != 2 && j != 2
    requires On(Planes(types)[i], q) && On(Planes(types)[j], q)
    requires Dot(Planes(types)[j].a, Step2(Planes(types)[i].a)) != 0.0
    ensures IsCandidate(types, q)
  {
    if j >= 3 { BidOn(types, q, j); }
    if i == 0 {
      AxisOn(types, q);
      AxisFirst(types, q, j);
    } else {
      BidOn(types, q, i);
      BidFirst(types, q, i - 3, j);
    }
  }

  lemma {:induction false} BidOn(types: seq<WorkloadType>, q: Vec, i: nat)
    requires 3 <= i < |types| + 3 && On(Planes(types)[i], q)
    ensures Planes(types)[i].a == types[i - 3].Use() && Reduced(types[i - 3], q) == 0.0
  {
    assert Planes(types)[i] == Plane(types[i - 3].Use(), types[i - 3].value);
    ReducedIsGap(types[i - 3], q);
  }

  lemma {:induction false} AxisOn(types: seq<WorkloadType>, q: Vec)
    requires On(Planes(types)[0], q)
    ensures q.r == 0.0 && Planes(types)[0].a == RATE
  {
  }

  lemma Step2Slope(t: WorkloadType, a: Vec)
    ensures Dot(t.Use(), Step2(a)) == t.cost - a.c
  {
  }

  lemma {:induction false} AxisFirst(types: seq<WorkloadType>, q: Vec, j: nat)
    requires ValidTypes(types) && q.k == 0.0 && j < |types| + 3 && j != 2
    requires q.r == 0.0 && Dot(Planes(types)[j].a, Step2(RATE)) != 0.0
    requires if j >= 3 then Reduced(types[j - 3], q) == 0.0 else On(Planes(types)[j], q)
    ensures IsCandidate(types, q)
  {
    if j >= 3 {
      assert Planes(types)[j] == Plane(types[j - 3].Use(), types[j - 3].value);
      Step2Slope(types[j - 3], RATE);
      AxisCrossingIs(types[j - 3], q);
    } else {
      Corner(types, q, j);
    }
  }

  lemma {:induction false} Corner(types: seq<WorkloadType>, q: Vec, j: nat)
    requires j < 2 && q.r == 0.0 && q.k == 0.0
    requires Dot(Planes(types)[j].a, Step2(RATE)) != 0.0 && On(Planes(types)[j], q)
    ensures q == ZERO
  {
    assert j == 1;
  }

  lemma {:induction false} BidFirst(types: seq<WorkloadType>, q: Vec, i: nat, j: nat)
    requires ValidTypes(types) && q.k == 0.0 && i < |types| && j < |types| + 3 && j != 2
    requires Reduced(types[i], q) == 0.0 && Dot(Planes(types)[j].a, Step2(types[i].Use())) != 0.0
    requires if j >= 3 then Reduced(types[j - 3], q) == 0.0 else On(Planes(types)[j], q)
    ensures IsCandidate(types, q)
  {
    if j >= 3 {
      var t := types[j - 3];
      assert Planes(types)[j] == Plane(t.Use(), t.value);
      Step2Slope(t, types[i].Use());
      if i < j - 3 {
        CrossingIs(types[i], t, q);
      } else {
        CrossingIs(t, types[i], q);
      }
    } else if j == 1 {
      assert q == Vec(types[i].value, 0.0, 0.0);
    } else {
      assert types[i].cost != 0.0;
      AxisCrossingIs(types[i], q);
    }
  }
}
