/** solveFluidLp of src/admission/fluid-lp.ts, loop by loop, proved against the duality theory of the other modules. */
module FluidLpSolver {
  import opened Numbers
  import opened Wrappers
  import opened FluidLp
  import opened FluidLpOptimality
  import opened FluidLpFill
  import opened FluidLpRecovery
  import opened FluidLpSingle
  import opened FluidLpPair
  import opened FluidLpBoth
  import opened Cramer
  import opened Vertices
  import opened Greedy
  import opened Sorting

  // ---------------------------------------------------------------- evaluating the dual

  method EvalDual(types: seq<WorkloadType>, budget: Vec, p: Vec) returns (d: real)
    ensures d == Dual(types, budget, p)
  {
    d := budget.r * p.r + budget.c * p.c + budget.k * p.k;
    ghost var s := Surplus(types, p);
    for i := 0 to |types|
      invariant d == Dot(budget, p) + Sum(s[..i])
    {
      d := d + types[i].weight * PosPart(Reduced(types[i], p));
      SumPrefix(s, i);
    }
    assert s[..|types|] == s;
  }

  /** How many types the prices strictly reject. */
  function RejectedUpTo(types: seq<WorkloadType>, p: Vec, n: nat): nat
    requires n <= |types|
  {
    if n == 0 then 0 else RejectedUpTo(types, p, n - 1) + if Reduced(types[n - 1], p) < 0.0 then 1 else 0
  }

  /** Selectivity: strictly rejected types, then the concurrency, cost and rate prices. */
  datatype Score = Score(rejected: int, k: real, c: real, r: real)

  function ScoreOf(types: seq<WorkloadType>, p: Vec): Score {
    Score(RejectedUpTo(types, p, |types|), p.k, p.c, p.r)
  }

  predicate LexGreater(a: Score, b: Score) {
    || a.rejected > b.rejected
    || (a.rejected == b.rejected && a.k > b.k)
    || (a.rejected == b.rejected && a.k == b.k && a.c > b.c)
    || (a.rejected == b.rejected && a.k == b.k && a.c == b.c && a.r > b.r)
  }

  /** The types the prices strictly reject. */
  ghost function Rejects(types: seq<WorkloadType>, p: Vec): set<nat> {
    set i: nat | i < |types| && Reduced(types[i], p) < 0.0
  }

  /** No fewer types rejected than at q; as many, and the prices for concurrency, cost and rate decide in this order. */
  ghost predicate AsSelective(types: seq<WorkloadType>, p: Vec, q: Vec) {
    var mine, other := |Rejects(types, p)|, |Rejects(types, q)|;
    mine > other || (mine == other && (p.k > q.k || (p.k == q.k && (p.c > q.c || (p.c == q.c && p.r >= q.r)))))
  }

  ghost function RejectsUpTo(types: seq<WorkloadType>, p: Vec, n: nat): set<nat>
    requires n <= |types|
  {
    set i: nat | i < n && Reduced(types[i], p) < 0.0
  }

  lemma {:induction false} CountsRejects(types: seq<WorkloadType>, p: Vec, n: nat)
    requires n <= |types|
    ensures RejectedUpTo(types, p, n) == |RejectsUpTo(types, p, n)|
  {
    if n > 0 {
      CountsRejects(types, p, n - 1);
      var before := RejectsUpTo(types, p, n - 1);
      assert RejectsUpTo(types, p, n) == if Reduced(types[n - 1], p) < 0.0 then before + {n - 1} else before;
    } else {
      assert RejectsUpTo(types, p, 0) == {};
    }
  }

  lemma RejectedIsCount(types: seq<WorkloadType>, p: Vec)
    ensures RejectedUpTo(types, p, |types|) == |Rejects(types, p)|
  {
    CountsRejects(types, p, |types|);
    assert RejectsUpTo(types, p, |types|) == Rejects(types, p);
  }

  lemma ScoreShows(types: seq<WorkloadType>, p: Vec, count: nat)
    requires count == |Rejects(types, p)|
    ensures ScoreOf(types, p) == Score(count, p.k, p.c, p.r)
  {
    RejectedIsCount(types, p);
  }

  lemma SelectiveOrder(mine: nat, p: Vec, other: nat, q: Vec)
    ensures !LexGreater(Score(other, q.k, q.c, q.r), Score(mine, p.k, p.c, p.r))
      <==> mine > other || (mine == other && (p.k > q.k || (p.k == q.k && (p.c > q.c || (p.c == q.c && p.r >= q.r)))))
  {
  }

  /** The loop's score orders the prices that way. */
  lemma SelectiveByScore(types: seq<WorkloadType>, p: Vec, q: Vec)
    ensures AsSelective(types, p, q) <==> !LexGreater(ScoreOf(types, q), ScoreOf(types, p))
  {
    ScoreShows(types, p, |Rejects(types, p)|);
    ScoreShows(types, q, |Rejects(types, q)|);
    SelectiveOrder(|Rejects(types, p)|, p, |Rejects(types, q)|, q);
  }

  datatype Scored = Scored(p: Vec, d: real)

  ghost predicate Evaluated(types: seq<WorkloadType>, budget: Vec, feasible: seq<Scored>) {
    forall i :: 0 <= i < |feasible| ==> feasible[i].p.NonNeg() && feasible[i].d == Dual(types, budget, feasible[i].p)
  }

  ghost predicate Listed(feasible: seq<Scored>, p: Vec) {
    exists i :: 0 <= i < |feasible| && feasible[i].p == p
  }

  /** Among the co-optimal points, the lexicographically most selective one. */
  method MostSelective(types: seq<WorkloadType>, budget: Vec, feasible: seq<Scored>, minD: real) returns (best: Vec)
    requires Evaluated(types, budget, feasible)
    requires exists i :: 0 <= i < |feasible| && feasible[i].d == minD
    requires forall i :: 0 <= i < |feasible| ==> minD <= feasible[i].d
    ensures Listed(feasible, best) && best.NonNeg() && Dual(types, budget, best) == minD
    ensures forall i :: 0 <= i < |feasible| && feasible[i].d == minD ==> AsSelective(types, best, feasible[i].p)
  {
    best := ZERO;
    var bestScore := Score(-1, -1.0, -1.0, -1.0);
    ghost var chosen := -1;
    for n := 0 to |feasible|
      invariant -1 <= chosen < n
      invariant chosen == -1 ==> bestScore.rejected == -1 && forall i :: 0 <= i < n ==> feasible[i].d != minD
      invariant chosen >= 0 ==> best == feasible[chosen].p && feasible[chosen].d == minD && bestScore == ScoreOf(types, best)
      invariant forall i :: 0 <= i < n && feasible[i].d == minD ==> !LexGreater(ScoreOf(types, feasible[i].p), bestScore)
    {
      var f := feasible[n];
      if f.d > minD { continue; }
      var rejected := 0;
      for i := 0 to |types|
        invariant rejected == RejectedUpTo(types, f.p, i)
      {
        if Reduced(types[i], f.p) < 0.0 { rejected := rejected + 1; }
      }
      var score := Score(rejected, f.p.k, f.p.c, f.p.r);
      if LexGreater(score, bestScore) {
        best, bestScore, chosen := f.p, score, n;
      }
    }
    forall i | 0 <= i < |feasible| && feasible[i].d == minD ensures AsSelective(types, best, feasible[i].p) {
      SelectiveByScore(types, best, feasible[i].p);
    }
  }

  // ---------------------------------------------------------------- two-budget candidates

  method Candidates(types: seq<WorkloadType>) returns (cands: seq<Vec>)
    requires ValidTypes(types)
    ensures forall q :: q in cands <==> IsCandidate(types, q)
  {
    cands := [ZERO];
    for i := 0 to |types|
      invariant forall q :: q in cands <==> SingleCandidate(types, q, i)
    {
      cands := cands + [Vec(types[i].value, 0.0, 0.0)];
      if types[i].cost > 0.0 {
        cands := cands + [Vec(0.0, types[i].value / types[i].cost, 0.0)];
      }
    }
    for i := 0 to |types|
      invariant forall q :: q in cands <==> SingleCandidate(types, q, |types|) || PairCandidate(types, q, i, 0)
    {
      for j := i + 1 to |types|
        invariant forall q :: q in cands <==> SingleCandidate(types, q, |types|) || PairCandidate(types, q, i, j)
      {
        if types[j].cost != types[i].cost {
          cands := cands + [Crossing(types[i], types[j])];
        }
      }
    }
  }

  ghost predicate SingleCandidate(types: seq<WorkloadType>, q: Vec, n: nat)
    requires n <= |types|
  {
    || q == ZERO
    || (exists i :: 0 <= i < n && q == Vec(types[i].value, 0.0, 0.0))
    || (exists i :: 0 <= i < n && types[i].cost > 0.0 && q == Vec(0.0, types[i].value / types[i].cost, 0.0))
  }

  /** Crossings of pairs enumerated before (i, j). */
  ghost predicate PairCandidate(types: seq<WorkloadType>, q: Vec, i: nat, j: nat)
    requires i <= |types| && j <= |types|
  {
    exists a, b :: 0 <= a < b < |types| && (a < i || (a == i && b < j)) && types[a].cost != types[b].cost && q == Crossing(types[a], types[b])
  }

  /** The dual-feasible candidates with their objective, and the smallest one. */
  method Evaluate(types: seq<WorkloadType>, budget: Vec, cands: seq<Vec>) returns (feasible: seq<Scored>, minD: real)
    ensures Evaluated(types, budget, feasible)
    ensures forall i :: 0 <= i < |cands| && cands[i].NonNeg() ==> Listed(feasible, cands[i])
    ensures forall i :: 0 <= i < |feasible| ==> feasible[i].p in cands && minD <= feasible[i].d
    ensures feasible != [] ==> exists i :: 0 <= i < |feasible| && feasible[i].d == minD
  {
    feasible, minD := [], 0.0; // stands for +Infinity: the first candidate replaces it either way
    ghost var arg := 0;
    for n := 0 to |cands|
      invariant Evaluated(types, budget, feasible)
      invariant forall i :: 0 <= i < n && cands[i].NonNeg() ==> Listed(feasible, cands[i])
      invariant forall i :: 0 <= i < |feasible| ==> feasible[i].p in cands && minD <= feasible[i].d
      invariant feasible != [] ==> 0 <= arg < |feasible| && feasible[arg].d == minD
    {
      var p := cands[n];
      if p.NonNeg() {
        var d := EvalDual(types, budget, p);
        if feasible == [] || d < minD {
          minD, arg := d, |feasible|;
        }
        feasible := feasible + [Scored(p, d)];
        ListedGrows(feasible, n, cands);
      }
    }
  }

  /** Keep the dual-feasible candidates, minimise D, pick the most selective minimiser. */
  method TwoBudgetPrices(types: seq<WorkloadType>, budget: Vec) returns (best: Vec, minD: real)
    requires ValidTypes(types) && budget.NonNeg()
    ensures DualOptimal(types, budget, best, true) && minD == Dual(types, budget, best)
    ensures Selected(types, budget, best)
  {
    var cands := Candidates(types);
    var feasible;
    feasible, minD := Evaluate(types, budget, cands);
    OriginListed(types, cands, feasible);
    best := MostSelective(types, budget, feasible, minD);
    MinimisesEverywhere(types, budget, cands, feasible, best, minD);
    SelectedFrom(types, budget, cands, feasible, best, minD);
  }

  lemma {:induction false} ListedGrows(feasible: seq<Scored>, n: nat, cands: seq<Vec>)
    requires feasible != [] && n < |cands|
    requires forall i :: 0 <= i < n && cands[i].NonNeg() ==> Listed(feasible[..|feasible| - 1], cands[i])
    requires feasible[|feasible| - 1].p == cands[n]
    ensures forall i :: 0 <= i <= n && cands[i].NonNeg() ==> Listed(feasible, cands[i])
  {
    forall i | 0 <= i < n && cands[i].NonNeg() ensures Listed(feasible, cands[i]) {
      var k :| 0 <= k < |feasible| - 1 && feasible[..|feasible| - 1][k].p == cands[i];
      assert feasible[k].p == cands[i];
    }
  }

  lemma {:induction false} OriginListed(types: seq<WorkloadType>, cands: seq<Vec>, feasible: seq<Scored>)
    requires forall q :: q in cands <==> IsCandidate(types, q)
    requires forall i :: 0 <= i < |cands| && cands[i].NonNeg() ==> Listed(feasible, cands[i])
    ensures feasible != []
  {
    assert ZERO in cands;
    var i :| 0 <= i < |cands| && cands[i] == ZERO;
    assert Listed(feasible, cands[i]);
  }

  /** The selection rule: the prices are at least as selective as every co-optimal candidate. */
  ghost predicate Selected(types: seq<WorkloadType>, budget: Vec, best: Vec) {
    IsCandidate(types, best)
    && forall q: Vec :: IsCandidate(types, q) && q.NonNeg() && Dual(types, budget, q) == Dual(types, budget, best) ==>
      AsSelective(types, best, q)
  }

  lemma {:induction false} SelectedFrom(types: seq<WorkloadType>, budget: Vec, cands: seq<Vec>, feasible: seq<Scored>, best: Vec, minD: real)
    requires forall q :: q in cands <==> IsCandidate(types, q)
    requires forall i :: 0 <= i < |cands| && cands[i].NonNeg() ==> Listed(feasible, cands[i])
    requires forall i :: 0 <= i < |feasible| ==> feasible[i].p in cands
    requires Evaluated(types, budget, feasible) && Listed(feasible, best) && Dual(types, budget, best) == minD
    requires forall i :: 0 <= i < |feasible| && feasible[i].d == minD ==> AsSelective(types, best, feasible[i].p)
    ensures Selected(types, budget, best)
  {
    forall q: Vec | IsCandidate(types, q) && q.NonNeg() && Dual(types, budget, q) == Dual(types, budget, best)
      ensures AsSelective(types, best, q)
    {
      assert q in cands;
      var i :| 0 <= i < |cands| && cands[i] == q;
      assert Listed(feasible, cands[i]);
    }
  }

  /** The enumerated minimum is the minimum over the whole quadrant. */
  lemma {:induction false} MinimisesEverywhere(types: seq<WorkloadType>, budget: Vec, cands: seq<Vec>, feasible: seq<Scored>, best: Vec, minD: real)
    requires ValidTypes(types) && budget.NonNeg() && (forall q :: q in cands <==> IsCandidate(types, q))
    requires forall i :: 0 <= i < |cands| && cands[i].NonNeg() ==> Listed(feasible, cands[i])
    requires forall i :: 0 <= i < |feasible| ==> feasible[i].p in cands && minD <= feasible[i].d
    requires Evaluated(types, budget, feasible) && Listed(feasible, best) && best.NonNeg() && Dual(types, budget, best) == minD
    ensures DualOptimal(types, budget, best, true)
  {
    assert best.k == 0.0;
    forall q: Vec | q.NonNeg() && q.k == 0.0 ensures Dual(types, budget, best) <= Dual(types, budget, q) {
      var v := CandidateVertex(types, budget, q);
      assert v in cands;
      var i :| 0 <= i < |cands| && cands[i] == v;
      assert Listed(feasible, cands[i]);
    }
  }

  // ---------------------------------------------------------------- three-budget prices

  ghost predicate SolvedAt(x: Plane, y: Plane, z: Plane, q: Vec) {
    Solve3x3(x, y, z) == Some(q) && q.NonNeg()
  }

  /** The origin, or the dual-feasible solution of a plane triple. */
  ghost predicate IsTripleVertex(types: seq<WorkloadType>, q: Vec) {
    q == ZERO || exists x: nat, y: nat, z: nat :: TripleAt(Planes(types), x, y, z, q)
  }

  ghost predicate TripleAt(ps: seq<Plane>, x: nat, y: nat, z: nat, q: Vec) {
    x < y < z < |ps| && SolvedAt(ps[x], ps[y], ps[z], q)
  }

  /** The dual-feasible solution of one plane triple, as a list of at most one point. */
  method TryTriple(x: Plane, y: Plane, z: Plane) returns (f: seq<Vec>)
    ensures forall q :: SolvedAt(x, y, z, q) <==> q in f
  {
    var sol := Solve3x3(x, y, z);
    f := if sol.Some? && sol.value.NonNeg() then [sol.value] else [];
  }

  /** cands holds exactly the origin and the solutions of the triples enumerated before (i, j, k). */
  ghost predicate TriplesUpTo(ps: seq<Plane>, cands: seq<Vec>, i: nat, j: nat, k: nat) {
    forall q :: q in cands <==> q == ZERO || exists x: nat, y: nat, z: nat ::
      TripleAt(ps, x, y, z, q) && Before(x, y, z, i, j, k)
  }

  ghost predicate Before(x: nat, y: nat, z: nat, i: nat, j: nat, k: nat) {
    x < i || (x == i && (y < j || (y == j && z < k)))
  }

  /** Every plane triple. */
  method TripleVertices(types: seq<WorkloadType>) returns (cands: seq<Vec>)
    ensures forall q :: q in cands <==> IsTripleVertex(types, q)
  {
    var ps := Planes(types);
    cands := [ZERO];
    for i := 0 to |ps|
      invariant TriplesUpTo(ps, cands, i, 0, 0)
    {
      NextTriple(ps, cands, i, 0, 0, i, i + 1, 0);
      for j := i + 1 to |ps|
        invariant TriplesUpTo(ps, cands, i, j, 0)
      {
        NextTriple(ps, cands, i, j, 0, i, j, j + 1);
        for k := j + 1 to |ps|
          invariant TriplesUpTo(ps, cands, i, j, k)
        {
          var f := TryTriple(ps[i], ps[j], ps[k]);
          AddTriple(ps, cands, f, i, j, k);
          cands := cands + f;
        }
        NextTriple(ps, cands, i, j, |ps|, i, j + 1, 0);
      }
      NextTriple(ps, cands, i, |ps|, 0, i + 1, 0, 0);
    }
    AllTriples(ps, cands);
  }

  /** Index bookkeeping: no triple lies strictly between two loop positions. */
  lemma {:induction false} NextTriple(ps: seq<Plane>, cands: seq<Vec>, i: nat, j: nat, k: nat, i': nat, j': nat, k': nat)
    requires TriplesUpTo(ps, cands, i, j, k)
    requires forall x: nat, y: nat, z: nat :: x < y < z < |ps| ==> (Before(x, y, z, i, j, k) <==> Before(x, y, z, i', j', k'))
    ensures TriplesUpTo(ps, cands, i', j', k')
  {
  }

  lemma {:induction false} AddTriple(ps: seq<Plane>, cands: seq<Vec>, f: seq<Vec>, i: nat, j: nat, k: nat)
    requires TriplesUpTo(ps, cands, i, j, k) && i < j < k < |ps|
    requires forall q :: SolvedAt(ps[i], ps[j], ps[k], q) <==> q in f
    ensures TriplesUpTo(ps, cands + f, i, j, k + 1)
  {
    forall q ensures q in cands + f <==> q == ZERO || exists x: nat, y: nat, z: nat ::
      TripleAt(ps, x, y, z, q) && Before(x, y, z, i, j, k + 1)
    {
      if q in f { assert TripleAt(ps, i, j, k, q) && Before(i, j, k, i, j, k + 1); }
      if q in cands && q != ZERO {
        var x: nat, y: nat, z: nat :| TripleAt(ps, x, y, z, q) && Before(x, y, z, i, j, k);
        assert Before(x, y, z, i, j, k + 1);
      }
      if x: nat, y: nat, z: nat :| TripleAt(ps, x, y, z, q) && Before(x, y, z, i, j, k + 1) {
        assert Before(x, y, z, i, j, k) || (x == i && y == j && z == k);
      }
    }
  }

  lemma {:induction false} AllTriples(ps: seq<Plane>, cands: seq<Vec>)
    requires TriplesUpTo(ps, cands, |ps|, 0, 0)
    ensures forall q :: q in cands <==> q == ZERO || exists x: nat, y: nat, z: nat :: TripleAt(ps, x, y, z, q)
  {
    forall q | exists x: nat, y: nat, z: nat :: TripleAt(ps, x, y, z, q) ensures q in cands {
      var x: nat, y: nat, z: nat :| TripleAt(ps, x, y, z, q);
      assert Before(x, y, z, |ps|, 0, 0);
    }
  }

  ghost predicate SelectedTriple(types: seq<WorkloadType>, budget: Vec, best: Vec) {
    IsTripleVertex(types, best)
    && forall q: Vec :: IsTripleVertex(types, q) && q.NonNeg() && Dual(types, budget, q) == Dual(types, budget, best) ==>
      AsSelective(types, best, q)
  }

  /** solveThreeBudget's prices: minimise D over every plane triple and pick the most selective minimiser. */
  method ThreeBudgetPrices(types: seq<WorkloadType>, budget: Vec) returns (best: Vec, minD: real)
    requires ValidTypes(types) && budget.NonNeg()
    ensures DualOptimal(types, budget, best, false) && minD == Dual(types, budget, best)
    ensures SelectedTriple(types, budget, best)
  {
    var cands := TripleVertices(types);
    var feasible;
    feasible, minD := Evaluate(types, budget, cands);
    assert ZERO in cands;
    ghost var i :| 0 <= i < |cands| && cands[i] == ZERO;
    assert Listed(feasible, cands[i]);
    best := MostSelective(types, budget, feasible, minD);
    TriplesSuffice(types, budget, cands, feasible, best, minD);
    SelectedTripleFrom(types, budget, cands, feasible, best, minD);
  }

  lemma {:induction false} SelectedTripleFrom(types: seq<WorkloadType>, budget: Vec, cands: seq<Vec>, feasible: seq<Scored>, best: Vec, minD: real)
    requires forall q :: q in cands <==> IsTripleVertex(types, q)
    requires forall i :: 0 <= i < |cands| && cands[i].NonNeg() ==> Listed(feasible, cands[i])
    requires forall i :: 0 <= i < |feasible| ==> feasible[i].p in cands
    requires Evaluated(types, budget, feasible) && Listed(feasible, best) && Dual(types, budget, best) == minD
    requires forall i :: 0 <= i < |feasible| && feasible[i].d == minD ==> AsSelective(types, best, feasible[i].p)
    ensures SelectedTriple(types, budget, best)
  {
    forall q: Vec | IsTripleVertex(types, q) && q.NonNeg() && Dual(types, budget, q) == Dual(types, budget, best)
      ensures AsSelective(types, best, q)
    {
      assert q in cands;
      var i :| 0 <= i < |cands| && cands[i] == q;
      assert Listed(feasible, cands[i]);
    }
  }

  lemma {:induction false} TriplesSuffice(types: seq<WorkloadType>, budget: Vec, cands: seq<Vec>, feasible: seq<Scored>, best: Vec, minD: real)
    requires ValidTypes(types) && budget.NonNeg() && (forall q :: q in cands <==> IsTripleVertex(types, q))
    requires forall i :: 0 <= i < |cands| && cands[i].NonNeg() ==> Listed(feasible, cands[i])
    requires forall i :: 0 <= i < |feasible| ==> minD <= feasible[i].d
    requires Evaluated(types, budget, feasible) && best.NonNeg() && Dual(types, budget, best) == minD
    ensures DualOptimal(types, budget, best, false)
  {
    forall q: Vec | q.NonNeg() ensures Dual(types, budget, best) <= Dual(types, budget, q) {
      var v, x, y, z := TripleVertex(types, budget, q);
      assert TripleAt(Planes(types), x, y, z, v);
      assert v in cands;
      var i :| 0 <= i < |cands| && cands[i] == v;
      assert Listed(feasible, cands[i]);
    }
  }
}
