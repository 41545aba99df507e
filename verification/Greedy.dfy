/**
 * The greedy budget fill of fillMarginal (src/admission/fluid-lp.ts): walk the marginal types in order and
 * admit each one fully while the budget lasts, one fractionally, and the rest not at all.
 */
module Greedy {
  import opened Numbers
  import opened Sorting

  function Products(need: seq<real>, x: seq<real>): (s: seq<real>)
    requires |need| == |x|
    ensures |s| == |x| && forall i :: 0 <= i < |s| ==> s[i] == need[i] * x[i]
  {
    seq(|x|, i requires 0 <= i < |x| => need[i] * x[i])
  }

  /** Total consumption of a fill. */
  function Spent(need: seq<real>, x: seq<real>): real
    requires |need| == |x|
  {
    Sum(Products(need, x))
  }

  /** The part of one type that still fits. */
  function Fraction(room: real, need: real): real
    requires need > 0.0
  {
    Max(0.0, Min(1.0, room / need))
  }

  /** The finished fill: `used` of `cap` is spent so far; types without need receive `idle`. */
  function Filled(need: seq<real>, x: seq<real>, order: seq<nat>, cap: real, used: real, idle: real): (z: seq<real>)
    requires |need| == |x| && Within(order, |x|)
    ensures |z| == |x|
    decreases |order|
  {
    if order == [] then x else
      var i := order[0];
      if need[i] <= 0.0 then Filled(need, x[i := idle], order[1..], cap, used, idle)
      else if used + need[i] <= cap then Filled(need, x[i := 1.0], order[1..], cap, used + need[i], idle)
      else Filled(need, x[i := Fraction(cap - used, need[i])], order[1..], cap, cap, idle)
  }

  /** One step of the fill. */
  function Step(need: seq<real>, x: seq<real>, i: nat, cap: real, used: real, idle: real): (r: (seq<real>, real))
    requires |need| == |x| && i < |x|
    ensures |r.0| == |x| && forall j :: 0 <= j < |x| && j != i ==> r.0[j] == x[j]
  {
    if need[i] <= 0.0 then (x[i := idle], used)
    else if used + need[i] <= cap then (x[i := 1.0], used + need[i])
    else (x[i := Fraction(cap - used, need[i])], cap)
  }

  lemma {:induction false} FilledStep(need: seq<real>, x: seq<real>, order: seq<nat>, cap: real, used: real, idle: real)
    requires |need| == |x| && Within(order, |x|) && order != []
    ensures var (y, u) := Step(need, x, order[0], cap, used, idle);
      Filled(need, x, order, cap, used, idle) == Filled(need, y, order[1..], cap, u, idle)
  {
  }

  lemma {:induction false} Untouched(need: seq<real>, x: seq<real>, order: seq<nat>, cap: real, used: real, idle: real)
    requires |need| == |x| && Within(order, |x|)
    ensures forall j :: 0 <= j < |x| && j !in order ==> Filled(need, x, order, cap, used, idle)[j] == x[j]
    decreases |order|
  {
    if order != [] {
      var (y, u) := Step(need, x, order[0], cap, used, idle);
      FilledStep(need, x, order, cap, used, idle);
      Untouched(need, y, order[1..], cap, u, idle);
    }
  }

  lemma FractionFits(room: real, need: real)
    requires need > 0.0 && 0.0 <= room < need
    ensures 0.0 <= Fraction(room, need) <= 1.0 && need * Fraction(room, need) == room
    ensures room == 0.0 ==> Fraction(room, need) == 0.0
  {
    var f := room / need;
    assert f * need == room;
    assert f < 0.0 ==> f * need < 0.0;
    assert f > 1.0 ==> (f - 1.0) * need > 0.0;
  }

  lemma {:induction false} SpentUpdate(need: seq<real>, x: seq<real>, i: nat, y: real)
    requires |need| == |x| && i < |x|
    ensures Spent(need, x[i := y]) == Spent(need, x) - need[i] * x[i] + need[i] * y
  {
    var before, after := Products(need, x), Products(need, x[i := y]);
    forall j | 0 <= j < |x| ensures after[j] == before[i := need[i] * y][j] {
    }
    assert after == before[i := need[i] * y];
    SumUpdate(before, i, need[i] * y);
  }

  lemma {:induction false} StepSpends(need: seq<real>, x: seq<real>, i: nat, cap: real, used: real, idle: real)
    requires |need| == |x| && i < |x| && used <= cap && x[i] == 0.0 && need[i] >= 0.0 && 0.0 <= idle <= 1.0
    ensures var (y, u) := Step(need, x, i, cap, used, idle);
      used <= u <= cap && 0.0 <= y[i] <= 1.0 && Spent(need, y) == Spent(need, x) + (u - used)
      && (need[i] > 0.0 && u != cap ==> y[i] == 1.0)
      && (need[i] > 0.0 && used == cap ==> y[i] == 0.0)
      && (need[i] == 0.0 ==> y[i] == idle)
  {
    var (y, u) := Step(need, x, i, cap, used, idle);
    assert y == x[i := y[i]];
    SpentUpdate(need, x, i, y[i]);
    StepAmount(need[i], cap, used, idle, y[i], u);
  }

  lemma StepAmount(need: real, cap: real, used: real, idle: real, y: real, u: real)
    requires used <= cap && need >= 0.0
    requires need <= 0.0 ==> y == idle && u == used
    requires need > 0.0 && used + need <= cap ==> y == 1.0 && u == used + need
    requires need > 0.0 && used + need > cap ==> y == Fraction(cap - used, need) && u == cap
    ensures need * y == u - used
    ensures need > 0.0 ==> 0.0 <= y <= 1.0
    ensures need > 0.0 && used == cap ==> y == 0.0
  {
    if need > 0.0 && used + need > cap { FractionFits(cap - used, need); }
  }

  /** The listed types are still at 0 and have non-negative need. */
  ghost predicate Fresh(need: seq<real>, x: seq<real>, order: seq<nat>)
    requires |need| == |x|
  {
    Within(order, |x|) && Distinct(order) && forall a :: 0 <= a < |order| ==> x[order[a]] == 0.0 && need[order[a]] >= 0.0
  }

  lemma {:induction false} StepFresh(need: seq<real>, x: seq<real>, order: seq<nat>, cap: real, used: real, idle: real)
    requires |need| == |x| && order != [] && Fresh(need, x, order)
    ensures var (y, u) := Step(need, x, order[0], cap, used, idle); Fresh(need, y, order[1..])
    ensures order[0] !in order[1..]
  {
    var (y, u) := Step(need, x, order[0], cap, used, idle);
    forall a | 0 <= a < |order[1..]| ensures order[1..][a] != order[0] && y[order[1..][a]] == 0.0 {
      assert order[1..][a] == order[a + 1];
    }
  }

  /** The fill stays in [0, 1], spends only up to the cap, and stops short of it only with everything admitted. */
  ghost predicate Fills(need: seq<real>, x: seq<real>, z: seq<real>, order: seq<nat>, room: real, idle: real)
    requires |need| == |x| == |z| && Within(order, |x|)
  {
    (forall a :: 0 <= a < |order| ==> 0.0 <= z[order[a]] <= 1.0)
    && (forall a :: 0 <= a < |order| && need[order[a]] == 0.0 ==> z[order[a]] == idle)
    && 0.0 <= Spent(need, z) - Spent(need, x) <= room
    && (Spent(need, z) - Spent(need, x) == room || forall a :: 0 <= a < |order| && need[order[a]] > 0.0 ==> z[order[a]] == 1.0)
    && (room == 0.0 ==> forall a :: 0 <= a < |order| && need[order[a]] > 0.0 ==> z[order[a]] == 0.0)
  }

  lemma {:induction false} FilledFills(need: seq<real>, x: seq<real>, order: seq<nat>, cap: real, used: real, idle: real)
    requires |need| == |x| && Fresh(need, x, order) && used <= cap && 0.0 <= idle <= 1.0
    ensures Fills(need, x, Filled(need, x, order, cap, used, idle), order, cap - used, idle)
    decreases |order|
  {
    if order != [] {
      var rest := order[1..];
      var (y, u) := Step(need, x, order[0], cap, used, idle);
      var z := Filled(need, x, order, cap, used, idle);
      StepSpends(need, x, order[0], cap, used, idle);
      StepFresh(need, x, order, cap, used, idle);
      FilledStep(need, x, order, cap, used, idle);
      FilledFills(need, y, rest, cap, u, idle);
      Untouched(need, y, rest, cap, u, idle);
      ConsFills(need, x, y, z, order, cap, used, u, idle);
    }
  }

  lemma {:induction false} ConsFills(need: seq<real>, x: seq<real>, y: seq<real>, z: seq<real>, order: seq<nat>,
                                     cap: real, used: real, u: real, idle: real)
    requires |need| == |x| == |y| == |z| && Within(order, |x|) && order != [] && used <= u <= cap && need[order[0]] >= 0.0
    requires z[order[0]] == y[order[0]] && 0.0 <= y[order[0]] <= 1.0
    requires Spent(need, y) == Spent(need, x) + (u - used)
    requires need[order[0]] > 0.0 && u != cap ==> y[order[0]] == 1.0
    requires need[order[0]] > 0.0 && used == cap ==> y[order[0]] == 0.0
    requires need[order[0]] == 0.0 ==> y[order[0]] == idle
    requires Fills(need, y, z, order[1..], cap - u, idle)
    ensures Fills(need, x, z, order, cap - used, idle)
  {
    forall a | 0 < a < |order| ensures order[a] == order[1..][a - 1] {}
    if Spent(need, z) - Spent(need, x) != cap - used {
      assert Spent(need, z) - Spent(need, y) != cap - u;
    }
  }

  /** What the fill admits is a threshold in the sort key: everything strictly before the cut, nothing strictly after. */
  ghost predicate Threshold(need: seq<real>, z: seq<real>, order: seq<nat>, key: seq<real>, cut: real)
    requires |need| == |z| == |key| && Within(order, |z|)
  {
    forall a :: 0 <= a < |order| && need[order[a]] > 0.0 ==>
      (key[order[a]] < cut ==> z[order[a]] == 1.0) && (key[order[a]] > cut ==> z[order[a]] == 0.0)
  }

  lemma {:induction false} FilledThreshold(need: seq<real>, x: seq<real>, order: seq<nat>, cap: real, used: real, idle: real,
                                           key: seq<real>, fallback: real) returns (cut: real)
    requires |need| == |x| == |key| && Fresh(need, x, order) && Sorted(order, key)
    requires used <= cap && 0.0 <= idle <= 1.0
    ensures Threshold(need, Filled(need, x, order, cap, used, idle), order, key, cut)
    ensures cut == fallback || exists a :: 0 <= a < |order| && need[order[a]] > 0.0 && cut == key[order[a]]
    decreases |order|
  {
    cut := fallback;
    if order != [] {
      var i, rest := order[0], order[1..];
      var (y, u) := Step(need, x, i, cap, used, idle);
      var z := Filled(need, x, order, cap, used, idle);
      StepSpends(need, x, i, cap, used, idle);
      StepFresh(need, x, order, cap, used, idle);
      FilledStep(need, x, order, cap, used, idle);
      Untouched(need, y, rest, cap, u, idle);
      var later := FilledThreshold(need, y, rest, cap, u, idle, key, fallback);
      FilledFills(need, y, rest, cap, u, idle);
      cut := if need[i] > 0.0 && (u == cap || later < key[i]) then key[i] else later;
      assert cut == later && cut != fallback ==> exists a :: 0 <= a < |order| && need[order[a]] > 0.0 && cut == key[order[a]] by {
        if cut == later && cut != fallback {
          var a :| 0 <= a < |rest| && need[rest[a]] > 0.0 && cut == key[rest[a]];
          assert order[a + 1] == rest[a];
        }
      }
      ConsThreshold(need, y, z, order, key, cap, u, later, cut);
    }
  }

  lemma {:induction false} ConsThreshold(need: seq<real>, y: seq<real>, z: seq<real>, order: seq<nat>, key: seq<real>,
                                         cap: real, u: real, later: real, cut: real)
    requires |need| == |y| == |z| == |key| && Within(order, |z|) && order != [] && Sorted(order, key)
    requires z[order[0]] == y[order[0]] && (need[order[0]] > 0.0 && u != cap ==> y[order[0]] == 1.0)
    requires Threshold(need, z, order[1..], key, later)
    requires u == cap ==> forall a :: 0 <= a < |order[1..]| && need[order[1..][a]] > 0.0 ==> z[order[1..][a]] == 0.0
    requires cut == if need[order[0]] > 0.0 && (u == cap || later < key[order[0]]) then key[order[0]] else later
    ensures Threshold(need, z, order, key, cut)
  {
    forall a | 0 < a < |order| && need[order[a]] > 0.0
      ensures (key[order[a]] < cut ==> z[order[a]] == 1.0) && (key[order[a]] > cut ==> z[order[a]] == 0.0)
    {
      assert order[a] == order[1..][a - 1];
      assert key[order[0]] <= key[order[a]];
    }
  }
}
