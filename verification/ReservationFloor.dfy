/** With equal costs, the default step keeps the documented regret constant exactly where its floor of one millionth is idle. */
module ReservationFloor {
  import opened Numbers
  import opened Wrappers
  import opened Reservation

  /** A table of Math.sqrt over the counts. */
  ghost predicate Roots(root: nat -> real) { forall t: nat :: RootOf(root(t), t) }

  /** The documented bound, on every run, against every fixed reservation of the range. */
  ghost predicate MeetsDocumented(o: Options)
    requires Accepted(o)
  {
    forall rounds: seq<Round>, u: real, s: real ::
      WellRooted(rounds) && RootOf(s, |rounds|) && o.minReservation.GetOr(0.0) <= u <= o.maxReservation ==>
        WithinDocumented(o, rounds, u, s)
  }

  ghost predicate WithinDocumented(o: Options, rounds: seq<Round>, u: real, s: real)
    requires Accepted(o) && WellRooted(rounds)
  {
    var q := o.ToParams(); RegretOf(q, o.Initial(), rounds, u) <= Zinkevich(q.Diameter(), q.Slope(), s)
  }

  // ---------------------------------------------------------------- the run that breaks it

  /** Equal costs, and a first step, x range widths long, that crosses the whole range. */
  ghost predicate Leaps(q: Params, x: real) { q.Valid() && q.h == q.p && q.lo < q.hi && x > 1.0 && x * q.Diameter() == q.eta * q.h }

  /** Climb to the top, teeter there between both ends, then slide down. */
  function CostAt(q: Params, start: nat, mid: nat, k: nat): real {
    if k < start || (k < mid && (k - start) % 2 == 1) then q.hi else q.lo
  }

  ghost function Played(q: Params, root: nat -> real, start: nat, mid: nat, n: nat): (rounds: seq<Round>)
    requires Roots(root)
    ensures |rounds| == n && WellRooted(rounds)
    ensures forall k :: 0 <= k < n ==> rounds[k] == Round(CostAt(q, start, mid, k), root(k + 1))
  {
    var rounds := seq(n, k requires 0 <= k < n => Round(CostAt(q, start, mid, k), root(k + 1)));
    PositiveRoots(rounds);
    rounds
  }

  lemma PositiveRoots(rounds: seq<Round>)
    requires Rooted(rounds)
    ensures WellRooted(rounds)
  {
    forall k: nat | k < |rounds| ensures rounds[k].root > 0.0 { RootPositive(rounds[k].root, k + 1); }
  }

  lemma PlayedGrows(q: Params, root: nat -> real, start: nat, mid: nat, n: nat, m: nat)
    requires Roots(root) && m <= n
    ensures Played(q, root, start, mid, n)[..m] == Played(q, root, start, mid, m)
  {
  }

  function Scaled(d: real, z: real): real { d * z }

  lemma ScaledAdds(d: real, y: real, z: real, sum: real)
    requires sum == y + z
    ensures Scaled(d, sum) == Scaled(d, y) + Scaled(d, z)
  {
  }

  lemma ScaledOrders(d: real, y: real, z: real)
    requires d >= 0.0 && y <= z
    ensures Scaled(d, y) <= Scaled(d, z)
  {
    assert d * (z - y) >= 0.0;
  }

  /** A step, in widths of the range. */
  function Hop(x: real, s: real): real
    requires s > 0.0
  {
    x / s
  }

  lemma HopIs(x: real, s: real)
    requires s > 0.0
    ensures Scaled(Hop(x, s), s) == x
  {
  }

  lemma HopPositive(x: real, s: real)
    requires x > 0.0 && s > 0.0
    ensures Hop(x, s) > 0.0
  {
    HopIs(x, s);
    var e := Hop(x, s);
    assert e <= 0.0 ==> e * s <= 0.0;
  }

  lemma HopsShrink(x: real, s: real, s': real)
    requires x > 0.0 && 0.0 < s <= s'
    ensures Hop(x, s') <= Hop(x, s)
  {
    var e, e' := Hop(x, s), Hop(x, s');
    HopIs(x, s);
    HopIs(x, s');
    HopPositive(x, s');
    MulMono(s, s', e');
    assert e' > e ==> (e' - e) * s > 0.0;
  }

  function Unit(q: Params): real { q.h * q.Diameter() }

  /** The reservation stands at the share z of the range, and the regret against its bottom is at least v units. */
  ghost predicate Stands(q: Params, init: real, rounds: seq<Round>, z: real, v: real)
    requires WellRooted(rounds)
  {
    && 0.0 <= z <= 1.0 && After(q, init, rounds) == q.lo + Scaled(q.Diameter(), z)
    && RegretOf(q, init, rounds, q.lo) >= Scaled(Unit(q), v)
  }

  lemma StepLength(q: Params, x: real, s: real, step: real)
    requires Leaps(q, x) && s > 0.0 && step == q.eta / s
    ensures step * q.h == Scaled(q.Diameter(), Hop(x, s))
  {
    QuotientBack(q.eta, s, step);
    HopIs(x, s);
    SameStep(step, s, q.eta, q.h, Hop(x, s), x, q.Diameter());
  }

  lemma SameStep(e: real, s: real, eta: real, h: real, f: real, x: real, d: real)
    requires e * s == eta && f * s == x && eta * h == x * d && s > 0.0
    ensures e * h == d * f
  {
    var a, b := e * h, d * f;
    assert a * s == (e * s) * h && b * s == (f * s) * d;
    assert a != b ==> (a - b) * s != 0.0;
  }

  lemma ClampScaled(d: real, lo: real, hi: real, z: real)
    requires d > 0.0 && hi == lo + d
    ensures Clamp(lo + Scaled(d, z), lo, hi) == lo + Scaled(d, Clamp(z, 0.0, 1.0))
  {
    assert Scaled(d, 0.0) == 0.0 && Scaled(d, 1.0) == d;
    if z > 1.0 { assert d * (z - 1.0) > 0.0; } else if z < 0.0 { assert d * -z > 0.0; } else {
      ScaledOrders(d, 0.0, z);
      ScaledOrders(d, z, 1.0);
    }
  }

  /** Where one round leaves the reservation. */
  lemma Lands(q: Params, x: real, cost: real, s: real, z: real, up: bool)
    requires Leaps(q, x) && s > 0.0 && 0.0 <= z <= 1.0
    requires if up then cost == q.hi else cost == q.lo && z > 0.0
    ensures Stepped(q, q.lo + Scaled(q.Diameter(), z), Round(cost, s)) ==
      q.lo + Scaled(q.Diameter(), Clamp(if up then z + Hop(x, s) else z - Hop(x, s), 0.0, 1.0))
  {
    var d, f := q.Diameter(), if up then Hop(x, s) else -Hop(x, s);
    var r, step := q.lo + Scaled(d, z), q.eta / s;
    StepLength(q, x, s, step);
    Side(q, cost, z, up);
    var g := Subgradient(q, r, cost);
    ScaledAdds(d, Hop(x, s), -Hop(x, s), 0.0);
    assert Scaled(d, 0.0) == 0.0;
    assert step * g == -Scaled(d, f) by { assert g == q.h || g == -q.h; assert step * -q.h == -(step * q.h); }
    ScaledAdds(d, z, f, z + f);
    ClampScaled(d, q.lo, q.hi, z + f);
    SteppedBy(q, r, Round(cost, s), g, step);
  }

  lemma Side(q: Params, cost: real, z: real, up: bool)
    requires q.Valid() && q.h == q.p && q.lo < q.hi && 0.0 <= z <= 1.0
    requires if up then cost == q.hi else cost == q.lo && z > 0.0
    ensures Subgradient(q, q.lo + Scaled(q.Diameter(), z), cost) == if up then -q.h else q.h
  {
    if up {
      ScaledOrders(q.Diameter(), z, 1.0);
      assert Scaled(q.Diameter(), 1.0) == q.Diameter();
    } else {
      assert Scaled(q.Diameter(), z) > 0.0;
    }
  }

  /** What one round adds to the regret against the bottom. */
  lemma Gains(q: Params, cost: real, z: real, up: bool)
    requires q.Valid() && q.h == q.p && q.lo < q.hi && 0.0 <= z <= 1.0
    requires if up then cost == q.hi else cost == q.lo && z > 0.0
    ensures Loss(q, q.lo + Scaled(q.Diameter(), z), cost) - Loss(q, q.lo, cost) == Scaled(Unit(q), if up then -z else z)
  {
    var d := q.Diameter();
    var y := Scaled(d, z);
    Side(q, cost, z, up);
    assert q.h * y == Scaled(Unit(q), z) by { assert q.h * (d * z) == (q.h * d) * z; }
    if up {
      assert q.h * (d - y) == q.h * d - q.h * y;
      assert Scaled(Unit(q), -z) == -Scaled(Unit(q), z);
    }
  }

  /** One round more. */
  lemma Moves(q: Params, x: real, init: real, before: seq<Round>, rounds: seq<Round>, cost: real, s: real, z: real, v: real, up: bool)
    requires Leaps(q, x) && WellRooted(rounds) && WellRooted(before) && s > 0.0
    requires |rounds| == |before| + 1 && rounds[..|before|] == before && rounds[|before|] == Round(cost, s)
    requires Stands(q, init, before, z, v) && if up then cost == q.hi else cost == q.lo && z > 0.0
    ensures Stands(q, init, rounds, Clamp(if up then z + Hop(x, s) else z - Hop(x, s), 0.0, 1.0), if up then v - z else v + z)
  {
    AfterStep(q, init, rounds);
    RegretGrows(q, init, rounds, q.lo);
    Lands(q, x, cost, s, z, up);
    Gains(q, cost, z, up);
    ScaledAdds(Unit(q), v, if up then -z else z, if up then v - z else v + z);
  }

  /** The state after n rounds of the run. */
  ghost predicate At(q: Params, root: nat -> real, init: real, start: nat, mid: nat, n: nat, z: real, v: real)
    requires Roots(root)
  {
    Stands(q, init, Played(q, root, start, mid, n), z, v)
  }

  lemma Advances(q: Params, x: real, root: nat -> real, init: real, start: nat, mid: nat, n: nat, s: real, z: real, v: real, up: bool)
    requires Leaps(q, x) && Roots(root) && n > 0 && s == root(n) && s > 0.0 && At(q, root, init, start, mid, n - 1, z, v)
    requires if up then CostAt(q, start, mid, n - 1) == q.hi else CostAt(q, start, mid, n - 1) == q.lo && z > 0.0
    ensures At(q, root, init, start, mid, n, Clamp(if up then z + Hop(x, s) else z - Hop(x, s), 0.0, 1.0), if up then v - z else v + z)
  {
    PlayedGrows(q, root, start, mid, n, n - 1);
    Moves(q, x, init, Played(q, root, start, mid, n - 1), Played(q, root, start, mid, n), CostAt(q, start, mid, n - 1), s, z, v, up);
  }

  lemma Down(q: Params, x: real, root: nat -> real, init: real, start: nat, mid: nat, n: nat, s: real, z: real, v: real, z': real, v': real)
    requires Leaps(q, x) && Roots(root) && n > 0 && s == root(n) && s > 0.0 && At(q, root, init, start, mid, n - 1, z, v)
    requires CostAt(q, start, mid, n - 1) == q.lo && z > 0.0 && z' == Max(0.0, z - Hop(x, s)) && v' == v + z
    ensures At(q, root, init, start, mid, n, z', v')
  {
    HopPositive(x, s);
    Advances(q, x, root, init, start, mid, n, s, z, v, false);
  }

  lemma Up(q: Params, x: real, root: nat -> real, init: real, start: nat, mid: nat, n: nat, s: real, z: real, v: real, z': real, v': real)
    requires Leaps(q, x) && Roots(root) && n > 0 && s == root(n) && s > 0.0 && At(q, root, init, start, mid, n - 1, z, v)
    requires CostAt(q, start, mid, n - 1) == q.hi && z' == Min(1.0, z + Hop(x, s)) && v' == v - z
    ensures At(q, root, init, start, mid, n, z', v')
  {
    HopPositive(x, s);
    Advances(q, x, root, init, start, mid, n, s, z, v, true);
  }

  // ---------------------------------------------------------------- its three phases

  lemma Weaker(q: Params, root: nat -> real, init: real, start: nat, mid: nat, n: nat, z: real, v: real, w: real)
    requires Roots(root) && q.Valid() && At(q, root, init, start, mid, n, z, v) && w <= v
    ensures At(q, root, init, start, mid, n, z, w)
  {
    assert Unit(q) >= 0.0;
    ScaledOrders(Unit(q), w, v);
  }

  lemma Begin(q: Params, init: real) returns (z: real)
    requires q.Valid() && q.lo < q.hi && q.lo <= init <= q.hi
    ensures Stands(q, init, [], z, 0.0)
  {
    z := Hop(init - q.lo, q.Diameter());
    HopIs(init - q.lo, q.Diameter());
    ShareOf(z, q.Diameter(), init - q.lo);
  }

  lemma ShareOf(z: real, d: real, y: real)
    requires d > 0.0 && Scaled(z, d) == y && 0.0 <= y <= d
    ensures 0.0 <= z <= 1.0 && Scaled(d, z) == y
  {
    assert z < 0.0 ==> z * d < 0.0;
    assert z > 1.0 ==> (z - 1.0) * d > 0.0;
  }

  lemma RootOfOne(s: real)
    requires RootOf(s, 1)
    ensures s == 1.0
  {
    RootUnique(s, 1.0, 1);
  }

  /** From the first step on the reservation is at the top. */
  lemma {:induction false} Climb(q: Params, x: real, root: nat -> real, init: real, start: nat, mid: nat, n: nat)
    requires Leaps(q, x) && Roots(root) && q.lo <= init <= q.hi && 1 <= n <= start
    ensures At(q, root, init, start, mid, n, 1.0, -(n as real))
    decreases n
  {
    var s := root(n);
    RootPositive(s, n);
    HopPositive(x, s);
    if n == 1 {
      var z := Begin(q, init);
      assert Played(q, root, start, mid, 0) == [];
      RootOfOne(s);
      assert Hop(x, 1.0) == x;
      Advances(q, x, root, init, start, mid, 1, s, z, 0.0, true);
      Weaker(q, root, init, start, mid, 1, 1.0, 0.0 - z, -1.0);
    } else {
      Climb(q, x, root, init, start, mid, n - 1);
      Advances(q, x, root, init, start, mid, n, s, 1.0, -((n - 1) as real), true);
    }
  }

  lemma RootsOrder(s: real, s': real, t: nat, t': nat)
    requires RootOf(s, t) && RootOf(s', t') && t <= t'
    ensures s <= s'
  {
    if s > s' { SquaresDiffer(s, s', t as real, t' as real); }
  }

  lemma SquaresDiffer(s: real, s': real, a: real, a': real)
    requires s > s' >= 0.0 && s * s == a && s' * s' == a'
    ensures a > a'
  {
    assert (s - s') * s > 0.0;
    assert (s - s') * s' >= 0.0;
  }

  /** The growth of the root over two counts is at most the reciprocal of the root. */
  lemma TwoCounts(x: real, s: real, s': real, t: nat)
    requires x > 0.0 && RootOf(s, t) && RootOf(s', t + 2) && s > 0.0
    ensures Scaled(x, s' - s) <= Hop(x, s)
  {
    RootsOrder(s, s', t, t + 2);
    HopIs(x, s);
    HalfGrowth(s, s', t);
    OverRoot(x, s' - s, Hop(x, s), s);
  }

  lemma HalfGrowth(s: real, s': real, t: nat)
    requires RootOf(s, t) && RootOf(s', t + 2) && 0.0 < s <= s'
    ensures (s' - s) * s <= 1.0
  {
    var gap := s' - s;
    assert gap * (s' + s) == s' * s' - s * s == 2.0;
    assert gap * (s' + s) == gap * gap + 2.0 * (gap * s);
    assert gap * gap >= 0.0;
  }

  lemma OverRoot(x: real, gap: real, e: real, s: real)
    requires x > 0.0 && s > 0.0 && gap * s <= 1.0 && e * s == x
    ensures x * gap <= e
  {
    MulMono(gap * s, 1.0, x);
    assert (x * gap) * s == x * (gap * s);
    assert x * gap > e ==> (x * gap - e) * s > 0.0;
  }

  /** Down and up at the top: no end of the range is touched, and hardly any height is lost. */
  lemma Teeters(x: real, s: real, s': real, s'': real, y: real, low: real)
    requires x > 0.0 && 0.0 < s <= s' <= s'' && low + Hop(x, s) <= y <= 1.0 && low > 0.0
    ensures 0.0 < y - Hop(x, s) < y - Hop(x, s) + Hop(x, s') <= 1.0
    ensures low + Hop(x, s'') <= y - Hop(x, s) + Hop(x, s')
  {
    HopsShrink(x, s, s');
    HopsShrink(x, s', s'');
    HopPositive(x, s);
    HopPositive(x, s');
  }

  lemma TeeterCosts(q: Params, start: nat, mid: nat, n: nat)
    requires start + 2 <= n <= mid && (n - start) % 2 == 0
    ensures CostAt(q, start, mid, n - 2) == q.lo && CostAt(q, start, mid, n - 1) == q.hi
  {
    assert (n - 2 - start) % 2 == 0 && (n - 1 - start) % 2 == 1;
  }

  lemma PairNumbers(x: real, n: nat, s: real, s': real, s'': real, y: real, v: real, w: real, low: real)
    requires n > 0 && RootOf(s, n - 1) && RootOf(s', n) && RootOf(s'', n + 1) && x > 0.0 && s > 0.0
    requires low + Hop(x, s) <= y <= 1.0 && low > 0.0 && w == v + Scaled(x, s'' - s)
    ensures 0.0 < s <= s' <= s'' && 0.0 < y - Hop(x, s) < y - Hop(x, s) + Hop(x, s') <= 1.0
    ensures low + Hop(x, s'') <= y - Hop(x, s) + Hop(x, s') && w <= v + Hop(x, s)
  {
    RootsOrder(s, s', n - 1, n);
    RootsOrder(s', s'', n, n + 1);
    Teeters(x, s, s', s'', y, low);
    TwoCounts(x, s, s'', n - 1);
  }

  /** Teetering at the top for n - start rounds. */
  lemma {:induction false} Teeter(q: Params, x: real, root: nat -> real, init: real, start: nat, mid: nat, n: nat,
                                  first: real, s: real, low: real, v: real) returns (z: real)
    requires Leaps(q, x) && Roots(root) && q.lo <= init <= q.hi && 1 <= start <= n <= mid && (n - start) % 2 == 0
    requires first == root(start + 1) && s == root(n + 1) && first > 0.0 && s > 0.0
    requires low == 1.0 - Hop(x, first) && low > 0.0 && v == Scaled(x, s - first) - start as real
    ensures At(q, root, init, start, mid, n, z, v)
    ensures low + Hop(x, s) <= z
    decreases n
  {
    if n == start {
      Climb(q, x, root, init, start, mid, start);
      z := 1.0;
      assert Scaled(x, 0.0) == 0.0;
    } else {
      var s0, v0 := root(n - 1), Scaled(x, root(n - 1) - first) - start as real;
      RootPositive(s0, n - 1);
      ScaledAdds(x, s0 - first, s - s0, s - first);
      var y := Teeter(q, x, root, init, start, mid, n - 2, first, s0, low, v0);
      z := PairPlayed(q, x, root, init, start, mid, n, s0, s, y, v0, v, low);
    }
  }

  lemma PairPlayed(q: Params, x: real, root: nat -> real, init: real, start: nat, mid: nat, n: nat, s: real, s'': real,
                   y: real, v: real, w: real, low: real) returns (z: real)
    requires Leaps(q, x) && Roots(root) && start + 2 <= n <= mid && (n - start) % 2 == 0
    requires s == root(n - 1) && s'' == root(n + 1) && s > 0.0 && low > 0.0 && w == v + Scaled(x, s'' - s)
    requires At(q, root, init, start, mid, n - 2, y, v) && low + Hop(x, s) <= y
    ensures At(q, root, init, start, mid, n, z, w)
    ensures s'' > 0.0 && low + Hop(x, s'') <= z
  {
    var s', dip := root(n), y - Hop(x, s);
    PairNumbers(x, n, s, s', s'', y, v, w, low);
    TeeterCosts(q, start, mid, n);
    z := dip + Hop(x, s');
    Down(q, x, root, init, start, mid, n - 1, s, y, v, dip, v + y);
    Up(q, x, root, init, start, mid, n, s', dip, v + y, z, v + Hop(x, s));
    Weaker(q, root, init, start, mid, n, z, v + Hop(x, s), w);
  }

  /** The height left after k steps down of length e. */
  function Height(k: nat, top: real, e: real): real { if k == 0 then top else Height(k - 1, top, e) - e }

  /** What k rounds of sliding earn, when no step is longer than e: each round what is left of the height. */
  function Slid(k: nat, top: real, e: real): real { if k == 0 then 0.0 else Slid(k - 1, top, e) + Height(k - 1, top, e) }

  lemma {:induction false} HeightIs(k: nat, top: real, e: real)
    ensures Height(k, top, e) == top - k as real * e
  {
    if k > 0 {
      HeightIs(k - 1, top, e);
      Distributes((k - 1) as real, 1.0, e);
    }
  }

  /** The sum of the heights is at least the area under the slide. */
  lemma {:induction false} SlidAtLeast(k: nat, top: real, e: real)
    requires e >= 0.0
    ensures Slid(k, top, e) >= k as real * top - e * (k as real * k as real) / 2.0
  {
    if k > 0 {
      var r := (k - 1) as real;
      SlidAtLeast(k - 1, top, e);
      HeightIs(k - 1, top, e);
      Distributes(r, 1.0, top);
      SquareStep(r, e);
      assert k as real == r + 1.0;
    }
  }

  lemma SquareStep(r: real, e: real)
    requires e >= 0.0
    ensures e * ((r + 1.0) * (r + 1.0)) / 2.0 >= e * (r * r) / 2.0 + r * e
  {
    assert (r + 1.0) * (r + 1.0) == r * r + 2.0 * r + 1.0;
    assert e * ((r + 1.0) * (r + 1.0)) == e * (r * r) + 2.0 * (r * e) + e;
  }

  /** The slide: n - mid costs at the bottom, each as much regret as the height left. */
  lemma {:induction false} Slide(q: Params, x: real, root: nat -> real, init: real, start: nat, mid: nat, n: nat, k: nat,
                                 z0: real, v0: real, top: real, s: real, e: real, v: real) returns (z: real)
    requires Leaps(q, x) && Roots(root) && start <= mid && mid > 0 && At(q, root, init, start, mid, mid, z0, v0)
    requires top <= z0 && (k > 0 ==> Height(k - 1, top, e) > 0.0) && s == root(mid) && s > 0.0 && e == Hop(x, s) && e > 0.0
    requires n == mid + k && v == v0 + Slid(k, top, e)
    ensures At(q, root, init, start, mid, n, z, v) && Height(k, top, e) <= z
    decreases k
  {
    if k == 0 {
      z := z0;
    } else {
      var v' := v0 + Slid(k - 1, top, e);
      var y := Slide(q, x, root, init, start, mid, n - 1, k - 1, z0, v0, top, s, e, v');
      z := SlideOnce(q, x, root, init, start, mid, n, y, v', v, s, e);
    }
  }

  lemma SlideOnce(q: Params, x: real, root: nat -> real, init: real, start: nat, mid: nat, n: nat, y: real, v: real, w: real,
                  s: real, e: real) returns (z: real)
    requires Leaps(q, x) && Roots(root) && start <= mid < n && At(q, root, init, start, mid, n - 1, y, v)
    requires y > 0.0 && s == root(mid) && s > 0.0 && e == Hop(x, s) && w <= v + y
    ensures At(q, root, init, start, mid, n, z, w) && y - e <= z
  {
    var s' := root(n);
    RootsOrder(s, s', mid, n);
    HopsShrink(x, s, s');
    z := Max(0.0, y - Hop(x, s'));
    Down(q, x, root, init, start, mid, n, s', y, v, z, v + y);
    Weaker(q, root, init, start, mid, n, z, v + y, w);
  }

  // ---------------------------------------------------------------- how long it has to be

  /** A step longer than the range leaves room above 3/2: with 2xy = 1, x + y > 3/2. */
  lemma Slack(x: real) returns (y: real, c: real)
    requires x > 1.0
    ensures 2.0 * (x * y) == 1.0 && y > 0.0 && c == x + y - 1.5 && c > 0.0
  {
    y := 1.0 / (2.0 * x);
    assert y * (2.0 * x) == 1.0;
    assert y <= 0.0 ==> y * (2.0 * x) <= 0.0;
    c := x + y - 1.5;
    assert (2.0 * x) * c == 2.0 * (x * x) + 1.0 - 3.0 * x;
    assert (2.0 * x - 1.0) * (x - 1.0) == 2.0 * (x * x) - 3.0 * x + 1.0;
    assert (2.0 * x - 1.0) * (x - 1.0) > 0.0;
    assert c <= 0.0 ==> (2.0 * x) * c <= 0.0;
  }

  lemma EvenAbove(r: real) returns (n: nat)
    ensures n % 2 == 0 && n > 0 && n as real > r
  {
    var f := Floor(r);
    n := if f < 0 then 2 else 2 * f + 2;
  }

  lemma SlidAtFloor(m: nat, quotient: real, top: real, e: real)
    requires quotient * e == top && m as real <= quotient < m as real + 1.0 && e > 0.0 && top > 0.0
    ensures 2.0 * Slid(m, top, e) >= quotient * top - e
    ensures m > 0 ==> Height(m - 1, top, e) > 0.0
  {
    SlidAtLeast(m, top, e);
    AreaAtFloor(m as real, quotient, quotient - m as real, top, e);
    if m > 0 {
      HeightIs(m - 1, top, e);
      var r := (m - 1) as real;
      assert (quotient - r) * e > 0.0;
    }
  }

  lemma AreaAtFloor(r: real, quotient: real, w: real, top: real, e: real)
    requires quotient * e == top && e > 0.0 && r == quotient - w && 0.0 <= w < 1.0
    ensures 2.0 * (r * top) - e * (r * r) >= quotient * top - e
  {
    assert r * top == quotient * top - w * top;
    assert e * (r * r) == (quotient * e) * quotient - 2.0 * ((quotient * e) * w) + e * (w * w);
    MulMono(w, 1.0, w);
    MulMono(w * w, 1.0, e);
    assert e * (w * w) == (w * w) * e;
  }

  /** Sliding from nearly the whole height earns nearly N/(2x). */
  lemma SlideWorth(x: real, y: real, a: real, b: real, n: real, hop: real, e: real, quotient: real, top: real)
    requires 2.0 * (x * y) == 1.0 && n == a * b && a > 0.0 && b > 0.0 && hop * a == x && e * n == x && e > 0.0
    requires top == 1.0 - hop && quotient * e == top
    ensures quotient * top >= 2.0 * (n * y) - 2.0 * b
  {
    assert b * e == hop by { assert (b * e - hop) * a == 0.0 by { assert (b * e) * a == e * (a * b); } }
    var lhs, rhs := quotient * top, 2.0 * (n * y) - 2.0 * b;
    assert lhs * e == (quotient * e) * top == top * top;
    assert top * top == 1.0 - 2.0 * hop + hop * hop;
    assert hop * hop >= 0.0;
    assert rhs * e == 2.0 * ((e * n) * y) - 2.0 * (b * e);
    assert lhs < rhs ==> (rhs - lhs) * e > 0.0;
  }

  lemma FewSlides(x: real, n: real, e: real, quotient: real, top: real)
    requires x > 1.0 && e * n == x && e > 0.0 && n > 0.0 && quotient * e == top && top <= 1.0
    ensures quotient <= n
  {
    assert quotient > n ==> (quotient - n) * e > 0.0;
  }

  lemma RootBetween(s: real, n: nat, m: nat)
    requires RootOf(s, n * n + m) && m <= n
    ensures s <= n as real + 0.5
  {
    var r := n as real + 0.5;
    assert r * r == (n * n) as real + n as real + 0.25;
    if s > r { SquaresDiffer(s, r, (n * n + m) as real, r * r); }
  }

  /** What the choice of the start a and of the length n = a * b has to satisfy. */
  ghost predicate Sizes(x: real, y: real, c: real, a: real, b: real, n: real) {
    && x > 1.0 && 2.0 * (x * y) == 1.0 && c == x + y - 1.5
    && a > x && b >= 1.0 && a * c >= 2.0 && n == a * b && b >= a * a + Scaled(x, a + 2.0) + 1.0
  }

  /** Then the margin c over 3/2 outweighs everything the start costs. */
  lemma Outweighs(x: real, y: real, c: real, a: real, b: real, n: real, first: real, last: real, slid: real, e: real, s: real)
    requires Sizes(x, y, c, a, b, n)
    requires first <= a + 1.0 && last >= n && 2.0 * slid >= 2.0 * (n * y) - 2.0 * b - e && e <= x && s <= n + 0.5
    ensures Scaled(x, last - first) - a * a + slid > 1.5 * s
  {
    Spread(x, n, a, last - first);
    Margin(x, y, c, a, b, n);
  }

  lemma Spread(x: real, n: real, a: real, gap: real)
    requires x > 0.0 && gap >= n - a - 1.0
    ensures Scaled(x, gap) >= Scaled(x, n) - Scaled(x, a + 2.0) + x
  {
    ScaledOrders(x, n - a - 1.0, gap);
    ScaledAdds(x, n - a - 1.0, a + 2.0, n + 1.0);
    ScaledAdds(x, n, 1.0, n + 1.0);
    assert Scaled(x, 1.0) == x;
  }

  lemma Margin(x: real, y: real, c: real, a: real, b: real, n: real)
    requires c == x + y - 1.5 && a * c >= 2.0 && n == a * b && b >= 1.0
    ensures Scaled(x, n) + n * y - 1.5 * n >= 2.0 * b
  {
    assert n * c == Scaled(x, n) + n * y - 1.5 * n;
    MulMono(2.0, a * c, b);
    assert (a * c) * b == n * c;
  }

  // ---------------------------------------------------------------- the theorem

  lemma SquareRoots(root: nat -> real, n: nat)
    requires Roots(root)
    ensures root(n * n) == n as real
  {
    RootUnique(root(n * n), n as real, n * n);
  }

  lemma NextRoot(s: real, n: nat)
    requires RootOf(s, n * n + 1)
    ensures n as real <= s <= n as real + 1.0
  {
    var r := n as real;
    assert (r + 1.0) * (r + 1.0) == r * r + 2.0 * r + 1.0;
    if s > r + 1.0 { SquaresDiffer(s, r + 1.0, s * s, (r + 1.0) * (r + 1.0)); }
    if s < r { SquaresDiffer(r, s, r * r, s * s); }
  }

  ghost predicate AtEnds(q: Params, rounds: seq<Round>) {
    forall k :: 0 <= k < |rounds| ==> rounds[k].cost == q.lo || rounds[k].cost == q.hi
  }

  /** The three phases together. */
  lemma WholeRun(q: Params, x: real, root: nat -> real, init: real, start: nat, mid: nat, total: nat, m: nat,
                 first: real, last: real, s: real, top: real, e: real, v: real)
    requires Leaps(q, x) && Roots(root) && q.lo <= init <= q.hi && 1 <= start <= mid && (mid - start) % 2 == 0 && total == mid + m
    requires first == root(start + 1) && last == root(mid + 1) && s == root(mid) && first > 0.0 && last > 0.0 && s > 0.0
    requires top <= 1.0 - Hop(x, first) && top > 0.0 && e == Hop(x, s) && (m > 0 ==> Height(m - 1, top, e) > 0.0)
    requires v == Scaled(x, last - first) - start as real + Slid(m, top, e)
    ensures RegretOf(q, init, Played(q, root, start, mid, total), q.lo) >= Scaled(Unit(q), v)
  {
    HopPositive(x, last);
    HopPositive(x, s);
    var v0 := Scaled(x, last - first) - start as real;
    var z := Teeter(q, x, root, init, start, mid, mid, first, last, 1.0 - Hop(x, first), v0);
    var low := Slide(q, x, root, init, start, mid, total, m, z, v0, top, s, e, v);
  }

  lemma HopBelowOne(x: real, a: real)
    requires a > x > 0.0
    ensures 0.0 < Hop(x, a) < 1.0
  {
    HopIs(x, a);
    HopPositive(x, a);
    if Hop(x, a) >= 1.0 { MulMono(1.0, Hop(x, a), a); }
  }

  lemma Starts(a: nat, b: nat, n: nat)
    requires a > 0 && b > 0 && a % 2 == 0 && n == a * b
    ensures 0 < a <= n && n % 2 == 0 && n as real == a as real * b as real
  {
    FactorBelow(a, b, n);
    EvenProduct(a, b, n);
    ProductReal(a, b, n);
  }

  lemma FactorBelow(a: nat, b: nat, n: nat)
    requires b > 0 && n == a * b
    ensures a <= n
  {
    assert a * (b - 1) >= 0;
  }

  lemma ProductReal(a: nat, b: nat, n: nat)
    requires n == a * b
    ensures n as real == a as real * b as real
  {
  }

  lemma Squares(a: nat, n: nat, start: nat, mid: nat)
    requires 0 < a <= n && a % 2 == 0 && n % 2 == 0 && start == a * a && mid == n * n
    ensures 1 <= start <= mid && (mid - start) % 2 == 0 && start as real == a as real * a as real
  {
    EvenProduct(a, a, start);
    EvenProduct(n, n, mid);
    SquaresOrder(a, n, start, mid);
    ProductReal(a, a, start);
  }

  lemma EvenProduct(a: nat, b: nat, n: nat)
    requires a % 2 == 0 && n == a * b
    ensures n % 2 == 0
  {
    var h := a / 2;
    assert n == 2 * (h * b);
  }

  lemma SquaresOrder(a: nat, n: nat, start: nat, mid: nat)
    requires 0 < a <= n && start == a * a && mid == n * n
    ensures 1 <= start <= mid
  {
    assert a * (n - a) >= 0 && n * (n - a) >= 0;
    assert a * (a - 1) >= 0;
  }

  lemma RootsNear(root: nat -> real, a: nat, n: nat) returns (start: nat, mid: nat, first: real, last: real)
    requires Roots(root) && 0 < a <= n && a % 2 == 0 && n % 2 == 0
    ensures Laid(root, a as real, n, start, mid, first, last)
  {
    start, mid := a * a, n * n;
    first, last := root(start + 1), root(mid + 1);
    Squares(a, n, start, mid);
    NextRoot(first, a);
    NextRoot(last, n);
    SquareRoots(root, n);
  }

  /** The start and the middle of the run, and the roots next to them. */
  ghost predicate Laid(root: nat -> real, a: real, n: nat, start: nat, mid: nat, first: real, last: real) {
    && 1 <= start <= mid && (mid - start) % 2 == 0 && start as real == a * a && mid == n * n && root(mid) == n as real
    && first == root(start + 1) && last == root(mid + 1) && a <= first <= a + 1.0 && last >= n as real
  }

  /** A start and a length that leave a margin. */
  lemma Lengths(x: real) returns (y: real, c: real, a: nat, b: nat, n: nat)
    requires x > 1.0
    ensures Sizes(x, y, c, a as real, b as real, n as real) && a > 0 && b > 0 && a % 2 == 0 && n == a * b
  {
    y, c := Slack(x);
    a := EvenAbove(Max(x, Hop(2.0, c)));
    EnoughMargin(c, a as real);
    b := EvenAbove(a as real * a as real + Scaled(x, a as real + 2.0) + 1.0);
    n := a * b;
    Starts(a, b, n);
  }

  /** Whatever the range and the start, if the first step is longer than the range some run breaks the documented bound. */
  lemma LongStepBreaks(q: Params, x: real, root: nat -> real, init: real) returns (rounds: seq<Round>, s: real)
    requires Leaps(q, x) && Roots(root) && q.lo <= init <= q.hi
    ensures WellRooted(rounds) && RootOf(s, |rounds|) && AtEnds(q, rounds)
    ensures RegretOf(q, init, rounds, q.lo) > Zinkevich(q.Diameter(), q.Slope(), s)
  {
    var y, c, a, b, n := Lengths(x);
    Starts(a, b, n);
    var start, mid, first, last := RootsNear(root, a, n);
    rounds, s := BreakingRun(q, x, root, init, y, c, a as real, b as real, n, start, mid, first, last);
  }

  lemma BreakingRun(q: Params, x: real, root: nat -> real, init: real, y: real, c: real, a: real, b: real, n: nat,
                    start: nat, mid: nat, first: real, last: real) returns (rounds: seq<Round>, s: real)
    requires Leaps(q, x) && Roots(root) && q.lo <= init <= q.hi && Sizes(x, y, c, a, b, n as real) && n > 0
    requires Laid(root, a, n, start, mid, first, last)
    ensures WellRooted(rounds) && RootOf(s, |rounds|) && AtEnds(q, rounds)
    ensures RegretOf(q, init, rounds, q.lo) > Zinkevich(q.Diameter(), q.Slope(), s)
  {
    var m, top, e := LongEnough(x, y, c, a, b, n as real, first, last);
    var total := mid + m;
    var v := Scaled(x, last - first) - start as real + Slid(m, top, e);
    rounds, s := Played(q, root, start, mid, total), root(total);
    RootBetween(s, n, m);
    WholeRun(q, x, root, init, start, mid, total, m, first, last, n as real, top, e, v);
    Documented(q, v, s, RegretOf(q, init, rounds, q.lo));
  }

  lemma LongEnough(x: real, y: real, c: real, a: real, b: real, n: real, first: real, last: real) returns (m: nat, top: real, e: real)
    requires Sizes(x, y, c, a, b, n) && n > 0.0 && a <= first <= a + 1.0 && last >= n
    ensures 0.0 < top <= 1.0 - Hop(x, first) && e == Hop(x, n) && m as real <= n && (m > 0 ==> Height(m - 1, top, e) > 0.0)
    ensures Scaled(x, last - first) - a * a + Slid(m, top, e) > 1.5 * (n + 0.5)
  {
    var hop := Hop(x, a);
    e, top := Hop(x, n), 1.0 - hop;
    HopBelowOne(x, a);
    HopsShrink(x, a, first);
    HopFacts(x, a, hop);
    HopFacts(x, n, e);
    HopFacts(top, e, Hop(top, e));
    m := SlideFloor(x, y, a, b, n, hop, e, Hop(top, e), top);
    Outweighs(x, y, c, a, b, n, first, last, Slid(m, top, e), e, n + 0.5);
  }

  lemma EnoughMargin(c: real, a: real)
    requires c > 0.0 && a > Hop(2.0, c)
    ensures a * c >= 2.0
  {
    HopIs(2.0, c);
    MulMono(Hop(2.0, c), a, c);
  }

  lemma Documented(q: Params, v: real, s: real, regret: real)
    requires q.Valid() && q.lo < q.hi && q.h == q.p && v > 1.5 * s && regret >= Scaled(Unit(q), v)
    ensures regret > Zinkevich(q.Diameter(), q.Slope(), s)
  {
    var unit := Unit(q);
    assert unit > 0.0;
    assert unit * (v - 1.5 * s) > 0.0;
    assert Zinkevich(q.Diameter(), q.Slope(), s) == unit * (1.5 * s);
  }

  lemma HopFacts(x: real, s: real, h: real)
    requires x > 0.0 && s > 0.0 && h == Hop(x, s)
    ensures h * s == x && h > 0.0
  {
    HopIs(x, s);
    HopPositive(x, s);
  }

  /** How many slides fit. */
  lemma SlideFloor(x: real, y: real, a: real, b: real, n: real, hop: real, e: real, quotient: real, top: real) returns (m: nat)
    requires x > 1.0 && 2.0 * (x * y) == 1.0 && n == a * b && a > x && b >= 1.0 && n > 0.0
    requires hop * a == x && e * n == x && e > 0.0 && top == 1.0 - hop && quotient * e == top && quotient > 0.0 && top > 0.0
    ensures 2.0 * Slid(m, top, e) >= 2.0 * (n * y) - 2.0 * b - e && e <= x
    ensures m > 0 ==> Height(m - 1, top, e) > 0.0
    ensures m as real <= n
  {
    m := Floor(quotient);
    SlidAtFloor(m, quotient, top, e);
    SlideWorth(x, y, a, b, n, hop, e, quotient, top);
    FewSlides(x, n, e, quotient, top);
    ShortSteps(x, a, b, n, e);
  }

  lemma ShortSteps(x: real, a: real, b: real, n: real, e: real)
    requires a > x > 1.0 && b >= 1.0 && n == a * b && e > 0.0 && e * n == x
    ensures e <= x
  {
    MulMono(1.0, b, a);
    MulMono(1.0, n, e);
  }

  lemma RangeIsPoint(q: Params, init: real, rounds: seq<Round>)
    requires q.Valid() && q.lo == q.hi == init && WellRooted(rounds)
    ensures After(q, init, rounds) == q.lo && RegretOf(q, init, rounds, q.lo) == 0.0
  {
    if rounds != [] {
      AfterStep(q, init, rounds);
      RegretGrows(q, init, rounds, q.lo);
      RangeIsPoint(q, init, rounds[..|rounds| - 1]);
    }
  }

  lemma QuotientBelow(y: real, d: real, g: real, low: real)
    requires Scaled(y, g) == d && d < Scaled(low, g) && g > 0.0
    ensures y < low
  {
    if y >= low { MulMono(low, y, g); }
  }

  lemma FlooredStep(o: Options) returns (x: real)
    requires Accepted(o) && o.stepScale.None? && o.holdCost == o.overrunCost
    requires o.minReservation.GetOr(0.0) < o.maxReservation
    requires o.maxReservation - o.minReservation.GetOr(0.0) < STEP_FLOOR * o.holdCost
    ensures Leaps(o.ToParams(), x)
  {
    var d, g := o.maxReservation - o.minReservation.GetOr(0.0), o.holdCost;
    HopIs(d, g);
    QuotientBelow(Hop(d, g), d, g, STEP_FLOOR);
    assert o.Eta() == Max(Hop(d, g), STEP_FLOOR) == STEP_FLOOR;
    var q := o.ToParams();
    assert q.Diameter() == d && q.eta * q.h == STEP_FLOOR * g;
    x := Hop(STEP_FLOOR * g, d);
    HopIs(STEP_FLOOR * g, d);
    if x <= 1.0 { MulMono(x, 1.0, d); }
    assert x * q.Diameter() == Scaled(x, d);
  }

  /** With equal costs, the default step meets the documented bound exactly when its floor is idle or the range is a point. */
  lemma DefaultStepExactWhen(o: Options, root: nat -> real)
    requires Accepted(o) && o.stepScale.None? && o.holdCost == o.overrunCost && Roots(root)
    ensures var d := o.maxReservation - o.minReservation.GetOr(0.0);
      MeetsDocumented(o) <==> d == 0.0 || d >= STEP_FLOOR * o.holdCost
  {
    var q := o.ToParams();
    var d := q.Diameter();
    if d == 0.0 || d >= STEP_FLOOR * o.holdCost {
      forall rounds: seq<Round>, u: real, s: real |
        WellRooted(rounds) && RootOf(s, |rounds|) && o.minReservation.GetOr(0.0) <= u <= o.maxReservation
        ensures WithinDocumented(o, rounds, u, s)
      {
        if d == 0.0 {
          RangeIsPoint(q, o.Initial(), rounds);
        } else {
          DefaultStepRegret(o, rounds, u, s);
        }
      }
    } else {
      var x := FlooredStep(o);
      var rounds, s := LongStepBreaks(q, x, root, o.Initial());
      assert !WithinDocumented(o, rounds, q.lo, s);
    }
  }
}
