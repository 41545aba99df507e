/**
 * Both budgets priced (fillBothTight in src/admission/fluid-lp.ts): one pair of marginal types is solved as a
 * 2x2 system while the others take a 0/1 pattern read off the bits of a mask.
 */
module FluidLpPair {
  import opened Numbers
  import opened Wrappers
  import opened FluidLp
  import opened FluidLpOptimality
  import opened FluidLpFill
  import opened FluidLpRecovery
  import opened FluidLpSingle
  import opened FluidLpSparse
  import opened Greedy
  import opened Sorting

  /** (mask >> o) & 1 */
  function Bit(mask: nat, o: nat): nat
    decreases o
  {
    if o == 0 then mask % 2 else Bit(mask / 2, o - 1)
  }

  function Pow2(n: nat): (r: nat)
    ensures r > 0
  {
    if n == 0 then 1 else 2 * Pow2(n - 1)
  }

  /** Every 0/1 pattern is the bits of some mask below 2^n. */
  lemma {:induction false} MaskFor(bits: seq<bool>) returns (mask: nat)
    ensures mask < Pow2(|bits|) && forall o :: 0 <= o < |bits| ==> Bit(mask, o) == if bits[o] then 1 else 0
  {
    mask := 0;
    if bits != [] {
      var rest := MaskFor(bits[1..]);
      mask := 2 * rest + if bits[0] then 1 else 0;
      forall o | 0 <= o < |bits| ensures Bit(mask, o) == if bits[o] then 1 else 0 {
        assert mask / 2 == rest;
        if o > 0 { assert bits[o] == bits[1..][o - 1]; }
      }
    }
  }

  /** The marginal list without positions ai and bi. */
  function Others(m: seq<nat>, ai: nat, bi: nat): seq<nat>
    requires ai < bi < |m|
  {
    m[..ai] + m[ai + 1..bi] + m[bi + 1..]
  }

  /** Sum of need over the first n other types whose bit is set. */
  function Taken(need: seq<real>, others: seq<nat>, mask: nat, n: nat): real
    requires n <= |others| && Within(others, |need|)
  {
    if n == 0 then 0.0
    else Taken(need, others, mask, n - 1) + if Bit(mask, n - 1) == 1 then need[others[n - 1]] else 0.0
  }

  /** The other types set to their bits. */
  function Toggled(x: seq<real>, others: seq<nat>, mask: nat, n: nat): (z: seq<real>)
    requires n <= |others| && Within(others, |x|)
    ensures |z| == |x|
  {
    if n == 0 then x
    else Toggled(x, others, mask, n - 1)[others[n - 1] := if Bit(mask, n - 1) == 1 then 1.0 else 0.0]
  }

  lemma {:induction false} ToggledAt(x: seq<real>, others: seq<nat>, mask: nat, n: nat)
    requires n <= |others| && Within(others, |x|) && Distinct(others)
    ensures forall i :: 0 <= i < |x| && i !in others[..n] ==> Toggled(x, others, mask, n)[i] == x[i]
    ensures forall o :: 0 <= o < n ==> Toggled(x, others, mask, n)[others[o]] == if Bit(mask, o) == 1 then 1.0 else 0.0
  {
    if n > 0 {
      ToggledAt(x, others, mask, n - 1);
      assert others[..n] == others[..n - 1] + [others[n - 1]];
    }
  }

  lemma {:induction false} SetFresh(need: seq<real>, x: seq<real>, i: nat, y: real)
    requires |need| == |x| && i < |x| && x[i] == 0.0
    ensures Spent(need, x[i := y]) == Spent(need, x) + need[i] * y
  {
    SpentUpdate(need, x, i, y);
  }

  lemma {:induction false} ToggledSpends(need: seq<real>, x: seq<real>, others: seq<nat>, mask: nat, n: nat)
    requires |need| == |x| && n <= |others| && Within(others, |x|) && Distinct(others)
    requires forall o :: 0 <= o < |others| ==> x[others[o]] == 0.0
    ensures Spent(need, Toggled(x, others, mask, n)) == Spent(need, x) + Taken(need, others, mask, n)
  {
    if n > 0 {
      ToggledSpends(need, x, others, mask, n - 1);
      StillFresh(x, others, mask, n);
      SetFresh(need, Toggled(x, others, mask, n - 1), others[n - 1], if Bit(mask, n - 1) == 1 then 1.0 else 0.0);
    }
  }

  lemma {:induction false} StillFresh(x: seq<real>, others: seq<nat>, mask: nat, n: nat)
    requires 0 < n <= |others| && Within(others, |x|) && Distinct(others) && x[others[n - 1]] == 0.0
    ensures Toggled(x, others, mask, n - 1)[others[n - 1]] == 0.0
  {
    ToggledAt(x, others, mask, n - 1);
    assert others[n - 1] !in others[..n - 1];
  }

  /** The 2x2 system wa xa + wb xb = b1, na xa + nb xb = b2 by Cramer's rule. */
  function SolvePair(wa: real, wb: real, na: real, nb: real, b1: real, b2: real): Option<(real, real)> {
    var det := wa * nb - wb * na;
    if det == 0.0 then None else Some(((b1 * nb - wb * b2) / det, (wa * b2 - b1 * na) / det))
  }

  lemma PairSolves(wa: real, wb: real, na: real, nb: real, b1: real, b2: real)
    requires wa * nb - wb * na != 0.0
    ensures var s := SolvePair(wa, wb, na, nb, b1, b2).value;
      wa * s.0 + wb * s.1 == b1 && na * s.0 + nb * s.1 == b2
  {
    var det := wa * nb - wb * na;
    var s := SolvePair(wa, wb, na, nb, b1, b2).value;
    assert s.0 * det == b1 * nb - wb * b2 && s.1 * det == wa * b2 - b1 * na;
    FirstRow(wa, wb, na, nb, b1, b2, s.0, s.1, det);
    SecondRow(wa, wb, na, nb, b1, b2, s.0, s.1, det);
  }

  lemma FirstRow(wa: real, wb: real, na: real, nb: real, b1: real, b2: real, xa: real, xb: real, det: real)
    requires det == wa * nb - wb * na && det != 0.0 && xa * det == b1 * nb - wb * b2 && xb * det == wa * b2 - b1 * na
    ensures wa * xa + wb * xb == b1
  {
    assert (wa * xa + wb * xb) * det == wa * (xa * det) + wb * (xb * det);
    assert wa * (b1 * nb - wb * b2) + wb * (wa * b2 - b1 * na) == b1 * (wa * nb - wb * na);
    Cancel(wa * xa + wb * xb, b1, det);
  }

  lemma SecondRow(wa: real, wb: real, na: real, nb: real, b1: real, b2: real, xa: real, xb: real, det: real)
    requires det == wa * nb - wb * na && det != 0.0 && xa * det == b1 * nb - wb * b2 && xb * det == wa * b2 - b1 * na
    ensures na * xa + nb * xb == b2
  {
    assert (na * xa + nb * xb) * det == na * (xa * det) + nb * (xb * det);
    assert na * (b1 * nb - wb * b2) + nb * (wa * b2 - b1 * na) == b2 * (wa * nb - wb * na);
    Cancel(na * xa + nb * xb, b2, det);
  }

  lemma Cancel(x: real, y: real, d: real)
    requires d != 0.0 && x * d == y * d
    ensures x == y
  {
    assert (x - y) * d == 0.0;
  }

  /** The solution of a non-singular pair is unique. */
  lemma PairUnique(wa: real, wb: real, na: real, nb: real, b1: real, b2: real, xa: real, xb: real)
    requires wa * nb - wb * na != 0.0 && wa * xa + wb * xb == b1 && na * xa + nb * xb == b2
    ensures SolvePair(wa, wb, na, nb, b1, b2) == Some((xa, xb))
  {
    var det := wa * nb - wb * na;
    assert b1 * nb - wb * b2 == xa * det;
    assert wa * b2 - b1 * na == xb * det;
    assert xa * det / det == xa && xb * det / det == xb;
  }

  // ---------------------------------------------------------------- one trial of the enumeration

  /** Rate and cost need per type, and the room left in the two budgets. */
  datatype Room = Room(rate: seq<real>, cost: seq<real>, r: real, c: real)

  ghost predicate Trials(g: Room, x: seq<real>, m: seq<nat>, ai: nat, bi: nat) {
    |g.rate| == |g.cost| == |x| && Within(m, |x|) && ai < bi < |m|
  }

  /** A pair plan spends a room exactly when the pair's row of the 2x2 system holds. */
  lemma {:induction false} PairPlanRoom(need: seq<real>, x: seq<real>, m: seq<nat>, ai: nat, bi: nat, mask: nat,
                                        xa: real, xb: real, room: real, taken: real, z: seq<real>)
    requires |need| == |x| && Within(m, |x|) && ai < bi < |m| && Distinct(m) && (forall k :: 0 <= k < |m| ==> x[m[k]] == 0.0)
    requires taken == TakenAll(need, m, ai, bi, mask) && z == PairPlan(x, m, ai, bi, mask, xa, xb)
    ensures Spent(need, z) == Spent(need, x) + room <==> need[m[ai]] * xa + need[m[bi]] * xb == room - taken
  {
    PairPlanSpends(need, x, m, ai, bi, mask, xa, xb, taken);
  }

  ghost predicate NonSingular(g: Room, m: seq<nat>, ai: nat, bi: nat)
    requires ai < bi < |m| && Within(m, |g.rate|) && |g.cost| == |g.rate|
  {
    g.rate[m[ai]] * g.cost[m[bi]] - g.rate[m[bi]] * g.cost[m[ai]] != 0.0
  }

  /** The row of the 2x2 system that a budget contributes. */
  ghost predicate Row(need: seq<real>, m: seq<nat>, ai: nat, bi: nat, mask: nat, xa: real, xb: real, room: real)
    requires ai < bi < |m| && Within(m, |need|)
  {
    need[m[ai]] * xa + need[m[bi]] * xb == room - TakenAll(need, m, ai, bi, mask)
  }

  /** One successful trial: a non-singular pair solved inside the unit box, completed to the plan z. */
  ghost predicate Solves(g: Room, x: seq<real>, m: seq<nat>, ai: nat, bi: nat, mask: nat, xa: real, xb: real, z: seq<real>) {
    Trials(g, x, m, ai, bi) && NonSingular(g, m, ai, bi) && 0.0 <= xa <= 1.0 && 0.0 <= xb <= 1.0
    && Row(g.rate, m, ai, bi, mask, xa, xb, g.r) && Row(g.cost, m, ai, bi, mask, xa, xb, g.c)
    && z == PairPlan(x, m, ai, bi, mask, xa, xb)
  }

  /** The others are exactly the list without the pair. */
  lemma {:induction false} OthersExactly(m: seq<nat>, ai: nat, bi: nat)
    requires ai < bi < |m| && Distinct(m)
    ensures Distinct(Others(m, ai, bi)) && |Others(m, ai, bi)| == |m| - 2
    ensures forall i :: i in Others(m, ai, bi) <==> i in m && i != m[ai] && i != m[bi]
  {
    var o := Others(m, ai, bi);
    forall k | 0 <= k < |o| ensures o[k] == m[if k < ai then k else if k < bi - 1 then k + 1 else k + 2] {}
    forall i | i in m && i != m[ai] && i != m[bi] ensures i in o {
      var k :| 0 <= k < |m| && m[k] == i;
      assert o[if k < ai then k else if k < bi then k - 1 else k - 2] == i;
    }
  }

  lemma {:induction false} PairSpends(need: seq<real>, t: seq<real>, a: nat, b: nat, xa: real, xb: real)
    requires |need| == |t| && a < |t| && b < |t| && a != b && t[a] == 0.0 && t[b] == 0.0
    ensures Spent(need, t[a := xa][b := xb]) == Spent(need, t) + need[a] * xa + need[b] * xb
  {
    SetFresh(need, t, a, xa);
    SetFresh(need, t[a := xa], b, xb);
  }

  lemma {:induction false} PairUntouched(x: seq<real>, m: seq<nat>, ai: nat, bi: nat, mask: nat)
    requires Within(m, |x|) && ai < bi < |m| && Distinct(m) && (forall k :: 0 <= k < |m| ==> x[m[k]] == 0.0)
    ensures var others := Others(m, ai, bi); var t := Toggled(x, others, mask, |others|);
      t[m[ai]] == 0.0 && t[m[bi]] == 0.0
  {
    var others := Others(m, ai, bi);
    OthersExactly(m, ai, bi);
    ToggledAt(x, others, mask, |others|);
    assert others[..|others|] == others;
  }

  function PairPlan(x: seq<real>, m: seq<nat>, ai: nat, bi: nat, mask: nat, xa: real, xb: real): (z: seq<real>)
    requires Within(m, |x|) && ai < bi < |m|
    ensures |z| == |x|
  {
    Toggled(x, Others(m, ai, bi), mask, |Others(m, ai, bi)|)[m[ai] := xa][m[bi] := xb]
  }

  function TakenAll(need: seq<real>, m: seq<nat>, ai: nat, bi: nat, mask: nat): real
    requires ai < bi < |m| && Within(m, |need|)
  {
    Taken(need, Others(m, ai, bi), mask, |Others(m, ai, bi)|)
  }

  lemma {:induction false} PairPlanSpends(need: seq<real>, x: seq<real>, m: seq<nat>, ai: nat, bi: nat, mask: nat,
                                          xa: real, xb: real, taken: real)
    requires |need| == |x| && Within(m, |x|) && ai < bi < |m| && Distinct(m) && (forall k :: 0 <= k < |m| ==> x[m[k]] == 0.0)
    requires taken == TakenAll(need, m, ai, bi, mask)
    ensures Spent(need, PairPlan(x, m, ai, bi, mask, xa, xb)) == Spent(need, x) + taken + need[m[ai]] * xa + need[m[bi]] * xb
  {
    var others := Others(m, ai, bi);
    OthersExactly(m, ai, bi);
    OthersFresh(x, m, ai, bi);
    ToggledSpends(need, x, others, mask, |others|);
    PairUntouched(x, m, ai, bi, mask);
    PairSpends(need, Toggled(x, others, mask, |others|), m[ai], m[bi], xa, xb);
  }

  lemma {:induction false} OthersFresh(x: seq<real>, m: seq<nat>, ai: nat, bi: nat)
    requires Within(m, |x|) && ai < bi < |m| && Distinct(m) && (forall k :: 0 <= k < |m| ==> x[m[k]] == 0.0)
    ensures Within(Others(m, ai, bi), |x|)
    ensures forall o :: 0 <= o < |Others(m, ai, bi)| ==> x[Others(m, ai, bi)[o]] == 0.0
  {
    var o := Others(m, ai, bi);
    forall k | 0 <= k < |o| ensures o[k] == m[if k < ai then k else if k < bi - 1 then k + 1 else k + 2] {}
  }

  /** A successful trial stays in the box, touches only listed types, and spends both rooms exactly. */
  lemma {:induction false} TrialExact(g: Room, x: seq<real>, m: seq<nat>, ai: nat, bi: nat, mask: nat, xa: real, xb: real, z: seq<real>)
    requires Solves(g, x, m, ai, bi, mask, xa, xb, z) && Distinct(m) && (forall k :: 0 <= k < |m| ==> x[m[k]] == 0.0)
    ensures |z| == |x| && Spent(g.rate, z) == Spent(g.rate, x) + g.r && Spent(g.cost, z) == Spent(g.cost, x) + g.c
    ensures forall i :: 0 <= i < |x| && i !in m ==> z[i] == x[i]
    ensures forall i :: 0 <= i < |x| && i in m ==> 0.0 <= z[i] <= 1.0
  {
    RowExact(g.rate, x, m, ai, bi, mask, xa, xb, g.r, z);
    RowExact(g.cost, x, m, ai, bi, mask, xa, xb, g.c, z);
    PairPlanInBox(x, m, ai, bi, mask, xa, xb);
  }

  lemma {:induction false} RowExact(need: seq<real>, x: seq<real>, m: seq<nat>, ai: nat, bi: nat, mask: nat,
                                    xa: real, xb: real, room: real, z: seq<real>)
    requires |need| == |x| && Within(m, |x|) && ai < bi < |m| && Distinct(m) && (forall k :: 0 <= k < |m| ==> x[m[k]] == 0.0)
    requires z == PairPlan(x, m, ai, bi, mask, xa, xb)
    ensures Row(need, m, ai, bi, mask, xa, xb, room) <==> Spent(need, z) == Spent(need, x) + room
  {
    PairPlanRoom(need, x, m, ai, bi, mask, xa, xb, room, TakenAll(need, m, ai, bi, mask), z);
  }

  lemma {:induction false} PairPlanInBox(x: seq<real>, m: seq<nat>, ai: nat, bi: nat, mask: nat, xa: real, xb: real)
    requires Within(m, |x|) && ai < bi < |m| && Distinct(m) && (forall k :: 0 <= k < |m| ==> x[m[k]] == 0.0)
    requires 0.0 <= xa <= 1.0 && 0.0 <= xb <= 1.0
    ensures var z := PairPlan(x, m, ai, bi, mask, xa, xb);
      (forall i :: 0 <= i < |x| && i !in m ==> z[i] == x[i]) && (forall i :: 0 <= i < |x| && i in m ==> 0.0 <= z[i] <= 1.0)
  {
    var others := Others(m, ai, bi);
    OthersExactly(m, ai, bi);
    OthersFresh(x, m, ai, bi);
    ToggledAt(x, others, mask, |others|);
    assert others[..|others|] == others;
    forall i | 0 <= i < |x| && i in others ensures 0.0 <= Toggled(x, others, mask, |others|)[i] <= 1.0 {
      var o :| 0 <= o < |others| && others[o] == i;
    }
  }

  /** A plan y that spends both rooms and is 0/1 outside one non-singular pair is a successful trial of some mask. */
  lemma {:induction false} TrialComplete(g: Room, x: seq<real>, m: seq<nat>, ai: nat, bi: nat, y: seq<real>) returns (mask: nat)
    requires Trials(g, x, m, ai, bi) && |y| == |x| && Distinct(m) && (forall k :: 0 <= k < |m| ==> x[m[k]] == 0.0)
    requires forall i :: 0 <= i < |x| && i !in m ==> y[i] == x[i]
    requires forall i :: 0 <= i < |x| && i in m ==> 0.0 <= y[i] <= 1.0
    requires forall i :: 0 <= i < |x| && i in m && i != m[ai] && i != m[bi] ==> y[i] == 0.0 || y[i] == 1.0
    requires Spent(g.rate, y) == Spent(g.rate, x) + g.r && Spent(g.cost, y) == Spent(g.cost, x) + g.c
    requires NonSingular(g, m, ai, bi)
    ensures mask < Pow2(|m| - 2) && Solves(g, x, m, ai, bi, mask, y[m[ai]], y[m[bi]], y)
  {
    mask := PatternMask(x, m, ai, bi, y);
    RowExact(g.rate, x, m, ai, bi, mask, y[m[ai]], y[m[bi]], g.r, y);
    RowExact(g.cost, x, m, ai, bi, mask, y[m[ai]], y[m[bi]], g.c, y);
  }

  /** The mask that reads off y's 0/1 pattern. */
  lemma {:induction false} PatternMask(x: seq<real>, m: seq<nat>, ai: nat, bi: nat, y: seq<real>) returns (mask: nat)
    requires Within(m, |x|) && ai < bi < |m| && |y| == |x| && Distinct(m)
    requires forall i :: 0 <= i < |x| && i !in m ==> y[i] == x[i]
    requires forall i :: 0 <= i < |x| && i in m && i != m[ai] && i != m[bi] ==> y[i] == 0.0 || y[i] == 1.0
    ensures mask < Pow2(|m| - 2) && PairPlan(x, m, ai, bi, mask, y[m[ai]], y[m[bi]]) == y
  {
    var others := Others(m, ai, bi);
    OthersExactly(m, ai, bi);
    mask := MaskFor(seq(|others|, o requires 0 <= o < |others| => y[others[o]] == 1.0));
    forall o | 0 <= o < |others| ensures y[others[o]] == if Bit(mask, o) == 1 then 1.0 else 0.0 {
      assert others[o] in others;
    }
    RebuildsPlan(x, m, ai, bi, mask, y);
  }

  lemma {:induction false} RebuildsPlan(x: seq<real>, m: seq<nat>, ai: nat, bi: nat, mask: nat, y: seq<real>)
    requires Within(m, |x|) && ai < bi < |m| && Distinct(m) && |y| == |x|
    requires forall i :: 0 <= i < |x| && i !in m ==> y[i] == x[i]
    requires Within(Others(m, ai, bi), |x|)
    requires forall o :: 0 <= o < |Others(m, ai, bi)| ==>
      y[Others(m, ai, bi)[o]] == if Bit(mask, o) == 1 then 1.0 else 0.0
    ensures PairPlan(x, m, ai, bi, mask, y[m[ai]], y[m[bi]]) == y
  {
    var others := Others(m, ai, bi);
    OthersExactly(m, ai, bi);
    ToggledAt(x, others, mask, |others|);
    assert others[..|others|] == others;
    var t := Toggled(x, others, mask, |others|);
    forall i | 0 <= i < |x| ensures t[m[ai] := y[m[ai]]][m[bi] := y[m[bi]]][i] == y[i] {
      if i in others { var o :| 0 <= o < |others| && others[o] == i; }
    }
  }
}
