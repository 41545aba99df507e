/** Online learned reservation: projected online gradient descent on the pinball loss, and its square-root regret. */
module Reservation {
  import opened Numbers
  import opened Wrappers

  datatype Params = Params(h: real, p: real, lo: real, hi: real, eta: real) {
    ghost predicate Valid() { h > 0.0 && p > 0.0 && 0.0 <= lo <= hi && hi > 0.0 && eta > 0.0 }

    function Diameter(): real { hi - lo }

    function Slope(): real { Max(h, p) }
  }

  /** One observed request: its realised cost, and the square root Math.sqrt(t) used by its step. */
  datatype Round = Round(cost: real, root: real)

  ghost predicate RootOf(s: real, t: nat) { s >= 0.0 && s * s == t as real }

  ghost predicate Rooted(rounds: seq<Round>) {
    forall k: nat :: k < |rounds| ==> RootOf(rounds[k].root, k + 1)
  }

  /** reservationCost: the asymmetric newsvendor loss. */
  function Loss(q: Params, r: real, cost: real): real {
    if r > cost then q.h * (r - cost) else q.p * (cost - r)
  }

  function Subgradient(q: Params, r: real, cost: real): real {
    if r > cost then q.h else -q.p
  }

  function Stepped(q: Params, r: real, round: Round): real
    requires round.root > 0.0
  {
    Clamp(r - q.eta / round.root * Subgradient(q, r, round.cost), q.lo, q.hi)
  }

  lemma RootPositive(s: real, t: nat)
    requires RootOf(s, t) && t > 0
    ensures s > 0.0
  {
  }

  ghost predicate WellRooted(rounds: seq<Round>) {
    Rooted(rounds) && forall k :: 0 <= k < |rounds| ==> rounds[k].root > 0.0
  }

  /** The reservation after a run, from its initial value. */
  ghost function After(q: Params, init: real, rounds: seq<Round>): real
    requires WellRooted(rounds)
  {
    if rounds == [] then init
    else Stepped(q, After(q, init, rounds[..|rounds| - 1]), rounds[|rounds| - 1])
  }

  /** What the learner's reservations cost over a run. */
  ghost function LearnerLoss(q: Params, init: real, rounds: seq<Round>): real
    requires WellRooted(rounds)
  {
    if rounds == [] then 0.0
    else
      var n := |rounds| - 1;
      LearnerLoss(q, init, rounds[..n]) + Loss(q, After(q, init, rounds[..n]), rounds[n].cost)
  }

  /** What one fixed reservation would have cost. */
  ghost function FixedLoss(q: Params, u: real, rounds: seq<Round>): real {
    if rounds == [] then 0.0
    else
      var n := |rounds| - 1;
      FixedLoss(q, u, rounds[..n]) + Loss(q, u, rounds[n].cost)
  }

  // ---------------------------------------------------------------- the regret bound

  /** The step's gradient supports the loss from below. */
  lemma Supports(q: Params, r: real, u: real, cost: real)
    requires q.Valid()
    ensures Loss(q, r, cost) - Loss(q, u, cost) <= Subgradient(q, r, cost) * (r - u)
  {
    var a, b := r - cost, u - cost;
    assert u > cost && r <= cost ==> q.h * b >= 0.0 && q.p * b >= 0.0;
    assert u <= cost && r > cost ==> q.h * b <= 0.0 && q.p * b <= 0.0;
  }

  /** Projection onto the range brings the iterate no further from any point of the range. */
  lemma ProjectionContracts(x: real, u: real, lo: real, hi: real)
    requires lo <= u <= hi
    ensures Square(Clamp(x, lo, hi) - u) <= Square(x - u)
  {
    var y := Clamp(x, lo, hi);
    SquareOrders(y - u, x - u);
  }

  function Square(x: real): real { x * x }

  lemma SquareMono(x: real, y: real)
    requires 0.0 <= x <= y
    ensures x * x <= y * y
  {
    MulMono(x, y, x);
    MulMono(x, y, y);
    assert x * y == y * x;
  }

  lemma SquareOrders(a: real, b: real)
    requires Abs(a) <= Abs(b)
    ensures Square(a) <= Square(b)
  {
    SquareMono(Abs(a), Abs(b));
    assert Square(a) == Abs(a) * Abs(a) && Square(b) == Abs(b) * Abs(b);
  }

  lemma SquareOfDifference(d: real, e: real, g: real)
    ensures Square(d - e * g) == Square(d) - 2.0 * e * (g * d) + e * e * Square(g)
  {
    var y := e * g;
    assert (d - y) * (d - y) == d * d - 2.0 * (y * d) + y * y;
    assert y * d == e * (g * d);
    assert y * y == e * e * (g * g);
  }

  /** One step of descent, scaled by the root so that no quotient is left. */
  lemma StepDescends(d: real, d': real, e: real, g: real, gMax: real, eta: real, root: real)
    requires e * root == eta && root > 0.0 && eta > 0.0 && Abs(g) <= gMax
    requires Square(d') <= Square(d - e * g)
    ensures 2.0 * eta * (g * d) <= root * (Square(d) - Square(d')) + eta * e * Square(gMax)
  {
    SquareOfDifference(d, e, g);
    SquareOrders(g, gMax);
    var a, a', x, g2 := Square(d), Square(d'), g * d, Square(g);
    assert a' <= a - 2.0 * e * x + e * e * g2;
    ScaleStep(a, a', x, g2, Square(gMax), e, root, eta);
  }

  lemma ScaleStep(a: real, a': real, x: real, g2: real, gMax2: real, e: real, root: real, eta: real)
    requires e * root == eta && root > 0.0 && eta > 0.0 && g2 <= gMax2
    requires a' <= a - 2.0 * e * x + e * e * g2
    ensures 2.0 * eta * x <= root * (a - a') + eta * e * gMax2
  {
    assert e <= 0.0 ==> e * root <= 0.0;
    var c := a - a' - 2.0 * e * x + e * e * g2;
    assert root * c >= 0.0;
    assert root * c == root * (a - a') - 2.0 * (e * root) * x + (e * root) * e * g2;
    assert eta * e >= 0.0;
    MulMono(g2, gMax2, eta * e);
  }

  /** The root's growth pays for the step size: s + 1/(2s') <= s'. */
  lemma RootGrows(s: real, s': real, t: nat, e: real, eta: real)
    requires RootOf(s, t) && RootOf(s', t + 1) && e * s' == eta && eta > 0.0
    ensures s <= s' && e >= 0.0 && e <= 2.0 * eta * (s' - s)
  {
    RootPositive(s', t + 1);
    assert s > s' ==> s * s > s' * s';
    assert e < 0.0 ==> e * s' < 0.0;
    var gap := s' - s;
    assert gap * (s' + s) == s' * s' - s * s == 1.0;
    MulMono(s' + s, 2.0 * s', gap);
    var k := 2.0 * gap * s';
    assert k >= 1.0;
    MulMono(1.0, k, e);
    assert e * k == 2.0 * gap * (e * s');
  }

  /** The potential argument, on plain numbers. */
  lemma PotentialStep(regret: real, gain: real, s: real, s': real, a: real, a': real, d2: real, g2: real, e: real, eta: real)
    requires 0.0 <= s <= s' && a <= d2 && eta > 0.0 && g2 >= 0.0 && e <= 2.0 * eta * (s' - s)
    requires 2.0 * eta * regret <= s * (d2 - a) + 2.0 * eta * eta * g2 * s
    requires 2.0 * eta * gain <= s' * (a - a') + eta * e * g2
    ensures 2.0 * eta * (regret + gain) <= s' * (d2 - a') + 2.0 * eta * eta * g2 * s'
  {
    MulMono(s, s', d2 - a);
    assert s' * (d2 - a) + s' * (a - a') == s' * (d2 - a');
    var k := eta * g2;
    assert k >= 0.0;
    MulMono(e, 2.0 * eta * (s' - s), k);
    assert eta * e * g2 == e * k;
    assert 2.0 * eta * (s' - s) * k == 2.0 * eta * eta * g2 * s' - 2.0 * eta * eta * g2 * s;
  }

  lemma DistanceWithin(x: real, u: real, lo: real, hi: real)
    requires lo <= x <= hi && lo <= u <= hi
    ensures Square(x - u) <= Square(hi - lo)
  {
    SquareOrders(x - u, hi - lo);
  }

  lemma {:induction false} StaysInRange(q: Params, init: real, rounds: seq<Round>)
    requires q.Valid() && WellRooted(rounds) && q.lo <= init <= q.hi
    ensures q.lo <= After(q, init, rounds) <= q.hi
  {
  }

  /** What one step may add to the regret, paid by the distance it closes and by its length. */
  ghost predicate Paid(gain: real, root: real, a: real, a': real, e: real, eta: real, g2: real) {
    2.0 * eta * gain <= root * (a - a') + eta * e * g2
  }

  lemma PaidBy(gain: real, x: real, root: real, a: real, a': real, e: real, eta: real, g2: real)
    requires gain <= x && eta > 0.0 && 2.0 * eta * x <= root * (a - a') + eta * e * g2
    ensures Paid(gain, root, a, a', e, eta, g2)
  {
    MulMono(gain, x, 2.0 * eta);
  }

  lemma StepPays(d: real, d': real, e: real, g: real, gMax: real, eta: real, root: real, gain: real)
    requires e * root == eta && root > 0.0 && eta > 0.0 && Abs(g) <= gMax
    requires Square(d') <= Square(d - e * g) && gain <= g * d
    ensures Paid(gain, root, Square(d), Square(d'), e, eta, Square(gMax))
  {
    StepDescends(d, d', e, g, gMax, eta, root);
    PaidBy(gain, g * d, root, Square(d), Square(d'), e, eta, Square(gMax));
  }

  /** How much one round adds to the regret against u. */
  lemma RoundRegret(q: Params, r: real, u: real, round: Round, e: real)
    requires q.Valid() && round.root > 0.0 && q.lo <= u <= q.hi && e == q.eta / round.root
    ensures Paid(Loss(q, r, round.cost) - Loss(q, u, round.cost), round.root, Square(r - u), Square(Stepped(q, r, round) - u),
                 e, q.eta, Square(q.Slope()))
  {
    var g := Subgradient(q, r, round.cost);
    QuotientBack(q.eta, round.root, e);
    var y := e * g;
    assert Stepped(q, r, round) == Clamp(r - y, q.lo, q.hi);
    ProjectionContracts(r - y, u, q.lo, q.hi);
    assert r - y - u == r - u - y;
    SupportsBy(q, r, u, round.cost, g, Loss(q, r, round.cost) - Loss(q, u, round.cost));
    StepPays(r - u, Stepped(q, r, round) - u, e, g, q.Slope(), q.eta, round.root,
             Loss(q, r, round.cost) - Loss(q, u, round.cost));
  }

  lemma SupportsBy(q: Params, r: real, u: real, cost: real, g: real, gain: real)
    requires q.Valid() && g == Subgradient(q, r, cost) && gain == Loss(q, r, cost) - Loss(q, u, cost)
    ensures gain <= g * (r - u) && Abs(g) <= q.Slope()
  {
    Supports(q, r, u, cost);
  }

  lemma QuotientBack(eta: real, root: real, e: real)
    requires root > 0.0 && e == eta / root
    ensures e * root == eta
  {
  }

  ghost function LastRoot(rounds: seq<Round>): real {
    if rounds == [] then 0.0 else rounds[|rounds| - 1].root
  }

  /** The regret so far fits into the room the current distance still leaves. */
  ghost predicate Bounded(regret: real, s: real, a: real, d2: real, g2: real, eta: real) {
    2.0 * eta * regret <= s * (d2 - a) + 2.0 * eta * eta * g2 * s
  }

  lemma BoundedStep(regret: real, gain: real, s: real, s': real, t: nat, a: real, a': real, d2: real, g2: real, e: real, eta: real)
    requires RootOf(s, t) && RootOf(s', t + 1) && s' > 0.0 && e == eta / s' && eta > 0.0 && a <= d2 && g2 >= 0.0
    requires Bounded(regret, s, a, d2, g2, eta) && Paid(gain, s', a, a', e, eta, g2)
    ensures Bounded(regret + gain, s', a', d2, g2, eta)
  {
    QuotientBack(eta, s', e);
    RootGrows(s, s', t, e, eta);
    PotentialStep(regret, gain, s, s', a, a', d2, g2, e, eta);
  }

  ghost function RegretOf(q: Params, init: real, rounds: seq<Round>, u: real): real
    requires WellRooted(rounds)
  {
    LearnerLoss(q, init, rounds) - FixedLoss(q, u, rounds)
  }

  lemma {:induction false} RegretGrows(q: Params, init: real, rounds: seq<Round>, u: real)
    requires WellRooted(rounds) && rounds != []
    ensures var n := |rounds| - 1;
      WellRooted(rounds[..n]) && RegretOf(q, init, rounds, u) == RegretOf(q, init, rounds[..n], u)
        + (Loss(q, After(q, init, rounds[..n]), rounds[n].cost) - Loss(q, u, rounds[n].cost))
  {
  }

  lemma {:induction false} AfterStep(q: Params, init: real, rounds: seq<Round>)
    requires WellRooted(rounds) && rounds != []
    ensures var n := |rounds| - 1;
      WellRooted(rounds[..n]) && After(q, init, rounds) == Stepped(q, After(q, init, rounds[..n]), rounds[n])
  {
  }

  lemma SquareNonNeg(x: real)
    ensures Square(x) >= 0.0
  {
  }

  /** The invariant of every run: what the learner lost so far, against the room its distance to u still leaves. */
  lemma {:induction false} Potential(q: Params, init: real, rounds: seq<Round>, u: real)
    requires q.Valid() && WellRooted(rounds) && q.lo <= init <= q.hi && q.lo <= u <= q.hi
    ensures Bounded(RegretOf(q, init, rounds, u), LastRoot(rounds), Square(After(q, init, rounds) - u), Square(q.Diameter()),
                    Square(q.Slope()), q.eta)
    ensures RootOf(LastRoot(rounds), |rounds|)
  {
    if rounds != [] {
      var n := |rounds| - 1;
      var round, before := rounds[n], rounds[..n];
      RegretGrows(q, init, rounds, u);
      AfterStep(q, init, rounds);
      Potential(q, init, before, u);
      var r := After(q, init, before);
      StaysInRange(q, init, before);
      DistanceWithin(r, u, q.lo, q.hi);
      RoundRegret(q, r, u, round, q.eta / round.root);
      SquareNonNeg(q.Slope());
      BoundedStep(RegretOf(q, init, before, u), Loss(q, r, round.cost) - Loss(q, u, round.cost), LastRoot(before), round.root, n,
                  Square(r - u), Square(After(q, init, rounds) - u), Square(q.Diameter()), Square(q.Slope()),
                  q.eta / round.root, q.eta);
    }
  }

  /** The regret bound after a run whose length has root s. */
  function BoundAt(d2: real, g2: real, eta: real, s: real): real
    requires eta > 0.0
  {
    (d2 / (2.0 * eta) + eta * g2) * s
  }

  function RegretBound(q: Params, s: real): real
    requires q.eta > 0.0
  {
    BoundAt(Square(q.Diameter()), Square(q.Slope()), q.eta, s)
  }

  lemma RegretFromPotential(regret: real, s: real, a: real, d2: real, g2: real, eta: real)
    requires eta > 0.0 && s >= 0.0 && a >= 0.0 && Bounded(regret, s, a, d2, g2, eta)
    ensures regret <= BoundAt(d2, g2, eta, s)
  {
    var q := d2 / (2.0 * eta);
    assert q * (2.0 * eta) == d2;
    MulMono(0.0, s, a);
    assert s * (d2 - a) <= s * d2;
    var bound := (q + eta * g2) * s;
    assert 2.0 * eta * bound == (q * (2.0 * eta)) * s + 2.0 * eta * eta * g2 * s;
    assert regret > bound ==> 2.0 * eta * regret > 2.0 * eta * bound;
  }

  lemma {:induction false} RegretAt(q: Params, init: real, rounds: seq<Round>, u: real, s: real, a: real)
    requires q.Valid() && s >= 0.0 && a >= 0.0 && WellRooted(rounds)
    requires Bounded(RegretOf(q, init, rounds, u), s, a, Square(q.Diameter()), Square(q.Slope()), q.eta)
    ensures RegretOf(q, init, rounds, u) <= RegretBound(q, s)
  {
    RegretFromPotential(RegretOf(q, init, rounds, u), s, a, Square(q.Diameter()), Square(q.Slope()), q.eta);
  }

  /** Zinkevich's bound for every run and every fixed reservation in the range. */
  lemma {:induction false} Regret(q: Params, init: real, rounds: seq<Round>, u: real, s: real)
    requires q.Valid() && WellRooted(rounds) && q.lo <= init <= q.hi && q.lo <= u <= q.hi && RootOf(s, |rounds|)
    ensures RegretOf(q, init, rounds, u) <= RegretBound(q, s)
  {
    Potential(q, init, rounds, u);
    RootUnique(s, LastRoot(rounds), |rounds|);
    SquareNonNeg(After(q, init, rounds) - u);
    RegretAt(q, init, rounds, u, s, Square(After(q, init, rounds) - u));
  }

  lemma RootUnique(s: real, s': real, t: nat)
    requires RootOf(s, t) && RootOf(s', t)
    ensures s == s'
  {
    var gap, sum := s - s', s + s';
    assert gap * sum == s * s - s' * s' == 0.0;
    assert gap > 0.0 ==> gap * sum > 0.0;
    assert gap < 0.0 && sum > 0.0 ==> gap * sum < 0.0;
  }

  /** The documented bound, (3/2)*D*G*sqrt(T). */
  function Zinkevich(d: real, g: real, s: real): real { 1.5 * d * g * s }

  ghost predicate OptimalStep(eta: real, g: real, d: real) { eta * g == d }

  /** At the step scale D/G the regret bound is the documented one. */
  lemma {:induction false} RegretAtOptimalStep(q: Params, init: real, rounds: seq<Round>, u: real, s: real)
    requires q.Valid() && WellRooted(rounds) && q.lo <= init <= q.hi && q.lo <= u <= q.hi && RootOf(s, |rounds|)
    requires OptimalStep(q.eta, q.Slope(), q.Diameter())
    ensures RegretOf(q, init, rounds, u) <= Zinkevich(q.Diameter(), q.Slope(), s)
  {
    Regret(q, init, rounds, u, s);
    OptimalBound(q.Diameter(), q.Slope(), q.eta, s);
  }

  lemma OptimalBound(d: real, g: real, eta: real, s: real)
    requires eta > 0.0 && OptimalStep(eta, g, d)
    ensures BoundAt(Square(d), Square(g), eta, s) == Zinkevich(d, g, s)
  {
    OptimalConstant(d, g, eta, Square(d), Square(g));
    assert (Square(d) / (2.0 * eta) + eta * Square(g)) == 1.5 * d * g;
  }

  lemma OptimalConstant(d: real, g: real, eta: real, d2: real, g2: real)
    requires eta > 0.0 && eta * g == d && d2 == d * d && g2 == g * g
    ensures d2 / (2.0 * eta) + eta * g2 == 1.5 * d * g
  {
    assert d2 == eta * (g * d);
    assert (0.5 * (g * d)) * (2.0 * eta) == d2;
    assert d2 / (2.0 * eta) == 0.5 * (g * d);
    assert eta * g2 == d * g;
  }

  // ---------------------------------------------------------------- the learner

  datatype Options = Options(holdCost: real, overrunCost: real, maxReservation: real, minReservation: Option<real>,
                             stepScale: Option<real>, initialReservation: Option<real>) {
    /** The default step scale D/G, floored at one millionth. */
    function Eta(): real
      requires Max(holdCost, overrunCost) > 0.0
    {
      stepScale.GetOr(Max((maxReservation - minReservation.GetOr(0.0)) / Max(holdCost, overrunCost), STEP_FLOOR))
    }

    function ToParams(): Params
      requires Max(holdCost, overrunCost) > 0.0
    {
      Params(holdCost, overrunCost, minReservation.GetOr(0.0), maxReservation, Eta())
    }

    function Initial(): real {
      var lo := minReservation.GetOr(0.0);
      Clamp(initialReservation.GetOr((lo + maxReservation) / 2.0), lo, maxReservation)
    }
  }

  const STEP_FLOOR: real := 0.000001

  datatype OptionError = BadHoldCost | BadOverrunCost | BadMaxReservation | BadMinReservation | EmptyRange | BadStepScale

  predicate Accepted(o: Options) {
    && o.holdCost > 0.0 && o.overrunCost > 0.0 && o.maxReservation > 0.0
    && 0.0 <= o.minReservation.GetOr(0.0) <= o.maxReservation
    && (o.stepScale.Some? ==> o.stepScale.value > 0.0)
  }

  /** The option an error names is at fault. */
  predicate AtFault(error: OptionError, o: Options) {
    match error
    case BadHoldCost => o.holdCost <= 0.0
    case BadOverrunCost => o.overrunCost <= 0.0
    case BadMaxReservation => o.maxReservation <= 0.0
    case BadMinReservation => o.minReservation.Some? && o.minReservation.value < 0.0
    case EmptyRange => o.minReservation.GetOr(0.0) > o.maxReservation
    case BadStepScale => o.stepScale.Some? && o.stepScale.value <= 0.0
  }

  method Validate(o: Options) returns (error: Option<OptionError>)
    ensures error.None? <==> Accepted(o)
    ensures error.Some? ==> AtFault(error.value, o)
  {
    if o.holdCost <= 0.0 { return Some(BadHoldCost); }
    if o.overrunCost <= 0.0 { return Some(BadOverrunCost); }
    if o.maxReservation <= 0.0 { return Some(BadMaxReservation); }
    if o.minReservation.GetOr(0.0) < 0.0 { return Some(BadMinReservation); }
    if o.minReservation.GetOr(0.0) > o.maxReservation { return Some(EmptyRange); }
    if o.stepScale.Some? && o.stepScale.value <= 0.0 { return Some(BadStepScale); }
    return None;
  }

  /** The loss, the range and the step the options ask for. */
  lemma OptionsMean(o: Options, r: real, cost: real)
    requires Accepted(o)
    ensures Loss(o.ToParams(), r, cost) == o.holdCost * PosPart(r - cost) + o.overrunCost * PosPart(cost - r)
    ensures o.ToParams().lo == (if o.minReservation.Some? then o.minReservation.value else 0.0) && o.ToParams().hi == o.maxReservation
    ensures o.stepScale.Some? ==> o.ToParams().eta == o.stepScale.value
    ensures o.stepScale.None? ==> var scale := o.ToParams().eta;
      && scale >= 0.000001 && scale * Max(o.holdCost, o.overrunCost) >= o.maxReservation - o.ToParams().lo
      && (scale == 0.000001 || scale * Max(o.holdCost, o.overrunCost) == o.maxReservation - o.ToParams().lo)
  {
    LossOf(o.holdCost, o.overrunCost, r, cost);
    ScaleOf(o.maxReservation - o.minReservation.GetOr(0.0), Max(o.holdCost, o.overrunCost));
  }

  lemma LossOf(h: real, p: real, r: real, cost: real)
    ensures (if r > cost then h * (r - cost) else p * (cost - r)) == h * PosPart(r - cost) + p * PosPart(cost - r)
  {
  }

  lemma ScaleOf(d: real, g: real)
    requires g > 0.0
    ensures var scale := Max(d / g, STEP_FLOOR); scale * g >= d && (scale == STEP_FLOOR || scale * g == d)
  {
    var q := d / g;
    assert q * g == d;
    if STEP_FLOOR > q { MulMono(q, STEP_FLOOR, g); }
  }

  /**
   * What one observed cost does to the reservation: an over-reservation lowers it by the holding cost and an overrun raises
   * it by the overrun cost, each times the step scale over the root, within the range.
   */
  ghost predicate Moves(o: Options, r: real, cost: real, root: real, r': real)
    requires root > 0.0 && Accepted(o)
  {
    var low, high, step := o.minReservation.GetOr(0.0), o.maxReservation, o.ToParams().eta / root;
    if r > cost then r' <= r && r' == Max(low, r - step * o.holdCost)
    else r' >= r && r' == Min(high, r + step * o.overrunCost)
  }

  lemma MovesBy(o: Options, r: real, cost: real, root: real)
    requires Accepted(o) && root > 0.0 && o.minReservation.GetOr(0.0) <= r <= o.maxReservation
    ensures Moves(o, r, cost, root, Stepped(o.ToParams(), r, Round(cost, root)))
  {
    var step := o.ToParams().eta / root;
    ScaleOf(o.maxReservation - o.minReservation.GetOr(0.0), Max(o.holdCost, o.overrunCost));
    StepPositive(o.ToParams().eta, root);
    assert step * -o.overrunCost == -(step * o.overrunCost);
    assert step * o.holdCost >= 0.0 && step * o.overrunCost >= 0.0;
  }

  lemma StepPositive(eta: real, root: real)
    requires eta > 0.0 && root > 0.0
    ensures eta / root > 0.0
  {
    var q := eta / root;
    assert q * root == eta;
    assert q <= 0.0 ==> q * root <= 0.0;
  }

  class LearnedReservation {
    ghost const options: Options
    const params: Params
    var r: real
    var t: nat
    ghost const init: real
    ghost var rounds: seq<Round>

    ghost predicate Valid()
      reads this
    {
      && Accepted(options) && params == options.ToParams()
      && params.Valid() && params.lo <= init <= params.hi && WellRooted(rounds)
      && t == |rounds| && r == After(params, init, rounds)
    }

    constructor (o: Options)
      requires Accepted(o)
      ensures Valid() && rounds == [] && options == o && r == init
      ensures o.initialReservation.None? ==> r == (o.minReservation.GetOr(0.0) + o.maxReservation) / 2.0
      ensures o.initialReservation.Some? ==>
        r == Max(o.minReservation.GetOr(0.0), Min(o.maxReservation, o.initialReservation.value))
    {
      options := o;
      params := o.ToParams();
      r := o.Initial();
      t := 0;
      init := o.Initial();
      rounds := [];
    }

    /** Feeds back one realised cost; root stands for Math.sqrt of the new count. */
    method Observe(cost: real, root: real)
      requires Valid() && root > 0.0 && RootOf(root, t + 1)
      modifies this
      ensures Valid() && rounds == old(rounds) + [Round(cost, root)]
      ensures options.minReservation.GetOr(0.0) <= r <= options.maxReservation
      ensures Moves(options, old(r), cost, root, r)
      ensures forall u :: params.lo <= u <= params.hi ==> RegretBounded(params, init, rounds, u, root)
    {
      t := t + 1;
      var grad := if r > cost then params.h else -params.p;
      var step := params.eta / root;
      AfterAppend(params, init, rounds, Round(cost, root));
      ghost var after := rounds + [Round(cost, root)];
      SteppedBy(params, r, Round(cost, root), grad, step);
      StaysInRange(params, init, rounds);
      MovesBy(options, r, cost, root);
      r := Clamp(r - step * grad, params.lo, params.hi);
      rounds := after;
      RegretOfRun(params, init, after, root);
    }
  }

  ghost predicate RegretBounded(q: Params, init: real, rounds: seq<Round>, u: real, s: real)
    requires WellRooted(rounds) && q.eta > 0.0
  {
    RegretOf(q, init, rounds, u) <= RegretBound(q, s)
  }

  lemma {:induction false} RegretOfRun(q: Params, init: real, rounds: seq<Round>, s: real)
    requires q.Valid() && WellRooted(rounds) && q.lo <= init <= q.hi && RootOf(s, |rounds|)
    ensures q.lo <= After(q, init, rounds) <= q.hi
    ensures forall u :: q.lo <= u <= q.hi ==> RegretBounded(q, init, rounds, u, s)
  {
    StaysInRange(q, init, rounds);
    forall u | q.lo <= u <= q.hi ensures RegretBounded(q, init, rounds, u, s) {
      Regret(q, init, rounds, u, s);
    }
  }

  lemma SteppedBy(q: Params, r: real, round: Round, grad: real, step: real)
    requires round.root > 0.0 && grad == Subgradient(q, r, round.cost) && step == q.eta / round.root
    ensures Stepped(q, r, round) == Clamp(r - step * grad, q.lo, q.hi)
  {
  }

  lemma {:induction false} AfterAppend(q: Params, init: real, rounds: seq<Round>, round: Round)
    requires WellRooted(rounds) && round.root > 0.0 && RootOf(round.root, |rounds| + 1)
    ensures WellRooted(rounds + [round])
    ensures After(q, init, rounds + [round]) == Stepped(q, After(q, init, rounds), round)
  {
    assert (rounds + [round])[..|rounds|] == rounds;
  }

  lemma QuotientAbove(d: real, g: real, low: real)
    requires g > 0.0 && low * g <= d
    ensures d / g >= low
  {
    var q := d / g;
    assert q * g == d;
    assert q < low ==> q * g < low * g;
  }

  lemma DefaultStepOptimal(d: real, g: real, eta: real)
    requires g > 0.0 && d >= STEP_FLOOR * g && eta == Max(d / g, STEP_FLOOR)
    ensures OptimalStep(eta, g, d)
  {
    QuotientAbove(d, g, STEP_FLOOR);
    QuotientBack(d, g, eta);
  }

  /** The documented constant 3/2 holds with the default step whenever the floor on the step is not active. */
  lemma {:induction false} DefaultStepRegret(o: Options, rounds: seq<Round>, u: real, s: real)
    requires Accepted(o) && o.stepScale.None? && WellRooted(rounds) && RootOf(s, |rounds|)
    requires o.minReservation.GetOr(0.0) <= u <= o.maxReservation
    requires o.maxReservation - o.minReservation.GetOr(0.0) >= STEP_FLOOR * Max(o.holdCost, o.overrunCost)
    ensures var q := o.ToParams(); RegretOf(q, o.Initial(), rounds, u) <= Zinkevich(q.Diameter(), q.Slope(), s)
  {
    DefaultStepOptimal(o.ToParams().Diameter(), o.ToParams().Slope(), o.Eta());
    RegretAtOptimalStep(o.ToParams(), o.Initial(), rounds, u, s);
  }

  // ---------------------------------------------------------------- where the floor breaks the documented constant

  /** Symmetric costs over a range so narrow that the floored step is at least four times D/G. */
  ghost predicate Narrow(o: Options) {
    && Accepted(o) && o.stepScale.None? && o.holdCost == o.overrunCost && o.minReservation.GetOr(0.0) < o.maxReservation
    && 4.0 * (o.maxReservation - o.minReservation.GetOr(0.0)) <= STEP_FLOOR * o.holdCost
    && o.initialReservation == Some(o.maxReservation)
  }

  /** Costs that always sit at the other end of the range. */
  ghost predicate Opposed(q: Params, rounds: seq<Round>) {
    forall k :: 0 <= k < |rounds| ==> rounds[k].cost == if k % 2 == 0 then q.lo else q.hi
  }

  ghost predicate Bounces(q: Params) {
    q.Valid() && q.h == q.p && q.lo < q.hi && 4.0 * q.Diameter() <= q.eta * q.h
  }

  lemma LongStep(eta: real, root: real, h: real, d: real)
    requires 0.0 < root <= 4.0 && h > 0.0 && 4.0 * d <= eta * h && d > 0.0 && eta > 0.0
    ensures eta / root * h >= d
  {
    var e := eta / root;
    QuotientBack(eta, root, e);
    assert e < 0.0 ==> e * root < 0.0;
    var k := e * h;
    assert k >= 0.0;
    MulMono(root, 4.0, k);
    assert root * k == (e * root) * h == eta * h;
    assert k >= d;
    assert eta / root * h == k;
  }

  /** At either end, a cost at the other end throws the reservation all the way across. */
  lemma Across(q: Params, root: real)
    requires Bounces(q) && 0.0 < root <= 4.0
    ensures Stepped(q, q.hi, Round(q.lo, root)) == q.lo && Stepped(q, q.lo, Round(q.hi, root)) == q.hi
  {
    LongStep(q.eta, root, q.h, q.Diameter());
    var k := q.eta / root * q.h;
    assert q.eta / root * -q.p == -k;
  }

  lemma RootBelowFour(s: real, t: nat)
    requires RootOf(s, t) && t <= 16
    ensures s <= 4.0
  {
    assert s > 4.0 ==> s * s > 16.0 by { if s > 4.0 { assert s * s > 4.0 * s; } }
  }

  lemma {:induction false} BouncesForSixteen(q: Params, rounds: seq<Round>)
    requires Bounces(q) && WellRooted(rounds) && Opposed(q, rounds) && |rounds| <= 16
    ensures After(q, q.hi, rounds) == if |rounds| % 2 == 0 then q.hi else q.lo
  {
    if rounds != [] {
      var n := |rounds| - 1;
      AfterStep(q, q.hi, rounds);
      BouncesForSixteen(q, rounds[..n]);
      RootBelowFour(rounds[n].root, n + 1);
      Across(q, rounds[n].root);
      assert rounds[n] == Round(if n % 2 == 0 then q.lo else q.hi, rounds[n].root);
    }
  }

  lemma HalfWay(q: Params, m: real, unit: real)
    requires q.lo < q.hi && q.h == q.p && m == (q.lo + q.hi) / 2.0 && unit == 0.5 * (q.Diameter() * q.h)
    ensures Loss(q, q.hi, q.lo) - Loss(q, m, q.lo) == unit && Loss(q, q.lo, q.hi) - Loss(q, m, q.hi) == unit
  {
    assert m - q.lo == 0.5 * q.Diameter() && q.hi - m == 0.5 * q.Diameter();
    assert q.h * (0.5 * q.Diameter()) == unit;
  }

  function Repeated(n: nat, unit: real): real {
    if n == 0 then 0.0 else Repeated(n - 1, unit) + unit
  }

  lemma {:induction false} RepeatedIs(n: nat, unit: real)
    ensures Repeated(n, unit) == n as real * unit
  {
    if n > 0 {
      RepeatedIs(n - 1, unit);
      Distributes((n - 1) as real, 1.0, unit);
    }
  }

  lemma {:induction false} RoundAdds(q: Params, rounds: seq<Round>, m: real, unit: real)
    requires Bounces(q) && WellRooted(rounds) && Opposed(q, rounds) && 0 < |rounds| <= 16
    requires m == (q.lo + q.hi) / 2.0 && unit == 0.5 * (q.Diameter() * q.h)
    ensures WellRooted(rounds[..|rounds| - 1])
    ensures RegretOf(q, q.hi, rounds, m) == RegretOf(q, q.hi, rounds[..|rounds| - 1], m) + unit
  {
    var n := |rounds| - 1;
    RegretGrows(q, q.hi, rounds, m);
    BouncesForSixteen(q, rounds[..n]);
    assert rounds[n].cost == if n % 2 == 0 then q.lo else q.hi;
    HalfWay(q, m, unit);
  }

  lemma {:induction false} BounceRegret(q: Params, rounds: seq<Round>, m: real, unit: real)
    requires Bounces(q) && WellRooted(rounds) && Opposed(q, rounds) && |rounds| <= 16
    requires m == (q.lo + q.hi) / 2.0 && unit == 0.5 * (q.Diameter() * q.h)
    ensures RegretOf(q, q.hi, rounds, m) == Repeated(|rounds|, unit)
  {
    if rounds != [] {
      var n := |rounds| - 1;
      RoundAdds(q, rounds, m, unit);
      BounceRegret(q, rounds[..n], m, unit);
    }
  }

  /** With such a range, sixteen opposed costs cost 8*D*G against the midpoint, more than the documented (3/2)*D*G*4. */
  lemma {:induction false} FloorBreaksBound(o: Options, rounds: seq<Round>)
    requires Narrow(o) && WellRooted(rounds) && Opposed(o.ToParams(), rounds) && |rounds| == 16
    ensures var q := o.ToParams(); var m := (q.lo + q.hi) / 2.0;
      && RegretOf(q, o.Initial(), rounds, m) == 8.0 * (q.Diameter() * q.Slope())
      && RegretOf(q, o.Initial(), rounds, m) > Zinkevich(q.Diameter(), q.Slope(), 4.0)
  {
    var q := o.ToParams();
    FloorActive(q.Diameter(), q.h);
    BounceRegret(q, rounds, (q.lo + q.hi) / 2.0, 0.5 * (q.Diameter() * q.h));
    RepeatedIs(16, 0.5 * (q.Diameter() * q.h));
    assert q.Diameter() * q.h > 0.0;
  }

  lemma FloorActive(d: real, g: real)
    requires g > 0.0 && d > 0.0 && 4.0 * d <= STEP_FLOOR * g
    ensures Max(d / g, STEP_FLOOR) == STEP_FLOOR
  {
    var q := d / g;
    assert q * g == d;
    assert q > STEP_FLOOR ==> q * g > STEP_FLOOR * g;
  }
}
