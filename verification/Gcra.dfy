/** GCRA, the virtual scheduling algorithm of ITU-T I.371, Annex A: one theoretical arrival time per key. */
module Gcra {
  import opened Numbers
  import opened Wrappers
  import opened Strategy

  datatype Options = Options(limit: real, periodMs: real, burst: real) {
    predicate Valid() { limit > 0.0 && periodMs > 0.0 && burst >= 1.0 }
  }

  type Config = o: Options | o.Valid() witness Options(1.0, 1.0, 1.0)

  /** The emission interval. */
  function Interval(c: Config): (t: real)
    ensures t > 0.0
  {
    QuotientPositive(c.periodMs, c.limit);
    c.periodMs / c.limit
  }

  /** The burst tolerance window. */
  function Tau(c: Config): real { Interval(c) * c.burst }

  function Inc(c: Config, cost: real): real { Interval(c) * cost }

  lemma QuotientPositive(a: real, b: real)
    requires a > 0.0 && b > 0.0
    ensures a / b > 0.0
  {
    var q := a / b;
    assert q * b == a;
    assert q <= 0.0 ==> q * b <= 0.0;
  }

  /** Whole units left when the arrival time stands at tat. */
  function Remaining(interval: real, tau: real, tat: real, now: real): real
    requires interval > 0.0
  {
    Max(0.0, Floor((tau - (tat - now)) / interval) as real)
  }

  /** The decision for an emission interval T, its tolerance tau and an increment. */
  function CheckAt(interval: real, tau: real, burst: real, state: Option<real>, now: real, inc: real): Outcome<real, Decision>
    requires interval > 0.0
  {
    var tat := state.GetOr(now);
    var tatEff := if tat > now then tat else now;
    var newTat := tatEff + inc;
    var allowAt := newTat - tau;
    if now < allowAt then
      Outcome(state, Decision(false, burst, Remaining(interval, tau, tatEff, now), Ceil(tatEff) as real, Ceil(allowAt - now) as real),
              Ceil(tau) as real, false)
    else
      Outcome(Some(newTat), Decision(true, burst, Remaining(interval, tau, newTat, now), Ceil(newTat) as real, 0.0),
              Max(1.0, Ceil(newTat - now) as real), true)
  }

  /** gcra(...).check */
  function CheckGcra(c: Config, state: Option<real>, now: real, cost: real): Outcome<real, Decision> {
    CheckAt(Interval(c), Tau(c), c.burst, state, now, Inc(c, cost))
  }

  function Checker(c: Config): Check<real, Decision> {
    (state: Option<real>, now: real, cost: real) => CheckGcra(c, state, now, cost)
  }

  function PeekGcra(c: Config, state: Option<real>, now: real): Decision {
    var interval, tau := Interval(c), Tau(c);
    var tat := state.GetOr(now);
    var tatEff := if tat > now then tat else now;
    var remaining := Remaining(interval, tau, tatEff, now);
    Decision(remaining >= 1.0, c.burst, remaining, Ceil(tatEff) as real,
             if remaining >= 1.0 then 0.0 else Ceil(tatEff + interval - tau - now) as real)
  }

  // ---------------------------------------------------------------- forgetting

  lemma TatFades(interval: real, tau: real, burst: real, tat: real, now: real, inc: real)
    requires interval > 0.0 && now >= tat
    ensures Alike(CheckAt(interval, tau, burst, Some(tat), now, inc), CheckAt(interval, tau, burst, None, now, inc))
  {
  }

  lemma PassedFades(c: Config, tat: real, from: real)
    requires from >= tat
    ensures Fades(Checker(c), tat, from)
  {
    forall later: real, k: real | later >= from && k > 0.0
      ensures Alike(Checker(c)(Some(tat), later, k), Checker(c)(None, later, k))
    {
      TatFades(Interval(c), Tau(c), c.burst, tat, later, Inc(c, k));
    }
  }

  lemma WrittenPasses(interval: real, tau: real, burst: real, p: Option<real>, now: real, inc: real)
    requires interval > 0.0
    ensures var out := CheckAt(interval, tau, burst, p, now, inc);
      out.persist ==> out.state.Some? && now + out.ttlMs >= out.state.value
  {
  }

  /** A stored arrival time that has passed is no different from none. */
  lemma GcraWritesFade(c: Config, from: real)
    ensures WritesFade(Checker(c), (s: real, t: real) => true, from)
  {
    forall p: Option<real>, now: real, cost: real | cost > 0.0 && CheckGcra(c, p, now, cost).persist
      ensures var out := CheckGcra(c, p, now, cost); out.state.Some? && Fades(Checker(c), out.state.value, now + out.ttlMs)
    {
      var out := CheckGcra(c, p, now, cost);
      WrittenPasses(Interval(c), Tau(c), c.burst, p, now, Inc(c, cost));
      PassedFades(c, out.state.value, now + out.ttlMs);
    }
  }

  /** TTL eviction never changes a GCRA answer. */
  lemma GcraForgettingUnseen(c: Config, floor: real, run: seq<Request>, drops: seq<bool>)
    requires NonDecreasing(run) && PositiveCosts(run) && |run| == |drops|
    ensures ForgetfulAnswers(Checker(c), floor, run, drops) == Answers(Checker(c), run)
  {
    GcraWritesFade(c, First(run));
    SinceFirst(run);
    ForgettingUnseen(Checker(c), (s: real, t: real) => true, First(run), floor, run, drops);
  }

  // ---------------------------------------------------------------- the interval bound

  /** Whatever was admitted since a has pushed the arrival time that far past a. */
  ghost predicate Pushed(interval: real, admitted: real, tat: Option<real>, a: real, b: real, tau: real) {
    && admitted >= 0.0
    && (admitted > 0.0 ==> tat.Some? && Paced(interval, admitted) <= tat.value - a && Paced(interval, admitted) <= tau + (b - a))
  }

  /** The time that many units take at the sustained rate. */
  function Paced(interval: real, units: real): real { interval * units }

  lemma PushStep(interval: real, tau: real, burst: real, tat: Option<real>, now: real, cost: real, inc: real, admitted: real,
                 a: real, b: real, out: Outcome<real, Decision>, tat': Option<real>, admitted': real)
    requires interval > 0.0 && cost > 0.0 && inc == interval * cost && Pushed(interval, admitted, tat, a, b, tau)
    requires out == CheckAt(interval, tau, burst, tat, now, inc) && tat' == (if out.persist then out.state else tat)
    requires admitted' == admitted + (if a <= now <= b && out.result.allowed then cost else 0.0)
    ensures Pushed(interval, admitted', tat', a, b, tau)
  {
    Distributes(admitted, cost, interval);
    assert inc > 0.0;
  }

  lemma PushOne(c: Config, tat: Option<real>, last: Request, admitted: real, a: real, b: real, tat': Option<real>, admitted': real)
    requires last.cost > 0.0 && Pushed(Interval(c), admitted, tat, a, b, Tau(c))
    requires var out := CheckGcra(c, tat, last.at, last.cost);
      && tat' == (if out.persist then out.state else tat)
      && admitted' == admitted + (if a <= last.at <= b && out.result.allowed then last.cost else 0.0)
    ensures Pushed(Interval(c), admitted', tat', a, b, Tau(c))
  {
    IncIs(c, last.cost);
    PushStep(Interval(c), Tau(c), c.burst, tat, last.at, last.cost, Inc(c, last.cost), admitted, a, b,
             CheckGcra(c, tat, last.at, last.cost), tat', admitted');
  }

  lemma {:induction false} RunPushes(c: Config, run: seq<Request>, a: real, b: real)
    requires PositiveCosts(run)
    ensures Pushed(Interval(c), AdmittedIn(Checker(c), run, a, b), Kept(Checker(c), run), a, b, Tau(c))
  {
    if run != [] {
      var before, last := run[..|run| - 1], run[|run| - 1];
      RunPushes(c, before, a, b);
      AdmittedStep(Checker(c), run, a, b, last);
      PushOne(c, Kept(Checker(c), before), last, AdmittedIn(Checker(c), before, a, b), a, b, Kept(Checker(c), run),
              AdmittedIn(Checker(c), run, a, b));
    }
  }

  lemma IncIs(c: Config, cost: real)
    ensures Inc(c, cost) == Interval(c) * cost && Tau(c) == Interval(c) * c.burst
  {
  }

  lemma BoundFromPush(interval: real, admitted: real, burst: real, span: real)
    requires interval > 0.0 && interval * admitted <= interval * burst + span
    ensures admitted <= burst + span / interval
  {
    var q := span / interval;
    assert q * interval == span;
    var gap := admitted - burst - q;
    assert interval * gap == interval * admitted - interval * burst - q * interval;
    assert gap > 0.0 ==> interval * gap > 0.0;
  }

  /** A burst, and what an emission interval lets through in a span of time. */
  function Allowance(burst: real, span: real, interval: real): real
    requires interval > 0.0
  {
    burst + span / interval
  }

  lemma PushedBound(interval: real, admitted: real, tat: Option<real>, a: real, b: real, tau: real, burst: real)
    requires interval > 0.0 && a <= b && burst >= 1.0 && tau == interval * burst && Pushed(interval, admitted, tat, a, b, tau)
    ensures admitted <= Allowance(burst, b - a, interval)
  {
    SpanPositive(b - a, interval);
    if admitted > 0.0 { BoundFromPush(interval, admitted, burst, b - a); }
  }

  /** In every interval a run admits at most burst + (b - a)/T, even when the clock jumps back. */
  lemma {:induction false} IntervalBound(c: Config, run: seq<Request>, a: real, b: real)
    requires PositiveCosts(run) && a <= b
    ensures AdmittedIn(Checker(c), run, a, b) <= Allowance(c.burst, b - a, Interval(c))
  {
    RunPushes(c, run, a, b);
    BoundOf(c, AdmittedIn(Checker(c), run, a, b), Kept(Checker(c), run), a, b);
  }

  lemma BoundOf(c: Config, admitted: real, tat: Option<real>, a: real, b: real)
    requires a <= b && Pushed(Interval(c), admitted, tat, a, b, Tau(c))
    ensures admitted <= Allowance(c.burst, b - a, Interval(c))
  {
    IncIs(c, 1.0);
    PushedBound(Interval(c), admitted, tat, a, b, Tau(c), c.burst);
  }

  lemma SpanPositive(span: real, interval: real)
    requires span >= 0.0 && interval > 0.0
    ensures span / interval >= 0.0
  {
    var q := span / interval;
    assert q * interval == span;
    assert q < 0.0 ==> q * interval < 0.0;
  }

  // ---------------------------------------------------------------- the retry hint

  lemma DeniedUntil(interval: real, tau: real, burst: real, state: Option<real>, now: real, inc: real, w: nat)
    requires interval > 0.0 && inc <= tau
    requires var out := CheckAt(interval, tau, burst, state, now, inc); !out.result.allowed && w as real < out.result.retryAfterMs
    ensures !CheckAt(interval, tau, burst, state, now + w as real, inc).result.allowed
  {
    var tat := state.GetOr(now);
    assert tat > now;
    var allowAt := tat + inc - tau;
    assert w <= Ceil(allowAt - now) - 1;
  }

  lemma AllowedAt(interval: real, tau: real, burst: real, state: Option<real>, now: real, inc: real)
    requires interval > 0.0 && inc <= tau
    requires !CheckAt(interval, tau, burst, state, now, inc).result.allowed
    ensures var hint := CheckAt(interval, tau, burst, state, now, inc).result.retryAfterMs;
      hint > 0.0 && CheckAt(interval, tau, burst, state, now + hint, inc).result.allowed
  {
  }

  lemma NeverAllowed(interval: real, tau: real, burst: real, state: Option<real>, now: real, inc: real)
    requires interval > 0.0 && inc > tau
    ensures !CheckAt(interval, tau, burst, state, now, inc).result.allowed
  {
  }

  lemma CostWithin(c: Config, cost: real)
    ensures Inc(c, cost) <= Tau(c) <==> cost <= c.burst
  {
    var interval, d := Interval(c), c.burst - cost;
    assert interval * d == interval * c.burst - interval * cost;
    assert d < 0.0 ==> interval * d < 0.0;
    assert d >= 0.0 ==> interval * d >= 0.0;
  }

  lemma HintWithin(c: Config, state: Option<real>, now: real, cost: real, hint: int)
    requires Inc(c, cost) <= Tau(c)
    requires var d := CheckGcra(c, state, now, cost).result; !d.allowed && d.retryAfterMs == hint as real
    ensures ExactHint(Checker(c), state, now, cost, hint)
  {
    forall w: nat | w < hint ensures !AdmittedAfter(Checker(c), state, now, cost, w) {
      DeniedUntil(Interval(c), Tau(c), c.burst, state, now, Inc(c, cost), w);
    }
    AllowedAt(Interval(c), Tau(c), c.burst, state, now, Inc(c, cost));
  }

  lemma HintBeyond(c: Config, state: Option<real>, now: real, cost: real, hint: int)
    requires Inc(c, cost) > Tau(c)
    ensures !ExactHint(Checker(c), state, now, cost, hint)
  {
    NeverAllowed(Interval(c), Tau(c), c.burst, state, now + hint as real, Inc(c, cost));
  }

  /** A denial's hint is exact for every cost up to the burst, and for no other. */
  lemma HintExactWhen(c: Config, state: Option<real>, now: real, cost: real, hint: int)
    requires cost > 0.0 && !CheckGcra(c, state, now, cost).result.allowed
    requires hint as real == CheckGcra(c, state, now, cost).result.retryAfterMs
    ensures ExactHint(Checker(c), state, now, cost, hint) <==> cost <= c.burst
  {
    CostWithin(c, cost);
    if Inc(c, cost) <= Tau(c) {
      HintWithin(c, state, now, cost, hint);
    } else {
      HintBeyond(c, state, now, cost, hint);
    }
  }

  lemma PeekAgrees(interval: real, tau: real, burst: real, state: Option<real>, now: real, tatEff: real)
    requires interval > 0.0 && tatEff == (if state.GetOr(now) > now then state.GetOr(now) else now)
    ensures Remaining(interval, tau, tatEff, now) >= 1.0 <==> CheckAt(interval, tau, burst, state, now, interval).result.allowed
  {
    UnitFits(interval, tau, tatEff, now);
  }

  /** peek answers exactly what a request of cost 1 would be told. */
  lemma PeekIsUnitCheck(c: Config, state: Option<real>, now: real)
    ensures PeekGcra(c, state, now).allowed == CheckGcra(c, state, now, 1.0).result.allowed
    ensures PeekGcra(c, state, now).retryAfterMs == CheckGcra(c, state, now, 1.0).result.retryAfterMs
  {
    var tat := state.GetOr(now);
    PeekAgrees(Interval(c), Tau(c), c.burst, state, now, if tat > now then tat else now);
    assert Inc(c, 1.0) == Interval(c);
  }

  lemma UnitFits(interval: real, tau: real, tatEff: real, now: real)
    requires interval > 0.0
    ensures Remaining(interval, tau, tatEff, now) >= 1.0 <==> now >= tatEff + interval - tau
  {
    WholeUnit(tau - (tatEff - now), interval);
  }

  lemma WholeUnit(x: real, interval: real)
    requires interval > 0.0
    ensures Floor(x / interval) >= 1 <==> x >= interval
  {
    var q := x / interval;
    assert q * interval == x;
    assert q >= 1.0 ==> q * interval >= interval;
    assert q < 1.0 ==> q * interval < interval;
  }

  // ---------------------------------------------------------------- the Redis script

  method ScriptRemaining(interval: real, tau: real, tat: real, now: real) returns (remaining: real)
    requires interval > 0.0
    ensures remaining == Remaining(interval, tau, tat, now)
  {
    remaining := Floor((tau - (tat - now)) / interval) as real;
    if remaining < 0.0 { remaining := 0.0; }
  }

  /**
   * GCRA_LUA on one key. It answers as the check does and writes exactly when the check persists; Redis floors the
   * numbers of a reply, which only shows in the limit of a fractional burst.
   */
  method Script(c: Config, stored: Option<real>, now: real, cost: real)
    returns (reply: Decision, stored': Option<real>, px: Option<real>)
    ensures var out := CheckGcra(c, stored, now, cost);
      && reply == out.result.(limit := Floor(c.burst) as real)
      && stored' == (if out.persist then out.state else stored)
      && px == (if out.persist then Some(out.ttlMs) else None)
  {
    var interval := Interval(c);
    var tau := Tau(c);
    var inc := Inc(c, cost);
    var tat := if stored.Some? then stored.value else now;
    if tat < now { tat := now; }
    var newTat := tat + inc;
    var allowAt := newTat - tau;
    if now < allowAt {
      var remaining := ScriptRemaining(interval, tau, tat, now);
      return Decision(false, Floor(c.burst) as real, remaining, Ceil(tat) as real, Ceil(allowAt - now) as real), stored, None;
    }
    var remaining := ScriptRemaining(interval, tau, newTat, now);
    var ms := Ceil(newTat - now) as real;
    if ms < 1.0 { ms := 1.0; }
    return Decision(true, Floor(c.burst) as real, remaining, Ceil(newTat) as real, 0.0), Some(newTat), Some(ms);
  }

  // ---------------------------------------------------------------- what a decision reports

  lemma UnitsWithin(interval: real, tau: real, tat: real, now: real, n: nat)
    requires interval > 0.0 && n >= 1
    ensures n as real <= Remaining(interval, tau, tat, now) <==> now >= tat + Paced(interval, n as real) - tau
  {
    var x := tau - (tat - now);
    var q := x / interval;
    assert q * interval == x;
    MulOrders(n as real, q, interval);
    assert n <= Floor(q) <==> n as real <= q;
  }

  lemma MulOrders(a: real, b: real, k: real)
    requires k > 0.0
    ensures a <= b <==> k * a <= b * k
  {
    var d := b - a;
    assert b * k == k * a + d * k;
    assert d < 0.0 ==> d * k < 0.0;
    assert d >= 0.0 ==> d * k >= 0.0;
  }

  /** The arrival time from which a state counts. */
  function TatAt(state: Option<real>, now: real): real { if state.GetOr(now) > now then state.GetOr(now) else now }

  lemma AllowedBy(interval: real, tau: real, burst: real, state: Option<real>, now: real, inc: real)
    requires interval > 0.0
    ensures CheckAt(interval, tau, burst, state, now, inc).result.allowed <==> now >= TatAt(state, now) + inc - tau
  {
  }

  lemma ResetAfter(interval: real, tau: real, burst: real, state: Option<real>, now: real, inc: real, next: Option<real>)
    requires interval > 0.0 && inc > 0.0
    requires var out := CheckAt(interval, tau, burst, state, now, inc); next == if out.persist then out.state else state
    ensures CheckAt(interval, tau, burst, state, now, inc).result.resetAt == Ceil(TatAt(next, now)) as real
  {
  }

  lemma AfterCheck(interval: real, tau: real, burst: real, state: Option<real>, now: real, inc: real, next: Option<real>)
    requires interval > 0.0 && inc > 0.0
    requires var out := CheckAt(interval, tau, burst, state, now, inc); next == if out.persist then out.state else state
    ensures var d := CheckAt(interval, tau, burst, state, now, inc).result;
      && d.remaining == Remaining(interval, tau, TatAt(next, now), now) && d.limit == burst && (d.allowed ==> d.retryAfterMs == 0.0)
  {
  }

  lemma UnitsFitAt(interval: real, tau: real, burst: real, state: Option<real>, now: real, n: nat, inc: real, left: real)
    requires interval > 0.0 && n >= 1 && inc == Paced(interval, n as real) && left == Remaining(interval, tau, TatAt(state, now), now)
    ensures CheckAt(interval, tau, burst, state, now, inc).result.allowed <==> n as real <= left
  {
    UnitsWithin(interval, tau, TatAt(state, now), now, n);
    AllowedBy(interval, tau, burst, state, now, inc);
  }

  lemma IncPaced(c: Config, cost: real)
    ensures Inc(c, cost) == Paced(Interval(c), cost)
  {
  }

  lemma UnitsFitWithin(c: Config, state: Option<real>, now: real, n: nat, left: real)
    requires n >= 1 && left == Remaining(Interval(c), Tau(c), TatAt(state, now), now)
    ensures UnitsFit(Checker(c), state, now, n) <==> n as real <= left
  {
    IncPaced(c, n as real);
    UnitsFitAt(Interval(c), Tau(c), c.burst, state, now, n, Inc(c, n as real), left);
  }

  lemma RemainingIs(c: Config, state: Option<real>, now: real, left: real)
    requires left == Remaining(Interval(c), Tau(c), TatAt(state, now), now)
    ensures RemainingExact(Checker(c), state, now, left)
  {
    forall n: nat | n >= 1 ensures UnitsFit(Checker(c), state, now, n) <==> n as real <= left {
      UnitsFitWithin(c, state, now, n, left);
    }
  }

  lemma BurstFillsTau(c: Config)
    ensures Inc(c, c.burst) == Tau(c)
  {
  }

  lemma ResetAt(interval: real, tau: real, burst: real, state: Option<real>, now: real, t: int)
    requires interval > 0.0 && t as real >= now
    ensures CheckAt(interval, tau, burst, state, t as real, tau).result.allowed <==> t as real >= Ceil(TatAt(state, now)) as real
  {
    AllowedBy(interval, tau, burst, state, t as real, tau);
    CeilLeast(TatAt(state, now), t);
  }

  lemma ResetIs(c: Config, state: Option<real>, now: real)
    ensures ResetExact(Checker(c), state, now, c.burst, Ceil(TatAt(state, now)) as real)
  {
    BurstFillsTau(c);
    forall t: int | t as real >= now
      ensures AdmittedAt(Checker(c), state, t, c.burst) <==> t as real >= Ceil(TatAt(state, now)) as real
    {
      ResetAt(Interval(c), Tau(c), c.burst, state, now, t);
    }
  }

  lemma CeilLeast(x: real, t: int)
    ensures t as real >= Ceil(x) as real <==> t as real >= x
  {
    assert t >= Ceil(x) <==> t as real >= x;
  }

  /**
   * What a decision reports is exact of the state it leaves: so many whole units still fit at once, and a whole burst is
   * admitted from the reset instant on and not before.
   */
  lemma ReportsExactly(c: Config, state: Option<real>, now: real, cost: real, next: Option<real>)
    requires cost > 0.0 && next == Next(Checker(c), state, Request(now, cost))
    ensures var d := CheckGcra(c, state, now, cost).result;
      && d.limit == c.burst && (d.allowed ==> d.retryAfterMs == 0.0)
      && RemainingExact(Checker(c), next, now, d.remaining) && ResetExact(Checker(c), next, now, c.burst, d.resetAt)
  {
    IncPositive(c, cost);
    ResetAfter(Interval(c), Tau(c), c.burst, state, now, Inc(c, cost), next);
    AfterCheck(Interval(c), Tau(c), c.burst, state, now, Inc(c, cost), next);
    RemainingIs(c, next, now, CheckGcra(c, state, now, cost).result.remaining);
    ResetIs(c, next, now);
  }

  lemma IncPositive(c: Config, cost: real)
    requires cost > 0.0
    ensures Inc(c, cost) > 0.0
  {
  }

  lemma PeekResets(c: Config, state: Option<real>, now: real)
    ensures PeekGcra(c, state, now).resetAt == Ceil(TatAt(state, now)) as real
  {
  }

  /** peek reports the same of the state as it stands. */
  lemma PeekReportsExactly(c: Config, state: Option<real>, now: real)
    ensures var d := PeekGcra(c, state, now);
      && d.limit == c.burst && (d.allowed <==> d.remaining >= 1.0) && (d.allowed ==> d.retryAfterMs == 0.0)
      && RemainingExact(Checker(c), state, now, d.remaining) && ResetExact(Checker(c), state, now, c.burst, d.resetAt)
  {
    PeekResets(c, state, now);
    RemainingIs(c, state, now, PeekGcra(c, state, now).remaining);
    ResetIs(c, state, now);
  }

  // ---------------------------------------------------------------- the bound in the options' own units

  /** So many units are no more than a burst and what limit per period lets through in a span of time. */
  predicate WithinRate(units: real, burst: real, span: real, limit: real, period: real) {
    units * period <= burst * period + span * limit
  }

  lemma AllowanceScaled(admitted: real, burst: real, span: real, period: real, limit: real, t: real)
    requires period > 0.0 && limit > 0.0 && t > 0.0 && t == period / limit && admitted <= Allowance(burst, span, t)
    ensures WithinRate(admitted, burst, span, limit, period)
  {
    assert t * limit == period;
    var q := span / t;
    assert q * t == span;
    assert q * period == q * t * limit;
    MulMono(admitted, burst + q, period);
    Distributes(burst, q, period);
  }

  /** In every interval a run admits at most the burst and the interval's share of limit per periodMs. */
  lemma PeriodBound(c: Config, run: seq<Request>, a: real, b: real)
    requires PositiveCosts(run) && a <= b
    ensures WithinRate(AdmittedIn(Checker(c), run, a, b), c.burst, b - a, c.limit, c.periodMs)
  {
    IntervalBound(c, run, a, b);
    AllowanceScaled(AdmittedIn(Checker(c), run, a, b), c.burst, b - a, c.periodMs, c.limit, Interval(c));
  }

  /** A written arrival time is kept to the first whole millisecond after it has passed, and for one at least. */
  lemma KeptUntilPassed(c: Config, state: Option<real>, now: real, cost: real)
    ensures var out := CheckGcra(c, state, now, cost);
      out.persist ==> out.state.Some? && now + out.ttlMs >= out.state.value && (out.ttlMs == 1.0 || now + out.ttlMs < out.state.value + 1.0)
  {
    WrittenPasses(Interval(c), Tau(c), c.burst, state, now, Inc(c, cost));
  }
}
