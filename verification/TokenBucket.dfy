/** The token bucket: what an interval admits, exact retry hints and invisible forgetting. */
module TokenBucket {
  import opened Numbers
  import opened Wrappers
  import opened Strategy
  import G = Gcra

  datatype Options = Options(capacity: real, refillPerSec: real) {
    predicate Valid() { capacity > 0.0 && refillPerSec > 0.0 }
  }

  type Config = o: Options | o.Valid() witness Options(1.0, 1.0)

  datatype Bucket = Bucket(tokens: real, last: real)

  function Rate(c: Config): (r: real)
    ensures r > 0.0
  {
    c.refillPerSec / 1000.0
  }

  /** The tokens present at an instant; a clock that jumped back refills nothing. */
  function TokensAt(rate: real, capacity: real, state: Option<Bucket>, now: real): real {
    var prev := if state.Some? then state.value.tokens else capacity;
    var last := if state.Some? then state.value.last else now;
    Min(capacity, prev + (if now > last then now - last else 0.0) * rate)
  }

  function FullRefill(rate: real, capacity: real): real
    requires rate > 0.0
  {
    Max(1.0, Ceil(capacity / rate) as real)
  }

  /** Whole milliseconds until that many tokens have dripped in. */
  function WaitFor(rate: real, missing: real): real
    requires rate > 0.0
  {
    Ceil(missing / rate) as real
  }

  function WholeTokens(tokens: real): real { Max(0.0, Floor(tokens) as real) }

  function CheckAt(rate: real, capacity: real, state: Option<Bucket>, now: real, cost: real): Outcome<Bucket, Decision>
    requires rate > 0.0
  {
    var tokens := TokensAt(rate, capacity, state, now);
    if tokens >= cost then
      var left := tokens - cost;
      Outcome(Some(Bucket(left, now)),
              Decision(true, capacity, WholeTokens(left), now + WaitFor(rate, capacity - left), 0.0),
              FullRefill(rate, capacity), true)
    else
      Outcome(state,
              Decision(false, capacity, WholeTokens(tokens), now + WaitFor(rate, capacity - tokens), WaitFor(rate, cost - tokens)),
              FullRefill(rate, capacity), false)
  }

  /** tokenBucket(...).check */
  function CheckBucket(c: Config, state: Option<Bucket>, now: real, cost: real): Outcome<Bucket, Decision> {
    CheckAt(Rate(c), c.capacity, state, now, cost)
  }

  function Checker(c: Config): Check<Bucket, Decision> {
    (state: Option<Bucket>, now: real, cost: real) => CheckBucket(c, state, now, cost)
  }

  // ---------------------------------------------------------------- forgetting

  lemma WaitCovers(rate: real, missing: real, wait: real)
    requires rate > 0.0 && wait >= missing / rate
    ensures wait * rate >= missing
  {
    var q := missing / rate;
    assert q * rate == missing;
    MulMono(q, wait, rate);
  }

  /** After a full refill time the bucket is full again, as a fresh one is. */
  lemma FullAgain(rate: real, capacity: real, b: Bucket, now: real, cost: real)
    requires rate > 0.0 && capacity > 0.0 && b.tokens >= 0.0 && now >= b.last + FullRefill(rate, capacity)
    ensures Alike(CheckAt(rate, capacity, Some(b), now, cost), CheckAt(rate, capacity, None, now, cost))
  {
    WaitCovers(rate, capacity, now - b.last);
    FreshIsFull(rate, capacity, now);
    assert TokensAt(rate, capacity, Some(b), now) == capacity;
  }

  lemma FreshIsFull(rate: real, capacity: real, now: real)
    ensures TokensAt(rate, capacity, None, now) == capacity
  {
    assert 0.0 * rate == 0.0;
  }

  lemma BucketWritesFade(c: Config, from: real)
    ensures WritesFade(Checker(c), (b: Bucket, t: real) => true, from)
  {
    forall p: Option<Bucket>, now: real, cost: real | cost > 0.0 && CheckBucket(c, p, now, cost).persist
      ensures var out := CheckBucket(c, p, now, cost); out.state.Some? && Fades(Checker(c), out.state.value, now + out.ttlMs)
    {
      var out := CheckBucket(c, p, now, cost);
      var b := out.state.value;
      forall later: real, k: real | later >= now + out.ttlMs && k > 0.0
        ensures Alike(Checker(c)(Some(b), later, k), Checker(c)(None, later, k))
      {
        FullAgain(Rate(c), c.capacity, b, later, k);
      }
    }
  }

  lemma BucketForgettingUnseen(c: Config, floor: real, run: seq<Request>, drops: seq<bool>)
    requires NonDecreasing(run) && PositiveCosts(run) && |run| == |drops|
    ensures ForgetfulAnswers(Checker(c), floor, run, drops) == Answers(Checker(c), run)
  {
    BucketWritesFade(c, First(run));
    SinceFirst(run);
    ForgettingUnseen(Checker(c), (b: Bucket, t: real) => true, First(run), floor, run, drops);
  }

  // ---------------------------------------------------------------- what an interval admits

  /** What drips in over a span of time. */
  function Refill(span: real, rate: real): real { span * rate }

  /** A full bucket, and what drips in over a span of time. */
  function Allowance(capacity: real, span: real, rate: real): real { capacity + Refill(span, rate) }

  lemma RefillAdds(x: real, y: real, z: real, rate: real)
    requires z == x + y
    ensures Refill(z, rate) == Refill(x, rate) + Refill(y, rate)
  {
    Distributes(x, y, rate);
  }

  lemma RefillNonNeg(span: real, rate: real)
    requires span >= 0.0 && rate > 0.0
    ensures Refill(span, rate) >= 0.0
  {
  }

  lemma TokensAtMost(rate: real, capacity: real, b: Bucket, now: real)
    requires b.last <= now
    ensures TokensAt(rate, capacity, Some(b), now) <= capacity
    ensures TokensAt(rate, capacity, Some(b), now) <= b.tokens + Refill(now - b.last, rate)
  {
    assert b.last == now ==> Refill(now - b.last, rate) == 0.0;
  }

  /** What was admitted in [a, b] up to now and what the bucket still holds are covered by its allowance. */
  ghost predicate Covered(admitted: real, state: Option<Bucket>, a: real, b: real, now: real, rate: real, capacity: real) {
    && 0.0 <= admitted <= Allowance(capacity, b - a, rate)
    && (state.Some? ==> state.value.last <= now && state.value.tokens >= 0.0)
    && (admitted > 0.0 ==> state.Some? && a <= state.value.last)
    && (admitted > 0.0 && state.value.last <= b ==>
        admitted + state.value.tokens <= Allowance(capacity, state.value.last - a, rate))
  }

  lemma NothingCovered(a: real, b: real, now: real, rate: real, capacity: real)
    requires a <= b && rate > 0.0 && capacity > 0.0
    ensures Covered(0.0, None, a, b, now, rate, capacity)
  {
    RefillNonNeg(b - a, rate);
  }

  /** An admission inside the interval is paid by what the bucket held or what has dripped in since. */
  lemma AdmissionCovered(admitted: real, state: Option<Bucket>, a: real, b: real, now: real, rate: real, capacity: real, cost: real)
    requires Covered(admitted, state, a, b, now, rate, capacity) && rate > 0.0 && a <= now <= b
    requires cost > 0.0 && TokensAt(rate, capacity, state, now) >= cost
    ensures Covered(admitted + cost, Some(Bucket(TokensAt(rate, capacity, state, now) - cost, now)), a, b, now, rate, capacity)
  {
    var tokens := TokensAt(rate, capacity, state, now);
    RefillNonNeg(now - a, rate);
    RefillNonNeg(b - now, rate);
    RefillAdds(now - a, b - now, b - a, rate);
    if admitted > 0.0 {
      var was := state.value;
      TokensAtMost(rate, capacity, was, now);
      RefillAdds(was.last - a, now - was.last, now - a, rate);
    }
  }

  lemma StepCovered(c: Config, admitted: real, state: Option<Bucket>, a: real, b: real, now: real, cost: real)
    requires Covered(admitted, state, a, b, now, Rate(c), c.capacity) && cost > 0.0
    ensures var out := CheckBucket(c, state, now, cost);
      Covered(admitted + (if a <= now <= b && out.result.allowed then cost else 0.0),
              if out.persist then out.state else state, a, b, now, Rate(c), c.capacity)
  {
    if a <= now <= b && TokensAt(Rate(c), c.capacity, state, now) >= cost {
      AdmissionCovered(admitted, state, a, b, now, Rate(c), c.capacity, cost);
    }
  }

  lemma CoveredLater(admitted: real, state: Option<Bucket>, a: real, b: real, now: real, later: real, rate: real, capacity: real)
    requires Covered(admitted, state, a, b, now, rate, capacity) && now <= later
    ensures Covered(admitted, state, a, b, later, rate, capacity)
  {
  }

  lemma {:induction false} RunCovered(c: Config, run: seq<Request>, a: real, b: real, t: real)
    requires NonDecreasing(run) && PositiveCosts(run) && a <= b && (run != [] ==> run[|run| - 1].at <= t)
    ensures Covered(AdmittedIn(Checker(c), run, a, b), Kept(Checker(c), run), a, b, t, Rate(c), c.capacity)
  {
    if run == [] {
      NothingCovered(a, b, t, Rate(c), c.capacity);
    } else {
      var before, r := run[..|run| - 1], run[|run| - 1];
      RunCovered(c, before, a, b, r.at);
      AdmittedStep(Checker(c), run, a, b, r);
      StepCovered(c, AdmittedIn(Checker(c), before, a, b), Kept(Checker(c), before), a, b, r.at, r.cost);
      CoveredLater(AdmittedIn(Checker(c), run, a, b), Kept(Checker(c), run), a, b, r.at, t, Rate(c), c.capacity);
    }
  }

  /** In every interval a run with non-decreasing time admits at most capacity + rate * (b - a). */
  lemma IntervalBound(c: Config, run: seq<Request>, a: real, b: real)
    requires NonDecreasing(run) && PositiveCosts(run) && a <= b
    ensures AdmittedIn(Checker(c), run, a, b) <= Allowance(c.capacity, b - a, Rate(c))
  {
    RunCovered(c, run, a, b, if run == [] then 0.0 else run[|run| - 1].at);
  }

  // ---------------------------------------------------------------- the retry hint

  lemma TokensGrow(rate: real, capacity: real, state: Option<Bucket>, now: real, wait: real)
    requires rate > 0.0 && wait >= 0.0 && TokensAt(rate, capacity, state, now) < capacity
    requires state.Some? ==> state.value.last <= now
    ensures TokensAt(rate, capacity, state, now + wait) == Min(capacity, TokensAt(rate, capacity, state, now) + wait * rate)
  {
    FreshIsFull(rate, capacity, now);
    var b := state.value;
    assert TokensAt(rate, capacity, state, now) == b.tokens + (now - b.last) * rate;
    assert TokensAt(rate, capacity, state, now + wait) == Min(capacity, b.tokens + (now + wait - b.last) * rate);
    Distributes(now - b.last, wait, rate);
  }

  lemma WaitIsLeast(rate: real, missing: real, w: int)
    requires rate > 0.0
    ensures w as real * rate >= missing <==> w as real >= WaitFor(rate, missing)
  {
    var q := missing / rate;
    assert q * rate == missing;
    assert w as real >= q ==> w as real * rate >= q * rate;
    assert (w as real) < q ==> w as real * rate < q * rate;
    assert w >= Ceil(q) <==> w as real >= q;
  }

  /** A denied bucket, asked again after a wait with its state untouched, admits exactly from the hint on. */
  lemma AdmitsFromHint(rate: real, capacity: real, state: Option<Bucket>, now: real, cost: real, w: nat)
    requires rate > 0.0 && cost <= capacity && (state.Some? ==> state.value.last <= now)
    requires !CheckAt(rate, capacity, state, now, cost).result.allowed
    ensures CheckAt(rate, capacity, state, now + w as real, cost).result.allowed
      <==> w as real >= CheckAt(rate, capacity, state, now, cost).result.retryAfterMs
  {
    TokensGrow(rate, capacity, state, now, w as real);
    WaitIsLeast(rate, cost - TokensAt(rate, capacity, state, now), w);
  }

  lemma HintPositive(rate: real, missing: real)
    requires rate > 0.0 && missing > 0.0
    ensures WaitFor(rate, missing) >= 1.0
  {
    G.QuotientPositive(missing, rate);
  }

  lemma OverCapacity(rate: real, capacity: real, state: Option<Bucket>, now: real, cost: real)
    requires rate > 0.0 && cost > capacity
    ensures !CheckAt(rate, capacity, state, now, cost).result.allowed
  {
  }

  /** While the clock has not jumped back, the hint is exact for every cost the bucket can hold, and for no other. */
  lemma HintExactWhen(c: Config, state: Option<Bucket>, now: real, cost: real, hint: int)
    requires cost > 0.0 && (state.Some? ==> state.value.last <= now)
    requires !CheckBucket(c, state, now, cost).result.allowed
    requires hint as real == CheckBucket(c, state, now, cost).result.retryAfterMs
    ensures ExactHint(Checker(c), state, now, cost, hint) <==> cost <= c.capacity
  {
    if cost <= c.capacity {
      HintPositive(Rate(c), cost - TokensAt(Rate(c), c.capacity, state, now));
      forall w: nat ensures AdmittedAfter(Checker(c), state, now, cost, w) <==> w >= hint {
        AdmitsFromHint(Rate(c), c.capacity, state, now, cost, w);
      }
    } else {
      OverCapacity(Rate(c), c.capacity, state, now + hint as real, cost);
      assert !AdmittedAfter(Checker(c), state, now, cost, hint);
    }
  }

  // ---------------------------------------------------------------- what a decision reports

  /** The tokens a check leaves, at its own instant. */
  lemma TokensLeft(rate: real, capacity: real, state: Option<Bucket>, now: real, cost: real, next: Option<Bucket>)
    requires rate > 0.0 && cost > 0.0 && (state.Some? ==> state.value.last <= now)
    requires var out := CheckAt(rate, capacity, state, now, cost); next == if out.persist then out.state else state
    ensures next.Some? ==> next.value.last <= now
    ensures var d, tokens := CheckAt(rate, capacity, state, now, cost).result, TokensAt(rate, capacity, next, now);
      && d.limit == capacity && d.remaining == WholeTokens(tokens) && d.resetAt == now + WaitFor(rate, capacity - tokens)
      && (d.allowed ==> d.retryAfterMs == 0.0)
  {
    assert 0.0 * rate == 0.0;
  }

  lemma WholeFit(tokens: real, n: nat)
    requires n >= 1
    ensures n as real <= WholeTokens(tokens) <==> n as real <= tokens
  {
    assert n <= Floor(tokens) <==> n as real <= tokens;
  }

  /** Full again, and so good for a request of the whole capacity, exactly from the wait for the missing tokens on. */
  lemma FullFrom(rate: real, capacity: real, state: Option<Bucket>, now: real, w: nat)
    requires rate > 0.0 && (state.Some? ==> state.value.last <= now)
    ensures CheckAt(rate, capacity, state, now + w as real, capacity).result.allowed
      <==> w as real >= WaitFor(rate, capacity - TokensAt(rate, capacity, state, now))
  {
    var tokens := TokensAt(rate, capacity, state, now);
    WaitIsLeast(rate, capacity - tokens, w);
    if tokens < capacity {
      TokensGrow(rate, capacity, state, now, w as real);
    } else {
      NoWait(rate);
      StaysFull(rate, capacity, state, now, now + w as real);
    }
  }

  lemma NoWait(rate: real)
    requires rate > 0.0
    ensures WaitFor(rate, 0.0) == 0.0
  {
  }

  lemma StaysFull(rate: real, capacity: real, state: Option<Bucket>, now: real, later: real)
    requires rate > 0.0 && now <= later && (state.Some? ==> state.value.last <= now) && TokensAt(rate, capacity, state, now) == capacity
    ensures TokensAt(rate, capacity, state, later) == capacity
  {
    if state.Some? {
      MulMono(now - state.value.last, later - state.value.last, rate);
      assert 0.0 * rate == 0.0;
    } else {
      FreshIsFull(rate, capacity, later);
    }
  }

  /**
   * What a decision reports is exact of the state it leaves, while the clock has not jumped back: so many whole tokens are
   * there, and the bucket is full again from the reset instant on, and a whole number of milliseconds earlier it is not.
   */
  lemma ReportsExactly(c: Config, state: Option<Bucket>, now: real, cost: real, next: Option<Bucket>, w: nat)
    requires cost > 0.0 && (state.Some? ==> state.value.last <= now) && next == Next(Checker(c), state, Request(now, cost))
    ensures var d := CheckBucket(c, state, now, cost).result;
      && d.limit == c.capacity && (d.allowed ==> d.retryAfterMs == 0.0)
      && RemainingExact(Checker(c), next, now, d.remaining)
      && (AdmittedAfter(Checker(c), next, now, c.capacity, w) <==> now + w as real >= d.resetAt)
  {
    TokensLeft(Rate(c), c.capacity, state, now, cost, next);
    var tokens := TokensAt(Rate(c), c.capacity, next, now);
    forall n: nat | n >= 1 ensures UnitsFit(Checker(c), next, now, n) <==> n as real <= WholeTokens(tokens) { WholeFit(tokens, n); }
    FullFrom(Rate(c), c.capacity, next, now, w);
  }

  // ---------------------------------------------------------------- the bound in the options' own units

  lemma RefillScaled(units: real, capacity: real, span: real, perSec: real, rate: real)
    requires rate == perSec / 1000.0 && units <= Allowance(capacity, span, rate)
    ensures G.WithinRate(units, capacity, span, perSec, 1000.0)
  {
    assert span * rate * 1000.0 == span * perSec;
  }

  /** In every interval a run with non-decreasing time admits at most the capacity and refillPerSec for each second. */
  lemma PerSecondBound(c: Config, run: seq<Request>, a: real, b: real)
    requires NonDecreasing(run) && PositiveCosts(run) && a <= b
    ensures G.WithinRate(AdmittedIn(Checker(c), run, a, b), c.capacity, b - a, c.refillPerSec, 1000.0)
  {
    IntervalBound(c, run, a, b);
    RefillScaled(AdmittedIn(Checker(c), run, a, b), c.capacity, b - a, c.refillPerSec, Rate(c));
  }

  /** So many milliseconds fill an empty bucket. */
  predicate Fills(ms: real, perSec: real, capacity: real) { ms * perSec >= capacity * 1000.0 }

  lemma FillsFrom(ms: real, perSec: real, capacity: real, q: real)
    requires perSec > 0.0 && q * perSec == capacity * 1000.0
    ensures Fills(ms, perSec, capacity) <==> ms >= q
  {
    G.MulOrders(q, ms, perSec);
  }

  lemma FillTime(rate: real, capacity: real, perSec: real, q: real)
    requires rate > 0.0 && rate * 1000.0 == perSec && q == capacity / rate
    ensures q * perSec == capacity * 1000.0
  {
    assert q * rate == capacity;
  }

  /** A bucket is kept for the whole milliseconds an empty one takes to fill, and for one at least. */
  lemma KeptUntilFull(c: Config, state: Option<Bucket>, now: real, cost: real, ttl: real)
    requires ttl == CheckBucket(c, state, now, cost).ttlMs
    ensures Fills(ttl, c.refillPerSec, c.capacity) && (ttl == 1.0 || !Fills(ttl - 1.0, c.refillPerSec, c.capacity))
  {
    var q := c.capacity / Rate(c);
    FillTime(Rate(c), c.capacity, c.refillPerSec, q);
    FillsFrom(ttl, c.refillPerSec, c.capacity, q);
    FillsFrom(ttl - 1.0, c.refillPerSec, c.capacity, q);
  }

  /** What drips into a bucket while the clock moves on: refillPerSec for each second, and nothing while it stands or jumps back. */
  lemma RefillsExactly(c: Config, b: Bucket, now: real, gained: real)
    requires gained * 1000.0 == (if now > b.last then now - b.last else 0.0) * c.refillPerSec
    ensures TokensAt(Rate(c), c.capacity, Some(b), now) == Min(c.capacity, b.tokens + gained)
  {
    GainIs(if now > b.last then now - b.last else 0.0, c.refillPerSec, Rate(c), gained);
  }

  lemma GainIs(elapsed: real, perSec: real, rate: real, gained: real)
    requires rate == perSec / 1000.0 && gained * 1000.0 == elapsed * perSec
    ensures elapsed * rate == gained
  {
    assert elapsed * rate * 1000.0 == elapsed * perSec;
  }
}
