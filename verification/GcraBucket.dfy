/** GCRA and the token bucket of the same rate answer alike on every run: virtual scheduling is continuous-state leaky bucket. */
module GcraBucket {
  import opened Numbers
  import opened Wrappers
  import opened Strategy
  import G = Gcra
  import B = TokenBucket

  /** Capacity is the burst and one token drips in per emission interval. */
  ghost predicate Paired(g: G.Config, b: B.Config) {
    b.capacity == g.burst && Reciprocal(G.Interval(g), B.Rate(b))
  }

  ghost predicate Reciprocal(interval: real, rate: real) { interval > 0.0 && rate > 0.0 && interval * rate == 1.0 }

  /** The arrival time is the bucket's instant plus the time its missing tokens take. */
  ghost predicate Debt(interval: real, capacity: real, tat: real, b: B.Bucket) {
    b.tokens <= capacity && tat - b.last == (capacity - b.tokens) * interval
  }

  ghost predicate Coupled(interval: real, capacity: real, tat: Option<real>, b: Option<B.Bucket>, t: real) {
    && tat.Some? == b.Some?
    && (b.Some? ==> b.value.last <= t && Debt(interval, capacity, tat.value, b.value))
  }

  function Effective(tat: Option<real>, now: real): real {
    if tat.GetOr(now) > now then tat.GetOr(now) else now
  }

  lemma Drip(elapsed: real, rate: real, interval: real, missing: real)
    requires Reciprocal(interval, rate) && elapsed >= 0.0
    ensures (missing - elapsed * rate) * interval == missing * interval - elapsed
    ensures elapsed * rate >= missing <==> elapsed >= missing * interval
  {
    var d := elapsed * rate - missing;
    assert elapsed * rate * interval == elapsed;
    assert d * interval == elapsed - missing * interval;
    assert d >= 0.0 ==> d * interval >= 0.0;
    assert d < 0.0 ==> d * interval < 0.0;
  }

  /** At every instant, the arrival time is as far ahead as the tokens then missing take. */
  lemma DebtNow(interval: real, rate: real, capacity: real, tat: Option<real>, b: Option<B.Bucket>, now: real)
    requires Reciprocal(interval, rate) && Coupled(interval, capacity, tat, b, now)
    ensures var tokens := B.TokensAt(rate, capacity, b, now);
      tokens <= capacity && Effective(tat, now) - now == (capacity - tokens) * interval
  {
    if b.None? {
      B.FreshIsFull(rate, capacity, now);
      assert 0.0 * interval == 0.0;
    } else {
      DebtOf(interval, rate, capacity, tat.value, b.value, now);
    }
  }

  lemma DebtOf(interval: real, rate: real, capacity: real, tat: real, b: B.Bucket, now: real)
    requires Reciprocal(interval, rate) && b.last <= now && Debt(interval, capacity, tat, b)
    ensures var tokens := B.TokensAt(rate, capacity, Some(b), now);
      tokens <= capacity && Effective(Some(tat), now) - now == (capacity - tokens) * interval
  {
    var elapsed, missing := now - b.last, capacity - b.tokens;
    Drip(elapsed, rate, interval, missing);
    var tokens := B.TokensAt(rate, capacity, Some(b), now);
    var x := elapsed * rate;
    assert tokens == Min(capacity, b.tokens + x) by { assert 0.0 * rate == 0.0; }
    if x >= missing { assert 0.0 * interval == 0.0; } else { assert capacity - tokens == missing - x; }
  }

  /** The tolerance left after a request, and the sign that decides it. */
  lemma Affords(interval: real, capacity: real, tokens: real, cost: real, tau: real, inc: real, debt: real, short: real)
    requires interval > 0.0 && tau == interval * capacity && inc == interval * cost
    requires debt == (capacity - tokens) * interval && short == (cost - tokens) * interval
    ensures debt + inc - tau == short && (short > 0.0 <==> tokens < cost)
  {
    var d := cost - tokens;
    assert d > 0.0 ==> d * interval > 0.0;
    assert d <= 0.0 ==> d * interval <= 0.0;
  }

  lemma SameFloor(interval: real, capacity: real, tau: real, tokens: real, now: real, tat: real)
    requires interval > 0.0 && tau == interval * capacity && tat - now == (capacity - tokens) * interval
    ensures G.Remaining(interval, tau, tat, now) == B.WholeTokens(tokens)
  {
    var x := tau - (tat - now);
    assert x == tokens * interval;
    Undo(tokens, interval);
  }

  lemma Undo(x: real, interval: real)
    requires interval > 0.0
    ensures x * interval / interval == x
  {
  }

  lemma SameWait(interval: real, rate: real, missing: real, ms: real)
    requires Reciprocal(interval, rate) && ms == missing * interval
    ensures B.WaitFor(rate, missing) == Ceil(ms) as real
  {
    var q, u := missing / rate, interval * rate;
    assert q * rate == missing;
    assert q * u == q * rate * interval;
    assert q == ms;
  }

  /** Everything but the reset instant agrees, and that too at whole instants. */
  ghost predicate Agree(d: Decision, e: Decision, now: real) {
    && d.allowed == e.allowed && d.limit == e.limit && d.remaining == e.remaining && d.retryAfterMs == e.retryAfterMs
    && (now == Floor(now) as real ==> d.resetAt == e.resetAt)
  }

  lemma CeilShift(now: real, x: real)
    requires now == Floor(now) as real
    ensures Ceil(now + x) as real == now + Ceil(x) as real
  {
    var n, k := Floor(now), Ceil(x);
    assert Ceil(now + x) == n + k;
  }

  lemma ResetAgrees(interval: real, rate: real, missing: real, tat: real, now: real)
    requires Reciprocal(interval, rate) && tat - now == missing * interval
    ensures now == Floor(now) as real ==> Ceil(tat) as real == now + B.WaitFor(rate, missing)
  {
    SameWait(interval, rate, missing, tat - now);
    if now == Floor(now) as real { CeilShift(now, tat - now); }
  }

  ghost predicate StepAgrees(interval: real, capacity: real, g: Outcome<real, Decision>, b: Outcome<B.Bucket, Decision>, now: real) {
    && Agree(g.result, b.result, now) && g.persist == b.persist
    && (g.persist ==> Coupled(interval, capacity, g.state, b.state, now))
  }

  lemma GcraDenies(interval: real, tau: real, burst: real, inc: real, tat: Option<real>, now: real, short: real)
    requires interval > 0.0 && short == Effective(tat, now) + inc - tau - now && short > 0.0
    ensures var out := G.CheckAt(interval, tau, burst, tat, now, inc);
      !out.persist && out.result == Decision(false, burst, G.Remaining(interval, tau, Effective(tat, now), now),
                                             Ceil(Effective(tat, now)) as real, Ceil(short) as real)
  {
  }

  lemma GcraAllows(interval: real, tau: real, burst: real, inc: real, tat: Option<real>, now: real, newTat: real)
    requires interval > 0.0 && newTat == Effective(tat, now) + inc && newTat - tau <= now
    ensures var out := G.CheckAt(interval, tau, burst, tat, now, inc);
      && out.persist && out.state == Some(newTat)
      && out.result == Decision(true, burst, G.Remaining(interval, tau, newTat, now), Ceil(newTat) as real, 0.0)
  {
  }

  /** Two denials agree once their numbers do. */
  lemma DeniedAlike(interval: real, rate: real, capacity: real, tau: real, inc: real, tat: Option<real>, b: Option<B.Bucket>,
                    now: real, cost: real, tokens: real, short: real)
    requires interval > 0.0 && rate > 0.0 && tokens == B.TokensAt(rate, capacity, b, now) && tokens < cost
    requires short == Effective(tat, now) + inc - tau - now && short > 0.0
    requires G.Remaining(interval, tau, Effective(tat, now), now) == B.WholeTokens(tokens)
    requires B.WaitFor(rate, cost - tokens) == Ceil(short) as real
    requires now == Floor(now) as real ==> Ceil(Effective(tat, now)) as real == now + B.WaitFor(rate, capacity - tokens)
    ensures StepAgrees(interval, capacity, G.CheckAt(interval, tau, capacity, tat, now, inc), B.CheckAt(rate, capacity, b, now, cost), now)
  {
    GcraDenies(interval, tau, capacity, inc, tat, now, short);
  }

  /** Two admissions agree, and leave coupled states, once their numbers do. */
  lemma AllowedAlike(interval: real, rate: real, capacity: real, tau: real, inc: real, tat: Option<real>, b: Option<B.Bucket>,
                     now: real, cost: real, tokens: real, newTat: real)
    requires interval > 0.0 && rate > 0.0 && tokens == B.TokensAt(rate, capacity, b, now) && tokens >= cost
    requires newTat == Effective(tat, now) + inc && newTat - tau <= now
    requires G.Remaining(interval, tau, newTat, now) == B.WholeTokens(tokens - cost)
    requires now == Floor(now) as real ==> Ceil(newTat) as real == now + B.WaitFor(rate, capacity - (tokens - cost))
    requires Debt(interval, capacity, newTat, B.Bucket(tokens - cost, now))
    ensures StepAgrees(interval, capacity, G.CheckAt(interval, tau, capacity, tat, now, inc), B.CheckAt(rate, capacity, b, now, cost), now)
  {
    GcraAllows(interval, tau, capacity, inc, tat, now, newTat);
  }

  lemma DeniedNumbers(interval: real, rate: real, capacity: real, tau: real, inc: real, now: real, cost: real, tokens: real, tat: real, short: real)
    requires Reciprocal(interval, rate) && tau == interval * capacity && inc == interval * cost && tokens < cost
    requires tat - now == (capacity - tokens) * interval && short == tat + inc - tau - now
    ensures short > 0.0 && B.WaitFor(rate, cost - tokens) == Ceil(short) as real
  {
    Affords(interval, capacity, tokens, cost, tau, inc, tat - now, (cost - tokens) * interval);
    SameWait(interval, rate, cost - tokens, short);
  }

  lemma AllowedNumbers(interval: real, capacity: real, tau: real, inc: real, now: real, cost: real, tokens: real, tat: real)
    requires interval > 0.0 && tau == interval * capacity && inc == interval * cost && tokens >= cost > 0.0 && tokens <= capacity
    requires tat - now == (capacity - tokens) * interval
    ensures tat + inc - tau <= now && tat + inc - now == (capacity - (tokens - cost)) * interval
    ensures Debt(interval, capacity, tat + inc, B.Bucket(tokens - cost, now))
  {
    Affords(interval, capacity, tokens, cost, tau, inc, tat - now, (cost - tokens) * interval);
  }

  lemma DeniedCase(interval: real, rate: real, capacity: real, tau: real, inc: real, tat: Option<real>, b: Option<B.Bucket>,
                   now: real, cost: real, tokens: real, eff: real, short: real)
    requires Reciprocal(interval, rate) && tau == interval * capacity && inc == interval * cost
    requires tokens == B.TokensAt(rate, capacity, b, now) && tokens < cost && eff == Effective(tat, now)
    requires eff - now == (capacity - tokens) * interval && short == eff + inc - tau - now
    ensures StepAgrees(interval, capacity, G.CheckAt(interval, tau, capacity, tat, now, inc), B.CheckAt(rate, capacity, b, now, cost), now)
  {
    DeniedNumbers(interval, rate, capacity, tau, inc, now, cost, tokens, eff, short);
    SameFloor(interval, capacity, tau, tokens, now, eff);
    ResetAgrees(interval, rate, capacity - tokens, eff, now);
    DeniedAlike(interval, rate, capacity, tau, inc, tat, b, now, cost, tokens, short);
  }

  lemma AllowedCase(interval: real, rate: real, capacity: real, tau: real, inc: real, tat: Option<real>, b: Option<B.Bucket>,
                    now: real, cost: real, tokens: real, eff: real, newTat: real, left: real)
    requires Reciprocal(interval, rate) && tau == interval * capacity && inc == interval * cost
    requires tokens == B.TokensAt(rate, capacity, b, now) && tokens >= cost > 0.0 && tokens <= capacity && eff == Effective(tat, now)
    requires eff - now == (capacity - tokens) * interval && newTat == eff + inc && left == tokens - cost
    ensures StepAgrees(interval, capacity, G.CheckAt(interval, tau, capacity, tat, now, inc), B.CheckAt(rate, capacity, b, now, cost), now)
  {
    AllowedNumbers(interval, capacity, tau, inc, now, cost, tokens, eff);
    SameFloor(interval, capacity, tau, left, now, newTat);
    ResetAgrees(interval, rate, capacity - left, newTat, now);
    AllowedAlike(interval, rate, capacity, tau, inc, tat, b, now, cost, tokens, newTat);
  }

  lemma ChecksAgree(interval: real, rate: real, capacity: real, tau: real, inc: real, tat: Option<real>, b: Option<B.Bucket>,
                    now: real, cost: real)
    requires Reciprocal(interval, rate) && tau == interval * capacity && inc == interval * cost
    requires Coupled(interval, capacity, tat, b, now) && cost > 0.0
    ensures StepAgrees(interval, capacity, G.CheckAt(interval, tau, capacity, tat, now, inc), B.CheckAt(rate, capacity, b, now, cost), now)
  {
    DebtNow(interval, rate, capacity, tat, b, now);
    var tokens, eff := B.TokensAt(rate, capacity, b, now), Effective(tat, now);
    if tokens < cost {
      DeniedCase(interval, rate, capacity, tau, inc, tat, b, now, cost, tokens, eff, eff + inc - tau - now);
    } else {
      AllowedCase(interval, rate, capacity, tau, inc, tat, b, now, cost, tokens, eff, eff + inc, tokens - cost);
    }
  }

  lemma OneStep(g: G.Config, b: B.Config, tat: Option<real>, s: Option<B.Bucket>, r: Request)
    requires Paired(g, b) && r.cost > 0.0 && Coupled(G.Interval(g), g.burst, tat, s, r.at)
    ensures StepAgrees(G.Interval(g), g.burst, G.CheckGcra(g, tat, r.at, r.cost), B.CheckBucket(b, s, r.at, r.cost), r.at)
  {
    G.IncIs(g, r.cost);
    ChecksAgree(G.Interval(g), B.Rate(b), g.burst, G.Tau(g), G.Inc(g, r.cost), tat, s, r.at, r.cost);
  }

  /** On every run with non-decreasing time the two states stay coupled. */
  lemma {:induction false} StaysCoupled(g: G.Config, b: B.Config, run: seq<Request>, t: real)
    requires Paired(g, b) && NonDecreasing(run) && PositiveCosts(run) && (run != [] ==> run[|run| - 1].at <= t)
    ensures Coupled(G.Interval(g), g.burst, Kept(G.Checker(g), run), Kept(B.Checker(b), run), t)
  {
    if run != [] {
      var before, r := run[..|run| - 1], run[|run| - 1];
      StaysCoupled(g, b, before, r.at);
      OneStep(g, b, Kept(G.Checker(g), before), Kept(B.Checker(b), before), r);
    }
  }

  /** GCRA and the paired token bucket give the same answers on every run with non-decreasing time. */
  lemma {:induction false} SameAnswers(g: G.Config, b: B.Config, run: seq<Request>)
    requires Paired(g, b) && NonDecreasing(run) && PositiveCosts(run)
    ensures |Answers(G.Checker(g), run)| == |Answers(B.Checker(b), run)| == |run|
    ensures forall i :: 0 <= i < |run| ==> Agree(Answers(G.Checker(g), run)[i], Answers(B.Checker(b), run)[i], run[i].at)
  {
    if run != [] {
      var before, r := run[..|run| - 1], run[|run| - 1];
      SameAnswers(g, b, before);
      StaysCoupled(g, b, before, r.at);
      OneStep(g, b, Kept(G.Checker(g), before), Kept(B.Checker(b), before), r);
    }
  }

  /** The GCRA paired with a bucket that holds a token. */
  lemma PairFor(b: B.Config) returns (g: G.Config)
    requires b.capacity >= 1.0
    ensures Paired(g, b)
  {
    g := G.Options(b.refillPerSec, 1000.0, b.capacity);
    PairedUnits(b.refillPerSec);
  }

  lemma PairedUnits(perSec: real)
    requires perSec > 0.0
    ensures 1000.0 / perSec * (perSec / 1000.0) == 1.0
  {
    var q, r := 1000.0 / perSec, perSec / 1000.0;
    assert q * perSec == 1000.0;
    assert q * (r * 1000.0) == 1000.0;
  }

  /** Two limiters answer alike on a run, request by request. */
  ghost predicate AnswerAlike(g: G.Config, b: B.Config, run: seq<Request>) {
    && |Answers(G.Checker(g), run)| == |Answers(B.Checker(b), run)| == |run|
    && forall i :: 0 <= i < |run| ==> Agree(Answers(G.Checker(g), run)[i], Answers(B.Checker(b), run)[i], run[i].at)
  }

  ghost predicate AlwaysAlike(g: G.Config, b: B.Config) {
    forall run: seq<Request> :: NonDecreasing(run) && PositiveCosts(run) ==> AnswerAlike(g, b, run)
  }

  /** So every bucket that holds a token is some GCRA: one configuration that answers as it does on every run. */
  lemma EveryBucketIsGcra(b: B.Config)
    requires b.capacity >= 1.0
    ensures exists g: G.Config :: AlwaysAlike(g, b)
  {
    var g := PairFor(b);
    forall run: seq<Request> | NonDecreasing(run) && PositiveCosts(run) ensures AnswerAlike(g, b, run) {
      SameAnswers(g, b, run);
    }
    assert AlwaysAlike(g, b);
  }
}
