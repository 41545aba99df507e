/** The fused GCRA and token-bucket script: two independent checks in one call, combined, over keys that may expire. */
module Fused {
  import opened Numbers
  import opened Wrappers
  import opened Strategy
  import G = Gcra
  import B = TokenBucket

  /** AND on admission, the scarcer limit and remainder, the later reset and the longer wait. */
  function Combine(a: Decision, b: Decision): Decision {
    Decision(a.allowed && b.allowed, Min(a.limit, b.limit), Min(a.remaining, b.remaining), Max(a.resetAt, b.resetAt),
             Max(a.retryAfterMs, b.retryAfterMs))
  }

  /** One of two numbers, and no larger than either. */
  predicate IsSmaller(x: real, a: real, b: real) { x <= a && x <= b && (x == a || x == b) }

  predicate IsLarger(x: real, a: real, b: real) { x >= a && x >= b && (x == a || x == b) }

  /** Two axes as one: both must allow, the scarcer numbers show, and the longer waits. */
  predicate Joins(d: Decision, a: Decision, b: Decision) {
    && (d.allowed <==> a.allowed && b.allowed)
    && IsSmaller(d.limit, a.limit, b.limit) && IsSmaller(d.remaining, a.remaining, b.remaining)
    && IsLarger(d.resetAt, a.resetAt, b.resetAt) && IsLarger(d.retryAfterMs, a.retryAfterMs, b.retryAfterMs)
  }

  /** The decision an unused axis stands for. */
  const ALLOW_FULL := Decision(true, 9_007_199_254_740_991.0, 9_007_199_254_740_991.0, 0.0, 0.0)

  /** A decision within the ranges of the library. */
  predicate Ordinary(d: Decision) {
    d.limit <= 9_007_199_254_740_991.0 && d.remaining <= 9_007_199_254_740_991.0 && d.resetAt >= 0.0 && d.retryAfterMs >= 0.0
  }

  /** The four documented laws; an unused axis is the identity exactly for ordinary decisions. */
  lemma CombineLaws(a: Decision, b: Decision, c: Decision)
    ensures Combine(a, ALLOW_FULL) == a <==> Ordinary(a)
    ensures Combine(Combine(a, b), c) == Combine(a, Combine(b, c)) && Combine(a, b) == Combine(b, a) && Combine(a, a) == a
  {
  }

  /** The numbers the script returns: the combined decision and the two axes. */
  datatype Reply = Reply(combined: Decision, rate: Decision, cost: Decision)

  datatype Call = Call(at: real, rateCost: real, costCost: real)

  /** The rate axis: GCRA on the first key. */
  method RateAxis(c: G.Config, floor: real, key: Option<Entry<real>>, now: real, cost: real)
    returns (decision: Decision, key': Option<Entry<real>>)
    ensures var out := G.CheckGcra(c, StateOf(key), now, cost);
      decision == out.result && key' == Written(out, now, floor, key)
  {
    var interval, tau, inc := G.Interval(c), G.Tau(c), G.Inc(c, cost);
    var tat := if key.Some? then key.value.state else now;
    if tat < now { tat := now; }
    var newTat := tat + inc;
    var allowAt := newTat - tau;
    if now < allowAt {
      var remaining := G.ScriptRemaining(interval, tau, tat, now);
      return Decision(false, c.burst, remaining, Ceil(tat) as real, Ceil(allowAt - now) as real), key;
    }
    var remaining := G.ScriptRemaining(interval, tau, newTat, now);
    var px := Ceil(newTat - now) as real;
    if px < 1.0 { px := 1.0; }
    if px < floor { px := floor; }
    return Decision(true, c.burst, remaining, Ceil(newTat) as real, 0.0), Some(Entry(newTat, now, px));
  }

  method ScriptTokens(c: B.Config, key: Option<Entry<B.Bucket>>, now: real) returns (tokens: real)
    ensures tokens == B.TokensAt(B.Rate(c), c.capacity, StateOf(key), now)
  {
    tokens := if key.Some? then key.value.state.tokens else c.capacity;
    var last := if key.Some? then key.value.state.last else now;
    var elapsed := now - last;
    if elapsed < 0.0 { elapsed := 0.0; }
    tokens := tokens + elapsed * B.Rate(c);
    if tokens > c.capacity { tokens := c.capacity; }
  }

  method ScriptWhole(tokens: real) returns (remaining: real)
    ensures remaining == B.WholeTokens(tokens)
  {
    remaining := Floor(tokens) as real;
    if remaining < 0.0 { remaining := 0.0; }
  }

  /** The cost axis: a token bucket on the second key. */
  method CostAxis(c: B.Config, floor: real, key: Option<Entry<B.Bucket>>, now: real, cost: real)
    returns (decision: Decision, key': Option<Entry<B.Bucket>>)
    ensures var out := B.CheckBucket(c, StateOf(key), now, cost);
      decision == out.result && key' == Written(out, now, floor, key)
  {
    var rate := B.Rate(c);
    var tokens := ScriptTokens(c, key, now);
    var ttl := B.FullRefill(rate, c.capacity);
    if ttl < floor { ttl := floor; }
    if tokens >= cost {
      var left := tokens - cost;
      var remaining := ScriptWhole(left);
      return Decision(true, c.capacity, remaining, now + B.WaitFor(rate, c.capacity - left), 0.0),
             Some(Entry(B.Bucket(left, now), now, ttl));
    }
    var remaining := ScriptWhole(tokens);
    return Decision(false, c.capacity, remaining, now + B.WaitFor(rate, c.capacity - tokens), B.WaitFor(rate, cost - tokens)), key;
  }

  method CombineInScript(a: Decision, b: Decision) returns (d: Decision)
    ensures d == Combine(a, b) && Joins(d, a, b)
  {
    var allowed;
    if a.allowed && b.allowed { allowed := true; } else { allowed := false; }
    var limit := a.limit;
    if b.limit < limit { limit := b.limit; }
    var remaining := a.remaining;
    if b.remaining < remaining { remaining := b.remaining; }
    var resetAt := a.resetAt;
    if b.resetAt > resetAt { resetAt := b.resetAt; }
    var retryAfterMs := a.retryAfterMs;
    if b.retryAfterMs > retryAfterMs { retryAfterMs := b.retryAfterMs; }
    d := Decision(allowed, limit, remaining, resetAt, retryAfterMs);
  }

  /** The combined reply against the two axes of the reply; only the limit can lose its fraction. */
  predicate RepliesJoin(combined: Decision, rate: Decision, cost: Decision) {
    && (combined.allowed <==> rate.allowed && cost.allowed)
    && combined.limit <= rate.limit && combined.limit <= cost.limit
    && (combined.limit == Floor(rate.limit) as real || combined.limit == Floor(cost.limit) as real)
    && IsSmaller(combined.remaining, rate.remaining, cost.remaining)
    && IsLarger(combined.resetAt, rate.resetAt, cost.resetAt) && IsLarger(combined.retryAfterMs, rate.retryAfterMs, cost.retryAfterMs)
  }

  predicate IsWhole(x: real) { x == Floor(x) as real }

  /** The numbers Redis returns have no fraction. */
  predicate WholeReply(d: Decision) { IsWhole(d.remaining) && IsWhole(d.resetAt) && IsWhole(d.retryAfterMs) }

  lemma WireIsWhole(d: Decision)
    ensures WholeReply(OnWire(d)) && WholeReply(AxisReply(d))
  {
    WholeTrunc(d.remaining);
    WholeTrunc(d.resetAt);
    WholeTrunc(d.retryAfterMs);
  }

  lemma WholeTrunc(x: real)
    ensures IsWhole(Trunc(x))
  {
    FloorIs(Floor(x) as real, Floor(x));
    FloorIs(Ceil(x) as real, Ceil(x));
  }

  lemma TruncOrders(x: real, y: real)
    requires x <= y
    ensures Trunc(x) <= Trunc(y)
  {
    var f, g, c, e := Floor(x), Floor(y), Ceil(x), Ceil(y);
    assert f <= g && c <= e;
    if x < 0.0 && y >= 0.0 { assert c <= 0 && g >= 0; }
  }

  lemma TruncPicks(x: real, a: real, b: real)
    ensures IsSmaller(x, a, b) ==> IsSmaller(Trunc(x), Trunc(a), Trunc(b))
    ensures IsLarger(x, a, b) ==> IsLarger(Trunc(x), Trunc(a), Trunc(b))
  {
    if x <= a { TruncOrders(x, a); }
    if x <= b { TruncOrders(x, b); }
    if x >= a { TruncOrders(a, x); }
    if x >= b { TruncOrders(b, x); }
  }

  lemma WireJoins(d: Decision, rate: Decision, bucket: Decision)
    requires Joins(d, rate, bucket) && rate == AxisReply(rate) && rate.limit > 0.0 && bucket.limit > 0.0
    ensures RepliesJoin(OnWire(d), rate, AxisReply(bucket))
  {
    TruncPicks(d.remaining, rate.remaining, bucket.remaining);
    TruncPicks(d.resetAt, rate.resetAt, bucket.resetAt);
    TruncPicks(d.retryAfterMs, rate.retryAfterMs, bucket.retryAfterMs);
  }

  /** An axis of the reply: Redis drops fractions, and the dispatcher fills the configured limit in. */
  function AxisReply(d: Decision): Decision { OnWire(d).(limit := d.limit) }

  lemma RemainingWhole(interval: real, tau: real, tat: real, now: real)
    requires interval > 0.0
    ensures var r := G.Remaining(interval, tau, tat, now); Trunc(r) == r
  {
    var f := Floor((tau - (tat - now)) / interval);
    TruncWhole(G.Remaining(interval, tau, tat, now), if f < 0 then 0 else f);
  }

  lemma RateWhole(interval: real, tau: real, burst: real, state: Option<real>, now: real, inc: real)
    requires interval > 0.0
    ensures var d := G.CheckAt(interval, tau, burst, state, now, inc).result; AxisReply(d) == d
  {
    var tat := state.GetOr(now);
    var tatEff := if tat > now then tat else now;
    var newTat, allowAt := tatEff + inc, tatEff + inc - tau;
    RemainingWhole(interval, tau, tatEff, now);
    RemainingWhole(interval, tau, newTat, now);
    TruncWhole(Ceil(tatEff) as real, Ceil(tatEff));
    TruncWhole(Ceil(newTat) as real, Ceil(newTat));
    TruncWhole(Ceil(allowAt - now) as real, Ceil(allowAt - now));
    TruncWhole(0.0, 0);
  }

  /** GCRA's numbers are whole already. */
  lemma RateReplyExact(c: G.Config, state: Option<real>, now: real, cost: real)
    ensures var d := G.CheckGcra(c, state, now, cost).result; AxisReply(d) == d
  {
    RateWhole(G.Interval(c), G.Tau(c), c.burst, state, now, G.Inc(c, cost));
  }

  /** A key just written, to be kept at least as long as the floor. */
  predicate Lasts<S>(key: Option<Entry<S>>, now: real, floor: real) {
    key.Some? && key.value.at == now && key.value.ttlMs >= floor
  }

  lemma WrittenLasts<S>(out: Outcome<S, Decision>, now: real, floor: real, seen: Option<Entry<S>>)
    requires out.persist && out.state.Some?
    ensures Lasts(Written(out, now, floor, seen), now, floor)
  {
  }

  /**
   * FUSED_GCRA_TOKEN_BUCKET_LUA. Each axis writes its own key exactly when it admits, whatever the other says; the
   * TTL floor only lengthens a key's life.
   */
  method Script(rate: G.Config, cost: B.Config, floor: real, rateKey: Option<Entry<real>>, costKey: Option<Entry<B.Bucket>>, call: Call)
    returns (reply: Reply, rateKey': Option<Entry<real>>, costKey': Option<Entry<B.Bucket>>)
    ensures var r := G.CheckGcra(rate, StateOf(rateKey), call.at, call.rateCost);
      reply.rate == r.result == AxisReply(r.result) && rateKey' == Written(r, call.at, floor, rateKey)
    ensures var b := B.CheckBucket(cost, StateOf(costKey), call.at, call.costCost);
      && reply.cost == AxisReply(b.result) && costKey' == Written(b, call.at, floor, costKey)
      && reply.combined == OnWire(Combine(reply.rate, b.result))
    ensures RepliesJoin(reply.combined, reply.rate, reply.cost) && WholeReply(reply.combined) && WholeReply(reply.rate) && WholeReply(reply.cost)
    ensures reply.rate.allowed ==> Lasts(rateKey', call.at, floor)
    ensures reply.cost.allowed ==> Lasts(costKey', call.at, floor)
  {
    var r, b;
    r, rateKey' := RateAxis(rate, floor, rateKey, call.at, call.rateCost);
    b, costKey' := CostAxis(cost, floor, costKey, call.at, call.costCost);
    var d := CombineInScript(r, b);
    RateReplyExact(rate, StateOf(rateKey), call.at, call.rateCost);
    if r.allowed { WrittenLasts(G.CheckGcra(rate, StateOf(rateKey), call.at, call.rateCost), call.at, floor, rateKey); }
    if b.allowed { WrittenLasts(B.CheckBucket(cost, StateOf(costKey), call.at, call.costCost), call.at, floor, costKey); }
    WireJoins(d, r, b);
    WireIsWhole(d);
    WireIsWhole(r);
    WireIsWhole(b);
    reply := Reply(OnWire(d), AxisReply(r), AxisReply(b));
  }

  // ---------------------------------------------------------------- whole runs

  function RateRun(calls: seq<Call>): (run: seq<Request>)
    ensures |run| == |calls| && forall i :: 0 <= i < |run| ==> run[i] == Request(calls[i].at, calls[i].rateCost)
  {
    seq(|calls|, i requires 0 <= i < |calls| => Request(calls[i].at, calls[i].rateCost))
  }

  function CostRun(calls: seq<Call>): (run: seq<Request>)
    ensures |run| == |calls| && forall i :: 0 <= i < |run| ==> run[i] == Request(calls[i].at, calls[i].costCost)
  {
    seq(|calls|, i requires 0 <= i < |calls| => Request(calls[i].at, calls[i].costCost))
  }

  ghost predicate Sound(calls: seq<Call>) {
    && (forall i, j :: 0 <= i < j < |calls| ==> calls[i].at <= calls[j].at)
    && (forall i :: 0 <= i < |calls| ==> calls[i].rateCost > 0.0 && calls[i].costCost > 0.0)
  }

  /** One axis after n calls: its key is what its own forgetful store would hold, and its answers are that store's. */
  ghost predicate AxisSoFar<S(!new)>(check: Check<S, Decision>, floor: real, run: seq<Request>, drops: seq<bool>, n: nat,
                                     key: Option<Entry<S>>, answers: seq<Decision>)
    requires |run| == |drops| && n <= |run|
  {
    key == Stored(check, floor, run[..n], drops[..n]) && answers == ForgetfulAnswers(check, floor, run[..n], drops[..n])
  }

  lemma AxisStep<S(!new)>(check: Check<S, Decision>, floor: real, run: seq<Request>, drops: seq<bool>, n: nat,
                          key: Option<Entry<S>>, answers: seq<Decision>, out: Outcome<S, Decision>)
    requires |run| == |drops| && n < |run| && AxisSoFar(check, floor, run, drops, n, key, answers)
    requires out == check(StateOf(Visible(key, run[n].at, drops[n])), run[n].at, run[n].cost)
    ensures AxisSoFar(check, floor, run, drops, n + 1, Written(out, run[n].at, floor, Visible(key, run[n].at, drops[n])), answers + [out.result])
  {
    assert run[..n + 1][..n] == run[..n] && drops[..n + 1][..n] == drops[..n];
  }

  lemma AxisEnds<S(!new)>(check: Check<S, Decision>, floor: real, run: seq<Request>, drops: seq<bool>, key: Option<Entry<S>>,
                          answers: seq<Decision>)
    requires |run| == |drops| && AxisSoFar(check, floor, run, drops, |run|, key, answers)
    ensures answers == ForgetfulAnswers(check, floor, run, drops)
  {
    assert run[..|run|] == run && drops[..|run|] == drops;
  }

  lemma SoundRuns(calls: seq<Call>)
    requires Sound(calls)
    ensures NonDecreasing(RateRun(calls)) && PositiveCosts(RateRun(calls))
    ensures NonDecreasing(CostRun(calls)) && PositiveCosts(CostRun(calls))
  {
  }

  /** What the dispatcher hands out for one call, given the bucket's own decision. */
  predicate Replied(combined: Decision, rate: Decision, cost: Decision, bucket: Decision) {
    combined == OnWire(Combine(rate, bucket)) && cost == AxisReply(bucket) && RepliesJoin(combined, rate, cost)
  }

  /** Serves call n, after either key may have been dropped. */
  method ServeNext(rate: G.Config, cost: B.Config, floor: real, calls: seq<Call>, rateDrops: seq<bool>, costDrops: seq<bool>, n: nat,
                   rateKey: Option<Entry<real>>, costKey: Option<Entry<B.Bucket>>, ghost rates: seq<Decision>, ghost buckets: seq<Decision>)
    returns (reply: Reply, rateKey': Option<Entry<real>>, costKey': Option<Entry<B.Bucket>>, ghost bucket: Decision)
    requires |rateDrops| == |costDrops| == |calls| && n < |calls|
    requires AxisSoFar(G.Checker(rate), floor, RateRun(calls), rateDrops, n, rateKey, rates)
    requires AxisSoFar(B.Checker(cost), floor, CostRun(calls), costDrops, n, costKey, buckets)
    ensures AxisSoFar(G.Checker(rate), floor, RateRun(calls), rateDrops, n + 1, rateKey', rates + [reply.rate])
    ensures AxisSoFar(B.Checker(cost), floor, CostRun(calls), costDrops, n + 1, costKey', buckets + [bucket])
    ensures Replied(reply.combined, reply.rate, reply.cost, bucket)
  {
    var call := calls[n];
    var seenRate, seenCost := Visible(rateKey, call.at, rateDrops[n]), Visible(costKey, call.at, costDrops[n]);
    AxisStep(G.Checker(rate), floor, RateRun(calls), rateDrops, n, rateKey, rates,
             G.CheckGcra(rate, StateOf(seenRate), call.at, call.rateCost));
    AxisStep(B.Checker(cost), floor, CostRun(calls), costDrops, n, costKey, buckets,
             B.CheckBucket(cost, StateOf(seenCost), call.at, call.costCost));
    reply, rateKey', costKey' := Script(rate, cost, floor, seenRate, seenCost, call);
    bucket := B.CheckBucket(cost, StateOf(seenCost), call.at, call.costCost).result;
  }

  /**
   * Serves a whole run of calls; before each one, either key may be dropped if it has expired. Each axis answers as a
   * limiter of its own that never forgets, and the combined answers combine those, all as Redis returns them.
   */
  method Serve(rate: G.Config, cost: B.Config, floor: real, calls: seq<Call>, rateDrops: seq<bool>, costDrops: seq<bool>)
    returns (combined: seq<Decision>, rates: seq<Decision>, costs: seq<Decision>)
    requires Sound(calls) && |rateDrops| == |costDrops| == |calls|
    ensures rates == Answers(G.Checker(rate), RateRun(calls))
    ensures |combined| == |rates| == |costs| == |calls| == |Answers(B.Checker(cost), CostRun(calls))|
    ensures forall i :: 0 <= i < |calls| ==> Replied(combined[i], rates[i], costs[i], Answers(B.Checker(cost), CostRun(calls))[i])
  {
    var rateKey: Option<Entry<real>>, costKey: Option<Entry<B.Bucket>> := None, None;
    combined, rates, costs := [], [], [];
    ghost var buckets: seq<Decision> := [];
    for n := 0 to |calls|
      invariant AxisSoFar(G.Checker(rate), floor, RateRun(calls), rateDrops, n, rateKey, rates)
      invariant AxisSoFar(B.Checker(cost), floor, CostRun(calls), costDrops, n, costKey, buckets)
      invariant |combined| == |rates| == |costs| == |buckets| == n
      invariant forall i :: 0 <= i < n ==> Replied(combined[i], rates[i], costs[i], buckets[i])
    {
      var reply;
      ghost var bucket;
      reply, rateKey, costKey, bucket := ServeNext(rate, cost, floor, calls, rateDrops, costDrops, n, rateKey, costKey, rates, buckets);
      combined, rates, costs := combined + [reply.combined], rates + [reply.rate], costs + [reply.cost];
      buckets := buckets + [bucket];
    }
    ServedAll(rate, cost, floor, calls, rateDrops, costDrops, rateKey, costKey, rates, buckets);
  }

  lemma ServedAll(rate: G.Config, cost: B.Config, floor: real, calls: seq<Call>, rateDrops: seq<bool>, costDrops: seq<bool>,
                  rateKey: Option<Entry<real>>, costKey: Option<Entry<B.Bucket>>, rates: seq<Decision>, buckets: seq<Decision>)
    requires Sound(calls) && |rateDrops| == |costDrops| == |calls|
    requires AxisSoFar(G.Checker(rate), floor, RateRun(calls), rateDrops, |calls|, rateKey, rates)
    requires AxisSoFar(B.Checker(cost), floor, CostRun(calls), costDrops, |calls|, costKey, buckets)
    ensures rates == Answers(G.Checker(rate), RateRun(calls)) && buckets == Answers(B.Checker(cost), CostRun(calls))
  {
    SoundRuns(calls);
    AxisEnds(G.Checker(rate), floor, RateRun(calls), rateDrops, rateKey, rates);
    AxisEnds(B.Checker(cost), floor, CostRun(calls), costDrops, costKey, buckets);
    G.GcraForgettingUnseen(rate, floor, RateRun(calls), rateDrops);
    B.BucketForgettingUnseen(cost, floor, CostRun(calls), costDrops);
  }

  // ---------------------------------------------------------------- the combined retry hint

  lemma RateStaysAllowed(interval: real, tau: real, burst: real, state: Option<real>, now: real, later: real, inc: real)
    requires interval > 0.0 && now <= later && G.CheckAt(interval, tau, burst, state, now, inc).result.allowed
    ensures G.CheckAt(interval, tau, burst, state, later, inc).result.allowed
  {
  }

  /** The rate axis admits from its hint on. */
  lemma RateFromHint(c: G.Config, state: Option<real>, now: real, cost: real, hint: int, w: nat)
    requires 0.0 < cost <= c.burst && hint as real == G.CheckGcra(c, state, now, cost).result.retryAfterMs
    ensures AdmittedAfter(G.Checker(c), state, now, cost, w) <==> w >= hint
  {
    var interval, tau, inc := G.Interval(c), G.Tau(c), G.Inc(c, cost);
    if G.CheckGcra(c, state, now, cost).result.allowed {
      RateStaysAllowed(interval, tau, c.burst, state, now, now + w as real, inc);
    } else {
      G.HintExactWhen(c, state, now, cost, hint);
      if w >= hint {
        assert AdmittedAfter(G.Checker(c), state, now, cost, hint);
        RateStaysAllowed(interval, tau, c.burst, state, now + hint as real, now + w as real, inc);
      }
    }
  }

  /** The cost axis admits from its hint on, while the clock has not jumped back. */
  lemma CostFromHint(c: B.Config, state: Option<B.Bucket>, now: real, cost: real, hint: int, w: nat)
    requires 0.0 < cost <= c.capacity && (state.Some? ==> state.value.last <= now)
    requires hint as real == B.CheckBucket(c, state, now, cost).result.retryAfterMs
    ensures AdmittedAfter(B.Checker(c), state, now, cost, w) <==> w >= hint
  {
    if B.CheckBucket(c, state, now, cost).result.allowed {
      TokensLast(B.Rate(c), c.capacity, state, now, now + w as real);
    } else {
      B.AdmitsFromHint(B.Rate(c), c.capacity, state, now, cost, w);
    }
  }

  lemma TokensLast(rate: real, capacity: real, state: Option<B.Bucket>, now: real, later: real)
    requires rate > 0.0 && now <= later && (state.Some? ==> state.value.last <= now)
    ensures B.TokensAt(rate, capacity, state, later) >= B.TokensAt(rate, capacity, state, now)
  {
    if state.Some? {
      MulMono(now - state.value.last, later - state.value.last, rate);
      assert 0.0 * rate == 0.0;
    } else {
      B.FreshIsFull(rate, capacity, now);
      B.FreshIsFull(rate, capacity, later);
    }
  }

  /**
   * A call with satisfiable costs, asked again after a wait with both keys unchanged, passes both axes exactly from the
   * combined hint on.
   */
  lemma CombinedHintExact(rate: G.Config, cost: B.Config, tat: Option<real>, bucket: Option<B.Bucket>, call: Call, hint: int, w: nat)
    requires 0.0 < call.rateCost <= rate.burst && 0.0 < call.costCost <= cost.capacity
    requires bucket.Some? ==> bucket.value.last <= call.at
    requires hint as real == Combine(G.CheckGcra(rate, tat, call.at, call.rateCost).result,
                                     B.CheckBucket(cost, bucket, call.at, call.costCost).result).retryAfterMs
    ensures AdmittedAfter(G.Checker(rate), tat, call.at, call.rateCost, w) && AdmittedAfter(B.Checker(cost), bucket, call.at, call.costCost, w)
      <==> w >= hint
  {
    var r, b := RateHint(rate, tat, call.at, call.rateCost), CostHint(cost, bucket, call.at, call.costCost);
    RateFromHint(rate, tat, call.at, call.rateCost, r, w);
    CostFromHint(cost, bucket, call.at, call.costCost, b, w);
  }

  /** The hints are whole numbers. */
  function RateHint(c: G.Config, state: Option<real>, now: real, cost: real): (hint: int)
    ensures hint as real == G.CheckGcra(c, state, now, cost).result.retryAfterMs
  {
    var tat := state.GetOr(now);
    var allowAt := (if tat > now then tat else now) + G.Inc(c, cost) - G.Tau(c);
    if now < allowAt then Ceil(allowAt - now) else 0
  }

  function CostHint(c: B.Config, state: Option<B.Bucket>, now: real, cost: real): (hint: int)
    ensures hint as real == B.CheckBucket(c, state, now, cost).result.retryAfterMs
  {
    var tokens := B.TokensAt(B.Rate(c), c.capacity, state, now);
    if tokens >= cost then 0 else Ceil((cost - tokens) / B.Rate(c))
  }
}
