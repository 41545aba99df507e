/** leakyBucket: a shaper that paces departures, its exact rejection hint, and the chunked sleep. */
module LeakyBucket {
  import opened Numbers
  import opened Wrappers
  import opened Strategy

  datatype Options = Options(ratePerSec: real, maxQueueMs: real) {
    predicate Valid() { ratePerSec > 0.0 && maxQueueMs >= 0.0 }
  }

  type Config = o: Options | o.Valid() witness Options(1.0, 0.0)

  datatype Reservation = Reservation(accepted: bool, delayMs: int)

  /** The pacing interval per unit. */
  function Interval(c: Config): real { 1000.0 / c.ratePerSec }

  function Inc(c: Config, cost: real): real { Interval(c) * cost }

  lemma IncPositive(c: Config, cost: real)
    requires cost > 0.0
    ensures Inc(c, cost) > 0.0
  {
    var q := Interval(c);
    assert q * c.ratePerSec == 1000.0;
    assert q <= 0.0 ==> q * c.ratePerSec <= 0.0;
  }

  /** The instant a request would leave: the stored departure, or now when the bucket is idle. */
  function Departure(state: Option<real>, now: real): real { Max(state.GetOr(now), now) }

  /** The transform of reserve and reserveSync. */
  function Reserve(c: Config, state: Option<real>, now: real, cost: real): Outcome<real, Reservation> {
    var departure := Departure(state, now);
    var delay := departure - now;
    if delay > c.maxQueueMs then
      Outcome(state, Reservation(false, Ceil(delay - c.maxQueueMs)), c.maxQueueMs, false)
    else
      Outcome(Some(departure + Inc(c, cost)), Reservation(true, Ceil(delay)),
              Max(1.0, Ceil(departure + Inc(c, cost) - now) as real), true)
  }

  function Reserver(c: Config): Check<real, Reservation> {
    (state: Option<real>, now: real, cost: real) => Reserve(c, state, now, cost)
  }

  /** reserveSync: the shared slots are set, then read by the one reused transform. */
  class Shaper {
    const config: Config
    var syncNow: real
    var syncCost: real
    var departure: Option<real>

    constructor (config: Config)
      ensures this.config == config && departure == None
    {
      this.config := config;
      syncNow, syncCost, departure := 0.0, 1.0, None;
    }

    method ReserveSync(now: real, cost: real) returns (r: Reservation)
      requires cost > 0.0
      modifies this
      ensures var out := Reserve(config, old(departure), now, cost);
        r == out.result && departure == (if out.persist then out.state else old(departure))
    {
      syncNow := now;
      syncCost := cost;
      r := SyncTransform();
    }

    method SyncTransform() returns (r: Reservation)
      modifies this`departure
      ensures var out := Reserve(config, old(departure), syncNow, syncCost);
        r == out.result && departure == (if out.persist then out.state else old(departure))
    {
      var inc := Inc(config, syncCost);
      var stored := departure.GetOr(syncNow);
      var leaves := if stored > syncNow then stored else syncNow;
      var delay := leaves - syncNow;
      if delay > config.maxQueueMs {
        return Reservation(false, Ceil(delay - config.maxQueueMs));
      }
      departure := Some(leaves + inc);
      return Reservation(true, Ceil(delay));
    }
  }

  /** LEAKY_LUA on one key. */
  method Script(c: Config, stored: Option<real>, now: real, cost: real)
    returns (reply: Reservation, stored': Option<real>, px: Option<real>)
    ensures var out := Reserve(c, stored, now, cost);
      && reply == out.result && stored' == (if out.persist then out.state else stored)
      && px == (if out.persist then Some(out.ttlMs) else None)
  {
    var inc := Inc(c, cost);
    var departure := if stored.Some? then stored.value else now;
    if departure < now { departure := now; }
    var delay := departure - now;
    if delay > c.maxQueueMs { return Reservation(false, Ceil(delay - c.maxQueueMs)), stored, None; }
    var newDeparture := departure + inc;
    var ms := Ceil(newDeparture - now) as real;
    if ms < 1.0 { ms := 1.0; }
    return Reservation(true, Ceil(delay)), Some(newDeparture), Some(ms);
  }

  // ---------------------------------------------------------------- the rejection hint

  predicate AcceptedAfter(c: Config, state: Option<real>, now: real, cost: real, wait: int) {
    Reserve(c, state, now + wait as real, cost).result.accepted
  }

  /** The hint of a rejection is the least whole wait, for every cost. */
  lemma HintExact(c: Config, state: Option<real>, now: real, cost: real)
    requires !Reserve(c, state, now, cost).result.accepted
    ensures var hint := Reserve(c, state, now, cost).result.delayMs;
      hint >= 1 && forall w: nat :: AcceptedAfter(c, state, now, cost, w) <==> w >= hint
  {
    var delay := Departure(state, now) - now;
    var hint := Ceil(delay - c.maxQueueMs);
    forall w: nat ensures AcceptedAfter(c, state, now, cost, w) <==> w >= hint {
      assert w >= hint <==> w as real >= delay - c.maxQueueMs;
    }
  }

  // ---------------------------------------------------------------- pacing

  /** The exact instant each accepted request of a run leaves at, with its cost. */
  function Departures(c: Config, run: seq<Request>): seq<Request> {
    if run == [] then []
    else
      var before, r := run[..|run| - 1], run[|run| - 1];
      var state := Kept(Reserver(c), before);
      Departures(c, before) + (if Reserve(c, state, r.at, r.cost).persist then [Request(Departure(state, r.at), r.cost)] else [])
  }

  /** A departure and every earlier one are at least the earlier one's share of time apart. */
  ghost predicate Paced(c: Config, out: seq<Request>) {
    forall i, j :: 0 <= i < j < |out| ==> out[i].at + Inc(c, out[i].cost) <= out[j].at
  }

  ghost predicate AllLeftBy(c: Config, out: seq<Request>, state: Option<real>) {
    forall i :: 0 <= i < |out| ==> state.Some? && out[i].at + Inc(c, out[i].cost) <= state.value
  }

  lemma DepartStep(c: Config, out: seq<Request>, state: Option<real>, r: Request)
    requires Paced(c, out) && AllLeftBy(c, out, state) && r.cost > 0.0
    ensures var o := Reserve(c, state, r.at, r.cost);
      o.persist ==> var longer := out + [Request(Departure(state, r.at), r.cost)]; Paced(c, longer) && AllLeftBy(c, longer, o.state)
  {
    IncPositive(c, r.cost);
  }

  /** Departures of every run are paced, even when the clock jumps back. */
  lemma {:induction false} DeparturesPaced(c: Config, run: seq<Request>)
    requires PositiveCosts(run)
    ensures Paced(c, Departures(c, run)) && AllLeftBy(c, Departures(c, run), Kept(Reserver(c), run))
  {
    if run != [] {
      var before, r := run[..|run| - 1], run[|run| - 1];
      DeparturesPaced(c, before);
      DepartStep(c, Departures(c, before), Kept(Reserver(c), before), r);
    }
  }

  /** So far apart that a rate of so many units per second is kept: 1000 * cost / perSec milliseconds. */
  predicate Spaced(from: real, to: real, cost: real, perSec: real) { (to - from) * perSec >= 1000.0 * cost }

  /** Exactly so far apart. */
  predicate SpacedExactly(from: real, to: real, cost: real, perSec: real) { (to - from) * perSec == 1000.0 * cost }

  lemma IntervalScaled(perSec: real, interval: real, cost: real, inc: real, gap: real)
    requires perSec > 0.0 && interval == 1000.0 / perSec && inc == interval * cost
    ensures inc * perSec == 1000.0 * cost
    ensures gap >= inc ==> gap * perSec >= 1000.0 * cost
    ensures gap * perSec == 1000.0 * cost ==> gap == inc
  {
    assert interval * perSec == 1000.0;
    assert inc * perSec == interval * perSec * cost;
    var d := gap - inc;
    assert gap * perSec == inc * perSec + d * perSec;
    assert d >= 0.0 ==> d * perSec >= 0.0;
    assert d != 0.0 ==> d * perSec != 0.0;
  }

  lemma IncScaled(c: Config, cost: real, gap: real)
    ensures Inc(c, cost) * c.ratePerSec == 1000.0 * cost
    ensures gap >= Inc(c, cost) ==> gap * c.ratePerSec >= 1000.0 * cost
    ensures gap * c.ratePerSec == 1000.0 * cost ==> gap == Inc(c, cost)
  {
    IntervalScaled(c.ratePerSec, Interval(c), cost, Inc(c, cost), gap);
  }

  lemma PairKeepsRate(c: Config, out: seq<Request>, i: nat, j: nat)
    requires Paced(c, out) && i < j < |out|
    ensures Spaced(out[i].at, out[j].at, out[i].cost, c.ratePerSec)
  {
    IncScaled(c, out[i].cost, out[j].at - out[i].at);
  }

  /** Every two departures of a run keep the rate: 1000 * cost / ratePerSec milliseconds after the earlier one, or more. */
  lemma DeparturesKeepRate(c: Config, run: seq<Request>, i: nat, j: nat)
    requires PositiveCosts(run) && i < j < |Departures(c, run)|
    ensures var out := Departures(c, run); Spaced(out[i].at, out[j].at, out[i].cost, c.ratePerSec)
  {
    DeparturesPaced(c, run);
    PairKeepsRate(c, Departures(c, run), i, j);
  }

  /** The stored departure is the last one's plus its share. */
  lemma {:induction false} StoredIsNext(c: Config, run: seq<Request>)
    ensures var out := Departures(c, run);
      Kept(Reserver(c), run) == if out == [] then None else Some(out[|out| - 1].at + Inc(c, out[|out| - 1].cost))
  {
    if run != [] { StoredIsNext(c, run[..|run| - 1]); }
  }

  /** When the next request can leave at the earliest: at once after nothing, else the last one's share of time after it. */
  predicate NextFree(out: seq<Request>, perSec: real, now: real, free: real) {
    if out == [] then free == now else SpacedExactly(out[|out| - 1].at, free, out[|out| - 1].cost, perSec)
  }

  lemma FreeIsDeparture(c: Config, out: seq<Request>, state: Option<real>, now: real, free: real)
    requires state == (if out == [] then None else Some(out[|out| - 1].at + Inc(c, out[|out| - 1].cost)))
    requires NextFree(out, c.ratePerSec, now, free)
    ensures Departure(state, now) == Max(free, now)
  {
    if out != [] { IncScaled(c, out[|out| - 1].cost, free - out[|out| - 1].at); }
  }

  lemma ReservedFrom(c: Config, state: Option<real>, now: real, cost: real, free: real)
    requires Departure(state, now) == Max(free, now)
    ensures var r := Reserve(c, state, now, cost).result;
      && (r.accepted <==> Max(0.0, free - now) <= c.maxQueueMs) && (r.accepted ==> r.delayMs == Ceil(Max(0.0, free - now)))
      && Reserve(c, state, now, cost).persist == r.accepted
  {
  }

  lemma DeparturesAppend(c: Config, run: seq<Request>, r: Request)
    ensures var state := Kept(Reserver(c), run);
      Departures(c, run + [r]) ==
        Departures(c, run) + (if Reserve(c, state, r.at, r.cost).persist then [Request(Departure(state, r.at), r.cost)] else [])
  {
    assert (run + [r])[..|run|] == run;
  }

  /**
   * A request is accepted exactly when it need not wait longer than the queue allows. It then leaves as soon as the rate
   * lets it, and its delay is that wait rounded up.
   */
  lemma AcceptsExactlyWhen(c: Config, run: seq<Request>, now: real, cost: real, free: real)
    requires NextFree(Departures(c, run), c.ratePerSec, now, free)
    ensures var r, out := Reserve(c, Kept(Reserver(c), run), now, cost).result, Departures(c, run + [Request(now, cost)]);
      && (r.accepted <==> Max(0.0, free - now) <= c.maxQueueMs)
      && (r.accepted ==> r.delayMs == Ceil(Max(0.0, free - now)))
      && out == Departures(c, run) + (if r.accepted then [Request(Max(free, now), cost)] else [])
  {
    StoredIsNext(c, run);
    FreeIsDeparture(c, Departures(c, run), Kept(Reserver(c), run), now, free);
    ReservedFrom(c, Kept(Reserver(c), run), now, cost, free);
    DeparturesAppend(c, run, Request(now, cost));
  }

  /** An accepted request waits at most the queue allows. */
  lemma WaitsWithinQueue(c: Config, state: Option<real>, now: real, cost: real)
    requires Reserve(c, state, now, cost).result.accepted
    ensures 0 <= Reserve(c, state, now, cost).result.delayMs <= Ceil(c.maxQueueMs)
    ensures now + Reserve(c, state, now, cost).result.delayMs as real >= Departure(state, now)
  {
  }

  // ---------------------------------------------------------------- forgetting

  lemma DepartedFades(c: Config, departure: real, now: real, cost: real)
    requires now >= departure
    ensures Alike(Reserve(c, Some(departure), now, cost), Reserve(c, None, now, cost))
  {
  }

  lemma ReserverWritesFade(c: Config, from: real)
    ensures WritesFade(Reserver(c), (s: real, t: real) => true, from)
  {
    forall p: Option<real>, now: real, cost: real | cost > 0.0 && Reserve(c, p, now, cost).persist
      ensures var out := Reserve(c, p, now, cost); out.state.Some? && Fades(Reserver(c), out.state.value, now + out.ttlMs)
    {
      var out := Reserve(c, p, now, cost);
      assert now + out.ttlMs >= out.state.value;
      forall later: real, k: real | later >= now + out.ttlMs && k > 0.0
        ensures Alike(Reserver(c)(Some(out.state.value), later, k), Reserver(c)(None, later, k))
      {
        DepartedFades(c, out.state.value, later, k);
      }
    }
  }

  lemma ShaperForgettingUnseen(c: Config, floor: real, run: seq<Request>, drops: seq<bool>)
    requires NonDecreasing(run) && PositiveCosts(run) && |run| == |drops|
    ensures ForgetfulAnswers(Reserver(c), floor, run, drops) == Answers(Reserver(c), run)
  {
    ReserverWritesFade(c, First(run));
    SinceFirst(run);
    ForgettingUnseen(Reserver(c), (s: real, t: real) => true, First(run), floor, run, drops);
  }

  // ---------------------------------------------------------------- sleep

  const MAX_TIMEOUT_MS: int := 2_147_483_647

  function Total(slices: seq<int>): int {
    if slices == [] then 0 else Total(slices[..|slices| - 1]) + slices[|slices| - 1]
  }

  /** The timers a sleep sets one after the other: none beyond setTimeout's ceiling, and together exactly the delay. */
  method Sleep(ms: int) returns (slices: seq<int>)
    ensures forall i :: 0 <= i < |slices| ==> 0 < slices[i] <= 2_147_483_647
    ensures Total(slices) == if ms <= 0 then 0 else ms
    ensures forall i :: 0 <= i < |slices| - 1 ==> slices[i] == 2_147_483_647
  {
    slices := [];
    if ms <= 0 { return; }
    var remaining := ms;
    while remaining > 0
      invariant 0 <= remaining && remaining + Total(slices) == ms
      invariant forall i :: 0 <= i < |slices| ==> 0 < slices[i] <= MAX_TIMEOUT_MS
      invariant forall i :: 0 <= i < |slices| && (i < |slices| - 1 || remaining > 0) ==> slices[i] == MAX_TIMEOUT_MS
    {
      var slice := if remaining < MAX_TIMEOUT_MS then remaining else MAX_TIMEOUT_MS;
      remaining := remaining - slice;
      assert (slices + [slice])[..|slices|] == slices;
      slices := slices + [slice];
    }
  }

  /** A stored departure is kept to the first whole millisecond after it, and for one at least. */
  lemma KeptUntilDeparted(c: Config, state: Option<real>, now: real, cost: real)
    ensures var out := Reserve(c, state, now, cost);
      out.persist ==> out.state.Some? && now + out.ttlMs >= out.state.value && (out.ttlMs == 1.0 || now + out.ttlMs < out.state.value + 1.0)
  {
  }
}
