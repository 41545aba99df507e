/** slidingWindowLog: the stamps of every accepted unit, what a trailing window can hold, and exact retry hints. */
module SlidingLog {
  import opened Numbers
  import opened Wrappers
  import opened Strategy

  datatype Options = Options(limit: real, windowMs: real) {
    predicate Valid() { limit > 0.0 && windowMs > 0.0 }
  }

  type Config = o: Options | o.Valid() witness Options(1.0, 1.0)

  type Log = seq<real>

  ghost predicate Ascending(log: Log) {
    forall i, j :: 0 <= i < j < |log| ==> log[i] <= log[j]
  }

  ghost predicate UpTo(log: Log, t: real) {
    forall i :: 0 <= i < |log| ==> log[i] <= t
  }

  /** How many leading stamps are stale. */
  function FirstLive(log: Log, windowStart: real): (k: nat)
    ensures k <= |log|
    ensures forall i :: 0 <= i < k ==> log[i] <= windowStart
    ensures k < |log| ==> log[k] > windowStart
  {
    if log != [] && log[0] <= windowStart then 1 + FirstLive(log[1..], windowStart) else 0
  }

  function Live(log: Log, windowStart: real): Log { log[FirstLive(log, windowStart)..] }

  function Units(cost: real): int { Ceil(cost) }

  function Stamps(now: real, units: int): (s: Log)
    ensures |s| == (if units > 0 then units else 0) && forall i :: 0 <= i < |s| ==> s[i] == now
  {
    seq(if units > 0 then units else 0, i => now)
  }

  /** JavaScript indexing with a number: undefined unless it is a whole index of the array. */
  function At(log: Log, index: real): Option<real> {
    if index == Floor(index) as real && 0 <= Floor(index) < |log| then Some(log[Floor(index)]) else None
  }

  function Clip(x: real): real { Max(0.0, x) }

  function OldestOr(log: Log, now: real): real { if log != [] then log[0] else now }

  /** The wait reported to a denied request. */
  function Retry(c: Config, live: Log, now: real, units: int): real {
    if live == [] then c.windowMs
    else
      var k := Min(Max(1.0, (|live| + units) as real - c.limit), |live| as real);
      Max(1.0, Ceil(At(live, k - 1.0).GetOr(now) + c.windowMs - now) as real)
  }

  predicate Fits(c: Config, live: Log, units: int) { (|live| + units) as real <= c.limit }

  /** The answer to an accepted request: what is left of the limit and when the oldest stamp leaves the window. */
  function Accept(c: Config, held: int, oldest: real): Decision {
    Decision(true, c.limit, Clip(c.limit - held as real), Ceil(oldest + c.windowMs) as real, 0.0)
  }

  function Refuse(c: Config, held: int, oldest: real, retry: real): Decision {
    Decision(false, c.limit, Clip(c.limit - held as real), Ceil(oldest + c.windowMs) as real, retry)
  }

  /** The decision once the stale prefix is known. */
  function CheckLive(c: Config, live: Log, state: Option<Log>, now: real, units: int): Outcome<Log, Decision> {
    if Fits(c, live, units) then
      var log := live + Stamps(now, units);
      Outcome(Some(log), Accept(c, |live| + units, OldestOr(log, now)), c.windowMs, true)
    else
      Outcome(state, Refuse(c, |live|, OldestOr(live, now), Retry(c, live, now, units)), c.windowMs, false)
  }

  /** slidingWindowLog(...).check */
  function CheckLog(c: Config, state: Option<Log>, now: real, cost: real): Outcome<Log, Decision> {
    CheckLive(c, Live(state.GetOr([]), now - c.windowMs), state, now, Units(cost))
  }

  function Checker(c: Config): Check<Log, Decision> {
    (state: Option<Log>, now: real, cost: real) => CheckLog(c, state, now, cost)
  }

  /** The scan that skips the stale prefix. */
  method SkipStale(prev: Log, windowStart: real) returns (firstLive: nat)
    ensures firstLive == FirstLive(prev, windowStart)
  {
    firstLive := 0;
    while firstLive < |prev| && prev[firstLive] <= windowStart
      invariant firstLive <= |prev| && FirstLive(prev, windowStart) == firstLive + FirstLive(prev[firstLive..], windowStart)
    {
      assert prev[firstLive..][1..] == prev[firstLive + 1..];
      firstLive := firstLive + 1;
    }
  }

  /** The loop that pushes one stamp per unit. */
  method Push(live: Log, now: real, units: int) returns (log: Log)
    ensures log == live + Stamps(now, units)
  {
    log := live;
    for i := 0 to if units > 0 then units else 0
      invariant log == live + Stamps(now, i)
    {
      log := log + [now];
    }
  }

  method RetryFor(c: Config, prev: Log, firstLive: nat, now: real, units: int) returns (retryAfterMs: real)
    requires firstLive <= |prev|
    ensures retryAfterMs == Retry(c, prev[firstLive..], now, units)
  {
    var count := |prev| - firstLive;
    if count == 0 { return c.windowMs; }
    var kMin := (count + units) as real - c.limit;
    if kMin < 1.0 { kMin := 1.0; }
    if kMin > count as real { kMin := count as real; }
    AtSuffix(prev, firstLive, kMin - 1.0);
    var ref := At(prev, firstLive as real + (kMin - 1.0)).GetOr(now);
    retryAfterMs := Ceil(ref + c.windowMs - now) as real;
    if retryAfterMs < 1.0 { retryAfterMs := 1.0; }
  }

  method Oldest(log: Log, now: real) returns (oldest: real)
    ensures oldest == OldestOr(log, now)
  {
    oldest := if |log| > 0 then log[0] else now;
  }

  method LeftOf(c: Config, held: int) returns (remaining: real)
    ensures remaining == Clip(c.limit - held as real)
  {
    remaining := c.limit - held as real;
    if remaining < 0.0 { remaining := 0.0; }
  }

  /** check, with its scan and its loop. */
  method Check(c: Config, state: Option<Log>, now: real, cost: real) returns (out: Outcome<Log, Decision>)
    ensures out == CheckLog(c, state, now, cost)
  {
    var prev := state.GetOr([]);
    var firstLive := SkipStale(prev, now - c.windowMs);
    var live := prev[firstLive..];
    var count, units := |prev| - firstLive, Ceil(cost);
    if (count + units) as real <= c.limit {
      var newLog := Push(live, now, units);
      var oldest := Oldest(newLog, now);
      var remaining := LeftOf(c, count + units);
      return Outcome(Some(newLog), Decision(true, c.limit, remaining, Ceil(oldest + c.windowMs) as real, 0.0), c.windowMs, true);
    }
    var retryAfterMs := RetryFor(c, prev, firstLive, now, units);
    var oldest := Oldest(live, now);
    var remaining := LeftOf(c, count);
    return Outcome(state, Decision(false, c.limit, remaining, Ceil(oldest + c.windowMs) as real, retryAfterMs), c.windowMs, false);
  }

  lemma AtSuffix(log: Log, from: nat, index: real)
    requires from <= |log| && index >= 0.0
    ensures At(log, from as real + index) == At(log[from..], index)
  {
    var k := Floor(index);
    assert Floor(from as real + index) == from + k by { FloorIs(from as real + index, from + k); }
  }

  // ---------------------------------------------------------------- stale prefixes

  /** In an ascending log, k stamps are stale exactly when the k-th of them is. */
  lemma StaleCount(log: Log, windowStart: real, k: nat)
    requires Ascending(log) && 1 <= k <= |log|
    ensures FirstLive(log, windowStart) >= k <==> log[k - 1] <= windowStart
  {
  }

  lemma AllStale(log: Log, windowStart: real)
    requires UpTo(log, windowStart)
    ensures Live(log, windowStart) == []
  {
  }

  lemma {:induction false} LiveTwice(log: Log, early: real, late: real)
    requires early <= late
    ensures Live(Live(log, early), late) == Live(log, late)
  {
    if log != [] && log[0] <= early {
      LiveTwice(log[1..], early, late);
      StaleHead(log, early);
      StaleHead(log, late);
    } else {
      assert Live(log, early) == log;
    }
  }

  lemma StaleHead(log: Log, windowStart: real)
    requires log != [] && log[0] <= windowStart
    ensures Live(log, windowStart) == Live(log[1..], windowStart)
  {
  }

  lemma LiveKeeps(log: Log, windowStart: real, t: real)
    requires Ascending(log) && UpTo(log, t)
    ensures Ascending(Live(log, windowStart)) && UpTo(Live(log, windowStart), t)
    ensures forall i :: 0 <= i < |Live(log, windowStart)| ==> Live(log, windowStart)[i] > windowStart
  {
    var k := FirstLive(log, windowStart);
    forall i | 0 <= i < |log[k..]| ensures log[k..][i] > windowStart {
      if i > 0 { assert log[k] <= log[k + i]; }
    }
  }

  lemma AppendStamps(live: Log, now: real, units: int)
    requires Ascending(live) && UpTo(live, now)
    ensures Ascending(live + Stamps(now, units)) && UpTo(live + Stamps(now, units), now)
  {
  }

  /** The stamps of all units a run accepted, pruned or not. */
  function Accepted(c: Config, run: seq<Request>): Log {
    if run == [] then []
    else
      var before, r := run[..|run| - 1], run[|run| - 1];
      Accepted(c, before) +
      (if CheckLog(c, Kept(Checker(c), before), r.at, r.cost).result.allowed then Stamps(r.at, Units(r.cost)) else [])
  }

  function LogAfter(c: Config, run: seq<Request>): Log { Kept(Checker(c), run).GetOr([]) }

  /** What one request does to the stored log and to the list of accepted stamps. */
  lemma LogStep(c: Config, run: seq<Request>, before: seq<Request>, r: Request, live: Log, units: int)
    requires run != [] && before == run[..|run| - 1] && r == run[|run| - 1]
    requires live == Live(LogAfter(c, before), r.at - c.windowMs) && units == Units(r.cost)
    ensures LogAfter(c, run) == if Fits(c, live, units) then live + Stamps(r.at, units) else LogAfter(c, before)
    ensures Accepted(c, run) == Accepted(c, before) + (if Fits(c, live, units) then Stamps(r.at, units) else [])
  {
  }

  ghost predicate Orderly(log: Log, t: real, limit: real) { Ascending(log) && UpTo(log, t) && |log| as real <= limit }

  lemma OrderlyNext(c: Config, log: Log, live: Log, next: Log, now: real, units: int)
    requires Orderly(log, now, c.limit) && live == Live(log, now - c.windowMs) && units >= 0
    requires next == if Fits(c, live, units) then live + Stamps(now, units) else log
    ensures Orderly(next, now, c.limit)
  {
    LiveKeeps(log, now - c.windowMs, now);
    AppendStamps(live, now, units);
  }

  lemma OrderlyLater(log: Log, t: real, u: real, limit: real)
    requires Orderly(log, t, limit) && t <= u
    ensures Orderly(log, u, limit)
  {
  }

  lemma UnitsPositive(cost: real)
    requires cost > 0.0
    ensures Units(cost) >= 1
  {
  }

  /** The stored log after one request. */
  function Advance(c: Config, log: Log, now: real, units: int): Log {
    var live := Live(log, now - c.windowMs);
    if Fits(c, live, units) then live + Stamps(now, units) else log
  }

  /** The stored log after a run, without the decisions. */
  function LogAt(c: Config, run: seq<Request>): Log {
    if run == [] then []
    else
      var before, r := run[..|run| - 1], run[|run| - 1];
      Advance(c, LogAt(c, before), r.at, Units(r.cost))
  }

  function AcceptedAt(c: Config, run: seq<Request>): Log {
    if run == [] then []
    else
      var before, r := run[..|run| - 1], run[|run| - 1];
      AcceptedAt(c, before) + New(c, LogAt(c, before), r.at, Units(r.cost))
  }

  /** The stamps one request adds. */
  function New(c: Config, log: Log, now: real, units: int): Log {
    if Fits(c, Live(log, now - c.windowMs), units) then Stamps(now, units) else []
  }

  lemma {:induction false} RunIs(c: Config, run: seq<Request>)
    ensures LogAfter(c, run) == LogAt(c, run) && Accepted(c, run) == AcceptedAt(c, run)
  {
    if run != [] {
      var before, r := run[..|run| - 1], run[|run| - 1];
      RunIs(c, before);
      LogStep(c, run, before, r, Live(LogAfter(c, before), r.at - c.windowMs), Units(r.cost));
    }
  }

  lemma {:induction false} LogAtSorted(c: Config, run: seq<Request>, t: real)
    requires NonDecreasing(run) && PositiveCosts(run) && (run != [] ==> run[|run| - 1].at <= t)
    ensures Orderly(LogAt(c, run), t, c.limit)
  {
    if run != [] {
      var before, r := run[..|run| - 1], run[|run| - 1];
      LogAtSorted(c, before, r.at);
      UnitsPositive(r.cost);
      OrderlyNext(c, LogAt(c, before), Live(LogAt(c, before), r.at - c.windowMs), LogAt(c, run), r.at, Units(r.cost));
      OrderlyLater(LogAt(c, run), r.at, t, c.limit);
    }
  }

  /** The stored log stays ascending, no later than the clock, and no longer than the limit. */
  lemma {:induction false} StaysSorted(c: Config, run: seq<Request>, t: real)
    requires NonDecreasing(run) && PositiveCosts(run) && (run != [] ==> run[|run| - 1].at <= t)
    ensures Orderly(LogAfter(c, run), t, c.limit)
  {
    LogAtSorted(c, run, t);
    RunIs(c, run);
  }

  // ---------------------------------------------------------------- what a trailing window holds

  /** How many stamps lie in the half-open interval (x, y]. */
  function CountIn(log: Log, x: real, y: real): nat {
    if log == [] then 0 else CountIn(log[..|log| - 1], x, y) + (if x < log[|log| - 1] <= y then 1 else 0)
  }

  lemma {:induction false} CountAtMost(log: Log, x: real, y: real)
    ensures CountIn(log, x, y) <= |log|
  {
    if log != [] { CountAtMost(log[..|log| - 1], x, y); }
  }

  lemma {:induction false} CountAppend(a: Log, b: Log, x: real, y: real)
    ensures CountIn(a + b, x, y) == CountIn(a, x, y) + CountIn(b, x, y)
  {
    if b == [] {
      assert a + b == a;
    } else {
      CountAppend(a, b[..|b| - 1], x, y);
      assert (a + b)[..|a + b| - 1] == a + b[..|b| - 1];
    }
  }

  lemma {:induction false} CountNone(log: Log, x: real, y: real)
    requires forall i :: 0 <= i < |log| ==> log[i] <= x || log[i] > y
    ensures CountIn(log, x, y) == 0
  {
    if log != [] { CountNone(log[..|log| - 1], x, y); }
  }

  ghost predicate WindowsHold(all: Log, w: real, limit: real) {
    forall x: real :: Held(all, x, w) as real <= limit
  }

  /** The stamps in the window of width w that starts after x. */
  function Held(all: Log, x: real, w: real): nat { CountIn(all, x, x + w) }

  /** The stored log is what remains of all accepted stamps; what is gone was stale when the last one came in. */
  ghost predicate Remains(log: Log, all: Log, w: real, last: real) {
    |log| <= |all| && log == all[|all| - |log|..] && UpTo(all[..|all| - |log|], last - w) && UpTo(all, last)
  }

  lemma RemainsPruned(log: Log, all: Log, w: real, last: real, now: real)
    requires Remains(log, all, w, last) && last <= now && w > 0.0
    ensures Remains(Live(log, now - w), all, w, now)
  {
    var k, gone := FirstLive(log, now - w), |all| - |log|;
    var live := Live(log, now - w);
    assert live == all[|all| - |live|..];
    var dropped := all[..gone + k];
    forall i | 0 <= i < |dropped| ensures dropped[i] <= now - w {
      if i < gone { assert all[..gone][i] <= last - w; } else { assert all[i] == log[i - gone]; }
    }
  }

  lemma AcceptKeepsWindows(live: Log, all: Log, w: real, now: real, units: int, limit: real)
    requires Remains(live, all, w, now) && WindowsHold(all, w, limit) && w > 0.0 && (|live| + |Stamps(now, units)|) as real <= limit
    ensures WindowsHold(all + Stamps(now, units), w, limit)
  {
    var added := Stamps(now, units);
    forall x: real ensures Held(all + added, x, w) as real <= limit {
      CountAppend(all, added, x, x + w);
      assert Held(all, x, w) as real <= limit;
      if x < now <= x + w {
        var gone := |all| - |live|;
        assert all == all[..gone] + live;
        CountAppend(all[..gone], live, x, x + w);
        CountNone(all[..gone], x, x + w);
        CountAtMost(live, x, x + w);
        CountAtMost(added, x, x + w);
      } else {
        CountNone(added, x, x + w);
      }
    }
  }

  lemma AcceptRemains(live: Log, all: Log, w: real, now: real, units: int)
    requires Remains(live, all, w, now)
    ensures Remains(live + Stamps(now, units), all + Stamps(now, units), w, now)
  {
    var added, gone := Stamps(now, units), |all| - |live|;
    assert (all + added)[gone..] == live + added && (all + added)[..gone] == all[..gone];
  }

  lemma RemainsLater(log: Log, all: Log, w: real, last: real, now: real)
    requires Remains(log, all, w, last) && last <= now
    ensures Remains(log, all, w, now)
  {
  }

  ghost predicate Holds(log: Log, all: Log, w: real, limit: real, t: real) {
    Remains(log, all, w, t) && WindowsHold(all, w, limit)
  }

  lemma HoldsStep(c: Config, log: Log, all: Log, now: real, units: int)
    requires Holds(log, all, c.windowMs, c.limit, now) && units >= 1
    ensures var live := Live(log, now - c.windowMs);
      Fits(c, live, units) ==> Holds(live + Stamps(now, units), all + Stamps(now, units), c.windowMs, c.limit, now)
  {
    var live := Live(log, now - c.windowMs);
    RemainsPruned(log, all, c.windowMs, now, now);
    if Fits(c, live, units) {
      AcceptKeepsWindows(live, all, c.windowMs, now, units, c.limit);
      AcceptRemains(live, all, c.windowMs, now, units);
    }
  }

  lemma HoldsNothing(c: Config, t: real)
    ensures Holds([], [], c.windowMs, c.limit, t)
  {
    forall x: real ensures Held([], x, c.windowMs) == 0 {}
  }

  lemma {:induction false} RunHolds(c: Config, run: seq<Request>, t: real)
    requires NonDecreasing(run) && PositiveCosts(run) && (run != [] ==> run[|run| - 1].at <= t)
    ensures Holds(LogAt(c, run), AcceptedAt(c, run), c.windowMs, c.limit, t)
  {
    if run == [] {
      HoldsNothing(c, t);
    } else {
      var before, r := run[..|run| - 1], run[|run| - 1];
      RunHolds(c, before, r.at);
      UnitsPositive(r.cost);
      HoldsNext(c, LogAt(c, before), AcceptedAt(c, before), r.at, Units(r.cost));
      RemainsLater(LogAt(c, run), AcceptedAt(c, run), c.windowMs, r.at, t);
    }
  }

  lemma HoldsNext(c: Config, log: Log, all: Log, now: real, units: int)
    requires Holds(log, all, c.windowMs, c.limit, now) && units >= 1
    ensures Holds(Advance(c, log, now, units), all + New(c, log, now, units), c.windowMs, c.limit, now)
  {
    HoldsStep(c, log, all, now, units);
    assert all + [] == all;
  }

  /** No window (x, x + windowMs], trailing or not, ever holds more than the limit of accepted units. */
  lemma WindowBound(c: Config, run: seq<Request>, x: real)
    requires NonDecreasing(run) && PositiveCosts(run)
    ensures Held(Accepted(c, run), x, c.windowMs) as real <= c.limit
  {
    RunHolds(c, run, if run == [] then 0.0 else run[|run| - 1].at);
    RunIs(c, run);
  }

  // ---------------------------------------------------------------- forgetting

  lemma LiveDecides(c: Config, live: Log, p: Option<Log>, q: Option<Log>, now: real, units: int)
    ensures Alike(CheckLive(c, live, p, now, units), CheckLive(c, live, q, now, units))
  {
  }

  lemma StampsFade(c: Config, log: Log, now: real, cost: real)
    requires UpTo(log, now - c.windowMs)
    ensures Alike(CheckLog(c, Some(log), now, cost), CheckLog(c, None, now, cost))
  {
    AllStale(log, now - c.windowMs);
    AllStale([], now - c.windowMs);
    LiveDecides(c, [], Some(log), None, now, Units(cost));
  }

  ghost function NoLater(): (Log, real) -> bool { (log: Log, t: real) => UpTo(log, t) }

  lemma WrittenUpTo(c: Config, p: Option<Log>, now: real, cost: real)
    requires p.Some? ==> UpTo(p.value, now)
    requires CheckLog(c, p, now, cost).persist
    ensures CheckLog(c, p, now, cost).state.Some? && UpTo(CheckLog(c, p, now, cost).state.value, now)
    ensures CheckLog(c, p, now, cost).ttlMs == c.windowMs
  {
  }

  lemma UpToLater(log: Log, t: real, u: real)
    requires UpTo(log, t) && t <= u
    ensures UpTo(log, u)
  {
  }

  lemma OldLogFades(c: Config, log: Log, now: real)
    requires UpTo(log, now)
    ensures Fades(Checker(c), log, now + c.windowMs)
  {
    forall later: real, k: real | later >= now + c.windowMs && k > 0.0
      ensures Alike(Checker(c)(Some(log), later, k), Checker(c)(None, later, k))
    {
      UpToLater(log, now, later - c.windowMs);
      StampsFade(c, log, later, k);
    }
  }

  lemma NoLaterLasts()
    ensures SoundLasts(NoLater())
  {
    forall s: Log, t: real, u: real | NoLater()(s, t) && t <= u ensures NoLater()(s, u) { UpToLater(s, t, u); }
  }

  lemma LogWritesFade(c: Config, from: real)
    ensures WritesFade(Checker(c), NoLater(), from)
  {
    forall p: Option<Log>, now: real, cost: real | (p.Some? ==> UpTo(p.value, now)) && CheckLog(c, p, now, cost).persist
      ensures var out := CheckLog(c, p, now, cost);
        out.state.Some? && UpTo(out.state.value, now) && Fades(Checker(c), out.state.value, now + out.ttlMs)
    {
      WrittenUpTo(c, p, now, cost);
      OldLogFades(c, CheckLog(c, p, now, cost).state.value, now);
    }
  }

  lemma LogForgettingUnseen(c: Config, floor: real, run: seq<Request>, drops: seq<bool>)
    requires NonDecreasing(run) && PositiveCosts(run) && |run| == |drops|
    ensures ForgetfulAnswers(Checker(c), floor, run, drops) == Answers(Checker(c), run)
  {
    LogWritesFade(c, First(run));
    NoLaterLasts();
    SinceFirst(run);
    ForgettingUnseen(Checker(c), NoLater(), First(run), floor, run, drops);
  }

  // ---------------------------------------------------------------- the retry hint

  /** The least whole wait after which enough stamps are stale for a denied request. */
  function Needed(c: Config, log: Log, now: real, units: int): int
    requires 1 <= |log| + units - Floor(c.limit) <= |log|
  {
    Ceil(log[|log| + units - Floor(c.limit) - 1] + c.windowMs - now)
  }

  lemma FitsFloor(limit: real, n: int)
    ensures n as real <= limit <==> n <= Floor(limit)
  {
  }

  /** A denied request, asked again after a wait with the log untouched, is admitted exactly from the needed wait on. */
  lemma AdmittedFrom(c: Config, log: Log, now: real, cost: real, w: nat)
    requires Ascending(log) && cost > 0.0 && Units(cost) as real <= c.limit
    requires !CheckLog(c, Some(log), now, cost).result.allowed
    ensures 1 <= |log| + Units(cost) - Floor(c.limit) <= |log|
    ensures AdmittedAfter(Checker(c), Some(log), now, cost, w) <==> w >= Needed(c, log, now, Units(cost))
  {
    var units, k := Units(cost), |log| + Units(cost) - Floor(c.limit);
    var first, later := FirstLive(log, now - c.windowMs), FirstLive(log, now + w as real - c.windowMs);
    FitsFloor(c.limit, units);
    FitsFloor(c.limit, |log| - first + units);
    FitsFloor(c.limit, |log| - later + units);
    StaleCount(log, now + w as real - c.windowMs, k);
  }

  lemma NeededPositive(c: Config, log: Log, now: real, cost: real)
    requires Ascending(log) && cost > 0.0 && Units(cost) as real <= c.limit
    requires !CheckLog(c, Some(log), now, cost).result.allowed
    ensures 1 <= |log| + Units(cost) - Floor(c.limit) <= |log| && Needed(c, log, now, Units(cost)) >= 1
  {
    AdmittedFrom(c, log, now, cost, 0);
    assert now + 0 as real == now;
  }

  /** For a satisfiable cost, the hint is exact just when it is the needed wait. */
  lemma HintExactWhen(c: Config, log: Log, now: real, cost: real, hint: int)
    requires Ascending(log) && cost > 0.0 && Units(cost) as real <= c.limit
    requires !CheckLog(c, Some(log), now, cost).result.allowed
    ensures 1 <= |log| + Units(cost) - Floor(c.limit) <= |log|
    ensures ExactHint(Checker(c), Some(log), now, cost, hint) <==> hint == Needed(c, log, now, Units(cost))
  {
    NeededPositive(c, log, now, cost);
    var needed := Needed(c, log, now, Units(cost));
    forall w: nat ensures AdmittedAfter(Checker(c), Some(log), now, cost, w) <==> w >= needed {
      AdmittedFrom(c, log, now, cost, w);
    }
    if hint > needed { assert AdmittedAfter(Checker(c), Some(log), now, cost, needed); }
  }

  /** With a whole limit, every satisfiable denial reports the needed wait. */
  lemma WholeLimitHint(c: Config, log: Log, now: real, cost: real)
    requires c.limit == Floor(c.limit) as real && Ascending(log) && cost > 0.0 && Units(cost) as real <= c.limit
    requires !CheckLog(c, Some(log), now, cost).result.allowed
    ensures 1 <= |log| + Units(cost) - Floor(c.limit) <= |log|
    ensures CheckLog(c, Some(log), now, cost).result.retryAfterMs == Needed(c, log, now, Units(cost)) as real
    ensures ExactHint(Checker(c), Some(log), now, cost, Needed(c, log, now, Units(cost)))
  {
    NeededPositive(c, log, now, cost);
    HintExactWhen(c, log, now, cost, Needed(c, log, now, Units(cost)));
    var live, units := Live(log, now - c.windowMs), Units(cost);
    var k := |live| + units - Floor(c.limit);
    FloorIs(k as real - 1.0, k - 1);
    assert At(live, k as real - 1.0) == Some(live[k - 1]);
  }

  /** With a whole limit, a denial's hint is exact just for the costs the limit can hold. */
  lemma WholeLimitHintExactWhen(c: Config, log: Log, now: real, cost: real, hint: int)
    requires c.limit == Floor(c.limit) as real && Ascending(log) && cost > 0.0
    requires var d := CheckLog(c, Some(log), now, cost).result; !d.allowed && d.retryAfterMs == hint as real
    ensures ExactHint(Checker(c), Some(log), now, cost, hint) <==> Units(cost) as real <= c.limit
  {
    if Units(cost) as real <= c.limit {
      WholeLimitHint(c, log, now, cost);
    } else {
      assert !AdmittedAfter(Checker(c), Some(log), now, cost, hint);
    }
  }

  /** With a fractional limit the index of the deciding stamp is fractional, and a denied, satisfiable cost waits a whole window. */
  lemma FractionalRetry(c: Config, live: Log, now: real, units: int)
    requires c.limit != Floor(c.limit) as real && live != [] && !Fits(c, live, units) && units <= Floor(c.limit)
    ensures var k := |live| + units - Floor(c.limit);
      && 1 <= k <= |live|
      && Retry(c, live, now, units) == Max(1.0, Ceil(if k == 1 then live[0] + c.windowMs - now else c.windowMs) as real)
  {
    FitsFloor(c.limit, |live| + units);
    var k, f := |live| + units - Floor(c.limit), (|live| + units) as real - c.limit;
    if k == 1 {
      FloorIs(0.0, 0);
    } else {
      FloorIs(f - 1.0, k - 2);
      assert At(live, f - 1.0) == None;
      assert now + c.windowMs - now == c.windowMs;
    }
  }

  /** The stamp that decides a denied, satisfiable request, counted in the live part and in the whole log. */
  lemma DecidingStamp(c: Config, log: Log, now: real, cost: real)
    requires Ascending(log) && cost > 0.0 && Units(cost) as real <= c.limit
    requires !CheckLog(c, Some(log), now, cost).result.allowed
    ensures var live := Live(log, now - c.windowMs); var k := |live| + Units(cost) - Floor(c.limit);
      && 1 <= k <= |live| && 1 <= |log| + Units(cost) - Floor(c.limit) <= |log|
      && Needed(c, log, now, Units(cost)) == Ceil(live[k - 1] + c.windowMs - now)
  {
    FitsFloor(c.limit, Units(cost));
    NeededPositive(c, log, now, cost);
    var live := Live(log, now - c.windowMs);
    FitsFloor(c.limit, |live| + Units(cost));
  }

  /**
   * The hint of a denied, satisfiable cost is exact just when the limit is whole, the oldest live stamp decides, or the wait
   * for the deciding stamp happens to round up to the whole window.
   */
  lemma ReportedHintExactWhen(c: Config, log: Log, now: real, cost: real, hint: int)
    requires Ascending(log) && cost > 0.0 && Units(cost) as real <= c.limit
    requires var d := CheckLog(c, Some(log), now, cost).result; !d.allowed && d.retryAfterMs == hint as real
    ensures var live := Live(log, now - c.windowMs); var k := |live| + Units(cost) - Floor(c.limit);
      && 1 <= k <= |live|
      && (ExactHint(Checker(c), Some(log), now, cost, hint) <==>
          c.limit == Floor(c.limit) as real || k == 1 || Ceil(live[k - 1] + c.windowMs - now) == Ceil(c.windowMs))
  {
    DecidingStamp(c, log, now, cost);
    NeededPositive(c, log, now, cost);
    HintExactWhen(c, log, now, cost, hint);
    if c.limit == Floor(c.limit) as real {
      WholeLimitHint(c, log, now, cost);
    } else {
      FitsFloor(c.limit, Units(cost));
      FractionalRetry(c, Live(log, now - c.windowMs), now, Units(cost));
    }
  }

  /** A fractional limit makes the index of the deciding stamp fractional, and the hint a whole window. */
  lemma FractionalLimitHint()
    ensures var c := Options(2.5, 10.0);
      && CheckLog(c, Some([0.0, 5.0]), 6.0, 2.0).result.retryAfterMs == 10.0
      && !ExactHint(Checker(c), Some([0.0, 5.0]), 6.0, 2.0, 10)
  {
    var c, log: Log := Options(2.5, 10.0), [0.0, 5.0];
    assert FirstLive(log, -4.0) == 0;
    assert Live(log, -4.0) == log;
    FloorIs(2.5, 2);
    FloorIs(0.5, 0);
    HintExactWhen(c, log, 6.0, 2.0, 10);
  }

  // ---------------------------------------------------------------- what decides, and what a decision reports

  lemma {:induction false} CountAll(log: Log, x: real, y: real)
    requires forall i :: 0 <= i < |log| ==> x < log[i] <= y
    ensures CountIn(log, x, y) == |log|
  {
    if log != [] { CountAll(log[..|log| - 1], x, y); }
  }

  lemma LiveIsHeld(live: Log, all: Log, now: real, x: real, gone: Log)
    requires all == gone + live && UpTo(gone, x) && UpTo(live, now) && forall i :: 0 <= i < |live| ==> live[i] > x
    ensures CountIn(all, x, now) == |live|
  {
    CountAppend(gone, live, x, now);
    CountNone(gone, x, now);
    CountAll(live, x, now);
  }

  lemma GoneIsOld(log: Log, all: Log, w: real, now: real, x: real, live: Log)
    requires Remains(log, all, w, now) && w > 0.0 && x == now - w && live == Live(log, x)
    ensures |live| <= |all| && all == all[..|all| - |live|] + live && UpTo(all[..|all| - |live|], x)
  {
    RemainsPruned(log, all, w, now, now);
  }

  lemma HeldIsLive(log: Log, all: Log, w: real, now: real, x: real, live: Log)
    requires Remains(log, all, w, now) && Ascending(log) && UpTo(log, now) && w > 0.0 && x == now - w && live == Live(log, x)
    ensures CountIn(all, x, now) == |live|
  {
    GoneIsOld(log, all, w, now, x, live);
    LiveKeeps(log, x, now);
    LiveIsHeld(live, all, now, x, all[..|all| - |live|]);
  }

  lemma RunRemains(c: Config, run: seq<Request>, now: real)
    requires NonDecreasing(run) && PositiveCosts(run) && (run != [] ==> run[|run| - 1].at <= now)
    ensures Remains(LogAfter(c, run), Accepted(c, run), c.windowMs, now)
    ensures Ascending(LogAfter(c, run)) && UpTo(LogAfter(c, run), now)
  {
    RunHolds(c, run, now);
    RunIs(c, run);
    StaysSorted(c, run, now);
  }

  lemma DecidedBy(c: Config, state: Option<Log>, now: real, cost: real, live: Log)
    requires live == Live(state.GetOr([]), now - c.windowMs)
    ensures CheckLog(c, state, now, cost).result.allowed <==> (|live| + Ceil(cost)) as real <= c.limit
  {
  }

  /** The units accepted in the window (now - windowMs, now] and a cost rounded up make at most the limit. */
  predicate HasRoom(c: Config, accepted: Log, now: real, cost: real) {
    (CountIn(accepted, now - c.windowMs, now) + Ceil(cost)) as real <= c.limit
  }

  lemma RoomIs(c: Config, accepted: Log, now: real, cost: real, held: nat)
    requires held == CountIn(accepted, now - c.windowMs, now)
    ensures HasRoom(c, accepted, now, cost) <==> (held + Ceil(cost)) as real <= c.limit
  {
  }

  lemma DecidedByWindow(c: Config, state: Option<Log>, all: Log, now: real, cost: real, log: Log)
    requires log == state.GetOr([]) && Remains(log, all, c.windowMs, now) && Ascending(log) && UpTo(log, now)
    ensures CheckLog(c, state, now, cost).result.allowed <==> HasRoom(c, all, now, cost)
  {
    var x := now - c.windowMs;
    HeldIsLive(log, all, c.windowMs, now, x, Live(log, x));
    RoomIs(c, all, now, cost, |Live(log, x)|);
    DecidedBy(c, state, now, cost, Live(log, x));
  }

  /** A request is admitted exactly when the window that ends at its instant has room for it. */
  lemma AdmitsExactlyWhen(c: Config, run: seq<Request>, now: real, cost: real)
    requires NonDecreasing(run) && PositiveCosts(run) && (run != [] ==> run[|run| - 1].at <= now)
    ensures CheckLog(c, Kept(Checker(c), run), now, cost).result.allowed <==> HasRoom(c, Accepted(c, run), now, cost)
  {
    RunRemains(c, run, now);
    DecidedByWindow(c, Kept(Checker(c), run), Accepted(c, run), now, cost, LogAfter(c, run));
  }

  lemma LiveStays(log: Log, windowStart: real)
    requires log == [] || log[0] > windowStart
    ensures Live(log, windowStart) == log
  {
  }

  lemma StampsStay(live: Log, now: real, windowStart: real, units: int)
    requires windowStart < now && (live == [] || live[0] > windowStart)
    ensures Live(live + Stamps(now, units), windowStart) == live + Stamps(now, units)
  {
    var log := live + Stamps(now, units);
    if log != [] { assert log[0] == (if live != [] then live[0] else now); }
    LiveStays(log, windowStart);
  }

  lemma LiveStarts(log: Log, windowStart: real)
    ensures Live(log, windowStart) == [] || Live(log, windowStart)[0] > windowStart
    ensures Live(Live(log, windowStart), windowStart) == Live(log, windowStart)
  {
    LiveStays(Live(log, windowStart), windowStart);
  }

  /** What is live in the state a check leaves, at its own instant. */
  function LiveNext(c: Config, live: Log, now: real, units: int): Log {
    if Fits(c, live, units) then live + Stamps(now, units) else live
  }

  lemma NextLive(c: Config, state: Option<Log>, now: real, live: Log, units: int)
    ensures var out := CheckLive(c, live, state, now, units);
      (if out.persist then out.state else state).GetOr([]) == if Fits(c, live, units) then live + Stamps(now, units) else state.GetOr([])
  {
  }

  lemma NextLog(c: Config, state: Option<Log>, now: real, cost: real, live: Log, units: int)
    requires live == Live(state.GetOr([]), now - c.windowMs) && units == Units(cost)
    ensures Next(Checker(c), state, Request(now, cost)).GetOr([]) == if Fits(c, live, units) then live + Stamps(now, units) else state.GetOr([])
  {
    NextLive(c, state, now, live, units);
  }

  lemma LiveAfter(c: Config, state: Option<Log>, now: real, cost: real, live: Log, units: int, windowStart: real)
    requires live == Live(state.GetOr([]), windowStart) && units == Units(cost) && windowStart == now - c.windowMs
    ensures Live(Next(Checker(c), state, Request(now, cost)).GetOr([]), windowStart) == LiveNext(c, live, now, units)
  {
    NextLog(c, state, now, cost, live, units);
    LiveStarts(state.GetOr([]), windowStart);
    StampsStay(live, now, windowStart, units);
  }

  lemma ReportedOf(c: Config, live: Log, state: Option<Log>, now: real, units: int)
    requires units >= 1
    ensures var held, d := LiveNext(c, live, now, units), CheckLive(c, live, state, now, units).result;
      && d.limit == c.limit && d.remaining == Clip(c.limit - |held| as real) && d.resetAt == Ceil(OldestOr(held, now) + c.windowMs) as real
      && (d.allowed ==> d.retryAfterMs == 0.0)
  {
  }

  lemma UnitFitsLive(c: Config, state: Option<Log>, now: real, held: Log, n: nat)
    requires n >= 1 && held == Live(state.GetOr([]), now - c.windowMs)
    ensures UnitsFit(Checker(c), state, now, n) <==> n as real <= Clip(c.limit - |held| as real)
  {
    DecidedBy(c, state, now, n as real, held);
    WholeUnits(n);
  }

  lemma WholeUnits(n: nat)
    ensures Ceil(n as real) == n
  {
  }

  lemma RemainingIs(c: Config, state: Option<Log>, now: real, held: Log, left: real)
    requires held == Live(state.GetOr([]), now - c.windowMs) && left == Clip(c.limit - |held| as real)
    ensures RemainingExact(Checker(c), state, now, left)
  {
    forall n: nat | n >= 1 ensures UnitsFit(Checker(c), state, now, n) <==> n as real <= left { UnitFitsLive(c, state, now, held, n); }
  }

  /** The numbers of a decision, by what is live in the state it leaves. */
  ghost predicate Numbered(c: Config, d: Decision, held: Log, now: real) {
    && d.limit == c.limit && d.remaining == Clip(c.limit - |held| as real) && d.resetAt == Ceil(OldestOr(held, now) + c.windowMs) as real
    && (d.allowed ==> d.retryAfterMs == 0.0)
  }

  lemma NumberedLive(c: Config, live: Log, state: Option<Log>, now: real, units: int)
    requires units >= 1
    ensures Numbered(c, CheckLive(c, live, state, now, units).result, LiveNext(c, live, now, units), now)
  {
    ReportedOf(c, live, state, now, units);
  }

  lemma Reported(c: Config, state: Option<Log>, now: real, cost: real, next: Option<Log>, held: Log)
    requires cost > 0.0 && next == Next(Checker(c), state, Request(now, cost)) && held == Live(next.GetOr([]), now - c.windowMs)
    ensures Numbered(c, CheckLog(c, state, now, cost).result, held, now)
  {
    var live := Live(state.GetOr([]), now - c.windowMs);
    UnitsPositive(cost);
    LiveAfter(c, state, now, cost, live, Units(cost), now - c.windowMs);
    NumberedLive(c, live, state, now, Units(cost));
  }

  /** The state of the window after a check, and what the check's decision says of it. */
  ghost predicate Describes(c: Config, d: Decision, next: Option<Log>, held: Log, now: real) {
    && d.limit == c.limit && (d.allowed ==> d.retryAfterMs == 0.0) && RemainingExact(Checker(c), next, now, d.remaining)
    && (held != [] ==> forall t: int :: t as real >= now ==> (LeftBy(held[0], c.windowMs, t) <==> t as real >= d.resetAt))
  }

  /** A stamp has left the window that ends at a whole instant. */
  predicate LeftBy(stamp: real, w: real, t: int) { stamp <= t as real - w }

  lemma ResetOf(oldest: real, w: real, t: int)
    ensures LeftBy(oldest, w, t) <==> t as real >= Ceil(oldest + w) as real
  {
    assert t >= Ceil(oldest + w) <==> t as real >= oldest + w;
  }

  /**
   * What a decision reports is exact of the state it leaves: so many whole units still fit at once, and the oldest stamp of
   * the window has left it at a whole instant exactly from the reset instant on.
   */
  lemma ReportsExactly(c: Config, state: Option<Log>, now: real, cost: real, next: Option<Log>, held: Log, d: Decision)
    requires cost > 0.0 && next == Next(Checker(c), state, Request(now, cost)) && held == Live(next.GetOr([]), now - c.windowMs)
    requires d == CheckLog(c, state, now, cost).result
    ensures Describes(c, d, next, held, now)
  {
    Reported(c, state, now, cost, next, held);
    RemainingIs(c, next, now, held, d.remaining);
    if held != [] {
      forall t: int | t as real >= now ensures LeftBy(held[0], c.windowMs, t) <==> t as real >= d.resetAt {
        ResetOf(held[0], c.windowMs, t);
      }
    }
  }
}
