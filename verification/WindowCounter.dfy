/** The counter shared by fixedWindow and quota: units admitted in the period of an instant, forgotten when it resets. */
module WindowCounter {
  import opened Numbers
  import opened Wrappers
  import opened Strategy
  import opened CalendarPeriods

  datatype Window = Window(start: real, count: real)

  type Bounds = real -> Period

  /** The units already counted in the current period; missing or stale state counts as none. */
  function CountIn(state: Option<Window>, start: real): real {
    if state.Some? && state.value.start == start then state.value.count else 0.0
  }

  function Left(limit: real, count: real): real { Max(0.0, Floor(limit - count) as real) }

  /** check, for the period p of now. */
  function CheckIn(p: Period, limit: real, idleTtl: real, state: Option<Window>, now: real, cost: real): Outcome<Window, Decision> {
    var count := CountIn(state, p.start);
    if count + cost <= limit then
      Outcome(Some(Window(p.start, count + cost)), Decision(true, limit, Left(limit, count + cost), Ceil(p.reset) as real, 0.0),
              Max(1.0, p.reset - now), true)
    else
      Outcome(state, Decision(false, limit, Left(limit, count), Ceil(p.reset) as real, Ceil(p.reset - now) as real), idleTtl, false)
  }

  function Checker(bounds: Bounds, limit: real, idleTtl: real): Check<Window, Decision> {
    (state: Option<Window>, now: real, cost: real) => CheckIn(bounds(now), limit, idleTtl, state, now, cost)
  }

  /** The periods tile time from some instant on. */
  ghost predicate TilesFrom(bounds: Bounds, from: real) {
    forall t :: t >= from ==> PeriodTiles(bounds, t)
  }

  ghost predicate In(p: Period, t: real) { p.start <= t < p.reset }

  lemma SameStart(bounds: Bounds, t: real, u: real)
    requires PeriodTiles(bounds, t) && PeriodTiles(bounds, u) && bounds(t).start == bounds(u).start
    ensures bounds(t) == bounds(u)
  {
    assert bounds(bounds(t).start) == bounds(t) && bounds(bounds(u).start) == bounds(u);
  }

  /** Two instants share a start exactly when one lies in the other's period. */
  lemma StartsDiffer(bounds: Bounds, from: real, t: real, u: real)
    requires TilesFrom(bounds, from) && t >= from && u >= from
    ensures bounds(t).start == bounds(u).start <==> In(bounds(t), u)
    ensures In(bounds(t), u) ==> bounds(u) == bounds(t)
  {
    if bounds(t).start == bounds(u).start { SameStart(bounds, t, u); }
  }

  // ---------------------------------------------------------------- forgetting

  lemma CounterWritesFade(bounds: Bounds, limit: real, idleTtl: real, from: real)
    requires TilesFrom(bounds, from)
    ensures WritesFade(Checker(bounds, limit, idleTtl), (s: Window, t: real) => true, from)
  {
    var check := Checker(bounds, limit, idleTtl);
    forall p: Option<Window>, now: real, cost: real | now >= from && cost > 0.0 && CheckIn(bounds(now), limit, idleTtl, p, now, cost).persist
      ensures var out := CheckIn(bounds(now), limit, idleTtl, p, now, cost);
        out.state.Some? && Fades(check, out.state.value, now + out.ttlMs)
    {
      var out := CheckIn(bounds(now), limit, idleTtl, p, now, cost);
      forall later: real, k: real | later >= now + out.ttlMs && k > 0.0
        ensures Alike(check(Some(out.state.value), later, k), check(None, later, k))
      {
        StartsDiffer(bounds, from, now, later);
      }
    }
  }

  lemma CounterForgettingUnseen(bounds: Bounds, limit: real, idleTtl: real, from: real, floor: real, run: seq<Request>, drops: seq<bool>)
    requires TilesFrom(bounds, from) && NonDecreasing(run) && Since(run, from) && PositiveCosts(run) && |run| == |drops|
    ensures ForgetfulAnswers(Checker(bounds, limit, idleTtl), floor, run, drops) == Answers(Checker(bounds, limit, idleTtl), run)
  {
    CounterWritesFade(bounds, limit, idleTtl, from);
    ForgettingUnseen(Checker(bounds, limit, idleTtl), (s: Window, t: real) => true, from, floor, run, drops);
  }

  // ---------------------------------------------------------------- the retry hint

  ghost predicate Counts(state: Option<Window>) { state.Some? ==> state.value.count >= 0.0 }

  lemma DeniedInPeriod(bounds: Bounds, limit: real, idleTtl: real, from: real, state: Option<Window>, now: real, cost: real, w: nat)
    requires TilesFrom(bounds, from) && now >= from && 0.0 < cost <= limit
    requires !CheckIn(bounds(now), limit, idleTtl, state, now, cost).result.allowed
    ensures bounds(now).reset > now
    ensures AdmittedAfter(Checker(bounds, limit, idleTtl), state, now, cost, w) <==> w >= Ceil(bounds(now).reset - now)
  {
    assert PeriodTiles(bounds, now);
    StartsDiffer(bounds, from, now, now + w as real);
    assert w >= Ceil(bounds(now).reset - now) <==> now + w as real >= bounds(now).reset;
    assert state.Some? && state.value.start == bounds(now).start;
  }

  /** A denial's hint is exact for every cost up to the limit, and for no other. */
  lemma HintExactWhen(bounds: Bounds, limit: real, idleTtl: real, from: real, state: Option<Window>, now: real, cost: real, hint: int)
    requires TilesFrom(bounds, from) && now >= from && cost > 0.0 && Counts(state)
    requires var d := CheckIn(bounds(now), limit, idleTtl, state, now, cost).result; !d.allowed && d.retryAfterMs == hint as real
    ensures ExactHint(Checker(bounds, limit, idleTtl), state, now, cost, hint) <==> cost <= limit
  {
    var check := Checker(bounds, limit, idleTtl);
    if cost <= limit {
      DeniedInPeriod(bounds, limit, idleTtl, from, state, now, cost, 0);
      forall w: nat ensures AdmittedAfter(check, state, now, cost, w) <==> w >= hint {
        DeniedInPeriod(bounds, limit, idleTtl, from, state, now, cost, w);
      }
    } else {
      assert CountIn(state, bounds(now + hint as real).start) >= 0.0;
      assert !AdmittedAfter(check, state, now, cost, hint);
    }
  }

  // ---------------------------------------------------------------- what a period admits

  ghost function Within(p: Period): real -> bool { (t: real) => In(p, t) }

  /** What was admitted in one period, and how the stored state knows it. */
  ghost predicate Tracked(bounds: Bounds, p: Period, limit: real, admitted: real, state: Option<Window>, t: real) {
    && 0.0 <= admitted <= Max(0.0, limit) && Counts(state)
    && (state.Some? && state.value.start == p.start ==> state.value.count == admitted)
    && (admitted > 0.0 ==> t >= p.start)
    && (admitted > 0.0 && t < p.reset ==> state.Some? && state.value.start == p.start)
  }

  lemma TrackStep(bounds: Bounds, from: real, x: real, limit: real, idleTtl: real, admitted: real, state: Option<Window>, t: real,
                  r: Request)
    requires TilesFrom(bounds, from) && x >= from && r.at >= from && r.at >= t && r.cost > 0.0
    requires Tracked(bounds, bounds(x), limit, admitted, state, t)
    ensures var out := CheckIn(bounds(r.at), limit, idleTtl, state, r.at, r.cost);
      Tracked(bounds, bounds(x), limit, admitted + (if In(bounds(x), r.at) && out.result.allowed then r.cost else 0.0),
              if out.persist then out.state else state, r.at)
  {
    StartsDiffer(bounds, from, x, r.at);
  }

  /** On every run with non-decreasing time, each period admits at most the limit. */
  lemma {:induction false} RunTracked(bounds: Bounds, from: real, x: real, limit: real, idleTtl: real, run: seq<Request>)
    requires TilesFrom(bounds, from) && x >= from && NonDecreasing(run) && Since(run, from) && PositiveCosts(run)
    ensures var check := Checker(bounds, limit, idleTtl);
      Tracked(bounds, bounds(x), limit, AdmittedWhen(check, run, Within(bounds(x))), Kept(check, run),
              if run == [] then from else run[|run| - 1].at)
  {
    if run != [] {
      var before, r := run[..|run| - 1], run[|run| - 1];
      RunTracked(bounds, from, x, limit, idleTtl, before);
      var check := Checker(bounds, limit, idleTtl);
      var t := if before == [] then from else before[|before| - 1].at;
      TrackStep(bounds, from, x, limit, idleTtl, AdmittedWhen(check, before, Within(bounds(x))), Kept(check, before), t, r);
    }
  }

  lemma PeriodBound(bounds: Bounds, from: real, x: real, limit: real, idleTtl: real, run: seq<Request>)
    requires TilesFrom(bounds, from) && x >= from && NonDecreasing(run) && Since(run, from) && PositiveCosts(run) && limit > 0.0
    ensures AdmittedWhen(Checker(bounds, limit, idleTtl), run, Within(bounds(x))) <= limit
  {
    RunTracked(bounds, from, x, limit, idleTtl, run);
  }

  // ---------------------------------------------------------------- the Redis scripts

  lemma TruncIsLeft(limit: real, count: real)
    ensures Trunc(Max(0.0, limit - count)) == Left(limit, count)
  {
  }

  lemma TruncIsCeil(x: real)
    ensures Trunc(x) == Ceil(x) as real <==> x < 0.0 || x == Floor(x) as real
  {
    var f, c := Floor(x), Ceil(x);
    if x == f as real { assert f == c; }
    if f == c { assert x == f as real; }
  }

  lemma CeilTtl(ms: real)
    requires ms > 0.0
    ensures Max(1.0, ms) <= Ceil(ms) as real < Max(1.0, ms) + 1.0
  {
    assert Ceil(ms) >= 1;
  }

  /**
   * FIXED_WINDOW_LUA and the tail of QUOTA_LUA, for the period the script computed. They admit, count and write as the
   * check does; the reset instant, rounded up by the check, is truncated in the reply, and the key may live up to the
   * next whole millisecond.
   */
  method Script(p: Period, limit: real, idleTtl: real, stored: Option<Window>, now: real, cost: real)
    returns (reply: Decision, stored': Option<Window>, px: Option<real>)
    requires limit > 0.0 && Counts(stored) && p.start <= now < p.reset
    ensures var out := CheckIn(p, limit, idleTtl, stored, now, cost);
      && reply == out.result.(limit := Floor(limit) as real, resetAt := Trunc(p.reset))
      && stored' == (if out.persist then out.state else stored)
      && (px.Some? <==> out.persist) && (px.Some? ==> out.ttlMs <= px.value < out.ttlMs + 1.0)
    ensures reply.resetAt == CheckIn(p, limit, idleTtl, stored, now, cost).result.resetAt
      <==> p.reset < 0.0 || p.reset == Floor(p.reset) as real
  {
    TruncIsCeil(p.reset);
    CeilTtl(p.reset - now);
    TruncWhole(Ceil(p.reset - now) as real, Ceil(p.reset - now));
    var start := if stored.Some? then Some(stored.value.start) else None;
    var count := if stored.Some? then stored.value.count else 0.0;
    if start.None? || start.value != p.start { count := 0.0; }
    if count + cost <= limit {
      var newCount := count + cost;
      TruncIsLeft(limit, newCount);
      var ms := Ceil(p.reset - now) as real;
      if ms < 1.0 { ms := 1.0; }
      return Decision(true, Trunc(limit), Trunc(limit - newCount), Trunc(p.reset), 0.0), Some(Window(p.start, newCount)), Some(ms);
    }
    TruncIsLeft(limit, count);
    var remaining := limit - count;
    if remaining < 0.0 { remaining := 0.0; }
    return Decision(false, Trunc(limit), Trunc(remaining), Trunc(p.reset), Trunc(Ceil(p.reset - now) as real)), stored, None;
  }

  /** A period that ends at 1.5 ms: the check reports 2 as the reset, the script 1. */
  lemma ScriptResetDiffers()
    ensures CheckIn(Period(0.0, 1.5), 1.0, 1.5, None, 0.0, 1.0).result.resetAt == 2.0 && Trunc(1.5) == 1.0
  {
    FloorIs(1.5, 1);
  }

  // ---------------------------------------------------------------- what decides, and what a decision reports

  /** A request is admitted exactly when its period has room: what was admitted in it so far, and the request, make at most the limit. */
  lemma AdmitsExactlyWhen(bounds: Bounds, from: real, limit: real, idleTtl: real, run: seq<Request>, now: real, cost: real)
    requires TilesFrom(bounds, from) && now >= from && NonDecreasing(run) && Since(run, from) && PositiveCosts(run)
    requires run == [] || run[|run| - 1].at <= now
    ensures var check := Checker(bounds, limit, idleTtl);
      check(Kept(check, run), now, cost).result.allowed <==> AdmittedWhen(check, run, Within(bounds(now))) + cost <= limit
  {
    RunTracked(bounds, from, now, limit, idleTtl, run);
    assert PeriodTiles(bounds, now);
  }

  lemma LeftFits(limit: real, count: real, n: nat)
    requires n >= 1
    ensures n as real <= Left(limit, count) <==> count + n as real <= limit
  {
    assert n <= Floor(limit - count) <==> n as real <= limit - count;
  }

  /**
   * What a decision reports is exact of the state it leaves: so many whole units still fit into the period, and a whole
   * instant lies in the period exactly before the reset instant.
   */
  lemma ReportsExactly(bounds: Bounds, limit: real, idleTtl: real, state: Option<Window>, now: real, cost: real, next: Option<Window>, t: int)
    requires PeriodTiles(bounds, now) && cost > 0.0 && now <= t as real
    requires next == Next(Checker(bounds, limit, idleTtl), state, Request(now, cost))
    ensures var check := Checker(bounds, limit, idleTtl); var d := check(state, now, cost).result;
      && d.limit == limit && (d.allowed ==> d.retryAfterMs == 0.0) && RemainingExact(check, next, now, d.remaining)
      && (In(bounds(now), t as real) <==> (t as real) < d.resetAt)
    ensures var out := Checker(bounds, limit, idleTtl)(state, now, cost);
      out.persist ==> now + out.ttlMs == bounds(now).reset || (out.ttlMs == 1.0 && bounds(now).reset < now + 1.0)
  {
    var check := Checker(bounds, limit, idleTtl);
    var count := CountIn(next, bounds(now).start);
    forall n: nat | n >= 1 ensures UnitsFit(check, next, now, n) <==> n as real <= Left(limit, count) { LeftFits(limit, count, n); }
    assert t >= Ceil(bounds(now).reset) <==> t as real >= bounds(now).reset;
  }

  /** What was counted in any other period, earlier or later, does not matter. */
  lemma OtherPeriodForgotten(p: Period, limit: real, idleTtl: real, w: Window, now: real, cost: real)
    requires w.start != p.start
    ensures Alike(CheckIn(p, limit, idleTtl, Some(w), now, cost), CheckIn(p, limit, idleTtl, None, now, cost))
  {
  }
}
