/** The windowed token budget, local and fleet-shared: stop at the boundary, whatever the gateways' clocks say. */
module TokenBudget {
  import opened Numbers
  import opened Wrappers
  import opened Strategy

  datatype Options = Options(budget: real, windowMs: real) {
    predicate Valid() { budget >= 1.0 && windowMs > 0.0 }

    function Limit(): (l: int)
      requires Valid()
      ensures l >= 1 && l as real <= budget < l as real + 1.0
    {
      AtLeastOne(budget);
      Floor(budget)
    }
  }

  lemma AtLeastOne(x: real)
    requires x >= 1.0
    ensures Floor(x) >= 1
  {
  }

  type Config = o: Options | o.Valid() witness Options(1.0, 1.0)

  /** The active window's start and the tokens served in it by the whole fleet. */
  datatype Budget = Budget(w: real, s: nat)

  datatype Debit = Debit(at: real, tokens: nat)

  function Aligned(now: real, windowMs: real): real
    requires windowMs > 0.0
  {
    Floor(now / windowMs) as real * windowMs
  }

  /** rolled: the live window, a fresh one when the stored one is over. */
  function Rolled(c: Config, state: Option<Budget>, now: real): Budget {
    if state.None? || now >= state.value.w + c.windowMs then Budget(Aligned(now, c.windowMs), 0) else state.value
  }

  /** debitTransform */
  function DebitTransform(c: Config, state: Option<Budget>, now: real, tokens: nat): Outcome<Budget, Decision> {
    var live := Rolled(c, state, now);
    var resetAt := Ceil(live.w + c.windowMs) as real;
    if live.s >= c.Limit() then
      Outcome(state, Decision(false, c.Limit() as real, 0.0, resetAt, Max(0.0, Ceil(resetAt - now) as real)), c.windowMs, false)
    else
      Outcome(Some(Budget(live.w, live.s + tokens)),
              Decision(true, c.Limit() as real, Max(0.0, (c.Limit() - live.s - tokens) as real), resetAt, 0.0),
              Max(1.0, resetAt - now), true)
  }

  /** peekTransform: what is left, without writing. */
  function Peek(c: Config, state: Option<Budget>, now: real): int {
    var left := c.Limit() - Rolled(c, state, now).s;
    if left < 0 then 0 else left
  }

  // ---------------------------------------------------------------- runs of the fleet

  function After(c: Config, run: seq<Debit>): Option<Budget> {
    if run == [] then None
    else
      var before, d := After(c, run[..|run| - 1]), run[|run| - 1];
      var out := DebitTransform(c, before, d.at, d.tokens);
      if out.persist then out.state else before
  }

  /** An admitted debit under the label of its window. */
  datatype Charge = Charge(window: real, tokens: nat)

  function Charges(c: Config, run: seq<Debit>): seq<Charge> {
    if run == [] then []
    else
      var before, d := run[..|run| - 1], run[|run| - 1];
      var out := DebitTransform(c, After(c, before), d.at, d.tokens);
      Charges(c, before) + (if out.persist then [Charge(out.state.value.w, d.tokens)] else [])
  }

  function Under(charges: seq<Charge>, window: real): nat {
    if charges == [] then 0
    else Under(charges[..|charges| - 1], window) + (if charges[|charges| - 1].window == window then charges[|charges| - 1].tokens else 0)
  }

  /** The largest debit charged under a label, 0 when there is none. */
  function Largest(charges: seq<Charge>, window: real): (largest: nat)
    ensures forall i :: 0 <= i < |charges| && charges[i].window == window ==> charges[i].tokens <= largest
    ensures largest == 0 || exists i :: 0 <= i < |charges| && charges[i].window == window && charges[i].tokens == largest
  {
    if charges == [] then 0
    else
      var rest, x := Largest(charges[..|charges| - 1], window), charges[|charges| - 1];
      if x.window == window && x.tokens > rest then x.tokens else rest
  }

  ghost predicate IsLabel(w: real, windowMs: real) {
    exists k: int :: IsMultiple(w, windowMs, k)
  }

  ghost predicate IsMultiple(w: real, windowMs: real, k: int) { w == k as real * windowMs }

  /** A window that starts after a whole window has passed carries a later label. */
  lemma LabelAdvances(w: real, windowMs: real, now: real)
    requires windowMs > 0.0 && IsLabel(w, windowMs) && now >= w + windowMs
    ensures Aligned(now, windowMs) >= w + windowMs
  {
    var k: int :| IsMultiple(w, windowMs, k);
    var q := now / windowMs;
    assert q * windowMs == now;
    Distributes(k as real, 1.0, windowMs);
    assert q < (k + 1) as real ==> q * windowMs < (k + 1) as real * windowMs;
    assert Floor(q) >= k + 1;
    MulMono((k + 1) as real, Floor(q) as real, windowMs);
  }

  lemma AlignedIsLabel(now: real, windowMs: real)
    requires windowMs > 0.0
    ensures IsLabel(Aligned(now, windowMs), windowMs)
  {
    assert IsMultiple(Aligned(now, windowMs), windowMs, Floor(now / windowMs));
  }

  ghost predicate LabelsAscend(charges: seq<Charge>) {
    forall i, j :: 0 <= i < j < |charges| ==> charges[i].window <= charges[j].window
  }

  ghost predicate NoLaterThan(charges: seq<Charge>, window: real) {
    forall i :: 0 <= i < |charges| ==> charges[i].window <= window
  }

  /** Every label holds at most L - 1 plus its own largest debit. */
  ghost predicate LabelsBounded(charges: seq<Charge>, limit: int) {
    forall window: real :: Under(charges, window) <= limit - 1 + Largest(charges, window)
  }

  /** The stored count is what the latest label was charged. */
  ghost predicate Conserves(c: Config, state: Option<Budget>, charges: seq<Charge>) {
    if state.None? then charges == []
    else
      && IsLabel(state.value.w, c.windowMs) && NoLaterThan(charges, state.value.w)
      && state.value.s == Under(charges, state.value.w)
  }

  lemma {:induction false} NothingLater(charges: seq<Charge>, w: real, window: real)
    requires NoLaterThan(charges, w) && window > w
    ensures Under(charges, window) == 0
  {
    if charges != [] { NothingLater(charges[..|charges| - 1], w, window); }
  }

  lemma UnderStep(charges: seq<Charge>, x: Charge, window: real)
    ensures Under(charges + [x], window) == Under(charges, window) + (if x.window == window then x.tokens else 0)
  {
    assert (charges + [x])[..|charges|] == charges;
  }

  lemma LargestStep(charges: seq<Charge>, x: Charge, window: real)
    ensures Largest(charges + [x], window) >= Largest(charges, window)
    ensures x.window == window ==> Largest(charges + [x], window) >= x.tokens
  {
    assert (charges + [x])[..|charges|] == charges;
  }

  /** Rolling keeps the count true: a fresh window has not been charged yet. */
  lemma RolledConserves(c: Config, state: Option<Budget>, charges: seq<Charge>, now: real)
    requires Conserves(c, state, charges)
    ensures var live := Rolled(c, state, now);
      && IsLabel(live.w, c.windowMs) && NoLaterThan(charges, live.w) && live.s == Under(charges, live.w)
      && (state.Some? ==> live.w == state.value.w || live.w > state.value.w)
  {
    AlignedIsLabel(now, c.windowMs);
    if state.Some? && now >= state.value.w + c.windowMs {
      LabelAdvances(state.value.w, c.windowMs, now);
      NothingLater(charges, state.value.w, Aligned(now, c.windowMs));
    }
  }

  lemma ChargeKeeps(c: Config, charges: seq<Charge>, live: Budget, tokens: nat)
    requires IsLabel(live.w, c.windowMs) && NoLaterThan(charges, live.w) && live.s == Under(charges, live.w) && live.s < c.Limit()
    requires LabelsAscend(charges) && LabelsBounded(charges, c.Limit())
    ensures var after := charges + [Charge(live.w, tokens)];
      && LabelsAscend(after) && LabelsBounded(after, c.Limit()) && Conserves(c, Some(Budget(live.w, live.s + tokens)), after)
  {
    var x := Charge(live.w, tokens);
    forall window: real ensures Under(charges + [x], window) <= c.Limit() - 1 + Largest(charges + [x], window) {
      UnderStep(charges, x, window);
      LargestStep(charges, x, window);
    }
    UnderStep(charges, x, live.w);
  }

  lemma FleetStep(c: Config, run: seq<Debit>, before: seq<Debit>, d: Debit, live: Budget)
    requires run != [] && before == run[..|run| - 1] && d == run[|run| - 1] && live == Rolled(c, After(c, before), d.at)
    ensures After(c, run) == if live.s < c.Limit() then Some(Budget(live.w, live.s + d.tokens)) else After(c, before)
    ensures Charges(c, run) == if live.s < c.Limit() then Charges(c, before) + [Charge(live.w, d.tokens)] else Charges(c, before)
  {
  }

  lemma NothingCharged(c: Config)
    ensures LabelsAscend([]) && LabelsBounded([], c.Limit()) && Conserves(c, None, [])
  {
  }

  /**
   * Any gateways, any clocks, any order: window labels never go back, each label is charged at most L - 1 plus its own
   * largest debit, and the stored count is exactly what the current label was charged.
   */
  lemma {:induction false} FleetBound(c: Config, run: seq<Debit>)
    ensures LabelsAscend(Charges(c, run)) && LabelsBounded(Charges(c, run), c.Limit())
    ensures Conserves(c, After(c, run), Charges(c, run))
  {
    if run == [] {
      NothingCharged(c);
    } else {
      var before, d := run[..|run| - 1], run[|run| - 1];
      FleetBound(c, before);
      RolledConserves(c, After(c, before), Charges(c, before), d.at);
      var live := Rolled(c, After(c, before), d.at);
      FleetStep(c, run, before, d, live);
      if live.s < c.Limit() { ChargeKeeps(c, Charges(c, before), live, d.tokens); }
    }
  }

  ghost predicate UnitDebits(run: seq<Debit>) {
    forall i :: 0 <= i < |run| ==> run[i].tokens <= 1
  }

  lemma {:induction false} UnitsCharged(c: Config, run: seq<Debit>, window: real)
    requires UnitDebits(run)
    ensures Largest(Charges(c, run), window) <= 1
  {
    if run != [] {
      var before, d := run[..|run| - 1], run[|run| - 1];
      UnitsCharged(c, before, window);
      var live := Rolled(c, After(c, before), d.at);
      FleetStep(c, run, before, d, live);
      UnitStep(Charges(c, before), Charge(live.w, d.tokens), window);
    }
  }

  lemma UnitStep(charges: seq<Charge>, x: Charge, window: real)
    requires Largest(charges, window) <= 1 && x.tokens <= 1
    ensures Largest(charges + [x], window) <= 1
  {
    assert (charges + [x])[..|charges|] == charges;
  }

  /** Debiting token by token, no window ever exceeds the budget. */
  lemma PerTokenIsExact(c: Config, run: seq<Debit>, window: real)
    requires UnitDebits(run)
    ensures Under(Charges(c, run), window) as real <= c.budget
  {
    FleetBound(c, run);
    UnitsCharged(c, run, window);
  }

  /** A debit is refused exactly when its window has been charged the whole budget, and is otherwise charged to it. */
  lemma RefusedExactlyWhenSpent(c: Config, run: seq<Debit>, d: Debit)
    ensures var live := Rolled(c, After(c, run), d.at);
      DebitTransform(c, After(c, run), d.at, d.tokens).result.allowed <==> (Under(Charges(c, run), live.w) + 1) as real <= c.budget
  {
    FleetBound(c, run);
    RolledConserves(c, After(c, run), Charges(c, run), d.at);
    assert Under(Charges(c, run), Rolled(c, After(c, run), d.at).w) + 1 <= c.Limit()
      <==> (Under(Charges(c, run), Rolled(c, After(c, run), d.at).w) + 1) as real <= c.budget;
  }

  // ---------------------------------------------------------------- which window, and what is reported

  /**
   * The window of an instant: the stored one until it is over, whatever the clock says, and then the one of the instant, which
   * starts at a whole multiple of windowMs.
   */
  lemma WindowOf(c: Config, state: Option<Budget>, now: real)
    ensures var live := Rolled(c, state, now);
      if state.Some? && now < state.value.w + c.windowMs then live == state.value
      else live.s == 0 && IsLabel(live.w, c.windowMs) && live.w <= now < live.w + c.windowMs
  {
    AlignedIsLabel(now, c.windowMs);
    CellBounds(now, c.windowMs);
  }

  /** What is left of a window's budget after its charges. */
  function LeftOf(c: Config, charged: nat): int {
    if charged >= c.Limit() then 0 else c.Limit() - charged
  }

  /** peek reports what the charges leave of the window's budget, and something is left exactly when a debit is admitted. */
  lemma PeekIsLeft(c: Config, run: seq<Debit>, now: real, tokens: nat)
    ensures Peek(c, After(c, run), now) == LeftOf(c, Under(Charges(c, run), Rolled(c, After(c, run), now).w))
    ensures Peek(c, After(c, run), now) > 0 <==> DebitTransform(c, After(c, run), now, tokens).result.allowed
  {
    FleetBound(c, run);
    RolledConserves(c, After(c, run), Charges(c, run), now);
  }

  /**
   * A debit reports the budget, what is then left, and the first whole instant after its window, and what it writes is kept
   * until then, or for a millisecond where that is longer.
   */
  lemma ReportsExactly(c: Config, state: Option<Budget>, now: real, tokens: nat, t: int)
    ensures var out, live := DebitTransform(c, state, now, tokens), Rolled(c, state, now); var d := out.result;
      && d.limit == c.Limit() as real && (d.allowed ==> d.retryAfterMs == 0.0)
      && (d.allowed ==> d.remaining == Peek(c, out.state, now) as real) && (!d.allowed ==> d.remaining == 0.0)
      && (t as real >= d.resetAt <==> t as real >= live.w + c.windowMs)
      && (out.persist ==> out.ttlMs >= 1.0 && (out.ttlMs == 1.0 || now + out.ttlMs == d.resetAt))
  {
    WindowOf(c, state, now);
    var end := Rolled(c, state, now).w + c.windowMs;
    assert t >= Ceil(end) <==> t as real >= end;
  }

  /** A refused debit, asked again with the window unchanged, is admitted exactly once the window is over. */
  lemma RefusedUntilOver(c: Config, state: Option<Budget>, now: real, tokens: nat, later: real)
    requires !DebitTransform(c, state, now, tokens).result.allowed
    ensures state.Some? && now < state.value.w + c.windowMs
    ensures DebitTransform(c, state, later, tokens).result.allowed <==> later >= state.value.w + c.windowMs
  {
    WindowOf(c, state, now);
    WindowOf(c, state, later);
  }

  /** The hint is always enough, and at a whole instant it is the least whole wait. */
  lemma HintIsEnough(c: Config, state: Option<Budget>, now: real, tokens: nat, w: nat)
    requires !DebitTransform(c, state, now, tokens).result.allowed
    ensures var hint := DebitTransform(c, state, now, tokens).result.retryAfterMs;
      && hint >= 1.0 && DebitTransform(c, state, now + hint, tokens).result.allowed
      && (now == Floor(now) as real ==> (DebitTransform(c, state, now + w as real, tokens).result.allowed <==> w as real >= hint))
  {
    var hint := DebitTransform(c, state, now, tokens).result.retryAfterMs;
    RefusedUntilOver(c, state, now, tokens, now + hint);
    RefusedUntilOver(c, state, now, tokens, now + w as real);
    WholeWait(now, state.value.w + c.windowMs, w);
  }

  lemma WholeWait(now: real, end: real, w: nat)
    requires now < end
    ensures var hint := Ceil(Ceil(end) as real - now);
      hint >= 1 && now + hint as real >= end && (now == Floor(now) as real ==> (w >= hint <==> now + w as real >= end))
  {
    if now == Floor(now) as real {
      var n := Floor(now);
      assert Ceil(Ceil(end) as real - now) == Ceil(end) - n;
      assert n + w >= Ceil(end) <==> (n + w) as real >= end;
    }
  }

  // ---------------------------------------------------------------- the Redis scripts

  /** DISTRIBUTED_TOKEN_BUDGET_LUA on one key: the same answer and the same write as the transform. */
  method Script(c: Config, stored: Option<Budget>, now: real, tokens: nat)
    returns (reply: Decision, stored': Option<Budget>, px: Option<real>)
    ensures var out := DebitTransform(c, stored, now, tokens);
      reply == out.result && stored' == (if out.persist then out.state else stored) && (px.Some? <==> out.persist)
    ensures px.Some? ==> now + px.value >= stored'.value.w + c.windowMs && px.value >= 1.0
    ensures px.Some? ==> px.value == 1.0 || now + px.value < stored'.value.w + c.windowMs + 1.0
  {
    var served := if stored.Some? then Some(stored.value.s) else None;
    var windowStart := if stored.Some? then Some(stored.value.w) else None;
    if served.None? || windowStart.None? || now >= windowStart.value + c.windowMs {
      windowStart := Some(Aligned(now, c.windowMs));
      served := Some(0);
    }
    var resetAt := Ceil(windowStart.value + c.windowMs) as real;
    if served.value >= c.Limit() {
      var retry := Ceil(resetAt - now) as real;
      if retry < 0.0 { retry := 0.0; }
      return Decision(false, c.Limit() as real, 0.0, resetAt, retry), stored, None;
    }
    var newServed := served.value + tokens;
    var ms := Ceil(windowStart.value + c.windowMs - now) as real;
    if ms < 1.0 { ms := 1.0; }
    var remaining := (c.Limit() - newServed) as real;
    if remaining < 0.0 { remaining := 0.0; }
    return Decision(true, c.Limit() as real, remaining, resetAt, 0.0), Some(Budget(windowStart.value, newServed)), Some(ms);
  }

  method PeekScript(c: Config, stored: Option<Budget>, now: real) returns (remaining: int)
    ensures remaining == Peek(c, stored, now)
  {
    var served := if stored.Some? then stored.value.s else 0;
    if stored.None? || now >= stored.value.w + c.windowMs { served := 0; }
    remaining := c.Limit() - served;
    if remaining < 0 { remaining := 0; }
  }

  // ---------------------------------------------------------------- the single-gateway meter

  /** tokenBudget: no window yet stands for the initial start at minus infinity. */
  class Meter {
    const config: Config
    var windowStart: Option<real>
    var served: nat

    constructor (config: Config)
      ensures this.config == config && Stored() == None
    {
      this.config := config;
      windowStart, served := None, 0;
    }

    function Stored(): Option<Budget>
      reads this
    {
      if windowStart.Some? then Some(Budget(windowStart.value, served)) else None
    }

    method RollWindow(now: real)
      modifies this
      ensures Stored() == Some(Rolled(config, old(Stored()), now))
    {
      if windowStart.None? || now >= windowStart.value + config.windowMs {
        windowStart := Some(Aligned(now, config.windowMs));
        served := 0;
      }
    }

    /** Answers as the shared meter's debit does from the same state; a window once rolled to is kept even on refusal. */
    method DebitSync(now: real, tokens: nat) returns (d: Decision)
      modifies this
      ensures var out := DebitTransform(config, old(Stored()), now, tokens);
        d == out.result && Stored() == (if out.persist then out.state else Some(Rolled(config, old(Stored()), now)))
      ensures !d.allowed ==> Stored() == old(Stored())
    {
      RollWindow(now);
      var resetAt := Ceil(windowStart.value + config.windowMs) as real;
      if served >= config.Limit() {
        return Decision(false, config.Limit() as real, 0.0, resetAt, Max(0.0, Ceil(resetAt - now) as real));
      }
      served := served + tokens;
      return Decision(true, config.Limit() as real, Max(0.0, (config.Limit() - served) as real), resetAt, 0.0);
    }

    /** Reports what is left; rolling here changes no later answer while the clock does not go back. */
    method Remaining(now: real) returns (left: int)
      modifies this
      ensures left == Peek(config, old(Stored()), now)
      ensures forall later: real, tokens: nat :: later >= now ==>
        Alike(DebitTransform(config, Stored(), later, tokens), DebitTransform(config, old(Stored()), later, tokens))
    {
      ghost var before := Stored();
      RollWindow(now);
      left := if config.Limit() - served < 0 then 0 else config.Limit() - served;
      forall later: real, tokens: nat | later >= now
        ensures Alike(DebitTransform(config, Stored(), later, tokens), DebitTransform(config, before, later, tokens))
      {
        RollTwice(config, before, now, later);
      }
    }

    method Reset()
      modifies this
      ensures Stored() == None
    {
      windowStart, served := None, 0;
    }
  }

  lemma RollTwice(c: Config, state: Option<Budget>, now: real, later: real)
    requires now <= later
    ensures Rolled(c, Some(Rolled(c, state, now)), later) == Rolled(c, state, later)
  {
    if state.None? || now >= state.value.w + c.windowMs {
      SameCell(now, later, c.windowMs);
    }
  }

  lemma SameCell(now: real, later: real, w: real)
    requires w > 0.0 && now <= later
    ensures later < Aligned(now, w) + w ==> Aligned(later, w) == Aligned(now, w)
  {
    CellBounds(now, w);
    if later < Aligned(now, w) + w { CellIndex(later, w, Floor(now / w)); }
  }
}
