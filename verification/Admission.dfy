/**
 * Unified admission and the server's lease table as one transition system: admits interleaved at every await, lease
 * releases, heartbeats and sweeps, over a concurrency guard that counts the slots in use.
 */
module Admission {
  import opened Numbers
  import opened Wrappers
  import opened Strategy
  import F = Fused

  type Id = nat

  /** Shadow prices of the joint bid-price policy. */
  datatype Prices = Prices(rate: real, cost: real, conc: Option<real>)

  datatype Config = Config(conc: bool, rate: bool, cost: bool, fused: bool, leaseTtlMs: real)

  /** A request, with the bid prices in force when it enters: online refinement lets earlier calls move them. */
  datatype Ask = Ask(value: real, cost: real, hold: real, prices: Option<Prices>)

  /** The decisions one call has received so far. */
  datatype Snap = Snap(conc: Option<Decision>, rate: Option<Decision>, cost: Option<Decision>)

  /** combineSnapshot: axes not consulted count as allowing everything. */
  function Verdict(s: Snap): Decision {
    F.Combine(F.Combine(s.conc.GetOr(F.ALLOW_FULL), s.rate.GetOr(F.ALLOW_FULL)), s.cost.GetOr(F.ALLOW_FULL))
  }

  function DenyByPolicy(d: Decision): Decision { d.(allowed := false, remaining := 0.0, retryAfterMs := 0.0) }

  function Bid(p: Prices, ask: Ask): real {
    p.rate + p.cost * ask.cost + (if p.conc.Some? && ask.hold > 0.0 then p.conc.value * ask.hold else 0.0)
  }

  predicate Clears(ask: Ask) { ask.prices.None? || ask.value >= Bid(ask.prices.value, ask) }

  // ---------------------------------------------------------------- one call

  datatype Phase = AwaitRate | AwaitCost | AwaitFused | Granted | Minted(id: Id) | Denied | PolicyDenied | Threw

  /** A call's own state: where it stands, the slot it took, what its axes said and what it answered. */
  datatype Call = Call(phase: Phase, slot: Option<nat>, ask: Ask, snap: Snap, answer: Option<Decision>)

  /** What a limiter, or the fused script, came back with. */
  datatype Answer = One(d: Decision) | Both(rate: Decision, cost: Decision) | Failed

  predicate Awaiting(p: Phase) { p.AwaitRate? || p.AwaitCost? || p.AwaitFused? }

  predicate Expects(p: Phase, a: Answer) {
    Awaiting(p) && (a.Failed? || (if p.AwaitFused? then a.Both? else a.One?))
  }

  function Grant(call: Call): Call { call.(phase := Granted, answer := Some(Verdict(call.snap))) }

  function Deny(call: Call): Call { call.(phase := Denied, answer := Some(Verdict(call.snap))) }

  /** From the start of a call to its first await: concurrency has answered, then the bid-price policy decides. */
  function Enter(cfg: Config, ask: Ask, conc: Option<Decision>, slot: Option<nat>): Call {
    var call := Call(Denied, slot, ask, Snap(conc, None, None), None);
    if conc.Some? && !conc.value.allowed then call.(answer := conc)
    else if !Clears(ask) then call.(phase := PolicyDenied, answer := Some(DenyByPolicy(Verdict(call.snap))))
    else if cfg.fused then call.(phase := AwaitFused)
    else if cfg.rate then call.(phase := AwaitRate)
    else if cfg.cost then call.(phase := AwaitCost)
    else Grant(call)
  }

  /** From one await to the next. */
  function Resume(cfg: Config, call: Call, a: Answer): Call
    requires Expects(call.phase, a)
  {
    match a
    case Failed => call.(phase := Threw)
    case Both(rate, cost) =>
      var next := call.(snap := call.snap.(rate := Some(rate), cost := Some(cost)));
      if F.Combine(rate, cost).allowed then Grant(next) else Deny(next)
    case One(d) =>
      if call.phase.AwaitRate? then
        var next := call.(snap := call.snap.(rate := Some(d)));
        if !d.allowed then Deny(next) else if cfg.cost then next.(phase := AwaitCost) else Grant(next)
      else
        var next := call.(snap := call.snap.(cost := Some(d)));
        if !d.allowed then Deny(next) else Grant(next)
  }

  /** A call keeps its slot while it is being evaluated and until its grant becomes a lease. */
  predicate Holding(call: Call) { call.slot.Some? && (Awaiting(call.phase) || call.phase.Granted?) }

  // ---------------------------------------------------------------- what a call answers

  predicate Least(x: real, a: real, b: real, c: real) { x <= a && x <= b && x <= c && (x == a || x == b || x == c) }

  predicate Greatest(x: real, a: real, b: real, c: real) { x >= a && x >= b && x >= c && (x == a || x == b || x == c) }

  predicate Agrees(axis: Option<Decision>) { axis.Some? ==> axis.value.allowed }

  /** The scarcer limit and the later reset of the axes consulted. */
  predicate Frames(d: Decision, s: Snap) {
    var conc, rate, cost := s.conc.GetOr(F.ALLOW_FULL), s.rate.GetOr(F.ALLOW_FULL), s.cost.GetOr(F.ALLOW_FULL);
    Least(d.limit, conc.limit, rate.limit, cost.limit) && Greatest(d.resetAt, conc.resetAt, rate.resetAt, cost.resetAt)
  }

  /** All axes consulted, as one: every one of them must allow, the scarcer numbers show, and the longer waits. */
  predicate Gathers(d: Decision, s: Snap) {
    var conc, rate, cost := s.conc.GetOr(F.ALLOW_FULL), s.rate.GetOr(F.ALLOW_FULL), s.cost.GetOr(F.ALLOW_FULL);
    && (d.allowed <==> Agrees(s.conc) && Agrees(s.rate) && Agrees(s.cost)) && Frames(d, s)
    && Least(d.remaining, conc.remaining, rate.remaining, cost.remaining)
    && Greatest(d.retryAfterMs, conc.retryAfterMs, rate.retryAfterMs, cost.retryAfterMs)
  }

  lemma VerdictGathers(s: Snap)
    ensures Gathers(Verdict(s), s)
  {
  }

  /** A request's value covers the shadow prices of what it uses; a hold is charged only if it is positive. */
  predicate Covers(p: Prices, ask: Ask) {
    ask.value >= p.rate + p.cost * ask.cost + (if p.conc.Some? && ask.hold > 0.0 then p.conc.value * ask.hold else 0.0)
  }

  /** Concurrency was asked if configured and let the call through, and so did the bid-price policy. */
  predicate PastGate(cfg: Config, call: Call) {
    && call.snap.conc.Some? == cfg.conc && Agrees(call.snap.conc)
    && (call.ask.prices.Some? ==> Covers(call.ask.prices.value, call.ask))
  }

  predicate Unasked(s: Snap) { s.rate.None? && s.cost.None? }

  /** Every configured axis was asked and allowed. */
  predicate AllAllowed(cfg: Config, s: Snap) {
    && s.rate.Some? == (cfg.fused || cfg.rate) && s.cost.Some? == (cfg.fused || cfg.cost)
    && Agrees(s.conc) && Agrees(s.rate) && Agrees(s.cost)
  }

  /** The axes are asked in order, the fused ones together, until one denies. */
  predicate DeniedInOrder(cfg: Config, s: Snap) {
    if cfg.fused then s.rate.Some? && s.cost.Some? && !(s.rate.value.allowed && s.cost.value.allowed)
    else if s.cost.Some? then cfg.cost && !s.cost.value.allowed && s.rate.Some? == cfg.rate && Agrees(s.rate)
    else cfg.rate && s.rate.Some? && !s.rate.value.allowed
  }

  /** What each phase of a call means, in terms of its request and of what its axes said. */
  predicate AnsweredRightly(cfg: Config, call: Call) {
    var s := call.snap;
    match call.phase
    case AwaitFused => PastGate(cfg, call) && cfg.fused && Unasked(s)
    case AwaitRate => PastGate(cfg, call) && !cfg.fused && cfg.rate && Unasked(s)
    case AwaitCost => PastGate(cfg, call) && !cfg.fused && cfg.cost && s.rate.Some? == cfg.rate && Agrees(s.rate) && s.cost.None?
    case Granted => PastGate(cfg, call) && AllAllowed(cfg, s) && call.answer.Some? && Gathers(call.answer.value, s)
    case Minted(_) => PastGate(cfg, call) && AllAllowed(cfg, s) && call.answer.Some? && Gathers(call.answer.value, s)
    case Denied =>
      if s.conc.Some? && !s.conc.value.allowed then call.answer == s.conc && Unasked(s)
      else PastGate(cfg, call) && DeniedInOrder(cfg, s) && call.answer.Some? && Gathers(call.answer.value, s)
    case PolicyDenied =>
      && s.conc.Some? == cfg.conc && Agrees(s.conc) && Unasked(s)
      && call.ask.prices.Some? && !Covers(call.ask.prices.value, call.ask)
      && call.answer.Some? && Frames(call.answer.value, s)
      && !call.answer.value.allowed && call.answer.value.remaining == 0.0 && call.answer.value.retryAfterMs == 0.0
    case Threw => true
  }

  predicate AllRight(cfg: Config, calls: seq<Call>) {
    forall k :: 0 <= k < |calls| ==> AnsweredRightly(cfg, calls[k])
  }

  lemma EnterAnswers(cfg: Config, ask: Ask, conc: Option<Decision>, slot: Option<nat>)
    requires conc.Some? == cfg.conc
    ensures AnsweredRightly(cfg, Enter(cfg, ask, conc, slot))
  {
    VerdictGathers(Snap(conc, None, None));
  }

  lemma ResumeAnswers(cfg: Config, call: Call, a: Answer)
    requires AnsweredRightly(cfg, call) && Expects(call.phase, a)
    ensures AnsweredRightly(cfg, Resume(cfg, call, a))
  {
    VerdictGathers(Resume(cfg, call, a).snap);
  }

  // ---------------------------------------------------------------- the guard

  /** The slots ever granted, and how many of them are in use. */
  datatype Guard = Guard(inflight: int, released: seq<bool>)

  function Acquired(g: Guard): Guard { Guard(g.inflight + 1, g.released + [false]) }

  /** A lease's release: a second one is ignored, and without a slot there is nothing to return. */
  function ReleaseSlot(g: Guard, slot: Option<nat>): Guard
    requires slot.Some? ==> slot.value < |g.released|
  {
    if slot.None? || g.released[slot.value] then g else Guard(g.inflight - 1, g.released[slot.value := true])
  }

  // ---------------------------------------------------------------- the system

  datatype Lease = Lease(id: Id, slot: Option<nat>, expiresAt: real)

  /** Who has to return a slot. */
  datatype Owner = ByCall(k: nat) | ByLease(id: Id) | Nobody

  /** Leases in insertion order; lastSnap is what lastDecisions reports. */
  datatype State = State(guard: Guard, owners: seq<Owner>, calls: seq<Call>, leases: seq<Lease>, lastSnap: Snap)

  datatype Step =
    | Admit(ask: Ask, ceiling: nat, limit: real, now: real, retry: real)
    | Answered(call: nat, answer: Answer)
    | Mint(granted: nat, id: Id, at: real)
    | Release(lease: Id)
    | Heartbeat(ids: seq<Id>, when: real)
    | Sweep(due: real)

  const INITIAL := State(Guard(0, []), [], [], [], Snap(None, None, None))

  function FindLease(leases: seq<Lease>, id: Id): (at: Option<nat>)
    ensures at.Some? ==> at.value < |leases| && leases[at.value].id == id
    ensures at.None? ==> forall i :: 0 <= i < |leases| ==> leases[i].id != id
  {
    if leases == [] then None
    else
      var n := |leases| - 1;
      if leases[n].id == id then Some(n) else FindLease(leases[..n], id)
  }

  predicate Enabled(s: State, step: Step) {
    match step
    case Answered(k, a) => k < |s.calls| && Expects(s.calls[k].phase, a)
    case Mint(k, id, _) => k < |s.calls| && s.calls[k].phase.Granted? && FindLease(s.leases, id).None?
    case _ => true
  }

  /** What the concurrency shim makes of an acquire. */
  function ConcDecision(ok: bool, limit: real, inflight: int, now: real, retry: real): Decision {
    if ok then Decision(true, limit, Max(0.0, limit - inflight as real), now, 0.0)
    else Decision(false, limit, 0.0, now, Max(1.0, retry))
  }

  function Finished(call: Call): bool { !Awaiting(call.phase) && !call.phase.Threw? }

  /** Every owner's slot is a slot of the guard. */
  predicate Slotted(s: State) {
    && |s.owners| == |s.guard.released|
    && (forall k :: 0 <= k < |s.calls| ==> s.calls[k].slot.Some? ==> s.calls[k].slot.value < |s.owners|)
    && (forall i :: 0 <= i < |s.leases| ==> s.leases[i].slot.Some? ==> s.leases[i].slot.value < |s.owners|)
  }

  /** A call's next state is stored; a slot it stops holding without a grant goes back to the guard. */
  function Settle(s: State, k: nat, call: Call): State
    requires k <= |s.calls| && Slotted(s) && (call.slot.Some? ==> call.slot.value < |s.owners|)
  {
    var calls := s.calls[..k] + [call] + (if k < |s.calls| then s.calls[k + 1..] else []);
    var guard := if Holding(call) then s.guard else ReleaseSlot(s.guard, call.slot);
    var owners := if Holding(call) || call.slot.None? then s.owners else s.owners[call.slot.value := Nobody];
    State(guard, owners, calls, s.leases, if Finished(call) then call.snap else s.lastSnap)
  }

  function ApplyAdmit(cfg: Config, s: State, ask: Ask, ceiling: nat, limit: real, now: real, retry: real): State
    requires Slotted(s)
  {
    var k := |s.calls|;
    if !cfg.conc then Settle(s, k, Enter(cfg, ask, None, None))
    else if s.guard.inflight >= ceiling then
      Settle(s, k, Enter(cfg, ask, Some(ConcDecision(false, limit, s.guard.inflight, now, retry)), None))
    else
      var taken := s.(guard := Acquired(s.guard), owners := s.owners + [ByCall(k)]);
      Settle(taken, k, Enter(cfg, ask, Some(ConcDecision(true, limit, s.guard.inflight + 1, now, retry)), Some(|s.owners|)))
  }

  /** A granted admission becomes a lease, which now holds the slot. */
  function ApplyMint(cfg: Config, s: State, k: nat, id: Id, now: real): State
    requires Slotted(s) && k < |s.calls|
  {
    var call := s.calls[k];
    s.(calls := s.calls[k := call.(phase := Minted(id))],
       owners := if call.slot.Some? then s.owners[call.slot.value := ByLease(id)] else s.owners,
       leases := s.leases + [Lease(id, call.slot, now + cfg.leaseTtlMs)])
  }

  function Without(leases: seq<Lease>, i: nat): seq<Lease>
    requires i < |leases|
  {
    leases[..i] + leases[i + 1..]
  }

  /** Lease i gives its slot back and leaves the table. */
  function Drop(s: State, i: nat): State
    requires Slotted(s) && i < |s.leases|
  {
    var slot := s.leases[i].slot;
    s.(guard := ReleaseSlot(s.guard, slot),
       owners := if slot.Some? then s.owners[slot.value := Nobody] else s.owners,
       leases := Without(s.leases, i))
  }

  function Renewed(leases: seq<Lease>, ids: seq<Id>, expiresAt: real): (r: seq<Lease>)
    ensures |r| == |leases|
    ensures forall i :: 0 <= i < |r| ==> r[i] == if leases[i].id in ids then leases[i].(expiresAt := expiresAt) else leases[i]
  {
    seq(|leases|, i requires 0 <= i < |leases| => if leases[i].id in ids then leases[i].(expiresAt := expiresAt) else leases[i])
  }

  /** The sweep from table position i on: every expired lease is dropped. */
  function SweepFrom(s: State, i: nat, now: real): State
    requires Slotted(s) && i <= |s.leases|
    decreases |s.leases| - i
  {
    if i == |s.leases| then s
    else if s.leases[i].expiresAt <= now then SweepFrom(Drop(s, i), i, now)
    else SweepFrom(s, i + 1, now)
  }

  function Apply(cfg: Config, s: State, step: Step): State
    requires Slotted(s) && Enabled(s, step)
  {
    match step
    case Admit(ask, ceiling, limit, now, retry) => ApplyAdmit(cfg, s, ask, ceiling, limit, now, retry)
    case Answered(k, a) => Settle(s, k, Resume(cfg, s.calls[k], a))
    case Mint(k, id, now) => ApplyMint(cfg, s, k, id, now)
    case Release(id) =>
      var at := FindLease(s.leases, id);
      if at.Some? then Drop(s, at.value) else s
    case Heartbeat(ids, now) => s.(leases := Renewed(s.leases, ids, now + cfg.leaseTtlMs))
    case Sweep(now) => SweepFrom(s, 0, now)
  }

  // ---------------------------------------------------------------- what every step keeps

  function HeldByCalls(calls: seq<Call>): nat {
    if calls == [] then 0 else HeldByCalls(calls[..|calls| - 1]) + (if Holding(calls[|calls| - 1]) then 1 else 0)
  }

  function HeldByLeases(leases: seq<Lease>): nat {
    if leases == [] then 0 else HeldByLeases(leases[..|leases| - 1]) + (if leases[|leases| - 1].slot.Some? then 1 else 0)
  }

  ghost predicate CallsOwn(s: State) {
    forall k: nat :: k < |s.calls| && Holding(s.calls[k]) ==>
      s.calls[k].slot.value < |s.owners| && s.owners[s.calls[k].slot.value] == ByCall(k)
  }

  ghost predicate LeasesOwn(s: State) {
    forall i: nat :: i < |s.leases| && s.leases[i].slot.Some? ==>
      s.leases[i].slot.value < |s.owners| && s.owners[s.leases[i].slot.value] == ByLease(s.leases[i].id)
  }

  /** A slot's recorded owner is a call that still holds it, or a live lease; a slot without one has been returned. */
  ghost predicate OwnedRightly(s: State, slot: nat)
    requires slot < |s.owners| && |s.owners| == |s.guard.released|
  {
    match s.owners[slot]
    case ByCall(k) => !s.guard.released[slot] && k < |s.calls| && Holding(s.calls[k]) && s.calls[k].slot == Some(slot)
    case ByLease(id) => !s.guard.released[slot] && exists i :: 0 <= i < |s.leases| && s.leases[i].id == id && s.leases[i].slot == Some(slot)
    case Nobody => s.guard.released[slot]
  }

  ghost predicate DistinctIds(leases: seq<Lease>) {
    forall i, j :: 0 <= i < j < |leases| ==> leases[i].id != leases[j].id
  }

  ghost predicate Inv(s: State) {
    && Slotted(s) && CallsOwn(s) && LeasesOwn(s) && DistinctIds(s.leases)
    && (forall slot: nat :: slot < |s.owners| ==> OwnedRightly(s, slot))
    && s.guard.inflight == HeldByCalls(s.calls) + HeldByLeases(s.leases)
  }

  lemma {:induction false} HeldUpdate(calls: seq<Call>, k: nat, call: Call)
    requires k < |calls|
    ensures HeldByCalls(calls[k := call]) + (if Holding(calls[k]) then 1 else 0) == HeldByCalls(calls) + (if Holding(call) then 1 else 0)
  {
    var n := |calls| - 1;
    if k < n {
      HeldUpdate(calls[..n], k, call);
      assert calls[k := call][..n] == calls[..n][k := call];
    } else {
      assert calls[k := call][..n] == calls[..n];
    }
  }

  lemma HeldAppend(calls: seq<Call>, call: Call)
    ensures HeldByCalls(calls + [call]) == HeldByCalls(calls) + (if Holding(call) then 1 else 0)
  {
    assert (calls + [call])[..|calls|] == calls;
  }

  lemma LeaseAppend(leases: seq<Lease>, lease: Lease)
    ensures HeldByLeases(leases + [lease]) == HeldByLeases(leases) + (if lease.slot.Some? then 1 else 0)
  {
    assert (leases + [lease])[..|leases|] == leases;
  }

  lemma {:induction false} LeaseWithout(leases: seq<Lease>, i: nat)
    requires i < |leases|
    ensures HeldByLeases(Without(leases, i)) + (if leases[i].slot.Some? then 1 else 0) == HeldByLeases(leases)
  {
    var n := |leases| - 1;
    if i < n {
      LeaseWithout(leases[..n], i);
      assert Without(leases, i)[..n - 1] == Without(leases[..n], i);
    } else {
      assert Without(leases, i) == leases[..n];
    }
  }

  lemma {:induction false} LeaseSlotsSame(a: seq<Lease>, b: seq<Lease>)
    requires |a| == |b| && forall i :: 0 <= i < |a| ==> a[i].slot == b[i].slot
    ensures HeldByLeases(a) == HeldByLeases(b)
  {
    if a != [] { LeaseSlotsSame(a[..|a| - 1], b[..|b| - 1]); }
  }

  // ---------------------------------------------------------------- each step keeps the invariant

  /** Returning a slot that its one holder gives up. */
  lemma ReturnsOne(g: Guard, slot: Option<nat>)
    requires slot.Some? ==> slot.value < |g.released| && !g.released[slot.value]
    ensures ReleaseSlot(g, slot).inflight == g.inflight - (if slot.Some? then 1 else 0)
    ensures slot.Some? ==> ReleaseSlot(g, slot).released == g.released[slot.value := true]
  {
  }

  lemma SettleShape(s: State, k: nat, call: Call)
    requires k < |s.calls| && Slotted(s) && (call.slot.Some? ==> call.slot.value < |s.owners|)
    ensures Settle(s, k, call).calls == s.calls[k := call]
  {
  }

  /** A call that was awaiting moves on: it keeps its slot, or gives it back. */
  lemma SettleKeepsInv(s: State, k: nat, call: Call)
    requires Inv(s) && k < |s.calls| && Awaiting(s.calls[k].phase) && call.slot == s.calls[k].slot
    ensures Inv(Settle(s, k, call))
  {
    SettleShape(s, k, call);
    HeldUpdate(s.calls, k, call);
    var t := Settle(s, k, call);
    if call.slot.Some? {
      assert OwnedRightly(s, call.slot.value);
      ReturnsOne(s.guard, call.slot);
    }
    forall slot: nat | slot < |t.owners| ensures OwnedRightly(t, slot) { assert OwnedRightly(s, slot); }
  }

  lemma ResumeKeepsSlot(cfg: Config, call: Call, a: Answer)
    requires Expects(call.phase, a)
    ensures Resume(cfg, call, a).slot == call.slot && Resume(cfg, call, a).ask == call.ask
    ensures Resume(cfg, call, a).snap.conc == call.snap.conc
  {
  }

  /** A new call without a slot. */
  lemma EnterKeepsInv(s: State, call: Call)
    requires Inv(s) && call.slot.None?
    ensures Inv(Settle(s, |s.calls|, call))
  {
    HeldAppend(s.calls, call);
    var t := Settle(s, |s.calls|, call);
    assert t.calls == s.calls + [call];
    forall slot: nat | slot < |t.owners| ensures OwnedRightly(t, slot) { assert OwnedRightly(s, slot); }
  }

  function Taken(s: State): State {
    s.(guard := Acquired(s.guard), owners := s.owners + [ByCall(|s.calls|)])
  }

  /** A new call that took a slot: it holds it, or has already given it back. */
  lemma AcquireKeepsInv(s: State, call: Call)
    requires Inv(s) && call.slot == Some(|s.owners|)
    ensures Slotted(Taken(s)) && Inv(Settle(Taken(s), |s.calls|, call))
  {
    HeldAppend(s.calls, call);
    var u, t := Taken(s), Settle(Taken(s), |s.calls|, call);
    assert t.calls == s.calls + [call];
    ReturnsOne(u.guard, call.slot);
    forall slot: nat | slot < |t.owners| ensures OwnedRightly(t, slot) {
      if slot < |s.owners| { assert OwnedRightly(s, slot); }
    }
  }

  lemma AdmitKeepsInv(cfg: Config, s: State, ask: Ask, ceiling: nat, limit: real, now: real, retry: real)
    requires Inv(s)
    ensures Inv(ApplyAdmit(cfg, s, ask, ceiling, limit, now, retry))
  {
    if !cfg.conc {
      EnterKeepsInv(s, Enter(cfg, ask, None, None));
    } else if s.guard.inflight >= ceiling {
      EnterKeepsInv(s, Enter(cfg, ask, Some(ConcDecision(false, limit, s.guard.inflight, now, retry)), None));
    } else {
      AcquireKeepsInv(s, Enter(cfg, ask, Some(ConcDecision(true, limit, s.guard.inflight + 1, now, retry)), Some(|s.owners|)));
    }
  }

  /** A grant's slot passes from the call to the lease. */
  lemma MintKeepsInv(cfg: Config, s: State, k: nat, id: Id, now: real)
    requires Inv(s) && k < |s.calls| && s.calls[k].phase.Granted? && FindLease(s.leases, id).None?
    ensures Inv(ApplyMint(cfg, s, k, id, now))
  {
    var t := ApplyMint(cfg, s, k, id, now);
    HeldUpdate(s.calls, k, t.calls[k]);
    LeaseAppend(s.leases, Lease(id, s.calls[k].slot, now + cfg.leaseTtlMs));
    MintOwners(s, t, k, id);
  }

  lemma MintOwners(s: State, t: State, k: nat, id: Id)
    requires Inv(s) && k < |s.calls| && s.calls[k].phase.Granted?
    requires t.guard == s.guard && t.calls == s.calls[k := s.calls[k].(phase := Minted(id))]
    requires t.owners == if s.calls[k].slot.Some? then s.owners[s.calls[k].slot.value := ByLease(id)] else s.owners
    requires |t.leases| == |s.leases| + 1 && t.leases[..|s.leases|] == s.leases
    requires t.leases[|s.leases|].id == id && t.leases[|s.leases|].slot == s.calls[k].slot
    ensures forall slot: nat :: slot < |t.owners| ==> OwnedRightly(t, slot)
  {
    forall slot: nat | slot < |t.owners| ensures OwnedRightly(t, slot) {
      assert OwnedRightly(s, slot);
      if s.owners[slot].ByLease? {
        var i :| 0 <= i < |s.leases| && s.leases[i].id == s.owners[slot].id && s.leases[i].slot == Some(slot);
        assert t.leases[..|s.leases|][i] == s.leases[i];
      }
    }
  }

  lemma WithoutAt(leases: seq<Lease>, i: nat, j: nat) returns (m: nat)
    requires i < |leases| && j < |leases| - 1
    ensures m < |leases| && m != i && Without(leases, i)[j] == leases[m] && m == if j < i then j else j + 1
  {
    m := if j < i then j else j + 1;
  }

  lemma WithoutDistinct(leases: seq<Lease>, i: nat)
    requires DistinctIds(leases) && i < |leases|
    ensures DistinctIds(Without(leases, i))
    ensures forall j :: 0 <= j < |leases| && j != i ==> leases[j] in Without(leases, i)
    ensures forall l :: l in Without(leases, i) ==> l in leases && l.id != leases[i].id
  {
    var rest := Without(leases, i);
    forall a, b | 0 <= a < b < |rest| ensures rest[a].id != rest[b].id {
      var m := WithoutAt(leases, i, a);
      var n := WithoutAt(leases, i, b);
    }
    forall j | 0 <= j < |leases| && j != i ensures leases[j] in rest {
      assert rest[if j < i then j else j - 1] == leases[j];
    }
    forall l | l in rest ensures l in leases && l.id != leases[i].id {
      var j :| 0 <= j < |rest| && rest[j] == l;
      var m := WithoutAt(leases, i, j);
    }
  }

  lemma DropOwners(s: State, i: nat, t: State)
    requires Inv(s) && i < |s.leases| && t == Drop(s, i)
    ensures forall slot: nat :: slot < |t.owners| ==> OwnedRightly(t, slot)
  {
    WithoutDistinct(s.leases, i);
    var mine := s.leases[i].slot;
    if mine.Some? {
      assert OwnedRightly(s, mine.value);
      ReturnsOne(s.guard, mine);
    }
    forall slot: nat | slot < |t.owners| ensures OwnedRightly(t, slot) {
      assert OwnedRightly(s, slot);
      if mine != Some(slot) && s.owners[slot].ByLease? {
        var j :| 0 <= j < |s.leases| && s.leases[j].id == s.owners[slot].id && s.leases[j].slot == Some(slot);
        assert j != i;
        assert s.leases[j] in t.leases;
      }
    }
  }

  lemma DropLeases(s: State, i: nat, t: State)
    requires Inv(s) && i < |s.leases| && t == Drop(s, i)
    ensures LeasesOwn(t) && CallsOwn(t) && Slotted(t)
  {
    WithoutDistinct(s.leases, i);
    var mine := s.leases[i].slot;
    forall j: nat | j < |t.leases| && t.leases[j].slot.Some?
      ensures t.leases[j].slot.value < |t.owners| && t.owners[t.leases[j].slot.value] == ByLease(t.leases[j].id)
    {
      var m := WithoutAt(s.leases, i, j);
      assert s.leases[m].id != s.leases[i].id;
    }
  }

  /** A released or expired lease gives its slot back. */
  lemma DropKeepsInv(s: State, i: nat)
    requires Inv(s) && i < |s.leases|
    ensures Inv(Drop(s, i))
  {
    var t := Drop(s, i);
    WithoutDistinct(s.leases, i);
    LeaseWithout(s.leases, i);
    DropOwners(s, i, t);
    DropLeases(s, i, t);
    if s.leases[i].slot.Some? {
      assert OwnedRightly(s, s.leases[i].slot.value);
      ReturnsOne(s.guard, s.leases[i].slot);
    }
  }

  lemma RenewKeepsInv(s: State, ids: seq<Id>, expiresAt: real)
    requires Inv(s)
    ensures Inv(s.(leases := Renewed(s.leases, ids, expiresAt)))
  {
    var t := s.(leases := Renewed(s.leases, ids, expiresAt));
    LeaseSlotsSame(s.leases, t.leases);
    forall slot: nat | slot < |t.owners| ensures OwnedRightly(t, slot) {
      assert OwnedRightly(s, slot);
      if s.owners[slot].ByLease? {
        var i :| 0 <= i < |s.leases| && s.leases[i].id == s.owners[slot].id && s.leases[i].slot == Some(slot);
        assert t.leases[i].id == s.leases[i].id && t.leases[i].slot == s.leases[i].slot;
      }
    }
  }

  lemma {:induction false} SweepKeepsInv(s: State, i: nat, now: real)
    requires Inv(s) && i <= |s.leases|
    ensures Inv(SweepFrom(s, i, now))
    decreases |s.leases| - i
  {
    if i < |s.leases| {
      if s.leases[i].expiresAt <= now {
        DropKeepsInv(s, i);
        SweepKeepsInv(Drop(s, i), i, now);
      } else {
        SweepKeepsInv(s, i + 1, now);
      }
    }
  }

  /** Every step keeps: in use are exactly the slots of admits being evaluated and of live leases, each owned once. */
  lemma StepKeepsInv(cfg: Config, s: State, step: Step)
    requires Inv(s) && Enabled(s, step)
    ensures Inv(Apply(cfg, s, step))
  {
    match step
    case Admit(ask, ceiling, limit, now, retry) => AdmitKeepsInv(cfg, s, ask, ceiling, limit, now, retry);
    case Answered(k, a) =>
      ResumeKeepsSlot(cfg, s.calls[k], a);
      SettleKeepsInv(s, k, Resume(cfg, s.calls[k], a));
    case Mint(k, id, now) => MintKeepsInv(cfg, s, k, id, now);
    case Release(id) =>
      var at := FindLease(s.leases, id);
      if at.Some? { DropKeepsInv(s, at.value); }
    case Heartbeat(ids, now) => RenewKeepsInv(s, ids, now + cfg.leaseTtlMs);
    case Sweep(now) => SweepKeepsInv(s, 0, now);
  }
}
