/** Properties of whole runs of the admission system: nothing leaks, nothing is reclaimed early, calls do not interfere. */
module AdmissionRuns {
  import opened Numbers
  import opened Wrappers
  import opened Strategy
  import opened Admission

  /** The state after a run, if each of its steps was possible. */
  ghost function Play(cfg: Config, steps: seq<Step>): (s: Option<State>)
    ensures s.Some? ==> Inv(s.value)
  {
    if steps == [] then Some(INITIAL)
    else
      var before, step := Play(cfg, steps[..|steps| - 1]), steps[|steps| - 1];
      if before.Some? && Enabled(before.value, step) then
        StepKeepsInv(cfg, before.value, step);
        Some(Apply(cfg, before.value, step))
      else None
  }

  /** Over every interleaving, in use are exactly the admits holding a slot and the live leases that took one over. */
  lemma InflightIsHeld(cfg: Config, steps: seq<Step>)
    requires Play(cfg, steps).Some?
    ensures var s := Play(cfg, steps).value; s.guard.inflight == HeldByCalls(s.calls) + HeldByLeases(s.leases)
  {
  }

  // ---------------------------------------------------------------- each slot is returned once

  function InUse(released: seq<bool>): nat {
    if released == [] then 0 else InUse(released[..|released| - 1]) + (if released[|released| - 1] then 0 else 1)
  }

  lemma {:induction false} InUseReturn(released: seq<bool>, i: nat)
    requires i < |released|
    ensures InUse(released[i := true]) == InUse(released) - (if released[i] then 0 else 1)
  {
    var n := |released| - 1;
    if i < n {
      InUseReturn(released[..n], i);
      assert released[i := true][..n] == released[..n][i := true];
    } else {
      assert released[i := true][..n] == released[..n];
    }
  }

  ghost predicate Counted(g: Guard) { g.inflight == InUse(g.released) }

  /** What was returned stays returned, and the slots granted so far keep their places. */
  ghost predicate Onward(before: Guard, after: Guard) {
    && |before.released| <= |after.released|
    && (forall i :: 0 <= i < |before.released| && before.released[i] ==> after.released[i])
  }

  lemma ReturnCounts(g: Guard, slot: Option<nat>)
    requires Counted(g) && (slot.Some? ==> slot.value < |g.released|)
    ensures Counted(ReleaseSlot(g, slot)) && Onward(g, ReleaseSlot(g, slot))
  {
    if slot.Some? { InUseReturn(g.released, slot.value); }
  }

  lemma AcquireCounts(g: Guard)
    requires Counted(g)
    ensures Counted(Acquired(g)) && Onward(g, Acquired(g))
  {
    assert (g.released + [false])[..|g.released|] == g.released;
  }

  lemma OnwardTwice(a: Guard, b: Guard, c: Guard)
    requires Onward(a, b) && Onward(b, c)
    ensures Onward(a, c)
  {
  }

  lemma SettleCounts(s: State, k: nat, call: Call)
    requires k <= |s.calls| && Slotted(s) && (call.slot.Some? ==> call.slot.value < |s.owners|) && Counted(s.guard)
    ensures Counted(Settle(s, k, call).guard) && Onward(s.guard, Settle(s, k, call).guard)
  {
    ReturnCounts(s.guard, call.slot);
  }

  lemma {:induction false} SweepCounts(s: State, i: nat, now: real)
    requires Inv(s) && Counted(s.guard) && i <= |s.leases|
    ensures Counted(SweepFrom(s, i, now).guard) && Onward(s.guard, SweepFrom(s, i, now).guard)
    decreases |s.leases| - i
  {
    if i < |s.leases| {
      if s.leases[i].expiresAt <= now {
        DropKeepsInv(s, i);
        ReturnCounts(s.guard, s.leases[i].slot);
        SweepCounts(Drop(s, i), i, now);
        OnwardTwice(s.guard, Drop(s, i).guard, SweepFrom(s, i, now).guard);
      } else {
        SweepCounts(s, i + 1, now);
      }
    }
  }

  lemma AdmitCounts(cfg: Config, s: State, ask: Ask, ceiling: nat, limit: real, now: real, retry: real)
    requires Inv(s) && Counted(s.guard)
    ensures Counted(ApplyAdmit(cfg, s, ask, ceiling, limit, now, retry).guard)
    ensures Onward(s.guard, ApplyAdmit(cfg, s, ask, ceiling, limit, now, retry).guard)
  {
    if !cfg.conc {
      SettleCounts(s, |s.calls|, Enter(cfg, ask, None, None));
    } else if s.guard.inflight >= ceiling {
      SettleCounts(s, |s.calls|, Enter(cfg, ask, Some(ConcDecision(false, limit, s.guard.inflight, now, retry)), None));
    } else {
      var call := Enter(cfg, ask, Some(ConcDecision(true, limit, s.guard.inflight + 1, now, retry)), Some(|s.owners|));
      AcquireKeepsInv(s, call);
      TakenCounts(s, Taken(s), call);
    }
  }

  lemma TakenCounts(s: State, taken: State, call: Call)
    requires Counted(s.guard) && taken == Taken(s) && Slotted(taken) && (call.slot.Some? ==> call.slot.value < |taken.owners|)
    ensures Counted(Settle(taken, |s.calls|, call).guard) && Onward(s.guard, Settle(taken, |s.calls|, call).guard)
  {
    AcquireCounts(s.guard);
    SettleCounts(taken, |s.calls|, call);
    OnwardTwice(s.guard, taken.guard, Settle(taken, |s.calls|, call).guard);
  }

  lemma StepCounts(cfg: Config, s: State, step: Step)
    requires Inv(s) && Enabled(s, step) && Counted(s.guard)
    ensures Counted(Apply(cfg, s, step).guard) && Onward(s.guard, Apply(cfg, s, step).guard)
  {
    match step
    case Admit(ask, ceiling, limit, now, retry) => AdmitCounts(cfg, s, ask, ceiling, limit, now, retry);
    case Answered(k, a) =>
      ResumeKeepsSlot(cfg, s.calls[k], a);
      SettleCounts(s, k, Resume(cfg, s.calls[k], a));
    case Mint(k, id, now) =>
    case Release(id) =>
      var at := FindLease(s.leases, id);
      if at.Some? { ReturnCounts(s.guard, s.leases[at.value].slot); }
    case Heartbeat(ids, now) =>
    case Sweep(now) => SweepCounts(s, 0, now);
  }

  /** The count in use is the number of slots not yet returned: no slot is ever returned twice. */
  lemma {:induction false} ReturnedOnce(cfg: Config, steps: seq<Step>)
    requires Play(cfg, steps).Some?
    ensures Counted(Play(cfg, steps).value.guard)
  {
    if steps != [] {
      ReturnedOnce(cfg, steps[..|steps| - 1]);
      StepCounts(cfg, Play(cfg, steps[..|steps| - 1]).value, steps[|steps| - 1]);
    }
  }

  lemma {:induction false} NoneHeld(calls: seq<Call>)
    requires forall k :: 0 <= k < |calls| ==> !Holding(calls[k])
    ensures HeldByCalls(calls) == 0
  {
    if calls != [] { NoneHeld(calls[..|calls| - 1]); }
  }

  /** Once every call has ended and no lease is left, every slot has been returned. */
  lemma NothingLeaks(cfg: Config, steps: seq<Step>)
    requires Play(cfg, steps).Some?
    requires var s := Play(cfg, steps).value; s.leases == [] && forall k :: 0 <= k < |s.calls| ==> !Holding(s.calls[k])
    ensures var s := Play(cfg, steps).value;
      s.guard.inflight == 0 && forall slot :: 0 <= slot < |s.guard.released| ==> s.guard.released[slot]
  {
    var s := Play(cfg, steps).value;
    NoneHeld(s.calls);
    forall slot: nat | slot < |s.guard.released| ensures s.guard.released[slot] { assert OwnedRightly(s, slot); }
  }

  // ---------------------------------------------------------------- leases live to their deadline

  /** The last renewed deadline of a lease, read off the run alone. */
  function Deadline(cfg: Config, steps: seq<Step>, id: Id): Option<real> {
    if steps == [] then None
    else
      var before, step := steps[..|steps| - 1], steps[|steps| - 1];
      match step
      case Mint(_, minted, now) => if minted == id then Some(now + cfg.leaseTtlMs) else Deadline(cfg, before, id)
      case Heartbeat(ids, now) => if id in ids then Some(now + cfg.leaseTtlMs) else Deadline(cfg, before, id)
      case _ => Deadline(cfg, before, id)
  }

  /** A sweep removes exactly the leases whose expiry has come. */
  lemma {:induction false} SweepLeaves(s: State, i: nat, now: real)
    requires Inv(s) && i <= |s.leases|
    ensures Swept(SweepFrom(s, i, now).leases, s.leases[..i], s.leases[i..], now)
    decreases |s.leases| - i
  {
    if i < |s.leases| {
      var head, tail := s.leases[i], s.leases[i + 1..];
      assert s.leases[i..] == [head] + tail;
      if head.expiresAt <= now {
        DropKeepsInv(s, i);
        SweepLeaves(Drop(s, i), i, now);
        assert Drop(s, i).leases[..i] == s.leases[..i] && Drop(s, i).leases[i..] == tail;
        SweptDropped(SweepFrom(s, i, now).leases, s.leases[..i], head, tail, now);
      } else {
        SweepLeaves(s, i + 1, now);
        assert s.leases[..i + 1] == s.leases[..i] + [head];
        SweptKept(SweepFrom(s, i, now).leases, s.leases[..i], head, tail, now);
      }
    } else {
      assert s.leases[..i] == s.leases;
    }
  }

  /** What a sweep leaves of the leases it has passed and of those still ahead. */
  ghost predicate Swept(left: seq<Lease>, passed: seq<Lease>, ahead: seq<Lease>, now: real) {
    forall l :: l in left <==> l in passed || (l in ahead && l.expiresAt > now)
  }

  lemma SweptDropped(left: seq<Lease>, passed: seq<Lease>, head: Lease, tail: seq<Lease>, now: real)
    requires Swept(left, passed, tail, now) && head.expiresAt <= now
    ensures Swept(left, passed, [head] + tail, now)
  {
  }

  lemma SweptKept(left: seq<Lease>, passed: seq<Lease>, head: Lease, tail: seq<Lease>, now: real)
    requires Swept(left, passed + [head], tail, now) && head.expiresAt > now
    ensures Swept(left, passed, [head] + tail, now)
  {
  }

  ghost predicate OnTime(cfg: Config, steps: seq<Step>, leases: seq<Lease>) {
    forall l :: l in leases ==> Deadline(cfg, steps, l.id) == Some(l.expiresAt)
  }

  lemma StepOnTime(cfg: Config, before: seq<Step>, s: State, step: Step)
    requires Inv(s) && Enabled(s, step) && OnTime(cfg, before, s.leases)
    ensures OnTime(cfg, before + [step], Apply(cfg, s, step).leases)
  {
    assert (before + [step])[..|before|] == before;
    match step
    case Admit(ask, ceiling, limit, now, retry) =>
    case Answered(k, a) =>
    case Mint(k, id, now) =>
    case Release(id) =>
      var at := FindLease(s.leases, id);
      if at.Some? { WithoutDistinct(s.leases, at.value); }
    case Heartbeat(ids, now) =>
      RenewOnTime(cfg, before, s, ids, now);
    case Sweep(now) =>
      SweepLeaves(s, 0, now);
      assert s.leases[0..] == s.leases;
  }

  lemma RenewOnTime(cfg: Config, before: seq<Step>, s: State, ids: seq<Id>, now: real)
    requires OnTime(cfg, before, s.leases)
    ensures OnTime(cfg, before + [Heartbeat(ids, now)], Renewed(s.leases, ids, now + cfg.leaseTtlMs))
  {
    assert (before + [Heartbeat(ids, now)])[..|before|] == before;
    var r := Renewed(s.leases, ids, now + cfg.leaseTtlMs);
    forall l | l in r ensures Deadline(cfg, before + [Heartbeat(ids, now)], l.id) == Some(l.expiresAt) {
      var i :| 0 <= i < |r| && r[i] == l;
      assert s.leases[i] in s.leases;
    }
  }

  lemma {:induction false} RunsOnTime(cfg: Config, steps: seq<Step>)
    requires Play(cfg, steps).Some?
    ensures OnTime(cfg, steps, Play(cfg, steps).value.leases)
  {
    if steps != [] {
      var before, step := steps[..|steps| - 1], steps[|steps| - 1];
      RunsOnTime(cfg, before);
      StepOnTime(cfg, before, Play(cfg, before).value, step);
      assert steps == before + [step];
    }
  }

  /** A sweep reclaims a lease exactly when the deadline its last mint or heartbeat promised has come. */
  lemma ReclaimedExactlyWhenDue(cfg: Config, steps: seq<Step>, l: Lease, now: real)
    requires Play(cfg, steps).Some? && l in Play(cfg, steps).value.leases
    ensures var after := Apply(cfg, Play(cfg, steps).value, Sweep(now)).leases;
      && Deadline(cfg, steps, l.id) == Some(l.expiresAt)
      && (l !in after <==> Deadline(cfg, steps, l.id).value <= now)
  {
    var s := Play(cfg, steps).value;
    RunsOnTime(cfg, steps);
    SweepLeaves(s, 0, now);
    assert s.leases[0..] == s.leases;
  }

  // ---------------------------------------------------------------- calls do not interfere

  /** What the axes answered one call, in order. */
  function AnswersTo(steps: seq<Step>, k: nat): seq<Answer> {
    if steps == [] then []
    else
      var before, step := steps[..|steps| - 1], steps[|steps| - 1];
      AnswersTo(before, k) + (if step.Answered? && step.call == k then [step.answer] else [])
  }

  /** A call run on its own, from its own answers. */
  function Alone(cfg: Config, start: Call, answers: seq<Answer>): Call {
    if answers == [] then start
    else
      var call, a := Alone(cfg, start, answers[..|answers| - 1]), answers[|answers| - 1];
      if Expects(call.phase, a) then Resume(cfg, call, a) else call
  }

  /** A call without what the rest of the system decides: which slot it took, and whether its lease is minted yet. */
  function Own(call: Call): Call {
    call.(slot := None, phase := if call.phase.Minted? then Granted else call.phase)
  }

  lemma ResumeOwn(cfg: Config, call: Call, a: Answer)
    requires Expects(call.phase, a)
    ensures Expects(Own(call).phase, a) && Own(Resume(cfg, call, a)) == Resume(cfg, Own(call), a)
  {
  }

  lemma EnterOwn(cfg: Config, ask: Ask, conc: Option<Decision>, slot: Option<nat>)
    ensures Own(Enter(cfg, ask, conc, slot)) == Enter(cfg, ask, conc, None)
    ensures Enter(cfg, ask, conc, slot).ask == ask && Enter(cfg, ask, conc, slot).snap.conc == conc
  {
  }

  /** Call k looks as if it had run alone with its own request, concurrency decision and answers. */
  ghost predicate Isolated(cfg: Config, steps: seq<Step>, call: Call, k: nat) {
    Own(call) == Alone(cfg, Enter(cfg, call.ask, call.snap.conc, None), AnswersTo(steps, k))
  }

  ghost predicate AllIsolated(cfg: Config, steps: seq<Step>, s: State) {
    && (forall k: nat :: k < |s.calls| ==> Isolated(cfg, steps, s.calls[k], k))
    && (forall k: nat :: k >= |s.calls| ==> AnswersTo(steps, k) == [])
  }

  lemma AnswersStep(before: seq<Step>, step: Step, k: nat)
    ensures AnswersTo(before + [step], k) == AnswersTo(before, k) + (if step.Answered? && step.call == k then [step.answer] else [])
  {
    assert (before + [step])[..|before|] == before;
  }

  lemma AloneStep(cfg: Config, start: Call, answers: seq<Answer>, a: Answer)
    requires Expects(Alone(cfg, start, answers).phase, a)
    ensures Alone(cfg, start, answers + [a]) == Resume(cfg, Alone(cfg, start, answers), a)
  {
    assert (answers + [a])[..|answers|] == answers;
  }

  lemma AnsweredIsolated(cfg: Config, before: seq<Step>, s: State, k: nat, a: Answer)
    requires Inv(s) && k < |s.calls| && Expects(s.calls[k].phase, a) && AllIsolated(cfg, before, s)
    ensures Isolated(cfg, before + [Answered(k, a)], Resume(cfg, s.calls[k], a), k)
  {
    var call := s.calls[k];
    assert Isolated(cfg, before, call, k);
    AnswersStep(before, Answered(k, a), k);
    ResumeKeepsSlot(cfg, call, a);
    ResumeOwn(cfg, call, a);
    AloneStep(cfg, Enter(cfg, call.ask, call.snap.conc, None), AnswersTo(before, k), a);
  }

  lemma NewCallIsolated(cfg: Config, steps: seq<Step>, k: nat, ask: Ask, conc: Option<Decision>, slot: Option<nat>)
    requires AnswersTo(steps, k) == []
    ensures Isolated(cfg, steps, Enter(cfg, ask, conc, slot), k)
  {
    EnterOwn(cfg, ask, conc, slot);
  }

  /** The call an admit step adds. */
  function NewCall(cfg: Config, s: State, step: Step): Call
    requires step.Admit?
  {
    if !cfg.conc then Enter(cfg, step.ask, None, None)
    else if s.guard.inflight >= step.ceiling then
      Enter(cfg, step.ask, Some(ConcDecision(false, step.limit, s.guard.inflight, step.now, step.retry)), None)
    else Enter(cfg, step.ask, Some(ConcDecision(true, step.limit, s.guard.inflight + 1, step.now, step.retry)), Some(|s.owners|))
  }

  /** How a step changes the calls: it adds one, advances one, or leaves all but a mint's phase alone. */
  lemma CallsAfter(cfg: Config, s: State, step: Step)
    requires Inv(s) && Enabled(s, step)
    ensures var calls := Apply(cfg, s, step).calls;
      match step
      case Admit(_, _, _, _, _) => calls == s.calls + [NewCall(cfg, s, step)]
      case Answered(k, a) => calls == s.calls[k := Resume(cfg, s.calls[k], a)]
      case Mint(k, id, _) => calls == s.calls[k := s.calls[k].(phase := Minted(id))]
      case _ => calls == s.calls
  {
    match step
    case Admit(_, _, _, _, _) =>
    case Answered(k, a) => ResumeKeepsSlot(cfg, s.calls[k], a);
    case Mint(k, id, _) =>
    case Release(id) =>
    case Heartbeat(_, _) =>
    case Sweep(now) => SweepCalls(s, 0, now);
  }

  lemma {:induction false} SweepCalls(s: State, i: nat, now: real)
    requires Inv(s) && i <= |s.leases|
    ensures SweepFrom(s, i, now).calls == s.calls
    decreases |s.leases| - i
  {
    if i < |s.leases| {
      if s.leases[i].expiresAt <= now {
        DropKeepsInv(s, i);
        SweepCalls(Drop(s, i), i, now);
      } else {
        SweepCalls(s, i + 1, now);
      }
    }
  }

  lemma StepIsolated(cfg: Config, before: seq<Step>, s: State, step: Step)
    requires Inv(s) && Enabled(s, step) && AllIsolated(cfg, before, s)
    ensures AllIsolated(cfg, before + [step], Apply(cfg, s, step))
  {
    var t, steps := Apply(cfg, s, step), before + [step];
    CallsAfter(cfg, s, step);
    forall k: nat | k >= |t.calls| ensures AnswersTo(steps, k) == [] { AnswersStep(before, step, k); }
    forall k: nat | k < |t.calls| ensures Isolated(cfg, steps, t.calls[k], k) {
      AnswersStep(before, step, k);
      if k == |s.calls| {
        CreatedIsolated(cfg, s, step, steps, k);
      } else if step.Answered? && step.call == k {
        AnsweredIsolated(cfg, before, s, k, step.answer);
      } else {
        assert Isolated(cfg, before, s.calls[k], k);
        UnmovedIsolated(cfg, before, steps, s.calls[k], t.calls[k], k);
      }
    }
  }

  lemma UnmovedIsolated(cfg: Config, before: seq<Step>, steps: seq<Step>, was: Call, call: Call, k: nat)
    requires Isolated(cfg, before, was, k) && AnswersTo(steps, k) == AnswersTo(before, k)
    requires Own(call) == Own(was) && call.ask == was.ask && call.snap == was.snap
    ensures Isolated(cfg, steps, call, k)
  {
  }

  lemma CreatedIsolated(cfg: Config, s: State, step: Step, steps: seq<Step>, k: nat)
    requires step.Admit? && AnswersTo(steps, k) == []
    ensures Isolated(cfg, steps, NewCall(cfg, s, step), k)
  {
    var call := NewCall(cfg, s, step);
    NewCallIsolated(cfg, steps, k, step.ask, call.snap.conc, call.slot);
    EnterOwn(cfg, step.ask, call.snap.conc, call.slot);
  }

  /**
   * Over every interleaving, each call's decisions and answer are those of running it alone on its own request, its own
   * concurrency decision and its own axes' answers.
   */
  lemma {:induction false} CallsIsolated(cfg: Config, steps: seq<Step>)
    requires Play(cfg, steps).Some?
    ensures AllIsolated(cfg, steps, Play(cfg, steps).value)
  {
    if steps != [] {
      var before, step := steps[..|steps| - 1], steps[|steps| - 1];
      CallsIsolated(cfg, before);
      StepIsolated(cfg, before, Play(cfg, before).value, step);
      assert steps == before + [step];
    }
  }

  // ---------------------------------------------------------------- what a call answers

  /** Over every interleaving, each call's phase and answer say what its own request and axes said. */
  lemma {:induction false} AllAnsweredRightly(cfg: Config, steps: seq<Step>)
    requires Play(cfg, steps).Some?
    ensures AllRight(cfg, Play(cfg, steps).value.calls)
  {
    if steps != [] {
      var before, step := steps[..|steps| - 1], steps[|steps| - 1];
      AllAnsweredRightly(cfg, before);
      var s, t := Play(cfg, before).value, Play(cfg, steps).value;
      CallsAfter(cfg, s, step);
      forall k | 0 <= k < |t.calls| ensures AnsweredRightly(cfg, t.calls[k]) {
        if k == |s.calls| {
          EnterAnswersNew(cfg, s, step);
        } else {
          assert AnsweredRightly(cfg, s.calls[k]);
          if step.Answered? && step.call == k { ResumeAnswers(cfg, s.calls[k], step.answer); }
        }
      }
    }
  }

  lemma EnterAnswersNew(cfg: Config, s: State, step: Step)
    requires step.Admit?
    ensures AnsweredRightly(cfg, NewCall(cfg, s, step))
  {
    var call := NewCall(cfg, s, step);
    EnterOwn(cfg, step.ask, call.snap.conc, call.slot);
    EnterAnswers(cfg, step.ask, call.snap.conc, call.slot);
  }
}
