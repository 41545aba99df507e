/** The admission system as the objects that run it: every method makes one step of the transition system. */
module AdmissionService {
  import opened Numbers
  import opened Wrappers
  import opened Strategy
  import opened Admission
  import AdmissionRuns

  /** Which of the asked-for leases are still live, in the order asked. */
  function LiveAmong(leases: seq<Lease>, ids: seq<Id>): seq<Id> {
    if ids == [] then []
    else
      LiveAmong(leases, ids[..|ids| - 1]) + (if FindLease(leases, ids[|ids| - 1]).Some? then [ids[|ids| - 1]] else [])
  }

  function GoneAmong(leases: seq<Lease>, ids: seq<Id>): seq<Id> {
    if ids == [] then []
    else
      GoneAmong(leases, ids[..|ids| - 1]) + (if FindLease(leases, ids[|ids| - 1]).None? then [ids[|ids| - 1]] else [])
  }

  lemma {:induction false} FindSame(a: seq<Lease>, b: seq<Lease>, id: Id)
    requires |a| == |b| && forall i :: 0 <= i < |a| ==> a[i].id == b[i].id
    ensures FindLease(a, id) == FindLease(b, id)
  {
    if a != [] { FindSame(a[..|a| - 1], b[..|b| - 1], id); }
  }

  /** Renewing one more lease. */
  lemma RenewOne(leases: seq<Lease>, ids: seq<Id>, n: nat, expiresAt: real)
    requires DistinctIds(leases) && n < |ids|
    ensures var r, at := Renewed(leases, ids[..n], expiresAt), FindLease(leases, ids[n]);
      Renewed(leases, ids[..n + 1], expiresAt) == if at.Some? then r[at.value := r[at.value].(expiresAt := expiresAt)] else r
  {
    var r, at := Renewed(leases, ids[..n], expiresAt), FindLease(leases, ids[n]);
    assert ids[..n + 1] == ids[..n] + [ids[n]];
    forall i | 0 <= i < |leases| && (at.None? || i != at.value) ensures leases[i].id != ids[n] {
      if at.Some? && i < at.value { assert leases[i].id != leases[at.value].id; }
      if at.Some? && at.value < i { assert leases[at.value].id != leases[i].id; }
    }
  }

  method RenewAll(leases: seq<Lease>, ids: seq<Id>, expiresAt: real) returns (renewed: seq<Lease>, live: seq<Id>, reclaimed: seq<Id>)
    requires DistinctIds(leases)
    ensures renewed == Renewed(leases, ids, expiresAt) && live == LiveAmong(leases, ids) && reclaimed == GoneAmong(leases, ids)
  {
    renewed, live, reclaimed := leases, [], [];
    assert Renewed(leases, ids[..0], expiresAt) == leases;
    for n := 0 to |ids|
      invariant renewed == Renewed(leases, ids[..n], expiresAt)
      invariant live == LiveAmong(leases, ids[..n]) && reclaimed == GoneAmong(leases, ids[..n])
    {
      FindSame(renewed, leases, ids[n]);
      RenewOne(leases, ids, n, expiresAt);
      assert ids[..n + 1][..n] == ids[..n];
      var at := FindLease(renewed, ids[n]);
      if at.Some? {
        renewed := renewed[at.value := renewed[at.value].(expiresAt := expiresAt)];
        live := live + [ids[n]];
      } else {
        reclaimed := reclaimed + [ids[n]];
      }
    }
    assert ids[..|ids|] == ids;
  }

  lemma CallsGrow(calls: seq<Call>)
    ensures forall call: Call :: calls[..|calls|] + [call] + [] == calls + [call]
  {
  }

  lemma {:induction false} LiveMembers(leases: seq<Lease>, ids: seq<Id>, id: Id)
    ensures id in LiveAmong(leases, ids) <==> id in ids && Leased(leases, id)
    ensures id in GoneAmong(leases, ids) <==> id in ids && !Leased(leases, id)
  {
    if ids != [] {
      var n := |ids| - 1;
      LiveMembers(leases, ids[..n], id);
      assert ids == ids[..n] + [ids[n]];
      FindsLeased(leases, ids[n]);
    }
  }

  predicate Leased(leases: seq<Lease>, id: Id) { exists i :: 0 <= i < |leases| && leases[i].id == id }

  lemma {:induction false} FindsLeased(leases: seq<Lease>, id: Id)
    ensures FindLease(leases, id).Some? <==> Leased(leases, id)
  {
  }

  /** What a call is at its first await: refused for want of a slot, priced out, or waiting for the first configured axis. */
  predicate Enters(cfg: Config, ask: Ask, ceiling: nat, limit: real, now: real, retry: real, inflight: int, call: Call) {
    && call.ask == ask && Unasked(call.snap)
    && if cfg.conc && inflight >= ceiling then
         call.phase.Denied? && call.snap.conc == Some(Decision(false, limit, 0.0, now, if retry > 1.0 then retry else 1.0))
       else
         var left := limit - (inflight + 1) as real;
         && call.snap.conc == (if cfg.conc then Some(Decision(true, limit, if left > 0.0 then left else 0.0, now, 0.0)) else None)
         && call.phase ==
              if ask.prices.Some? && !Covers(ask.prices.value, ask) then PolicyDenied
              else if cfg.fused then AwaitFused
              else if cfg.rate then AwaitRate
              else if cfg.cost then AwaitCost
              else Granted
  }

  lemma EntersBy(cfg: Config, ask: Ask, ceiling: nat, limit: real, now: real, retry: real, inflight: int, conc: Option<Decision>, slot: Option<nat>)
    requires conc == (if !cfg.conc then None
                      else if inflight >= ceiling then Some(ConcDecision(false, limit, inflight, now, retry))
                      else Some(ConcDecision(true, limit, inflight + 1, now, retry)))
    ensures Enters(cfg, ask, ceiling, limit, now, retry, inflight, Enter(cfg, ask, conc, slot))
    ensures AnsweredRightly(cfg, Enter(cfg, ask, conc, slot)) && Enter(cfg, ask, conc, slot).slot == slot
  {
    EnterAnswers(cfg, ask, conc, slot);
  }

  /** The state between taking a slot and storing the call. */
  ghost predicate SlotTaken(cfg: Config, s: State, ceiling: nat, limit: real, now: real, retry: real, conc: Option<Decision>,
                            slot: Option<nat>, taken: State) {
    if !cfg.conc then conc.None? && slot.None? && taken == s
    else if s.guard.inflight >= ceiling then
      conc == Some(ConcDecision(false, limit, s.guard.inflight, now, retry)) && slot.None? && taken == s
    else
      && conc == Some(ConcDecision(true, limit, s.guard.inflight + 1, now, retry)) && slot == Some(|s.owners|)
      && taken == s.(guard := Acquired(s.guard), owners := s.owners + [ByCall(|s.calls|)])
  }

  lemma AdmitIs(cfg: Config, s: State, ask: Ask, ceiling: nat, limit: real, now: real, retry: real, conc: Option<Decision>,
                slot: Option<nat>, taken: State)
    requires Slotted(s) && SlotTaken(cfg, s, ceiling, limit, now, retry, conc, slot, taken)
    ensures Slotted(taken) && (slot.Some? ==> slot.value < |taken.owners|) && Enter(cfg, ask, conc, slot).slot == slot
    ensures Apply(cfg, s, Admit(ask, ceiling, limit, now, retry)) == Settle(taken, |s.calls|, Enter(cfg, ask, conc, slot))
  {
  }

  /** A call that did not get past its entry leaves the count of slots in use as it was. */
  lemma InflightAfter(cfg: Config, s: State, ceiling: nat, limit: real, now: real, retry: real, conc: Option<Decision>,
                      slot: Option<nat>, taken: State, call: Call)
    requires Slotted(s) && SlotTaken(cfg, s, ceiling, limit, now, retry, conc, slot, taken) && call.slot == slot && Slotted(taken)
    requires slot.Some? ==> slot.value < |taken.owners|
    ensures Settle(taken, |s.calls|, call).guard.inflight == s.guard.inflight + (if Holding(call) then 1 else 0)
  {
  }

  /** What an answer makes of a waiting call: a failure or a denial ends it, the last configured axis grants it. */
  predicate Proceeds(cfg: Config, was: Call, a: Answer, call: Call) {
    && call.ask == was.ask && call.slot == was.slot && call.snap.conc == was.snap.conc
    && match a
       case Failed => call.phase.Threw? && call.snap == was.snap
       case Both(r, c) =>
         call.snap.rate == Some(r) && call.snap.cost == Some(c) && call.phase == if r.allowed && c.allowed then Granted else Denied
       case One(d) =>
         if was.phase.AwaitRate? then
           call.snap.rate == Some(d) && call.phase == if !d.allowed then Denied else if cfg.cost then AwaitCost else Granted
         else
           call.snap.rate == was.snap.rate && call.snap.cost == Some(d) && call.phase == if d.allowed then Granted else Denied
  }

  lemma ResumesBy(cfg: Config, call: Call, a: Answer)
    requires AnsweredRightly(cfg, call) && Expects(call.phase, a)
    ensures Proceeds(cfg, call, a, Resume(cfg, call, a)) && AnsweredRightly(cfg, Resume(cfg, call, a))
  {
    ResumeKeepsSlot(cfg, call, a);
    ResumeAnswers(cfg, call, a);
  }

  class Service {
    const cfg: Config
    var guard: Guard
    var calls: seq<Call>
    var leases: seq<Lease>
    var lastSnap: Snap
    ghost var owners: seq<Owner>

    ghost function Now(): State
      reads this
    {
      State(guard, owners, calls, leases, lastSnap)
    }

    ghost predicate Valid()
      reads this
    {
      Inv(Now()) && AllRight(cfg, calls)
    }

    constructor (cfg: Config)
      ensures Valid() && Now() == INITIAL && this.cfg == cfg
    {
      this.cfg := cfg;
      guard, calls, leases, lastSnap, owners := Guard(0, []), [], [], Snap(None, None, None), [];
    }

    /** startWithConcurrency: takes a slot when the guard is below its ceiling. */
    method StartWithConcurrency(ceiling: nat, limit: real, now: real, retry: real) returns (conc: Option<Decision>, slot: Option<nat>)
      requires Valid()
      modifies this`guard, this`owners
      ensures !cfg.conc ==> conc.None? && slot.None? && guard == old(guard) && owners == old(owners)
      ensures cfg.conc && old(guard.inflight) >= ceiling ==> slot.None? && guard == old(guard) && owners == old(owners)
      ensures cfg.conc && old(guard.inflight) >= ceiling ==> conc == Some(ConcDecision(false, limit, old(guard.inflight), now, retry))
      ensures cfg.conc && old(guard.inflight) < ceiling ==> slot == Some(|old(owners)|) && guard == Acquired(old(guard))
      ensures cfg.conc && old(guard.inflight) < ceiling ==> owners == old(owners) + [ByCall(|calls|)]
      ensures cfg.conc && old(guard.inflight) < ceiling ==> conc == Some(ConcDecision(true, limit, old(guard.inflight) + 1, now, retry))
    {
      if !cfg.conc { return None, None; }
      if guard.inflight >= ceiling { return Some(ConcDecision(false, limit, guard.inflight, now, retry)), None; }
      slot := Some(|guard.released|);
      guard := Acquired(guard);
      owners := owners + [ByCall(|calls|)];
      conc := Some(ConcDecision(true, limit, guard.inflight, now, retry));
    }

    /** Stores what became of a call: a slot it no longer holds goes back, and a finished call's decisions are reported last. */
    method Store(k: nat, call: Call)
      requires k <= |calls| && Slotted(Now()) && (call.slot.Some? ==> call.slot.value < |owners|)
      modifies this
      ensures Now() == Settle(old(Now()), k, call)
      ensures |calls| == (if k < |old(calls)| then |old(calls)| else k + 1) && calls[..k] == old(calls)[..k] && calls[k] == call
      ensures lastSnap == if Awaiting(call.phase) || call.phase.Threw? then old(lastSnap) else call.snap
    {
      CallsGrow(calls);
      calls := calls[..k] + [call] + (if k < |calls| then calls[k + 1..] else []);
      if !Holding(call) {
        guard := ReleaseSlot(guard, call.slot);
        if call.slot.Some? { owners := owners[call.slot.value := Nobody]; }
      }
      if Finished(call) { lastSnap := call.snap; }
    }

    /** admit, up to its first await. */
    method Start(ask: Ask, ceiling: nat, limit: real, now: real, retry: real) returns (k: nat)
      requires Valid()
      modifies this
      ensures Valid() && Now() == Apply(cfg, old(Now()), Admit(ask, ceiling, limit, now, retry))
      ensures |calls| == |old(calls)| + 1 && k == |old(calls)| && calls[..k] == old(calls)
      ensures Enters(cfg, ask, ceiling, limit, now, retry, old(guard.inflight), calls[k]) && AnsweredRightly(cfg, calls[k])
      ensures guard.inflight == old(guard.inflight) + (if cfg.conc && (Awaiting(calls[k].phase) || calls[k].phase.Granted?) then 1 else 0)
      ensures lastSnap == if Awaiting(calls[k].phase) then old(lastSnap) else calls[k].snap
    {
      StepKeepsInv(cfg, Now(), Admit(ask, ceiling, limit, now, retry));
      k := |calls|;
      ghost var before := Now();
      var conc, slot := StartWithConcurrency(ceiling, limit, now, retry);
      var call := Enter(cfg, ask, conc, slot);
      EntersBy(cfg, ask, ceiling, limit, now, retry, before.guard.inflight, conc, slot);
      AdmitIs(cfg, before, ask, ceiling, limit, now, retry, conc, slot, Now());
      InflightAfter(cfg, before, ceiling, limit, now, retry, conc, slot, Now(), call);
      Store(k, call);
    }

    /** admit, from one await to the next: the call's own snapshot, never another's, decides. */
    method Continue(k: nat, a: Answer)
      requires Valid() && Enabled(Now(), Answered(k, a))
      modifies this
      ensures Valid() && Now() == Apply(cfg, old(Now()), Answered(k, a))
      ensures |calls| == |old(calls)| && calls == old(calls)[k := calls[k]]
      ensures Proceeds(cfg, old(calls[k]), a, calls[k])
      ensures calls[k].phase.Granted? ==> AllAllowed(cfg, calls[k].snap)
      ensures guard.inflight == old(guard.inflight) - (if calls[k].slot.Some? && !Awaiting(calls[k].phase) && !calls[k].phase.Granted? then 1 else 0)
      ensures lastSnap == if Awaiting(calls[k].phase) || calls[k].phase.Threw? then old(lastSnap) else calls[k].snap
    {
      StepKeepsInv(cfg, Now(), Answered(k, a));
      ResumesBy(cfg, calls[k], a);
      ghost var before := Now();
      var call := Resume(cfg, calls[k], a);
      Store(k, call);
      SettleShape(before, k, call);
      if call.slot.Some? {
        assert OwnedRightly(before, call.slot.value);
        ReturnsOne(before.guard, call.slot);
      }
    }

    /** A granted admission mints a lease under a fresh id. */
    method MintLease(k: nat, id: Id, now: real) returns (expiresAt: real)
      requires Valid() && Enabled(Now(), Mint(k, id, now))
      modifies this
      ensures Valid() && Now() == Apply(cfg, old(Now()), Mint(k, id, now)) && expiresAt == now + cfg.leaseTtlMs
      ensures leases == old(leases) + [Lease(id, old(calls[k].slot), expiresAt)] && guard == old(guard)
    {
      StepKeepsInv(cfg, Now(), Mint(k, id, now));
      expiresAt := now + cfg.leaseTtlMs;
      var slot := calls[k].slot;
      leases := leases + [Lease(id, slot, expiresAt)];
      calls := calls[k := calls[k].(phase := Minted(id))];
      if slot.Some? { owners := owners[slot.value := ByLease(id)]; }
    }

    /** Drops the lease at one table position. */
    method DropAt(i: nat)
      requires Valid() && i < |leases|
      modifies this`guard, this`leases, this`owners
      ensures Valid() && Now() == Drop(old(Now()), i)
      ensures guard.inflight == old(guard.inflight) - (if old(leases[i]).slot.Some? then 1 else 0)
    {
      DropKeepsInv(Now(), i);
      var slot := leases[i].slot;
      if slot.Some? { assert OwnedRightly(Now(), slot.value); }
      guard := ReleaseSlot(guard, slot);
      leases := Without(leases, i);
      if slot.Some? { owners := owners[slot.value := Nobody]; }
    }

    /** release: an unknown id, already released or reclaimed, is a no-op. */
    method ReleaseLease(id: Id)
      requires Valid()
      modifies this
      ensures Valid() && Now() == Apply(cfg, old(Now()), Release(id))
      ensures forall l :: l in leases <==> l in old(leases) && l.id != id
    {
      var at := FindLease(leases, id);
      if at.Some? {
        WithoutDistinct(leases, at.value);
        ghost var before, mine := leases, leases[at.value];
        DropAt(at.value);
        forall l | l in before && l.id != id ensures l in leases {
          var j :| 0 <= j < |before| && before[j] == l;
        }
      }
    }

    /** heartbeat: renews the live leases among ids and reports the others as reclaimed. */
    method Heartbeat(ids: seq<Id>, now: real) returns (live: seq<Id>, reclaimed: seq<Id>, nextDeadline: real)
      requires Valid()
      modifies this`leases
      ensures Valid() && Now() == Apply(cfg, old(Now()), Step.Heartbeat(ids, now))
      ensures live == LiveAmong(old(leases), ids) && reclaimed == GoneAmong(old(leases), ids)
      ensures forall id :: id in live <==> id in ids && Leased(old(leases), id)
      ensures forall id :: id in reclaimed <==> id in ids && !Leased(old(leases), id)
      ensures |leases| == |old(leases)| && forall i :: 0 <= i < |leases| ==>
        leases[i] == if old(leases)[i].id in ids then old(leases)[i].(expiresAt := nextDeadline) else old(leases)[i]
      ensures nextDeadline == now + cfg.leaseTtlMs
    {
      StepKeepsInv(cfg, Now(), Step.Heartbeat(ids, now));
      nextDeadline := now + cfg.leaseTtlMs;
      ghost var before := leases;
      leases, live, reclaimed := RenewAll(leases, ids, nextDeadline);
      forall id ensures id in live <==> id in ids && Leased(before, id)
        ensures id in reclaimed <==> id in ids && !Leased(before, id)
      {
        LiveMembers(before, ids, id);
      }
    }

    /** sweep: every expired lease gives its slot back. */
    method SweepExpired(now: real)
      requires Valid()
      modifies this
      ensures Valid() && Now() == Apply(cfg, old(Now()), Sweep(now))
      ensures forall l :: l in leases <==> l in old(leases) && l.expiresAt > now
    {
      ghost var before := Now();
      AdmissionRuns.SweepLeaves(before, 0, now);
      assert before.leases[0..] == before.leases;
      var i := 0;
      while i < |leases|
        invariant Valid() && i <= |leases| && SweepFrom(Now(), i, now) == SweepFrom(before, 0, now)
        decreases |leases| - i
      {
        if leases[i].expiresAt <= now { DropAt(i); } else { i := i + 1; }
      }
    }
  }
}
