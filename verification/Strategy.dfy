/** What all limiters share: a pure check over a key's state, the store that runs it, forgetting, and retry hints. */
module Strategy {
  import Numbers
  import opened Wrappers

  datatype Decision = Decision(allowed: bool, limit: real, remaining: real, resetAt: real, retryAfterMs: real)

  /** A decision as a Redis script returns it: every number loses its fraction. */
  function OnWire(d: Decision): Decision {
    Decision(d.allowed, Numbers.Trunc(d.limit), Numbers.Trunc(d.remaining), Numbers.Trunc(d.resetAt), Numbers.Trunc(d.retryAfterMs))
  }

  /** What a check returns: the next state, the answer, how long to keep the state, and whether to write it at all. */
  datatype Outcome<S, R> = Outcome(state: Option<S>, result: R, ttlMs: real, persist: bool)

  datatype Request = Request(at: real, cost: real)

  ghost predicate NonDecreasing(run: seq<Request>) {
    forall i, j :: 0 <= i < j < |run| ==> run[i].at <= run[j].at
  }

  ghost predicate Since(run: seq<Request>, from: real) {
    forall i :: 0 <= i < |run| ==> run[i].at >= from
  }

  function First(run: seq<Request>): real { if run == [] then 0.0 else run[0].at }

  lemma SinceFirst(run: seq<Request>)
    requires NonDecreasing(run)
    ensures Since(run, First(run))
  {
  }

  ghost predicate PositiveCosts(run: seq<Request>) {
    forall i :: 0 <= i < |run| ==> run[i].cost > 0.0
  }

  type Check<!S, !R> = (Option<S>, real, real) -> Outcome<S, R>

  // ---------------------------------------------------------------- a store that never forgets

  function Next<S, R>(check: Check<S, R>, state: Option<S>, r: Request): Option<S> {
    var out := check(state, r.at, r.cost);
    if out.persist then out.state else state
  }

  function Kept<S, R>(check: Check<S, R>, run: seq<Request>): Option<S> {
    if run == [] then None else Next(check, Kept(check, run[..|run| - 1]), run[|run| - 1])
  }

  function Answers<S, R>(check: Check<S, R>, run: seq<Request>): seq<R> {
    if run == [] then []
    else
      var n := |run| - 1;
      Answers(check, run[..n]) + [check(Kept(check, run[..n]), run[n].at, run[n].cost).result]
  }

  // ---------------------------------------------------------------- a store that may forget

  /** A stored state, when it was written and for how long it had to be kept. */
  datatype Entry<S> = Entry(state: S, at: real, ttlMs: real)

  /** The store drops a key at will once its time to live has passed. */
  function Visible<S>(entry: Option<Entry<S>>, now: real, drop: bool): Option<Entry<S>> {
    if entry.Some? && drop && now >= entry.value.at + entry.value.ttlMs then None else entry
  }

  function StateOf<S>(entry: Option<Entry<S>>): Option<S> {
    if entry.Some? then Some(entry.value.state) else None
  }

  /** What a request leaves behind: a written state lives for its time to live, or for the store's floor if longer. */
  function Written<S, R>(out: Outcome<S, R>, now: real, floor: real, seen: Option<Entry<S>>): Option<Entry<S>> {
    if out.persist && out.state.Some? then
      Some(Entry(out.state.value, now, if out.ttlMs < floor then floor else out.ttlMs))
    else seen
  }

  function Stored<S, R>(check: Check<S, R>, floor: real, run: seq<Request>, drops: seq<bool>): Option<Entry<S>>
    requires |run| == |drops|
  {
    if run == [] then None
    else
      var n := |run| - 1;
      var r, seen := run[n], Visible(Stored(check, floor, run[..n], drops[..n]), run[n].at, drops[n]);
      var out := check(StateOf(seen), r.at, r.cost);
      Written(out, r.at, floor, seen)
  }

  function ForgetfulAnswers<S, R>(check: Check<S, R>, floor: real, run: seq<Request>, drops: seq<bool>): seq<R>
    requires |run| == |drops|
  {
    if run == [] then []
    else
      var n := |run| - 1;
      var seen := Visible(Stored(check, floor, run[..n], drops[..n]), run[n].at, drops[n]);
      ForgetfulAnswers(check, floor, run[..n], drops[..n]) + [check(StateOf(seen), run[n].at, run[n].cost).result]
  }

  // ---------------------------------------------------------------- when forgetting cannot be seen

  /** Two outcomes that answer alike and, if they write, write the same. */
  predicate Alike<S(==), R(==)>(a: Outcome<S, R>, b: Outcome<S, R>) {
    a.result == b.result && a.persist == b.persist && (a.persist ==> a.state == b.state)
  }

  /** From this instant on the state answers as if it were not there. */
  ghost predicate Fades<S(!new), R>(check: Check<S, R>, s: S, from: real) {
    forall now: real, cost: real :: now >= from && cost > 0.0 ==> Alike(check(Some(s), now, cost), check(None, now, cost))
  }

  /** What a strategy must show, from some instant on: whatever it writes is sound at its instant and has faded once its time to live is over. */
  ghost predicate WritesFade<S(!new), R>(check: Check<S, R>, sound: (S, real) -> bool, from: real) {
    forall p: Option<S>, now: real, cost: real ::
      now >= from && cost > 0.0 && (p.Some? ==> sound(p.value, now)) && check(p, now, cost).persist ==>
        var out := check(p, now, cost);
        out.state.Some? && sound(out.state.value, now) && Fades(check, out.state.value, now + out.ttlMs)
  }

  ghost predicate SoundLasts<S(!new)>(sound: (S, real) -> bool) {
    forall s: S, t: real, u: real :: sound(s, t) && t <= u ==> sound(s, u)
  }

  /** The forgetful store's entry and the permanent store's state after the same requests. */
  ghost predicate Related<S(!new), R>(check: Check<S, R>, sound: (S, real) -> bool, entry: Option<Entry<S>>, s: Option<S>, t: real) {
    if entry.Some? then
      && s == Some(entry.value.state) && sound(entry.value.state, t)
      && Fades(check, entry.value.state, entry.value.at + entry.value.ttlMs)
    else s.Some? ==> sound(s.value, t) && Fades(check, s.value, t)
  }

  lemma RelatedLater<S(!new), R>(check: Check<S, R>, sound: (S, real) -> bool, entry: Option<Entry<S>>, s: Option<S>, t: real, u: real)
    requires SoundLasts(sound) && Related(check, sound, entry, s, t) && t <= u
    ensures Related(check, sound, entry, s, u)
  {
  }

  lemma DropKeepsRelated<S(!new), R>(check: Check<S, R>, sound: (S, real) -> bool, entry: Option<Entry<S>>, s: Option<S>, now: real, drop: bool)
    requires Related(check, sound, entry, s, now)
    ensures Related(check, sound, Visible(entry, now, drop), s, now)
  {
  }

  lemma SameOutcome<S(!new), R>(check: Check<S, R>, sound: (S, real) -> bool, entry: Option<Entry<S>>, s: Option<S>, r: Request)
    requires Related(check, sound, entry, s, r.at) && r.cost > 0.0
    ensures Alike(check(StateOf(entry), r.at, r.cost), check(s, r.at, r.cost))
  {
  }

  lemma StepKeepsRelated<S(!new), R>(check: Check<S, R>, sound: (S, real) -> bool, from: real, floor: real,
        seen: Option<Entry<S>>, s: Option<S>, r: Request)
    requires WritesFade(check, sound, from) && r.at >= from && Related(check, sound, seen, s, r.at) && r.cost > 0.0
    ensures var out := check(StateOf(seen), r.at, r.cost);
      Related(check, sound,
              Written(out, r.at, floor, seen),
              Next(check, s, r), r.at)
  {
    SameOutcome(check, sound, seen, s, r);
  }

  lemma {:induction false} StoresRelated<S(!new), R>(check: Check<S, R>, sound: (S, real) -> bool, from: real, floor: real,
        run: seq<Request>, drops: seq<bool>)
    requires WritesFade(check, sound, from) && SoundLasts(sound) && |run| == |drops|
    requires NonDecreasing(run) && Since(run, from) && PositiveCosts(run)
    ensures run != [] ==> Related(check, sound, Stored(check, floor, run, drops), Kept(check, run), run[|run| - 1].at)
  {
    if run != [] {
      var n := |run| - 1;
      StoresRelated(check, sound, from, floor, run[..n], drops[..n]);
      var entry, s := Stored(check, floor, run[..n], drops[..n]), Kept(check, run[..n]);
      if n > 0 { RelatedLater(check, sound, entry, s, run[n - 1].at, run[n].at); }
      DropKeepsRelated(check, sound, entry, s, run[n].at, drops[n]);
      StepKeepsRelated(check, sound, from, floor, Visible(entry, run[n].at, drops[n]), s, run[n]);
    }
  }

  /**
   * Eviction is unobservable: whatever the floor on times to live, and whenever the store chooses to drop expired keys,
   * every answer of every run is the same.
   */
  lemma {:induction false} ForgettingUnseen<S(!new), R>(check: Check<S, R>, sound: (S, real) -> bool, from: real, floor: real,
        run: seq<Request>, drops: seq<bool>)
    requires WritesFade(check, sound, from) && SoundLasts(sound) && |run| == |drops|
    requires NonDecreasing(run) && Since(run, from) && PositiveCosts(run)
    ensures ForgetfulAnswers(check, floor, run, drops) == Answers(check, run)
  {
    if run != [] {
      var n := |run| - 1;
      ForgettingUnseen(check, sound, from, floor, run[..n], drops[..n]);
      StoresRelated(check, sound, from, floor, run[..n], drops[..n]);
      var entry, s := Stored(check, floor, run[..n], drops[..n]), Kept(check, run[..n]);
      if n > 0 { RelatedLater(check, sound, entry, s, run[n - 1].at, run[n].at); }
      DropKeepsRelated(check, sound, entry, s, run[n].at, drops[n]);
      SameOutcome(check, sound, Visible(entry, run[n].at, drops[n]), s, run[n]);
    }
  }

  // ---------------------------------------------------------------- what a run admits

  /** What a run admitted between two instants. */
  function AdmittedIn<S(!new)>(check: Check<S, Decision>, run: seq<Request>, a: real, b: real): real {
    if run == [] then 0.0
    else
      var n := |run| - 1;
      AdmittedIn(check, run[..n], a, b) +
      (if a <= run[n].at <= b && check(Kept(check, run[..n]), run[n].at, run[n].cost).result.allowed then run[n].cost else 0.0)
  }

  /** What a run admitted at the selected instants. */
  function AdmittedWhen<S(!new)>(check: Check<S, Decision>, run: seq<Request>, when: real -> bool): real {
    if run == [] then 0.0
    else
      var n := |run| - 1;
      AdmittedWhen(check, run[..n], when) +
      (if when(run[n].at) && check(Kept(check, run[..n]), run[n].at, run[n].cost).result.allowed then run[n].cost else 0.0)
  }

  /** Two selections that cover a third admit at least as much. */
  lemma {:induction false} AdmittedCovered<S(!new)>(check: Check<S, Decision>, run: seq<Request>, when: real -> bool,
                                                    one: real -> bool, other: real -> bool)
    requires PositiveCosts(run) && forall t :: when(t) ==> one(t) || other(t)
    ensures AdmittedWhen(check, run, when) <= AdmittedWhen(check, run, one) + AdmittedWhen(check, run, other)
  {
    if run != [] { AdmittedCovered(check, run[..|run| - 1], when, one, other); }
  }

  lemma AdmittedStep<S(!new)>(check: Check<S, Decision>, run: seq<Request>, a: real, b: real, last: Request)
    requires run != [] && last == run[|run| - 1]
    ensures var before := run[..|run| - 1]; var out := check(Kept(check, before), last.at, last.cost);
      && AdmittedIn(check, run, a, b) ==
           AdmittedIn(check, before, a, b) + (if a <= last.at <= b && out.result.allowed then last.cost else 0.0)
      && Kept(check, run) == (if out.persist then out.state else Kept(check, before))
  {
  }

  // ---------------------------------------------------------------- what a decision reports

  /** Whether so many whole units more are admitted at once. */
  predicate UnitsFit<S>(check: Check<S, Decision>, state: Option<S>, now: real, n: nat) {
    check(state, now, n as real).result.allowed
  }

  /** The remainder is the number of whole units that still fit. */
  ghost predicate RemainingExact<S>(check: Check<S, Decision>, state: Option<S>, now: real, remaining: real) {
    forall n: nat :: n >= 1 ==> (UnitsFit(check, state, now, n) <==> n as real <= remaining)
  }

  /** The reset is the least whole instant at which a request for so much is admitted. */
  ghost predicate ResetExact<S>(check: Check<S, Decision>, state: Option<S>, now: real, full: real, resetAt: real) {
    forall t: int :: t as real >= now ==> (AdmittedAt(check, state, t, full) <==> t as real >= resetAt)
  }

  predicate AdmittedAt<S>(check: Check<S, Decision>, state: Option<S>, t: int, cost: real) {
    check(state, t as real, cost).result.allowed
  }

  // ---------------------------------------------------------------- retry hints

  /** Whether the same request, asked again after a wait with the state untouched, is admitted. */
  predicate AdmittedAfter<S>(check: Check<S, Decision>, state: Option<S>, now: real, cost: real, wait: int) {
    check(state, now + wait as real, cost).result.allowed
  }

  /** The hint is the least whole wait: denied before it, admitted at it. */
  ghost predicate ExactHint<S>(check: Check<S, Decision>, state: Option<S>, now: real, cost: real, hint: int) {
    && (forall w: nat :: w < hint ==> !AdmittedAfter(check, state, now, cost, w))
    && hint >= 0 && AdmittedAfter(check, state, now, cost, hint)
  }
}
