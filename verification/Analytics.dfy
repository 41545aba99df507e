/** withAdmissionAnalytics: counters and heavy hitters of the current window, as functions of the admits it has seen. */
module Analytics {
  import opened Numbers
  import opened Wrappers
  import opened SpaceSaving
  import opened HeavyHitters

  datatype Axis = Rate | Concurrency | Cost

  datatype Lane = OnAxis(axis: Axis) | Policy

  /** The decision and binding axis of one completed admission. */
  datatype Admission = Admission(allowed: bool, bindingAxis: Option<Axis>)

  datatype Event = Event(key: Key, admission: Admission, at: real)

  function LaneOf(a: Admission): Option<Lane> {
    if a.allowed then None else Some(if a.bindingAxis.Some? then OnAxis(a.bindingAxis.value) else Policy)
  }

  function WindowStart(now: real, windowMs: real): real
    requires windowMs > 0.0
  {
    Floor(now / windowMs) as real * windowMs
  }

  /** A window of length windowMs that starts at a whole multiple of it and holds an instant. */
  ghost predicate HoldsInstant(start: real, now: real, windowMs: real) {
    start <= now < start + windowMs && exists k: int :: IsMultiple(start, windowMs, k)
  }

  ghost predicate IsMultiple(start: real, windowMs: real, k: int) { start == k as real * windowMs }

  lemma StartHolds(now: real, windowMs: real)
    requires windowMs > 0.0
    ensures HoldsInstant(WindowStart(now, windowMs), now, windowMs)
  {
    CellBounds(now, windowMs);
    assert IsMultiple(WindowStart(now, windowMs), windowMs, Floor(now / windowMs));
  }

  /** A denial belongs to the axis that bound it, or to the policy when none did. */
  predicate BelongsTo(a: Admission, lane: Lane) {
    !a.allowed && match lane case OnAxis(axis) => a.bindingAxis == Some(axis) case Policy => a.bindingAxis.None?
  }

  lemma LaneBelongs(a: Admission, lane: Lane)
    ensures LaneOf(a) == Some(lane) <==> BelongsTo(a, lane)
    ensures LaneOf(a).Some? <==> !a.allowed
  {
  }

  // ---------------------------------------------------------------- what the events determine

  ghost function Select(events: seq<Event>, keep: Event -> bool): seq<Key> {
    if events == [] then []
    else
      var n := |events| - 1;
      Select(events[..n], keep) + (if keep(events[n]) then [events[n].key] else [])
  }

  ghost function Everything(): Event -> bool { (e: Event) => true }

  ghost function Denied(): Event -> bool { (e: Event) => !e.admission.allowed }

  ghost function DeniedOn(lane: Lane): Event -> bool { (e: Event) => BelongsTo(e.admission, lane) }

  lemma SelectAppend(events: seq<Event>, e: Event, keep: Event -> bool)
    ensures Select(events + [e], keep) == Select(events, keep) + (if keep(e) then [e.key] else [])
  {
    assert (events + [e])[..|events|] == events;
  }

  ghost function CountOn(events: seq<Event>, lane: Lane): nat { |Select(events, DeniedOn(lane))| }

  lemma LaneStep(events: seq<Event>, e: Event, lane: Lane)
    ensures CountOn(events + [e], lane) == CountOn(events, lane) + (if LaneOf(e.admission) == Some(lane) then 1 else 0)
  {
    SelectAppend(events, e, DeniedOn(lane));
    LaneBelongs(e.admission, lane);
  }

  lemma LaneIsOne(lane: Lane)
    ensures lane == OnAxis(Rate) || lane == OnAxis(Concurrency) || lane == OnAxis(Cost) || lane == Policy
  {
    match lane
    case OnAxis(a) => assert a == Rate || a == Concurrency || a == Cost;
    case Policy =>
  }

  ghost function CountDenied(events: seq<Event>): nat { |Select(events, Denied())| }

  lemma DeniedStep(events: seq<Event>, e: Event)
    ensures CountDenied(events + [e]) == CountDenied(events) + (if LaneOf(e.admission).Some? then 1 else 0)
  {
    SelectAppend(events, e, Denied());
  }

  /** Every denial is attributed to exactly one lane. */
  lemma {:induction false} LanesPartition(events: seq<Event>)
    ensures CountOn(events, OnAxis(Rate)) + CountOn(events, OnAxis(Concurrency)) + CountOn(events, OnAxis(Cost))
      + CountOn(events, Policy) == CountDenied(events)
  {
    if events != [] {
      var before, e := events[..|events| - 1], events[|events| - 1];
      LanesPartition(before);
      assert events == before + [e];
      LaneStep(before, e, OnAxis(Rate));
      LaneStep(before, e, OnAxis(Concurrency));
      LaneStep(before, e, OnAxis(Cost));
      LaneStep(before, e, Policy);
      DeniedStep(before, e);
      if LaneOf(e.admission).Some? { LaneIsOne(LaneOf(e.admission).value); }
    }
  }

  ghost predicate InWindow(events: seq<Event>, start: real, windowMs: real)
    requires windowMs > 0.0
  {
    forall i :: 0 <= i < |events| ==> WindowStart(events[i].at, windowMs) == start
  }

  lemma InWindowAppend(events: seq<Event>, e: Event, start: real, windowMs: real)
    requires windowMs > 0.0 && InWindow(events, start, windowMs) && start == WindowStart(e.at, windowMs)
    ensures InWindow(events + [e], start, windowMs)
  {
  }

  // ---------------------------------------------------------------- the wrapper's state

  /** One count per lane: the record deniedByLane. */
  datatype LaneCounts = LaneCounts(rate: nat, concurrency: nat, cost: nat, policy: nat) {
    function Get(lane: Lane): nat {
      match lane
      case OnAxis(Rate) => rate
      case OnAxis(Concurrency) => concurrency
      case OnAxis(Cost) => cost
      case Policy => policy
    }

    function Bump(lane: Lane): (r: LaneCounts)
      ensures forall l :: r.Get(l) == Get(l) + (if l == lane then 1 else 0)
    {
      match lane
      case OnAxis(Rate) => this.(rate := rate + 1)
      case OnAxis(Concurrency) => this.(concurrency := concurrency + 1)
      case OnAxis(Cost) => this.(cost := cost + 1)
      case Policy => this.(policy := policy + 1)
    }

    function Sum(): nat { rate + concurrency + cost + policy }
  }

  datatype Snapshot = Snapshot(windowStartedAt: real, allowed: nat, denied: nat, total: nat, denyRate: real, deniedByLane: LaneCounts,
                               topRequested: seq<HeavyHitter>, topDenied: seq<HeavyHitter>, topDeniedByLane: map<Lane, seq<HeavyHitter>>)

  /** A summary of exactly the keys of the selected events. */
  ghost predicate Tracks(slots: seq<Slot>, topK: real, events: seq<Event>, keep: Event -> bool) {
    Summarises(slots, topK, Select(events, keep))
  }

  /** The six summaries of a window. */
  datatype Summaries = Summaries(requested: seq<Slot>, denials: seq<Slot>, byLane: map<Lane, seq<Slot>>)

  const NO_SLOTS := Summaries([], [], map[OnAxis(Rate) := [], OnAxis(Concurrency) := [], OnAxis(Cost) := [], Policy := []])

  ghost predicate Summarised(s: Summaries, topK: real, events: seq<Event>) {
    && Tracks(s.requested, topK, events, Everything()) && Tracks(s.denials, topK, events, Denied())
    && (forall lane :: lane in s.byLane && Tracks(s.byLane[lane], topK, events, DeniedOn(lane)))
  }

  ghost predicate LanesCounted(c: LaneCounts, events: seq<Event>) {
    forall lane :: c.Get(lane) == CountOn(events, lane)
  }

  /** Each field counts the denials of its own lane. */
  ghost predicate LanesShown(c: LaneCounts, events: seq<Event>) {
    && c.rate == CountOn(events, OnAxis(Rate)) && c.concurrency == CountOn(events, OnAxis(Concurrency))
    && c.cost == CountOn(events, OnAxis(Cost)) && c.policy == CountOn(events, Policy)
  }

  lemma LanesByGet(c: LaneCounts, events: seq<Event>)
    requires LanesCounted(c, events)
    ensures LanesShown(c, events)
  {
    assert c.Get(OnAxis(Rate)) == CountOn(events, OnAxis(Rate)) && c.Get(OnAxis(Concurrency)) == CountOn(events, OnAxis(Concurrency));
    assert c.Get(OnAxis(Cost)) == CountOn(events, OnAxis(Cost)) && c.Get(Policy) == CountOn(events, Policy);
  }

  /** The counters are what the events of the window say. */
  ghost predicate Tallied(allowed: nat, denied: nat, lanes: LaneCounts, events: seq<Event>) {
    allowed + denied == |events| && denied == CountDenied(events) && LanesCounted(lanes, events)
  }

  method Tally(allowed: nat, denied: nat, lanes: LaneCounts, admission: Admission, ghost events: seq<Event>, ghost e: Event)
    returns (allowed': nat, denied': nat, lanes': LaneCounts)
    requires Tallied(allowed, denied, lanes, events) && e.admission == admission
    ensures Tallied(allowed', denied', lanes', events + [e])
  {
    allowed', denied', lanes' := allowed, denied, lanes;
    if admission.allowed {
      allowed' := allowed + 1;
    } else {
      denied' := denied + 1;
      lanes' := lanes.Bump(LaneOf(admission).GetOr(Policy));
    }
    DeniedStep(events, e);
    forall lane ensures lanes'.Get(lane) == CountOn(events + [e], lane) { LaneStep(events, e, lane); }
  }

  lemma EmptySummarised(topK: real)
    requires topK >= 1.0
    ensures Summarised(NO_SLOTS, topK, []) && LanesCounted(LaneCounts(0, 0, 0, 0), [])
  {
    forall lane ensures lane in NO_SLOTS.byLane && NO_SLOTS.byLane[lane] == [] {
      LaneIsOne(lane);
    }
  }

  lemma Untracked(slots: seq<Slot>, topK: real, events: seq<Event>, e: Event, keep: Event -> bool)
    requires Tracks(slots, topK, events, keep) && !keep(e)
    ensures Tracks(slots, topK, events + [e], keep)
  {
    SelectAppend(events, e, keep);
    assert Select(events + [e], keep) == Select(events, keep);
  }

  /** One summary sees one more selected event. */
  method Note(slots: seq<Slot>, topK: real, key: Key, ghost events: seq<Event>, ghost e: Event, ghost keep: Event -> bool)
    returns (after: seq<Slot>)
    requires topK >= 1.0 && Tracks(slots, topK, events, keep) && keep(e) && e.key == key
    ensures Tracks(after, topK, events + [e], keep)
  {
    after := Observe(slots, topK, key, Select(events, keep));
    SelectAppend(events, e, keep);
  }

  /** The summaries' part of record: every admit counts as requested, a denial also under its lane. */
  method NoteAll(s: Summaries, topK: real, key: Key, lane: Option<Lane>, ghost events: seq<Event>, ghost e: Event)
    returns (after: Summaries)
    requires topK >= 1.0 && Summarised(s, topK, events) && e.key == key && lane == LaneOf(e.admission)
    ensures Summarised(after, topK, events + [e])
  {
    var requested := Note(s.requested, topK, key, events, e, Everything());
    if lane.None? {
      Untracked(s.denials, topK, events, e, Denied());
      forall l ensures Tracks(s.byLane[l], topK, events + [e], DeniedOn(l)) {
        Untracked(s.byLane[l], topK, events, e, DeniedOn(l));
      }
      after := s.(requested := requested);
    } else {
      var denials := Note(s.denials, topK, key, events, e, Denied());
      var onLane := Note(s.byLane[lane.value], topK, key, events, e, DeniedOn(lane.value));
      forall l | l != lane.value ensures Tracks(s.byLane[l], topK, events + [e], DeniedOn(l)) {
        Untracked(s.byLane[l], topK, events, e, DeniedOn(l));
      }
      after := Summaries(requested, denials, s.byLane[lane.value := onLane]);
    }
  }

  /** A ranking of the keys denied on a lane. */
  ghost predicate LaneRanks(top: seq<HeavyHitter>, topK: real, lane: Lane, events: seq<Event>) {
    Ranks(top, topK, Select(events, DeniedOn(lane)))
  }

  method LaneTop(s: Summaries, topK: real, lane: Lane, ghost events: seq<Event>) returns (top: seq<HeavyHitter>)
    requires topK >= 1.0 && Summarised(s, topK, events)
    ensures LaneRanks(top, topK, lane, events)
  {
    TrackedLane(s, topK, events, lane);
    top := TopOf(s.byLane[lane], topK, Select(events, DeniedOn(lane)));
  }

  function ByLane(rate: seq<HeavyHitter>, concurrency: seq<HeavyHitter>, cost: seq<HeavyHitter>, policy: seq<HeavyHitter>):
    (m: map<Lane, seq<HeavyHitter>>)
    ensures OnAxis(Rate) in m && m[OnAxis(Rate)] == rate && OnAxis(Concurrency) in m && m[OnAxis(Concurrency)] == concurrency
    ensures OnAxis(Cost) in m && m[OnAxis(Cost)] == cost && Policy in m && m[Policy] == policy
  {
    map[OnAxis(Rate) := rate, OnAxis(Concurrency) := concurrency, OnAxis(Cost) := cost, Policy := policy]
  }

  method LaneTops(s: Summaries, topK: real, ghost events: seq<Event>) returns (tops: map<Lane, seq<HeavyHitter>>)
    requires topK >= 1.0 && Summarised(s, topK, events)
    ensures forall lane :: lane in tops && LaneRanks(tops[lane], topK, lane, events)
  {
    var rate := LaneTop(s, topK, OnAxis(Rate), events);
    var concurrency := LaneTop(s, topK, OnAxis(Concurrency), events);
    var cost := LaneTop(s, topK, OnAxis(Cost), events);
    var policy := LaneTop(s, topK, Policy, events);
    tops := ByLane(rate, concurrency, cost, policy);
    forall lane ensures lane in tops && LaneRanks(tops[lane], topK, lane, events) { LaneIsOne(lane); }
  }

  class AdmissionAnalytics {
    const topK: real
    const windowMs: real
    var windowStart: real
    var allowed: nat
    var denied: nat
    var deniedByLane: LaneCounts
    var summaries: Summaries
    ghost var events: seq<Event>

    ghost predicate Valid()
      reads this
    {
      && windowMs > 0.0 && topK >= 1.0 && InWindow(events, windowStart, windowMs)
      && Tallied(allowed, denied, deniedByLane, events) && Summarised(summaries, topK, events)
    }

    constructor (topK: real, windowMs: real)
      requires topK >= 1.0 && windowMs > 0.0
      ensures Valid() && events == [] && this.windowMs == windowMs && this.topK == topK
    {
      this.topK, this.windowMs := topK, windowMs;
      windowStart := -1.0;
      allowed, denied, deniedByLane, summaries := 0, 0, LaneCounts(0, 0, 0, 0), NO_SLOTS;
      events := [];
      EmptySummarised(topK);
    }

    method Clear()
      requires Valid()
      modifies this
      ensures Valid() && events == [] && windowStart == old(windowStart)
    {
      allowed, denied, deniedByLane, summaries := 0, 0, LaneCounts(0, 0, 0, 0), NO_SLOTS;
      events := [];
      EmptySummarised(topK);
    }

    /** Moves to the window of now; a window's events are forgotten exactly when it is left. */
    method Roll(now: real)
      requires Valid()
      modifies this
      ensures Valid() && windowStart == WindowStart(now, windowMs) && HoldsInstant(windowStart, now, windowMs)
      ensures events == if old(windowStart) == windowStart then old(events) else []
    {
      StartHolds(now, windowMs);
      var start := WindowStart(now, windowMs);
      if start != windowStart {
        Clear();
        windowStart := start;
      }
    }

    method CountHere(key: Key, admission: Admission, ghost e: Event)
      requires Valid() && e.key == key && e.admission == admission && WindowStart(e.at, windowMs) == windowStart
      modifies this`allowed, this`denied, this`deniedByLane, this`summaries, this`events
      ensures Valid() && events == old(events) + [e]
    {
      ghost var before := events;
      InWindowAppend(before, e, windowStart, windowMs);
      var s := NoteAll(summaries, topK, key, LaneOf(admission), before, e);
      var a, d, lanes := Tally(allowed, denied, deniedByLane, admission, before, e);
      allowed, denied, deniedByLane, summaries := a, d, lanes, s;
      events := before + [e];
    }

    /** Records one completed admit in the window of now. */
    method Record(key: Key, admission: Admission, now: real)
      requires Valid()
      modifies this
      ensures Valid() && HoldsInstant(windowStart, now, windowMs)
      ensures events == (if old(windowStart) == windowStart then old(events) else []) + [Event(key, admission, now)]
    {
      Roll(now);
      CountHere(key, admission, Event(key, admission, now));
    }

    /** What a snapshot says of the window's events. */
    ghost predicate Reports(s: Snapshot)
      reads this
      requires topK >= 1.0
    {
      && s.total == |events| == s.allowed + s.denied && s.denied == CountDenied(events)
      && s.deniedByLane.Sum() == s.denied && LanesCounted(s.deniedByLane, events) && IsFraction(s.denyRate, s.denied, s.total)
      && Ranks(s.topRequested, topK, Select(events, Everything())) && Ranks(s.topDenied, topK, Select(events, Denied()))
      && forall lane :: lane in s.topDeniedByLane && LaneRanks(s.topDeniedByLane[lane], topK, lane, events)
    }

    /** The snapshot of the window as it stands. */
    method Show() returns (s: Snapshot)
      requires Valid()
      ensures Reports(s) && s.windowStartedAt == windowStart
    {
      var total := allowed + denied;
      LanesAddUp(allowed, denied, deniedByLane, events);
      var rate := RateOf(denied, total);
      var requested := TopOf(summaries.requested, topK, Select(events, Everything()));
      var denials := TopOf(summaries.denials, topK, Select(events, Denied()));
      var byLane := LaneTops(summaries, topK, events);
      s := Snapshot(windowStart, allowed, denied, total, rate, deniedByLane, requested, denials, byLane);
    }

    /** The counters and top lists of the window of now; the lane counts always add up to the denials. */
    method Analyse(now: real) returns (s: Snapshot)
      requires Valid()
      modifies this
      ensures Valid() && s.windowStartedAt == windowStart && HoldsInstant(windowStart, now, windowMs)
      ensures events == if old(windowStart) == windowStart then old(events) else []
      ensures Reports(s) && LanesShown(s.deniedByLane, events)
    {
      Roll(now);
      s := Show();
      LanesByGet(s.deniedByLane, events);
    }

    method ResetAnalytics()
      requires Valid()
      modifies this
      ensures Valid() && events == [] && windowStart == -1.0
    {
      Clear();
      windowStart := -1.0;
    }
  }

  lemma LanesAddUp(allowed: nat, denied: nat, lanes: LaneCounts, events: seq<Event>)
    requires Tallied(allowed, denied, lanes, events)
    ensures lanes.Sum() == denied <= |events|
  {
    LanesPartition(events);
    assert lanes.Sum() == lanes.Get(OnAxis(Rate)) + lanes.Get(OnAxis(Concurrency)) + lanes.Get(OnAxis(Cost)) + lanes.Get(Policy);
  }

  lemma TrackedLane(s: Summaries, topK: real, events: seq<Event>, lane: Lane)
    requires Summarised(s, topK, events)
    ensures lane in s.byLane && Tracks(s.byLane[lane], topK, events, DeniedOn(lane))
  {
  }

  /** A lane's heavy hitters are never dropped: a key denied there more than its share of the lane is in the lane's summary. */
  lemma LaneHeavyHitters(s: Summaries, topK: real, events: seq<Event>, lane: Lane, key: Key, denials: seq<Key>)
    requires topK >= 1.0 && denials == Select(events, DeniedOn(lane)) && !AtMostShare(Freq(denials, key), topK, |denials|)
    requires Summarised(s, topK, events)
    ensures lane in s.byLane && Monitored(s.byLane[lane], key)
  {
    TrackedLane(s, topK, events, lane);
    HeavyIsMonitored(s.byLane[lane], topK, denials, key);
  }

  ghost predicate IsFraction(rate: real, part: nat, whole: nat) {
    0.0 <= rate <= 1.0 && rate * whole as real == part as real && (whole == 0 ==> rate == 0.0)
  }

  method RateOf(part: nat, whole: nat) returns (rate: real)
    requires part <= whole
    ensures IsFraction(rate, part, whole)
  {
    rate := if whole == 0 then 0.0 else part as real / whole as real;
    Fraction(part, whole, rate);
  }

  lemma Fraction(part: nat, whole: nat, rate: real)
    requires part <= whole && rate == if whole == 0 then 0.0 else part as real / whole as real
    ensures IsFraction(rate, part, whole)
  {
    if whole > 0 {
      var w, p := whole as real, part as real;
      assert rate * w == p;
      assert rate < 0.0 ==> rate * w < 0.0;
      assert rate > 1.0 ==> rate * w > w;
    }
  }
}
