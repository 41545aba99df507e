/** The sorted-set form of slidingWindowLog, and that it answers every run as the list form does. */
module SlidingLogScript {
  import opened Numbers
  import opened Wrappers
  import opened Strategy
  import opened SlidingLog

  /** A sorted-set member: its name is the instant and rank it was added with, its score the instant. */
  datatype Member = Member(at: real, rank: int, score: real)

  /** Members in score order, as ZRANGE lists them. */
  type Zset = seq<Member>

  function Scores(z: Zset): (s: Log)
    ensures |s| == |z| && forall i :: 0 <= i < |s| ==> s[i] == z[i].score
  {
    seq(|z|, i requires 0 <= i < |z| => z[i].score)
  }

  /** ZREMRANGEBYSCORE key -inf windowStart */
  function Prune(z: Zset, windowStart: real): Zset {
    if z == [] then [] else (if z[0].score <= windowStart then [] else [z[0]]) + Prune(z[1..], windowStart)
  }

  predicate Named(z: Zset, at: real, rank: int) {
    exists i :: 0 <= i < |z| && z[i].at == at && z[i].rank == rank
  }

  function Insert(z: Zset, m: Member): Zset {
    if z == [] then [m] else if z[0].score <= m.score then [z[0]] + Insert(z[1..], m) else [m] + z
  }

  function Removed(z: Zset, at: real, rank: int): Zset {
    if z == [] then []
    else (if z[0].at == at && z[0].rank == rank then [] else [z[0]]) + Removed(z[1..], at, rank)
  }

  /** ZADD: a known name only gets a new score. */
  function Zadd(z: Zset, m: Member): Zset { Insert(Removed(z, m.at, m.rank), m) }

  /** The loop that adds units members named after the live count. */
  function AddAll(z: Zset, now: real, count: nat, units: nat): Zset {
    if units == 0 then z else Zadd(AddAll(z, now, count, units - 1), Member(now, count + units, now))
  }

  // ---------------------------------------------------------------- sorted sets as logs

  lemma TailScores(z: Zset)
    requires z != [] && Ascending(Scores(z))
    ensures Scores(z)[1..] == Scores(z[1..]) && Ascending(Scores(z[1..]))
    ensures forall i :: 0 <= i < |z| ==> z[i].score >= z[0].score
  {
    forall i, j | 0 <= i < j < |z[1..]| ensures Scores(z[1..])[i] <= Scores(z[1..])[j] {
      assert Scores(z)[i + 1] <= Scores(z)[j + 1];
    }
    forall i | 0 <= i < |z| ensures z[i].score >= z[0].score { if i > 0 { assert Scores(z)[0] <= Scores(z)[i]; } }
  }

  lemma {:induction false} PruneIsLive(z: Zset, windowStart: real)
    requires Ascending(Scores(z))
    ensures Scores(Prune(z, windowStart)) == Live(Scores(z), windowStart)
  {
    if z != [] {
      TailScores(z);
      PruneIsLive(z[1..], windowStart);
      if z[0].score > windowStart {
        NothingPruned(z, windowStart, z[0].score);
        assert Live(Scores(z), windowStart) == Scores(z);
      } else {
        StaleHead(Scores(z), windowStart);
        assert Prune(z, windowStart) == Prune(z[1..], windowStart);
      }
    }
  }

  lemma {:induction false} PruneKeeps(z: Zset, windowStart: real)
    ensures forall m :: m in Prune(z, windowStart) <==> m in z && m.score > windowStart
  {
    if z != [] {
      PruneKeeps(z[1..], windowStart);
      assert z == [z[0]] + z[1..];
    }
  }

  lemma {:induction false} NothingPruned(z: Zset, windowStart: real, low: real)
    requires low > windowStart && forall i :: 0 <= i < |z| ==> z[i].score >= low
    ensures Prune(z, windowStart) == z
  {
    if z != [] {
      NothingPruned(z[1..], windowStart, low);
      assert z == [z[0]] + z[1..];
    }
  }

  lemma {:induction false} RemovedFresh(z: Zset, at: real, rank: int)
    requires !Named(z, at, rank)
    ensures Removed(z, at, rank) == z
  {
    if z != [] {
      assert !(z[0].at == at && z[0].rank == rank);
      forall i | 0 <= i < |z[1..]| ensures !(z[1..][i].at == at && z[1..][i].rank == rank) { assert z[1..][i] == z[i + 1]; }
      RemovedFresh(z[1..], at, rank);
      assert z == [z[0]] + z[1..];
    }
  }

  lemma {:induction false} InsertLast(z: Zset, m: Member)
    requires forall i :: 0 <= i < |z| ==> z[i].score <= m.score
    ensures Insert(z, m) == z + [m]
  {
    if z != [] {
      InsertLast(z[1..], m);
      assert z + [m] == [z[0]] + (z[1..] + [m]);
    }
  }

  /** Every member is named after its score, none is in the future, and the latest names do not outrank the count. */
  ghost predicate Ranked(z: Zset, t: real) {
    forall m :: m in z ==> RankOk(m, |z|, t)
  }

  ghost predicate RankOk(m: Member, count: nat, t: real) {
    m.at == m.score <= t && (m.score == t ==> m.rank <= count)
  }

  /** The name the loop is about to use is fresh. */
  lemma NameIsFresh(z: Zset, now: real)
    requires Ranked(z, now)
    ensures !Named(z, now, |z| + 1)
  {
    forall i | 0 <= i < |z| ensures !(z[i].at == now && z[i].rank == |z| + 1) { assert RankOk(z[i], |z|, now); }
  }

  lemma RanksGrow(z: Zset, now: real)
    requires Ranked(z, now)
    ensures Ranked(z + [Member(now, |z| + 1, now)], now)
  {
    var y := z + [Member(now, |z| + 1, now)];
    forall m | m in y ensures RankOk(m, |y|, now) {
      if m in z { assert RankOk(m, |z|, now); }
    }
  }

  /** Adding the next rank appends one stamp. */
  lemma AddsOne(z: Zset, now: real)
    requires Ranked(z, now)
    ensures var y := Zadd(z, Member(now, |z| + 1, now));
      Ranked(y, now) && |y| == |z| + 1 && Scores(y) == Scores(z) + [now]
  {
    NameIsFresh(z, now);
    RemovedFresh(z, now, |z| + 1);
    forall i | 0 <= i < |z| ensures z[i].score <= now { assert RankOk(z[i], |z|, now); }
    InsertLast(z, Member(now, |z| + 1, now));
    RanksGrow(z, now);
  }

  lemma {:induction false} AddsStamps(z: Zset, now: real, count: nat, units: nat)
    requires Ranked(z, now) && count == |z|
    ensures Ranked(AddAll(z, now, count, units), now) && |AddAll(z, now, count, units)| == count + units
    ensures Scores(AddAll(z, now, count, units)) == Scores(z) + Stamps(now, units)
  {
    if units > 0 {
      AddsStamps(z, now, count, units - 1);
      AddsNext(z, AddAll(z, now, count, units - 1), now, count, units);
    } else {
      assert Scores(z) + [] == Scores(z);
    }
  }

  lemma AddsNext(z: Zset, y: Zset, now: real, count: nat, units: nat)
    requires units > 0 && Ranked(y, now) && |y| == count + units - 1 && Scores(y) == Scores(z) + Stamps(now, units - 1)
    ensures var y' := Zadd(y, Member(now, count + units, now));
      Ranked(y', now) && |y'| == count + units && Scores(y') == Scores(z) + Stamps(now, units)
  {
    AddsOne(y, now);
    StampsGrow(Scores(z), now, units);
  }

  lemma StampsGrow(s: Log, now: real, units: nat)
    requires units > 0
    ensures s + Stamps(now, units) == s + Stamps(now, units - 1) + [now]
  {
    assert Stamps(now, units) == Stamps(now, units - 1) + [now];
  }

  // ---------------------------------------------------------------- the script

  function ScoreAt(z: Zset, index: int, now: real): real {
    if 0 <= index < |z| then z[index].score else now
  }

  /** What one call of the script does: its reply, unless Redis refuses a command, the set it leaves and the expiry it sets. */
  datatype Ran = Ran(reply: Option<Decision>, z: Zset, px: Option<real>)

  /** The ZADD loop. */
  method AddUnits(y: Zset, now: real, count: nat, units: nat) returns (after: Zset)
    ensures after == AddAll(y, now, count, units)
  {
    after := y;
    for i := 0 to units
      invariant after == AddAll(y, now, count, i)
    {
      after := Zadd(after, Member(now, count + (i + 1), now));
    }
  }

  method OldestOf(z: Zset, now: real) returns (oldest: real)
    ensures oldest == OldestScore(z, now)
  {
    oldest := now;
    if |z| > 0 { oldest := z[0].score; }
  }

  /** SLIDING_LOG_LUA on one key; an index that is no whole number makes Redis refuse the ZRANGE and the script fail. */
  method Script(c: Config, z: Zset, now: real, cost: real) returns (ran: Ran)
    requires cost > 0.0
    ensures ran == Run(c, z, now, cost)
  {
    var units := Ceil(cost);
    var y := Prune(z, now - c.windowMs);
    var count := |y|;
    if (count + units) as real <= c.limit {
      var after := AddUnits(y, now, count, units);
      var px := Ceil(c.windowMs) as real;
      if px < 1.0 { px := 1.0; }
      var oldest := OldestOf(after, now);
      var remaining := LeftOf(c, count + units);
      return Ran(Some(OnWire(Decision(true, c.limit, remaining, Ceil(oldest + c.windowMs) as real, 0.0))), after, Some(px));
    }
    var retry := RetryInScript(c, y, now, units);
    if retry.None? { return Ran(None, y, None); }
    var oldest := OldestOf(y, now);
    var remaining := LeftOf(c, count);
    return Ran(Some(OnWire(Decision(false, c.limit, remaining, Ceil(oldest + c.windowMs) as real, retry.value))), y, None);
  }

  method RetryInScript(c: Config, y: Zset, now: real, units: int) returns (retry: Option<real>)
    ensures retry == ScriptRetry(c, y, now, units)
  {
    var count := |y|;
    if count == 0 { return Some(c.windowMs); }
    var kMin := (count + units) as real - c.limit;
    if kMin < 1.0 { kMin := 1.0; }
    if kMin > count as real { kMin := count as real; }
    if kMin - 1.0 != Floor(kMin - 1.0) as real { return None; }
    var wait := Ceil(ScoreAt(y, Floor(kMin - 1.0), now) + c.windowMs - now) as real;
    if wait < 1.0 { wait := 1.0; }
    return Some(wait);
  }

  /** The wait the script computes, if Redis accepts the index. */
  function ScriptRetry(c: Config, y: Zset, now: real, units: int): Option<real> {
    if y == [] then Some(c.windowMs)
    else
      var index := Min(Max(1.0, (|y| + units) as real - c.limit), |y| as real) - 1.0;
      if index != Floor(index) as real then None
      else Some(Max(1.0, Ceil(ScoreAt(y, Floor(index), now) + c.windowMs - now) as real))
  }

  function OldestScore(z: Zset, now: real): real { if z != [] then z[0].score else now }

  function Expiry(c: Config): real { Max(1.0, Ceil(c.windowMs) as real) }

  /** The script's work once the expired members are gone. */
  function RunPruned(c: Config, y: Zset, now: real, units: nat): Ran {
    if (|y| + units) as real <= c.limit then
      var after := AddAll(y, now, |y|, units);
      Ran(Some(OnWire(Accept(c, |y| + units, OldestScore(after, now)))), after, Some(Expiry(c)))
    else
      match ScriptRetry(c, y, now, units)
      case None => Ran(None, y, None)
      case Some(retry) => Ran(Some(OnWire(Refuse(c, |y|, OldestScore(y, now), retry))), y, None)
  }

  /** What the script computes, as a function. */
  function Run(c: Config, z: Zset, now: real, cost: real): Ran
    requires cost > 0.0
  {
    RunPruned(c, Prune(z, now - c.windowMs), now, Units(cost))
  }

  // ---------------------------------------------------------------- refinement

  /** The set's scores are the live part of the list, as of the last request; the script prunes on denial too. */
  ghost predicate Mirrors(z: Zset, log: Log, w: real, t: real) {
    && Scores(z) == Live(log, t - w) && Ascending(log) && UpTo(log, t) && Ranked(z, t)
    && AllAfter(Scores(z), t - w)
  }

  ghost predicate AllAfter(log: Log, windowStart: real) {
    forall i :: 0 <= i < |log| ==> log[i] > windowStart
  }

  lemma RankLater(m: Member, n: nat, k: nat, t: real, now: real)
    requires RankOk(m, n, t) && t < now
    ensures RankOk(m, k, now)
  {
  }

  lemma PruneRanked(z: Zset, w: real, t: real, now: real)
    requires Ranked(z, t) && t <= now && w > 0.0 && AllAfter(Scores(z), t - w)
    requires forall m :: m in Prune(z, now - w) ==> m in z
    ensures Ranked(Prune(z, now - w), now)
  {
    var y := Prune(z, now - w);
    if t == now {
      forall i | 0 <= i < |z| ensures z[i].score > t - w { assert Scores(z)[i] > t - w; }
      NothingPrunedAt(z, t - w);
    } else {
      forall m | m in y ensures RankOk(m, |y|, now) {
        RankLater(m, |z|, |y|, t, now);
      }
    }
  }

  lemma PruneScores(z: Zset, log: Log, live: Log, early: real, late: real)
    requires Scores(z) == live && live == Live(log, early) && Ascending(live) && early <= late
    ensures Scores(Prune(z, late)) == Live(log, late)
    ensures forall m :: m in Prune(z, late) ==> m in z
  {
    PruneIsLive(z, late);
    PruneKeeps(z, late);
    LiveTwice(log, early, late);
  }

  /** Pruning at a later request gives the list's live part then, with every fresh name still free. */
  lemma PruneMirrors(z: Zset, log: Log, w: real, t: real, now: real)
    requires Mirrors(z, log, w, t) && t <= now && w > 0.0
    ensures Scores(Prune(z, now - w)) == Live(log, now - w) && Ranked(Prune(z, now - w), now)
  {
    LiveAscends(log, t - w, t);
    PruneParts(z, log, Scores(z), w, t, now);
  }

  lemma PruneParts(z: Zset, log: Log, live: Log, w: real, t: real, now: real)
    requires Scores(z) == live && live == Live(log, t - w) && Ascending(live) && AllAfter(live, t - w)
    requires Ranked(z, t) && t <= now && w > 0.0
    ensures Scores(Prune(z, now - w)) == Live(log, now - w) && Ranked(Prune(z, now - w), now)
  {
    PruneScores(z, log, live, t - w, now - w);
    PruneRanked(z, w, t, now);
  }

  lemma LiveAscends(log: Log, windowStart: real, t: real)
    requires Ascending(log) && UpTo(log, t)
    ensures Ascending(Live(log, windowStart)) && UpTo(Live(log, windowStart), t) && AllAfter(Live(log, windowStart), windowStart)
  {
    LiveKeeps(log, windowStart, t);
  }

  lemma {:induction false} NothingPrunedAt(z: Zset, windowStart: real)
    requires forall i :: 0 <= i < |z| ==> z[i].score > windowStart
    ensures Prune(z, windowStart) == z
  {
    if z != [] {
      NothingPrunedAt(z[1..], windowStart);
      assert z == [z[0]] + z[1..];
    }
  }

  /** The denials on which Redis refuses the script's index: the count that has to leave the window is fractional. */
  predicate IndexRefused(c: Config, live: Log, units: int) {
    var k := (|live| + units) as real - c.limit;
    !Fits(c, live, units) && 1.0 < k < |live| as real && k != Floor(k) as real
  }

  lemma RetryMirrors(c: Config, y: Zset, live: Log, now: real, units: int)
    requires Scores(y) == live && !Fits(c, live, units)
    ensures ScriptRetry(c, y, now, units) == if IndexRefused(c, live, units) then None else Some(Retry(c, live, now, units))
  {
    if y != [] {
      var k := (|live| + units) as real - c.limit;
      var kMin := Min(Max(1.0, k), |live| as real);
      FloorLess(kMin);
      FloorIs(1.0, 1);
      FloorIs(|live| as real, |live|);
    }
  }

  lemma FloorLess(x: real)
    ensures Floor(x - 1.0) == Floor(x) - 1
  {
    FloorIs(x - 1.0, Floor(x) - 1);
  }

  lemma MirrorsFrom(z: Zset, log: Log, w: real, now: real)
    requires Scores(z) == Live(log, now - w) && Ranked(z, now) && Ascending(log) && UpTo(log, now)
    ensures Mirrors(z, log, w, now)
  {
    LiveAscends(log, now - w, now);
  }

  lemma StampsAllLive(live: Log, windowStart: real, now: real, units: nat)
    requires AllAfter(live, windowStart) && windowStart < now
    ensures Live(live + Stamps(now, units), windowStart) == live + Stamps(now, units)
  {
    AllLive(live + Stamps(now, units), windowStart);
  }

  lemma AcceptMirrors(y: Zset, live: Log, w: real, now: real, units: nat)
    requires Scores(y) == live && Ranked(y, now) && w > 0.0 && Ascending(live) && UpTo(live, now) && AllAfter(live, now - w)
    ensures Scores(AddAll(y, now, |y|, units)) == live + Stamps(now, units)
    ensures Mirrors(AddAll(y, now, |y|, units), live + Stamps(now, units), w, now)
  {
    AddsStamps(y, now, |y|, units);
    StampsAllLive(live, now - w, now, units);
    AppendStamps(live, now, units);
    MirrorsFrom(AddAll(y, now, |y|, units), live + Stamps(now, units), w, now);
  }

  lemma OldestMirrors(z: Zset, now: real)
    ensures OldestOr(Scores(z), now) == OldestScore(z, now)
  {
  }

  /** The script's reply to a request the list form decides: none if Redis refuses the index, else that decision without fractions. */
  function Expected(c: Config, live: Log, units: int, d: Decision): Option<Decision> {
    if IndexRefused(c, live, units) then None else Some(OnWire(d))
  }

  /** One request: the expected reply, the expiry of what is kept, and states that mirror each other again. */
  ghost predicate SameStep(c: Config, ran: Ran, out: Outcome<Log, Decision>, live: Log, units: int, state: Option<Log>, now: real) {
    && ran.reply == Expected(c, live, units, out.result)
    && (ran.px.Some? <==> out.persist) && (ran.px.Some? ==> out.ttlMs <= ran.px.value < out.ttlMs + 1.0)
    && Mirrors(ran.z, (if out.persist then out.state else state).GetOr([]), c.windowMs, now)
  }

  lemma StepMirrors(c: Config, z: Zset, state: Option<Log>, t: real, now: real, cost: real)
    requires cost > 0.0 && t <= now && Mirrors(z, state.GetOr([]), c.windowMs, t)
    ensures SameStep(c, Run(c, z, now, cost), CheckLog(c, state, now, cost), Live(state.GetOr([]), now - c.windowMs), Units(cost), state, now)
  {
    var log := state.GetOr([]);
    PruneMirrors(z, log, c.windowMs, t, now);
    UpToLater(log, t, now);
    UnitsPositive(cost);
    StepFromPruned(c, Prune(z, now - c.windowMs), state, log, Live(log, now - c.windowMs), now, Units(cost));
  }

  lemma StepAccepted(c: Config, y: Zset, state: Option<Log>, live: Log, now: real, units: nat)
    requires Fits(c, live, units) && Scores(y) == live && Ranked(y, now)
    requires Ascending(live) && UpTo(live, now) && AllAfter(live, now - c.windowMs)
    ensures SameStep(c, RunPruned(c, y, now, units), CheckLive(c, live, state, now, units), live, units, state, now)
  {
    AcceptMirrors(y, live, c.windowMs, now, units);
    OldestMirrors(AddAll(y, now, |y|, units), now);
  }

  lemma StepDenied(c: Config, y: Zset, state: Option<Log>, live: Log, now: real, units: nat)
    requires !Fits(c, live, units) && Scores(y) == live
    requires Mirrors(y, state.GetOr([]), c.windowMs, now)
    ensures SameStep(c, RunPruned(c, y, now, units), CheckLive(c, live, state, now, units), live, units, state, now)
  {
    RetryMirrors(c, y, live, now, units);
    OldestMirrors(y, now);
  }

  lemma StepFromPruned(c: Config, y: Zset, state: Option<Log>, log: Log, live: Log, now: real, units: nat)
    requires units >= 1 && log == state.GetOr([])
    requires live == Live(log, now - c.windowMs) && Scores(y) == live && Ranked(y, now) && Ascending(log) && UpTo(log, now)
    ensures SameStep(c, RunPruned(c, y, now, units), CheckLive(c, live, state, now, units), live, units, state, now)
  {
    LiveAscends(log, now - c.windowMs, now);
    if Fits(c, live, units) {
      StepAccepted(c, y, state, live, now, units);
    } else {
      MirrorsFrom(y, log, c.windowMs, now);
      StepDenied(c, y, state, live, now, units);
    }
  }

  lemma AllLive(log: Log, windowStart: real)
    requires forall i :: 0 <= i < |log| ==> log[i] > windowStart
    ensures Live(log, windowStart) == log
  {
  }

  function SetAfter(c: Config, run: seq<Request>): Zset
    requires PositiveCosts(run)
  {
    if run == [] then []
    else
      var n := |run| - 1;
      Run(c, SetAfter(c, run[..n]), run[n].at, run[n].cost).z
  }

  function ScriptAnswers(c: Config, run: seq<Request>): seq<Option<Decision>>
    requires PositiveCosts(run)
  {
    if run == [] then []
    else
      var n := |run| - 1;
      ScriptAnswers(c, run[..n]) + [Run(c, SetAfter(c, run[..n]), run[n].at, run[n].cost).reply]
  }

  /** What the list form lets the script answer, request by request. */
  function ExpectedAnswers(c: Config, run: seq<Request>): seq<Option<Decision>> {
    if run == [] then []
    else
      var before, r := run[..|run| - 1], run[|run| - 1];
      ExpectedAnswers(c, before) +
      [ExpectedFrom(c, Kept(Checker(c), before), r.at, r.cost)]
  }

  function ExpectedFrom(c: Config, state: Option<Log>, now: real, cost: real): Option<Decision> {
    Expected(c, Live(state.GetOr([]), now - c.windowMs), Units(cost), CheckLog(c, state, now, cost).result)
  }

  lemma {:induction false} RunsMirror(c: Config, run: seq<Request>, t: real)
    requires NonDecreasing(run) && PositiveCosts(run)
    requires if run == [] then true else run[|run| - 1].at == t
    ensures Mirrors(SetAfter(c, run), LogAfter(c, run), c.windowMs, t)
  {
    if run != [] {
      var before, r := run[..|run| - 1], run[|run| - 1];
      var last := if before == [] then r.at else before[|before| - 1].at;
      RunsMirror(c, before, last);
      StepMirrors(c, SetAfter(c, before), Kept(Checker(c), before), last, r.at, r.cost);
    }
  }

  /**
   * On every run with non-decreasing time the sorted-set script answers as the list does, except that its numbers lose their
   * fractions and that it fails on exactly the denials whose index is fractional.
   */
  lemma {:induction false} SameAnswers(c: Config, run: seq<Request>)
    requires NonDecreasing(run) && PositiveCosts(run)
    ensures ScriptAnswers(c, run) == ExpectedAnswers(c, run)
  {
    if run != [] {
      var before, r := run[..|run| - 1], run[|run| - 1];
      SameAnswers(c, before);
      var last := if before == [] then r.at else before[|before| - 1].at;
      RunsMirror(c, before, last);
      StepReplies(c, SetAfter(c, before), Kept(Checker(c), before), last, r.at, r.cost);
    }
  }

  lemma StepReplies(c: Config, z: Zset, state: Option<Log>, t: real, now: real, cost: real)
    requires cost > 0.0 && t <= now && Mirrors(z, state.GetOr([]), c.windowMs, t)
    ensures Run(c, z, now, cost).reply == ExpectedFrom(c, state, now, cost)
  {
    StepMirrors(c, z, state, t, now, cost);
    ReplyOf(c, Run(c, z, now, cost), CheckLog(c, state, now, cost), Live(state.GetOr([]), now - c.windowMs), Units(cost), state, now);
  }

  lemma ReplyOf(c: Config, ran: Ran, out: Outcome<Log, Decision>, live: Log, units: int, state: Option<Log>, now: real)
    requires SameStep(c, ran, out, live, units, state, now)
    ensures ran.reply == Expected(c, live, units, out.result)
  {
  }

  /** With a whole limit no index is refused. */
  lemma WholeLimitNeverRefused(c: Config, live: Log, units: int)
    requires c.limit == Floor(c.limit) as real
    ensures !IndexRefused(c, live, units)
  {
    var n := |live| + units - Floor(c.limit);
    FloorIs(n as real, n);
  }

  /** A whole limit and a whole window leave every answer of the list as it is on the wire. */
  lemma WholeOptionsWire(c: Config, live: Log, state: Option<Log>, now: real, units: int)
    requires c.limit == Floor(c.limit) as real && c.windowMs == Floor(c.windowMs) as real
    ensures OnWire(CheckLive(c, live, state, now, units).result) == CheckLive(c, live, state, now, units).result
  {
    TruncWhole(c.limit, Floor(c.limit));
    TruncWhole(0.0, 0);
    var d := CheckLive(c, live, state, now, units).result;
    if Fits(c, live, units) {
      TruncWhole(d.remaining, Floor(c.limit) - |live| - units);
      TruncWhole(d.resetAt, Ceil(OldestOr(live + Stamps(now, units), now) + c.windowMs));
    } else {
      TruncWhole(d.remaining, if |live| <= Floor(c.limit) then Floor(c.limit) - |live| else 0);
      TruncWhole(d.resetAt, Ceil(OldestOr(live, now) + c.windowMs));
      WholeRetry(c, live, now, units, d.retryAfterMs);
    }
  }

  lemma WholeRetry(c: Config, live: Log, now: real, units: int, retry: real)
    requires c.windowMs == Floor(c.windowMs) as real && retry == Retry(c, live, now, units)
    ensures Trunc(retry) == retry
  {
    if live == [] {
      TruncWhole(retry, Floor(c.windowMs));
    } else {
      var k := Min(Max(1.0, (|live| + units) as real - c.limit), |live| as real);
      var wait := Ceil(At(live, k - 1.0).GetOr(now) + c.windowMs - now);
      TruncWhole(retry, if wait < 1 then 1 else wait);
    }
  }

  /** So with both whole, the script answers every request exactly as the list does. */
  lemma {:induction false} SameWholeAnswers(c: Config, run: seq<Request>)
    requires c.limit == Floor(c.limit) as real && c.windowMs == Floor(c.windowMs) as real
    requires NonDecreasing(run) && PositiveCosts(run)
    ensures |ScriptAnswers(c, run)| == |Answers(Checker(c), run)| == |run|
    ensures forall i :: 0 <= i < |run| ==> ScriptAnswers(c, run)[i] == Some(Answers(Checker(c), run)[i])
  {
    SameAnswers(c, run);
    WholeExpected(c, run);
  }

  lemma {:induction false} WholeExpected(c: Config, run: seq<Request>)
    requires c.limit == Floor(c.limit) as real && c.windowMs == Floor(c.windowMs) as real
    ensures |ExpectedAnswers(c, run)| == |Answers(Checker(c), run)| == |run|
    ensures forall i :: 0 <= i < |run| ==> ExpectedAnswers(c, run)[i] == Some(Answers(Checker(c), run)[i])
  {
    if run != [] {
      var before, r := run[..|run| - 1], run[|run| - 1];
      WholeExpected(c, before);
      ExpectedWhole(c, Kept(Checker(c), before), r.at, r.cost);
    }
  }

  lemma ExpectedWhole(c: Config, state: Option<Log>, now: real, cost: real)
    requires c.limit == Floor(c.limit) as real && c.windowMs == Floor(c.windowMs) as real
    ensures ExpectedFrom(c, state, now, cost) == Some(Checker(c)(state, now, cost).result)
  {
    WholeLimitNeverRefused(c, Live(state.GetOr([]), now - c.windowMs), Units(cost));
    WholeOptionsWire(c, Live(state.GetOr([]), now - c.windowMs), state, now, Units(cost));
  }
}
