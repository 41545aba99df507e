/** fixedWindow and quota: the window counter over epoch-aligned windows, anchored periods and calendar periods. */
module FixedWindow {
  import opened Numbers
  import opened Wrappers
  import opened Strategy
  import opened CalendarPeriods
  import opened Calendar
  import opened WindowCounter

  // ---------------------------------------------------------------- equal windows

  /** Window k of width w counted from an anchor. */
  function Cell(anchor: real, w: real, k: int): Period {
    Period(anchor + k as real * w, anchor + k as real * w + w)
  }

  /** quota's fixed cadence; fixedWindow is the case of anchor zero. */
  function CellAt(anchor: real, w: real, now: real): Period
    requires w > 0.0
  {
    Cell(anchor, w, Floor((now - anchor) / w))
  }

  lemma CellHolds(anchor: real, w: real, now: real, k: int)
    requires w > 0.0
    ensures Cell(anchor, w, k).start <= now < Cell(anchor, w, k).reset <==> Floor((now - anchor) / w) == k
  {
    if Cell(anchor, w, k).start <= now < Cell(anchor, w, k).reset { CellIndex(now - anchor, w, k); }
    if Floor((now - anchor) / w) == k { CellBounds(now - anchor, w); }
  }

  lemma NextCell(anchor: real, w: real, k: int)
    ensures Cell(anchor, w, k).reset == Cell(anchor, w, k + 1).start
  {
    Distributes(k as real, 1.0, w);
  }

  function CellBoundsOf(anchor: real, w: real): Bounds
    requires w > 0.0
  {
    (now: real) => CellAt(anchor, w, now)
  }

  /** Equal windows tile all of time. */
  lemma CellsTile(anchor: real, w: real, now: real)
    requires w > 0.0
    ensures PeriodTiles(CellBoundsOf(anchor, w), now)
  {
    var k := Floor((now - anchor) / w);
    var p := Cell(anchor, w, k);
    CellHolds(anchor, w, now, k);
    forall t | p.start <= t < p.reset ensures CellAt(anchor, w, t) == p { CellHolds(anchor, w, t, k); }
    NextCell(anchor, w, k);
    CellNotEmpty(anchor, w, k + 1);
    CellHolds(anchor, w, p.reset, k + 1);
  }

  lemma CellNotEmpty(anchor: real, w: real, k: int)
    requires w > 0.0
    ensures Cell(anchor, w, k).start < Cell(anchor, w, k).reset
  {
  }

  lemma CellsTileFrom(anchor: real, w: real, from: real)
    requires w > 0.0
    ensures TilesFrom(CellBoundsOf(anchor, w), from)
  {
    forall t | t >= from ensures PeriodTiles(CellBoundsOf(anchor, w), t) { CellsTile(anchor, w, t); }
  }

  // ---------------------------------------------------------------- fixedWindow

  datatype Options = Options(limit: real, windowMs: real) {
    predicate Valid() { limit > 0.0 && windowMs > 0.0 }
  }

  type Config = o: Options | o.Valid() witness Options(1.0, 1.0)

  function FixedBounds(c: Config): Bounds { CellBoundsOf(0.0, c.windowMs) }

  /** fixedWindow(...).check */
  function FixedChecker(c: Config): Check<Window, Decision> {
    Checker(FixedBounds(c), c.limit, c.windowMs)
  }

  /** Half-open interval of one window's length from x. */
  ghost function Stretch(x: real, w: real): real -> bool { (t: real) => x <= t < x + w }

  lemma StretchCovered(w: real, x: real, t: real)
    requires w > 0.0 && x <= t < x + w
    ensures var p := CellAt(0.0, w, x); var next := CellAt(0.0, w, p.reset);
      In(p, t) || In(next, t)
  {
    var k := Floor((x - 0.0) / w);
    CellHolds(0.0, w, x, k);
    NextCell(0.0, w, k);
    CellNotEmpty(0.0, w, k + 1);
    CellHolds(0.0, w, Cell(0.0, w, k).reset, k + 1);
  }

  /** At most twice the limit in any half-open interval of one window's length, on every run with non-decreasing time. */
  lemma TwiceTheLimit(c: Config, run: seq<Request>, x: real)
    requires NonDecreasing(run) && PositiveCosts(run)
    ensures AdmittedWhen(FixedChecker(c), run, Stretch(x, c.windowMs)) <= 2.0 * c.limit
  {
    var w, bounds := c.windowMs, CellBoundsOf(0.0, c.windowMs);
    var p := bounds(x);
    var next := bounds(p.reset);
    var from := Min(x, First(run));
    CellsTileFrom(0.0, w, from);
    SinceFirst(run);
    assert Since(run, from);
    assert p.reset >= from by { CellsTile(0.0, w, x); }
    forall t | Stretch(x, w)(t) ensures Within(p)(t) || Within(next)(t) { StretchCovered(w, x, t); }
    AdmittedCovered(FixedChecker(c), run, Stretch(x, w), Within(p), Within(next));
    PeriodBound(bounds, from, x, c.limit, w, run);
    PeriodBound(bounds, from, p.reset, c.limit, w, run);
  }

  /** And twice the limit is reached: one full budget in the middle of a window, another at the next boundary. */
  lemma TwiceIsReached(c: Config)
    ensures var w := c.windowMs; var run := [Request(w / 2.0, c.limit), Request(w, c.limit)];
      AdmittedWhen(FixedChecker(c), run, Stretch(w / 2.0, w)) == 2.0 * c.limit
  {
    var w, check := c.windowMs, FixedChecker(c);
    var first, second := Request(w / 2.0, c.limit), Request(w, c.limit);
    HalfAndWhole(w);
    assert [first][..0] == [] && [first, second][..1] == [first];
    assert Kept(check, []) == None;
    assert AdmittedWhen(check, [first], Stretch(w / 2.0, w)) == c.limit;
    assert AdmittedWhen(check, [first, second], Stretch(w / 2.0, w)) == c.limit + c.limit;
  }

  lemma HalfAndWhole(w: real)
    requires w > 0.0
    ensures CellAt(0.0, w, w / 2.0) == Period(0.0, w) && CellAt(0.0, w, w).start == w
  {
    CellIndex(w / 2.0, w, 0);
    CellIndex(w, w, 1);
  }

  lemma FixedForgettingUnseen(c: Config, floor: real, run: seq<Request>, drops: seq<bool>)
    requires NonDecreasing(run) && PositiveCosts(run) && |run| == |drops|
    ensures ForgetfulAnswers(FixedChecker(c), floor, run, drops) == Answers(FixedChecker(c), run)
  {
    CellsTileFrom(0.0, c.windowMs, First(run));
    SinceFirst(run);
    CounterForgettingUnseen(CellBoundsOf(0.0, c.windowMs), c.limit, c.windowMs, First(run), floor, run, drops);
  }

  lemma FixedHintExactWhen(c: Config, state: Option<Window>, now: real, cost: real, hint: int)
    requires cost > 0.0 && Counts(state)
    requires var d := FixedChecker(c)(state, now, cost).result; !d.allowed && d.retryAfterMs == hint as real
    ensures ExactHint(FixedChecker(c), state, now, cost, hint) <==> cost <= c.limit
  {
    CellsTileFrom(0.0, c.windowMs, now);
    HintExactWhen(CellBoundsOf(0.0, c.windowMs), c.limit, c.windowMs, now, state, now, cost, hint);
  }

  // ---------------------------------------------------------------- quota

  /** The non-rolling cadences of a quota. */
  datatype Resets = Anchored(anchor: int, periodMs: real) | OnCalendar(cadence: Cadence, offsetMinutes: int, weekStartsOn: int)

  datatype QuotaOptions = QuotaOptions(limit: real, resets: Resets) {
    predicate Valid() {
      limit > 0.0 &&
      match resets
      case Anchored(_, periodMs) => periodMs > 0.0
      case OnCalendar(_, offset, weekday) => -840 <= offset <= 840 && 0 <= weekday <= 6
    }
  }

  type QuotaConfig = o: QuotaOptions | o.Valid() witness QuotaOptions(1.0, Anchored(0, 1.0))

  function QuotaBounds(c: QuotaConfig): Bounds {
    match c.resets
    case Anchored(anchor, periodMs) => CellBoundsOf(anchor as real, periodMs)
    case OnCalendar(cadence, offset, weekday) => PeriodsOf(cadence, offset as real * 60_000.0, weekday)
  }

  function IdleTtl(c: QuotaConfig): real {
    match c.resets
    case Anchored(_, periodMs) => periodMs
    case OnCalendar(cadence, _, _) => (if cadence.Month? then 31.0 else if cadence.Week? then 7.0 else 1.0) * MS_PER_DAY
  }

  /** quota(...).check */
  function QuotaChecker(c: QuotaConfig): Check<Window, Decision> {
    Checker(QuotaBounds(c), c.limit, IdleTtl(c))
  }

  /** Instants from which the calendar's months are right: local time from 0000-03-01 on. */
  ghost predicate Dated(c: QuotaConfig, from: real) {
    c.resets.OnCalendar? && c.resets.cadence.Month? ==>
      from + c.resets.offsetMinutes as real * 60_000.0 >= -719468.0 * MS_PER_DAY
  }

  lemma DatedDays(from: real, offset: real, t: real)
    requires from + offset >= -719468.0 * MS_PER_DAY && t >= from
    ensures LocalDay(t, offset) >= -719468
  {
    SpanHolds(t, offset, Span(-719468, LocalDay(t, offset) + 1));
    DayHolds(t + offset, LocalDay(t, offset));
  }

  lemma QuotaTiles(c: QuotaConfig, from: real)
    requires Dated(c, from)
    ensures TilesFrom(QuotaBounds(c), from)
  {
    match c.resets
    case Anchored(anchor, periodMs) => CellsTileFrom(anchor as real, periodMs, from);
    case OnCalendar(cadence, minutes, weekday) =>
      var offset := minutes as real * 60_000.0;
      forall t | t >= from ensures PeriodTiles(QuotaBounds(c), t) {
        if cadence.Month? { DatedDays(from, offset, t); }
        PeriodsTile(cadence, t, offset, weekday);
      }
  }

  /** Each quota period admits at most the limit, on every run with non-decreasing time. */
  lemma QuotaBound(c: QuotaConfig, run: seq<Request>, from: real, x: real)
    requires Dated(c, from) && x >= from && NonDecreasing(run) && Since(run, from) && PositiveCosts(run)
    ensures AdmittedWhen(QuotaChecker(c), run, Within(QuotaBounds(c)(x))) <= c.limit
  {
    QuotaTiles(c, from);
    PeriodBound(QuotaBounds(c), from, x, c.limit, IdleTtl(c), run);
  }

  lemma QuotaForgettingUnseen(c: QuotaConfig, floor: real, run: seq<Request>, from: real, drops: seq<bool>)
    requires Dated(c, from) && NonDecreasing(run) && Since(run, from) && PositiveCosts(run) && |run| == |drops|
    ensures ForgetfulAnswers(QuotaChecker(c), floor, run, drops) == Answers(QuotaChecker(c), run)
  {
    QuotaTiles(c, from);
    CounterForgettingUnseen(QuotaBounds(c), c.limit, IdleTtl(c), from, floor, run, drops);
  }

  lemma QuotaHintExactWhen(c: QuotaConfig, state: Option<Window>, now: real, cost: real, hint: int)
    requires Dated(c, now) && cost > 0.0 && Counts(state)
    requires var d := QuotaChecker(c)(state, now, cost).result; !d.allowed && d.retryAfterMs == hint as real
    ensures ExactHint(QuotaChecker(c), state, now, cost, hint) <==> cost <= c.limit
  {
    QuotaTiles(c, now);
    HintExactWhen(QuotaBounds(c), c.limit, IdleTtl(c), now, state, now, cost, hint);
  }

  // ---------------------------------------------------------------- where the periods lie

  /** A fixed window starts at a whole multiple of its width. */
  lemma FixedPeriod(c: Config, now: real) returns (k: int)
    ensures var p := FixedBounds(c)(now);
      p.start <= now < p.reset == p.start + c.windowMs && p.start == k as real * c.windowMs
  {
    k := Floor((now - 0.0) / c.windowMs);
    CellHolds(0.0, c.windowMs, now, k);
    assert CellAt(0.0, c.windowMs, now).start == 0.0 + k as real * c.windowMs;
  }

  /** A period of an anchored quota starts a whole number of periods from its anchor. */
  lemma AnchoredPeriod(c: QuotaConfig, now: real) returns (k: int)
    requires c.resets.Anchored?
    ensures var p := QuotaBounds(c)(now);
      && p.start <= now < p.reset == p.start + c.resets.periodMs
      && p.start == c.resets.anchor as real + k as real * c.resets.periodMs
  {
    var anchor, w := c.resets.anchor as real, c.resets.periodMs;
    k := Floor((now - anchor) / w);
    CellHolds(anchor, w, now, k);
    assert CellAt(anchor, w, now).start == anchor + k as real * w;
  }

  lemma CalendarBounds(c: QuotaConfig, now: real, offset: real)
    requires c.resets.OnCalendar? && offset == c.resets.offsetMinutes as real * 60_000.0
    ensures QuotaBounds(c)(now) == CalendarPeriod(c.resets.cadence, now, offset, c.resets.weekStartsOn)
  {
  }

  /** A calendar quota's periods are days, weeks from the chosen weekday and months, in local time at the given minutes. */
  lemma CalendarQuotaPeriod(c: QuotaConfig, now: real) returns (first: Date)
    requires c.resets.OnCalendar? && Dated(c, now)
    ensures var p, minutes := QuotaBounds(c)(now), c.resets.offsetMinutes as real;
      && p.start <= now < p.reset
      && match c.resets.cadence
         case Day => SpansDays(p, minutes * 60_000.0, LocalDay(now, minutes * 60_000.0), 1)
         case Week => exists day :: Weekday(day) == c.resets.weekStartsOn && SpansDays(p, minutes * 60_000.0, day, 7)
         case Month => ValidDate(first) && first.d == 1 && SpansDays(p, minutes * 60_000.0, DayNumber(first), DaysIn(first.y, first.m))
  {
    var offset := c.resets.offsetMinutes as real * 60_000.0;
    first := Date(0, 1, 1);
    CalendarBounds(c, now, offset);
    match c.resets.cadence
    case Day => DayPeriod(now, offset, c.resets.weekStartsOn);
    case Week =>
      WeekPeriod(now, offset, c.resets.weekStartsOn);
      assert SpansDays(QuotaBounds(c)(now), offset, WeekSpan(LocalDay(now, offset), c.resets.weekStartsOn).first, 7);
    case Month =>
      DatedDays(now, offset, now);
      first := MonthPeriod(now, offset, c.resets.weekStartsOn);
  }

  /** fixedWindow admits exactly what its window of now, of windowMs from a whole multiple on, still has room for. */
  lemma FixedAdmitsExactlyWhen(c: Config, run: seq<Request>, now: real, cost: real)
    requires NonDecreasing(run) && PositiveCosts(run) && (run == [] || run[|run| - 1].at <= now)
    ensures FixedChecker(c)(Kept(FixedChecker(c), run), now, cost).result.allowed
      <==> AdmittedWhen(FixedChecker(c), run, Within(FixedBounds(c)(now))) + cost <= c.limit
  {
    var from := Min(now, First(run));
    CellsTileFrom(0.0, c.windowMs, from);
    SinceFirst(run);
    AdmitsExactlyWhen(FixedBounds(c), from, c.limit, c.windowMs, run, now, cost);
  }

  /** And a quota what the period of now still has room for. */
  lemma QuotaAdmitsExactlyWhen(c: QuotaConfig, run: seq<Request>, from: real, now: real, cost: real)
    requires Dated(c, from) && now >= from && NonDecreasing(run) && Since(run, from) && PositiveCosts(run)
    requires run == [] || run[|run| - 1].at <= now
    ensures QuotaChecker(c)(Kept(QuotaChecker(c), run), now, cost).result.allowed
      <==> AdmittedWhen(QuotaChecker(c), run, Within(QuotaBounds(c)(now))) + cost <= c.limit
  {
    QuotaTiles(c, from);
    AdmitsExactlyWhen(QuotaBounds(c), from, c.limit, IdleTtl(c), run, now, cost);
  }
}
