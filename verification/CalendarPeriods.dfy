/** Calendar periods at a fixed offset: days, weeks and months cut time into adjacent half-open intervals. */
module CalendarPeriods {
  import opened Numbers
  import opened Calendar

  datatype Cadence = Month | Week | Day

  datatype Period = Period(start: real, reset: real)

  /** The days a period spans, [first, next). */
  datatype Span = Span(first: int, next: int)

  function NextMonth(y: int, m: int): Date {
    Date(if m == 12 then y + 1 else y, if m == 12 then 1 else m + 1, 1)
  }

  function MonthSpan(day: int): Span {
    var t := CivilFromDays(day);
    var n := NextMonth(t.y, t.m);
    Span(DaysFromCivil(t.y, t.m, 1), DaysFromCivil(n.y, n.m, 1))
  }

  function WeekSpan(day: int, weekStartsOn: int): Span {
    var dow := Fmod(day + 4, 7);
    var first := day - Fmod(dow - weekStartsOn, 7);
    Span(first, first + 7)
  }

  function DaySpans(): int -> Span { (day: int) => Span(day, day + 1) }

  function WeekSpans(weekStartsOn: int): int -> Span { (day: int) => WeekSpan(day, weekStartsOn) }

  function MonthSpans(): int -> Span { (day: int) => MonthSpan(day) }

  /** The span of each day, for a cadence. */
  function Spans(cadence: Cadence, weekStartsOn: int): int -> Span {
    match cadence
    case Day => DaySpans()
    case Week => WeekSpans(weekStartsOn)
    case Month => MonthSpans()
  }

  function LocalDay(now: real, offset: real): int { Floor((now + offset) / MS_PER_DAY) }

  function InstantOf(day: int, offset: real): real { day as real * MS_PER_DAY - offset }

  function PeriodOf(s: Span, offset: real): Period { Period(InstantOf(s.first, offset), InstantOf(s.next, offset)) }

  /** calendarPeriod */
  function CalendarPeriod(cadence: Cadence, now: real, offset: real, weekStartsOn: int): Period {
    PeriodOf(Spans(cadence, weekStartsOn)(LocalDay(now, offset)), offset)
  }

  /** Where the month arithmetic is the calendar's: every day, or only those from 0000-03-01 on. */
  predicate Covered(cadence: Cadence, day: int) { cadence.Month? ==> day >= -719468 }

  // ---------------------------------------------------------------- spans of days

  lemma SameMonthCounts(y: int, m: int, d: int)
    ensures DaysFromCivil(y, m, d) == DaysFromCivil(y, m, 1) + d - 1
  {
  }

  /** A month's first day and the next month's first day are the month's length apart. */
  lemma MonthFirst(t: Date)
    requires ValidDate(t) && FromMarchZero(t)
    ensures DaysFromCivil(t.y, t.m, 1) == DaysFromCivil(t.y, t.m, t.d) - (t.d - 1)
    ensures var n := NextMonth(t.y, t.m);
      ValidDate(n) && FromMarchZero(n) && DaysFromCivil(n.y, n.m, 1) == DaysFromCivil(t.y, t.m, 1) + DaysIn(t.y, t.m)
  {
    SuccessorCounts(Date(t.y, t.m, DaysIn(t.y, t.m)));
    SameMonthCounts(t.y, t.m, t.d);
    SameMonthCounts(t.y, t.m, DaysIn(t.y, t.m));
  }

  /** A span holds its day, holds together, and ends where the next one begins. */
  ghost predicate Tiles(spanOf: int -> Span, day: int) {
    var s := spanOf(day);
    && s.first <= day < s.next
    && (forall other :: s.first <= other < s.next ==> spanOf(other) == s)
    && spanOf(s.next).first == s.next
  }

  lemma WeekShift(day: int, weekStartsOn: int)
    ensures WeekSpan(day, weekStartsOn).first == day - (day + 4 - weekStartsOn) % 7
  {
    assert ((day + 4) % 7 - weekStartsOn) % 7 == (day + 4 - weekStartsOn) % 7;
  }

  /** A week starts on the chosen weekday and lasts seven days. */
  lemma WeekStarts(day: int, weekStartsOn: int)
    ensures var s := WeekSpan(day, weekStartsOn);
      s.first <= day < s.next == s.first + 7 && (s.first + 4 - weekStartsOn) % 7 == 0
  {
    WeekShift(day, weekStartsOn);
  }

  lemma Residue(x: int, d: int)
    requires x % 7 == 0 && 0 <= d <= 7
    ensures (x + d) % 7 == if d < 7 then d else 0
  {
    var k := x / 7;
    assert x == 7 * k;
    assert x + d == 7 * k + d;
    if d == 7 { assert x + d == 7 * (k + 1); }
  }

  lemma WeekOf(first: int, other: int, weekStartsOn: int)
    requires (first + 4 - weekStartsOn) % 7 == 0 && first <= other <= first + 7
    ensures WeekSpan(other, weekStartsOn) == if other < first + 7 then Span(first, first + 7) else Span(first + 7, first + 14)
  {
    WeekShift(other, weekStartsOn);
    Residue(first + 4 - weekStartsOn, other - first);
  }

  lemma WeekTiles(day: int, weekStartsOn: int)
    ensures Tiles(WeekSpans(weekStartsOn), day)
  {
    var s := WeekSpan(day, weekStartsOn);
    WeekStarts(day, weekStartsOn);
    forall other | s.first <= other < s.next ensures WeekSpan(other, weekStartsOn) == s {
      WeekOf(s.first, other, weekStartsOn);
    }
    WeekOf(s.first, s.next, weekStartsOn);
  }

  lemma MonthStartsLate(t: Date)
    requires ValidDate(t) && FromMarchZero(t)
    ensures DaysFromCivil(t.y, t.m, 1) >= -719468
  {
    ExactFromMarchZero(Date(t.y, t.m, 1));
    NumberNotBefore(Date(t.y, t.m, 1));
  }

  lemma MonthSpanIs(day: int, t: Date)
    requires day >= -719468 && t == CivilFromDays(day)
    ensures ValidDate(t) && FromMarchZero(t)
    ensures var s := MonthSpan(day);
      s.first == day - (t.d - 1) && s.next == s.first + DaysIn(t.y, t.m) && s.first >= -719468
  {
    CivilRoundTrip(day);
    MonthFirst(t);
    MonthStartsLate(t);
  }

  lemma MonthSpanOf(t: Date, other: int, first: int)
    requires ValidDate(t) && FromMarchZero(t) && first == DaysFromCivil(t.y, t.m, 1) && first <= other < first + DaysIn(t.y, t.m)
    ensures CivilFromDays(other) == Date(t.y, t.m, other - first + 1)
  {
    var u := Date(t.y, t.m, other - first + 1);
    SameMonthCounts(u.y, u.m, u.d);
    DaysRoundTrip(u);
  }

  lemma SpanFromDate(day: int, y: int, m: int)
    requires CivilFromDays(day).y == y && CivilFromDays(day).m == m
    ensures var n := NextMonth(y, m); MonthSpan(day) == Span(DaysFromCivil(y, m, 1), DaysFromCivil(n.y, n.m, 1))
  {
  }

  lemma SameMonthSpan(day: int, other: int)
    requires day >= -719468 && MonthSpan(day).first <= other < MonthSpan(day).next
    ensures MonthSpan(other) == MonthSpan(day)
  {
    var t := CivilFromDays(day);
    MonthSpanIs(day, t);
    SpanFromDate(day, t.y, t.m);
    MonthSpanOf(t, other, MonthSpan(day).first);
    SpanFromDate(other, t.y, t.m);
  }

  lemma NextMonthSpan(day: int)
    requires day >= -719468
    ensures MonthSpan(MonthSpan(day).next).first == MonthSpan(day).next
  {
    var t := CivilFromDays(day);
    MonthSpanIs(day, t);
    SpanFromDate(day, t.y, t.m);
    MonthFirst(t);
    var n := NextMonth(t.y, t.m);
    DaysRoundTrip(n);
    SpanFromDate(MonthSpan(day).next, n.y, n.m);
  }

  lemma MonthTiles(day: int)
    requires day >= -719468
    ensures Tiles(MonthSpans(), day)
  {
    MonthSpanIs(day, CivilFromDays(day));
    forall other | MonthSpan(day).first <= other < MonthSpan(day).next ensures MonthSpan(other) == MonthSpan(day) {
      SameMonthSpan(day, other);
    }
    NextMonthSpan(day);
  }

  lemma EverySpanTiles(cadence: Cadence, day: int, weekStartsOn: int)
    requires Covered(cadence, day)
    ensures Tiles(Spans(cadence, weekStartsOn), day)
  {
    match cadence
    case Day =>
    case Week => WeekTiles(day, weekStartsOn);
    case Month => MonthTiles(day);
  }

  // ---------------------------------------------------------------- periods of time

  lemma DayHolds(x: real, day: int)
    ensures Floor(x / MS_PER_DAY) == day <==> day as real * MS_PER_DAY <= x < (day + 1) as real * MS_PER_DAY
  {
  }

  lemma SpanHolds(t: real, offset: real, s: Span)
    ensures s.first <= LocalDay(t, offset) < s.next <==> PeriodOf(s, offset).start <= t < PeriodOf(s, offset).reset
  {
    var x, day := t + offset, LocalDay(t, offset);
    DayHolds(x, day);
    assert s.first <= day ==> s.first as real <= day as real;
    assert day + 1 <= s.next ==> (day + 1) as real <= s.next as real;
    assert day < s.first ==> (day + 1) as real <= s.first as real;
    assert s.next <= day ==> s.next as real <= day as real;
  }

  lemma StartOfDay(day: int, offset: real)
    ensures LocalDay(InstantOf(day, offset), offset) == day
  {
    DayHolds(InstantOf(day, offset) + offset, day);
  }

  /** A period holds its instant, is the period of each of its instants, and resets at the start of the next one. */
  ghost predicate PeriodTiles(periodAt: real -> Period, now: real) {
    var p := periodAt(now);
    && p.start <= now < p.reset
    && (forall t :: p.start <= t < p.reset ==> periodAt(t) == p)
    && periodAt(p.reset).start == p.reset
  }

  /** Time is cut as the days are. */
  lemma TilingLifts(spanOf: int -> Span, now: real, offset: real)
    requires Tiles(spanOf, LocalDay(now, offset))
    ensures PeriodTiles(t => PeriodOf(spanOf(LocalDay(t, offset)), offset), now)
  {
    var s := spanOf(LocalDay(now, offset));
    var p := PeriodOf(s, offset);
    SpanHolds(now, offset, s);
    forall t | p.start <= t < p.reset ensures PeriodOf(spanOf(LocalDay(t, offset)), offset) == p {
      SpanHolds(t, offset, s);
    }
    StartOfDay(s.next, offset);
  }

  lemma PeriodTilesSame(f: real -> Period, g: real -> Period, now: real)
    requires (forall t :: f(t) == g(t)) && PeriodTiles(f, now)
    ensures PeriodTiles(g, now)
  {
  }

  /** calendarPeriod with its configuration fixed. */
  function PeriodsOf(cadence: Cadence, offset: real, weekStartsOn: int): real -> Period {
    (now: real) => CalendarPeriod(cadence, now, offset, weekStartsOn)
  }

  /** Calendar periods tile time, at every offset and for every choice of weekday; months from 0000-03-01 on. */
  lemma PeriodsTile(cadence: Cadence, now: real, offset: real, weekStartsOn: int)
    requires Covered(cadence, LocalDay(now, offset))
    ensures PeriodTiles(PeriodsOf(cadence, offset, weekStartsOn), now)
  {
    EverySpanTiles(cadence, LocalDay(now, offset), weekStartsOn);
    var spanOf := Spans(cadence, weekStartsOn);
    TilingLifts(spanOf, now, offset);
    PeriodTilesSame(t => PeriodOf(spanOf(LocalDay(t, offset)), offset), PeriodsOf(cadence, offset, weekStartsOn), now);
  }

  // ---------------------------------------------------------------- how long a period is and where it starts

  /** Sunday is 0; day 0, 1970-01-01, was a Thursday. */
  function Weekday(day: int): int { (day + 4) % 7 }

  /** A period of so many days that starts at local midnight of a day; a day has 86,400,000 milliseconds. */
  predicate SpansDays(p: Period, offset: real, first: int, days: int) {
    p.start + offset == 86_400_000.0 * first as real && p.reset - p.start == 86_400_000.0 * days as real
  }

  lemma SpanIs(s: Span, offset: real)
    ensures SpansDays(PeriodOf(s, offset), offset, s.first, s.next - s.first)
  {
  }

  /** A day starts at local midnight and lasts 24 hours. */
  lemma DayPeriod(now: real, offset: real, weekStartsOn: int)
    ensures var p := CalendarPeriod(Day, now, offset, weekStartsOn);
      p.start <= now < p.reset && SpansDays(p, offset, LocalDay(now, offset), 1)
  {
    PeriodsTile(Day, now, offset, weekStartsOn);
    SpanIs(Span(LocalDay(now, offset), LocalDay(now, offset) + 1), offset);
  }

  lemma WeekdayIs(first: int, weekday: int)
    requires 0 <= weekday <= 6 && (first + 4 - weekday) % 7 == 0
    ensures Weekday(first) == weekday
  {
    var q := (first + 4 - weekday) / 7;
    assert first + 4 == 7 * q + weekday;
  }

  /** A week starts at local midnight of the chosen weekday and lasts seven days. */
  lemma WeekPeriod(now: real, offset: real, weekStartsOn: int)
    requires 0 <= weekStartsOn <= 6
    ensures var p, first := CalendarPeriod(Week, now, offset, weekStartsOn), WeekSpan(LocalDay(now, offset), weekStartsOn).first;
      p.start <= now < p.reset && Weekday(first) == weekStartsOn && SpansDays(p, offset, first, 7)
  {
    var s := WeekSpan(LocalDay(now, offset), weekStartsOn);
    PeriodsTile(Week, now, offset, weekStartsOn);
    WeekStarts(LocalDay(now, offset), weekStartsOn);
    WeekdayIs(s.first, weekStartsOn);
    SpanIs(s, offset);
  }

  /** A month starts at local midnight of its first day and lasts as many days as it has. */
  lemma MonthPeriod(now: real, offset: real, weekStartsOn: int) returns (t: Date)
    requires LocalDay(now, offset) >= -719468
    ensures ValidDate(t) && t.d == 1
    ensures var p := CalendarPeriod(Month, now, offset, weekStartsOn);
      p.start <= now < p.reset && SpansDays(p, offset, DayNumber(t), DaysIn(t.y, t.m))
  {
    var day := LocalDay(now, offset);
    var today := CivilFromDays(day);
    t := Date(today.y, today.m, 1);
    PeriodsTile(Month, now, offset, weekStartsOn);
    MonthSpanIs(day, today);
    SpanFromDate(day, today.y, today.m);
    ExactFromMarchZero(t);
    SpanIs(MonthSpan(day), offset);
  }

  /** At offset zero, the n-th stretch of 24 hours from instant 0 on is the n-th date after 1970-01-01. */
  lemma EpochDay(n: nat, now: real, weekStartsOn: int, epoch: Date)
    requires epoch == Date(1970, 1, 1) && 86_400_000.0 * n as real <= now < 86_400_000.0 * (n + 1) as real
    ensures LocalDay(now, 0.0) == n && CivilFromDays(LocalDay(now, 0.0)) == Later(epoch, n)
    ensures SpansDays(CalendarPeriod(Day, now, 0.0, weekStartsOn), 0.0, n, 1)
  {
    DayHolds(now + 0.0, n);
    Epoch(epoch, n);
    DayPeriod(now, 0.0, weekStartsOn);
  }
}
