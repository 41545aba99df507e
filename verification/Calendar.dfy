/** Proleptic Gregorian day numbers (ISO 8601:2004, section 3.2.1) and the calendar periods cut from them. */
module Calendar {
  import opened Numbers

  const MS_PER_DAY: real := 86_400_000.0

  // ---------------------------------------------------------------- the calendar itself

  datatype Date = Date(y: int, m: int, d: int)

  predicate Leap(y: int) { y % 4 == 0 && (y % 100 != 0 || y % 400 == 0) }

  function DaysIn(y: int, m: int): int {
    if m == 2 then (if Leap(y) then 29 else 28)
    else if m == 4 || m == 6 || m == 9 || m == 11 then 30 else 31
  }

  predicate ValidDate(t: Date) { 1 <= t.m <= 12 && 1 <= t.d <= DaysIn(t.y, t.m) }

  function NextDate(t: Date): Date {
    if t.d < DaysIn(t.y, t.m) then Date(t.y, t.m, t.d + 1)
    else if t.m == 12 then Date(t.y + 1, 1, 1)
    else Date(t.y, t.m + 1, 1)
  }

  /** From 0000-03-01 on, the dates on which daysFromCivil's year is not negative. */
  predicate FromMarchZero(t: Date) { t.y > 0 || (t.y == 0 && t.m > 2) }

  // ---------------------------------------------------------------- the conversions

  function Fdiv(a: int, b: int): int
    requires b > 0
  {
    a / b
  }

  /** JavaScript's remainder takes the sign of the dividend. */
  function Rem(a: int, b: int): int
    requires b > 0
  {
    if a >= 0 then a % b else -((-a) % b)
  }

  function Fmod(a: int, b: int): (r: int)
    requires b > 0
    ensures 0 <= r < b && r == a % b
  {
    RemFloors(a, b);
    Rem(Rem(a, b) + b, b)
  }

  lemma RemFloors(a: int, b: int)
    requires b > 0
    ensures 0 <= Rem(a, b) + b && (Rem(a, b) + b) % b == a % b
  {
    if a >= 0 {
      ModShift(a % b, 1, b);
    } else {
      var r, q := (-a) % b, (-a) / b;
      Negated(a, q, r, b);
    }
  }

  lemma Negated(a: int, q: int, r: int, b: int)
    requires b > 0 && 0 <= r < b && -a == q * b + r
    ensures (b - r) % b == a % b
  {
    assert (-q - 1) * b == -(q * b) - b;
    ModShift(b - r, -q - 1, b);
  }

  lemma ModShift(x: int, k: int, b: int)
    requires b > 0
    ensures (x + k * b) % b == x % b
  {
    var q, q' := x / b, (x + k * b) / b;
    var r, r' := x % b, (x + k * b) % b;
    assert x == q * b + r && x + k * b == q' * b + r';
    var n := q + k - q';
    assert n * b == r' - r;
    assert n >= 1 ==> n * b >= b;
    assert n <= -1 ==> n * b <= -b;
  }

  function MonthIndex(m: int): int { m + (if m > 2 then -3 else 9) }

  function DayOfYear(mp: int, d: int): int { Fdiv(153 * mp + 2, 5) + d - 1 }

  function YearStart(yoe: int): int { yoe * 365 + Fdiv(yoe, 4) - Fdiv(yoe, 100) }

  /** daysFromCivil */
  function DaysFromCivil(y: int, m: int, d: int): int {
    var yy := y - (if m <= 2 then 1 else 0);
    var era := Fdiv(if yy >= 0 then yy else yy - 399, 400);
    var yoe := yy - era * 400;
    era * 146097 + YearStart(yoe) + DayOfYear(MonthIndex(m), d) - 719468
  }

  function YearOfEra(doe: int): int {
    Fdiv(doe - Fdiv(doe, 1460) + Fdiv(doe, 36524) - Fdiv(doe, 146096), 365)
  }

  /** civilFromDays */
  function CivilFromDays(z: int): Date {
    var zz := z + 719468;
    var era := Fdiv(if zz >= 0 then zz else zz - 146096, 146097);
    var doe := zz - era * 146097;
    var yoe := YearOfEra(doe);
    var doy := doe - YearStart(yoe);
    var mp := Fdiv(5 * doy + 2, 153);
    var m := if mp < 10 then mp + 3 else mp - 9;
    Date(yoe + era * 400 + (if m <= 2 then 1 else 0), m, doy - Fdiv(153 * mp + 2, 5) + 1)
  }

  // ---------------------------------------------------------------- reference day number

  /** Days since 1970-01-01 with the era floored, for every year; NextDateCounts shows it counts calendar dates. */
  function DayNumber(t: Date): int {
    var yy := t.y - (if t.m <= 2 then 1 else 0);
    yy / 400 * 146097 + YearStart(yy % 400) + DayOfYear(MonthIndex(t.m), t.d) - 719468
  }

  /** Whether the March-based year y ends in a leap day. */
  predicate LeapEnd(yoe: int) { Leap(yoe + 1) }

  function YearLength(yoe: int): int { if LeapEnd(yoe) then 366 else 365 }

  lemma NextYearStart(yoe: int)
    requires 0 <= yoe < 399
    ensures YearStart(yoe + 1) == YearStart(yoe) + YearLength(yoe)
  {
    var a, b := yoe / 4, yoe / 100;
    assert (yoe + 1) / 4 == if (yoe + 1) % 4 == 0 then a + 1 else a;
    assert (yoe + 1) / 100 == if (yoe + 1) % 100 == 0 then b + 1 else b;
  }

  lemma LeapInEra(y: int)
    ensures Leap(y) <==> Leap(y % 400)
  {
    LeapShifted(y % 400, y / 400);
  }

  lemma LeapShifted(y: int, era: int)
    ensures Leap(y + era * 400) <==> Leap(y)
  {
    ModShift(y, 100 * era, 4);
    ModShift(y, 4 * era, 100);
    ModShift(y, era, 400);
  }

  /** The next calendar date is the next day, in every year. */
  lemma NextDateCounts(t: Date)
    requires ValidDate(t)
    ensures ValidDate(NextDate(t)) && DayNumber(NextDate(t)) == DayNumber(t) + 1
  {
    if t.d == DaysIn(t.y, t.m) && t.m == 2 { YearTurns(t.y - 1); }
  }

  /** 1 March of a year follows the last day of February. */
  lemma YearTurns(yy: int)
    ensures DayNumber(Date(yy + 1, 3, 1)) == DayNumber(Date(yy + 1, 2, DaysIn(yy + 1, 2))) + 1
  {
    var e, r := yy / 400, yy % 400;
    if r < 399 {
      assert (yy + 1) / 400 == e && (yy + 1) % 400 == r + 1;
      LeapInEra(yy + 1);
      NextYearStart(r);
    } else {
      assert (yy + 1) / 400 == e + 1 && (yy + 1) % 400 == 0;
      LeapInEra(yy + 1);
    }
  }

  /** daysFromCivil is the day number from 0000-03-01 on and in the last year of each earlier era, and one short otherwise. */
  lemma DaysFromCivilExactWhen(t: Date)
    ensures var yy := t.y - (if t.m <= 2 then 1 else 0);
      DaysFromCivil(t.y, t.m, t.d) == DayNumber(t) - (if yy >= 0 || yy % 400 == 399 then 0 else 1)
  {
    var yy := t.y - (if t.m <= 2 then 1 else 0);
    var e, r := yy / 400, yy % 400;
    if yy < 0 {
      if r == 399 {
        assert (yy - 399) / 400 == e;
      } else {
        assert (yy - 399) / 400 == e - 1;
        assert YearStart(r + 400) == YearStart(r) + 146096;
      }
    }
  }

  // ---------------------------------------------------------------- the inverse

  /** A day of the era, taken apart into centuries, four-year cycles, years and days. */
  ghost predicate Parts(doe: int, c: int, q: int, k: int, doy: int) {
    && 0 <= c <= 3 && 0 <= q <= 24 && 0 <= k <= 3 && 0 <= doy <= 365
    && doe == 36524 * c + 1461 * q + 365 * k + doy
    && (doy == 365 ==> k == 3 && (q < 24 || c == 3))
  }

  lemma TakeApart(doe: int) returns (c: int, q: int, k: int, doy: int)
    requires 0 <= doe <= 146096
    ensures Parts(doe, c, q, k, doy)
  {
    c := if doe == 146096 then 3 else doe / 36524;
    var r := doe - 36524 * c;
    q := r / 1461;
    var r2 := r - 1461 * q;
    k := if r2 == 1460 then 3 else r2 / 365;
    doy := r2 - 365 * k;
  }

  lemma YearFromParts(doe: int, c: int, q: int, k: int, doy: int)
    requires Parts(doe, c, q, k, doy)
    ensures YearOfEra(doe) == 100 * c + 4 * q + k
    ensures YearStart(100 * c + 4 * q + k) == doe - doy
    ensures doy < YearLength(100 * c + 4 * q + k)
  {
    StartFromParts(c, q, k);
    YearOfEraFromParts(doe, c, q, k, doy);
    LengthFromParts(c, q, k, doy);
  }

  lemma StartFromParts(c: int, q: int, k: int)
    requires 0 <= c <= 3 && 0 <= q <= 24 && 0 <= k <= 3
    ensures YearStart(100 * c + 4 * q + k) == 36524 * c + 1461 * q + 365 * k
  {
    var y := 100 * c + 4 * q + k;
    assert y / 4 == 25 * c + q && y / 100 == c;
  }

  lemma LengthFromParts(c: int, q: int, k: int, doy: int)
    requires 0 <= c <= 3 && 0 <= q <= 24 && 0 <= k <= 3 && 0 <= doy <= 365 && (doy == 365 ==> k == 3 && (q < 24 || c == 3))
    ensures doy < YearLength(100 * c + 4 * q + k)
  {
    if doy == 365 {
      var y := 100 * c + 4 * q + 4;
      assert y % 4 == 0;
      if q < 24 { assert y % 100 == 4 * q + 4; } else { assert y == 400; }
    }
  }

  /** The estimate of the years gone by is short of the day of the year by at most the leap day. */
  lemma FourYears(c: int, q: int, k: int, doy: int) returns (e: int)
    requires 0 <= c <= 3 && 0 <= q <= 24 && 0 <= k <= 3 && 0 <= doy <= 365 && (doy == 365 ==> k == 3)
    ensures (36524 * c + 1461 * q + 365 * k + doy) / 1460 == 25 * c + q + e
    ensures (e == 0 && doy < 365) || (e == 1 && doy >= 1)
  {
    e := (24 * c + q + 365 * k + doy) / 1460;
  }

  lemma YearOfEraFromParts(doe: int, c: int, q: int, k: int, doy: int)
    requires Parts(doe, c, q, k, doy)
    ensures YearOfEra(doe) == 100 * c + 4 * q + k
  {
    var e := FourYears(c, q, k, doy);
    var last := if c == 3 && q == 24 && k == 3 && doy == 365 then 1 else 0;
    assert doe / 36524 == c + last && doe / 146096 == last;
    assert doe - doe / 1460 + doe / 36524 - doe / 146096 == 365 * (100 * c + 4 * q + k) + doy - e;
  }

  /** Each day of the March-based year lies in its month. */
  lemma MonthFromDay(doy: int)
    requires 0 <= doy <= 366
    ensures var mp := (5 * doy + 2) / 153; 0 <= mp <= 11 && DayOfYear(mp, 1) <= doy < DayOfYear(mp + 1, 1)
  {
    var mp := (5 * doy + 2) / 153;
    assert 153 * mp <= 5 * doy + 2 < 153 * mp + 153;
    var s := (153 * mp + 2) / 5;
    var s' := (153 * (mp + 1) + 2) / 5;
    assert 5 * s <= 153 * mp + 2 < 5 * s + 5;
    assert 5 * s' <= 153 * mp + 155 < 5 * s' + 5;
  }

  /** The month starts of a March-based year are the running totals of its month lengths. */
  lemma MonthLengths(y: int, mp: int)
    requires 0 <= mp <= 10
    ensures var m := if mp < 10 then mp + 3 else mp - 9;
      DayOfYear(mp + 1, 1) == DayOfYear(mp, 1) + DaysIn(y, m)
  {
  }

  lemma EraOf(zz: int, era: int, doe: int)
    requires zz == era * 146097 + doe && 0 <= doe <= 146096 && (zz >= 0 || doe == 146096)
    ensures Fdiv(if zz >= 0 then zz else zz - 146096, 146097) == era
  {
  }

  lemma CivilParts(z: int, doe: int, era: int, c: int, q: int, k: int, doy: int)
    requires z + 719468 == era * 146097 + doe && 0 <= doe <= 146096 && Parts(doe, c, q, k, doy)
    requires z + 719468 >= 0 || doe == 146096
    ensures CivilFromDays(z) == DateAt(era, 100 * c + 4 * q + k, (5 * doy + 2) / 153, doy)
  {
    EraOf(z + 719468, era, doe);
    YearFromParts(doe, c, q, k, doy);
    CivilIs(z, era, doe, 100 * c + 4 * q + k, doy);
  }

  lemma CivilIs(z: int, era: int, doe: int, yoe: int, doy: int)
    requires Fdiv(if z + 719468 >= 0 then z + 719468 else z + 719468 - 146096, 146097) == era
    requires z + 719468 == era * 146097 + doe && yoe == YearOfEra(doe) && doy == doe - YearStart(yoe)
    ensures CivilFromDays(z) == DateAt(era, yoe, (5 * doy + 2) / 153, doy)
  {
  }

  lemma LastMonth(doy: int, yoe: int, era: int)
    requires 0 <= yoe <= 399 && DayOfYear(11, 1) <= doy < YearLength(yoe)
    ensures doy - DayOfYear(11, 1) + 1 <= DaysIn(yoe + era * 400 + 1, 2)
  {
    LeapShifted(yoe + 1, era);
  }

  /** The date made from a year of the era, a month index and a day of that month. */
  function DateAt(era: int, yoe: int, mp: int, doy: int): Date {
    var m := if mp < 10 then mp + 3 else mp - 9;
    Date(yoe + era * 400 + (if m <= 2 then 1 else 0), m, doy - DayOfYear(mp, 1) + 1)
  }

  lemma DateAtNumber(era: int, yoe: int, mp: int, doy: int)
    requires 0 <= yoe <= 399 && 0 <= mp <= 11
    ensures DayNumber(DateAt(era, yoe, mp, doy)) == era * 146097 + YearStart(yoe) + doy - 719468
  {
    var yy := yoe + era * 400;
    assert yy / 400 == era && yy % 400 == yoe;
    assert MonthIndex(DateAt(era, yoe, mp, doy).m) == mp;
  }

  lemma DateAtValid(era: int, yoe: int, mp: int, doy: int)
    requires 0 <= yoe <= 399 && 0 <= doy < YearLength(yoe) && 0 <= mp <= 11
    requires DayOfYear(mp, 1) <= doy < DayOfYear(mp + 1, 1)
    ensures ValidDate(DateAt(era, yoe, mp, doy))
    ensures era >= 0 ==> FromMarchZero(DateAt(era, yoe, mp, doy))
  {
    if mp < 11 { MonthLengths(DateAt(era, yoe, mp, doy).y, mp); } else { LastMonth(doy, yoe, era); }
  }

  /** Where civilFromDays takes the right era: from 0000-03-01 on and on the last day of each earlier era. */
  predicate EraRight(z: int) { z >= -719468 || (z + 719468) % 146097 == 146096 }

  lemma CivilAt(z: int) returns (era: int, yoe: int, mp: int, doy: int)
    requires EraRight(z)
    ensures era == (z + 719468) / 146097 && 0 <= yoe <= 399 && 0 <= doy < YearLength(yoe) && 0 <= mp <= 11
    ensures DayOfYear(mp, 1) <= doy < DayOfYear(mp + 1, 1) && z + 719468 == era * 146097 + YearStart(yoe) + doy
    ensures CivilFromDays(z) == DateAt(era, yoe, mp, doy)
  {
    era := (z + 719468) / 146097;
    var doe := (z + 719468) % 146097;
    var c, q, k;
    c, q, k, doy := TakeApart(doe);
    CivilParts(z, doe, era, c, q, k, doy);
    YearFromParts(doe, c, q, k, doy);
    MonthFromDay(doy);
    yoe, mp := 100 * c + 4 * q + k, (5 * doy + 2) / 153;
  }

  /** Every day number from -719468 on has a valid date, which counts back to it. */
  lemma CivilRoundTrip(z: int)
    requires z >= -719468
    ensures ValidDate(CivilFromDays(z)) && FromMarchZero(CivilFromDays(z))
    ensures DayNumber(CivilFromDays(z)) == z
    ensures var t := CivilFromDays(z); DaysFromCivil(t.y, t.m, t.d) == z
  {
    var era, yoe, mp, doy := CivilAt(z);
    DateAtValid(era, yoe, mp, doy);
    DateAtNumber(era, yoe, mp, doy);
    ExactFromMarchZero(CivilFromDays(z));
  }

  lemma LateQuotients(n: int, c: int, q: int, k: int, doy: int, e: int)
    requires Parts(n, c, q, k, doy) && e == (96 + 24 * c + q + 365 * k + doy) / 1460
    ensures YearOfEra(146096 + n) == (145999 + 365 * (100 * c + 4 * q + k) + doy - e) / 365
  {
    var last := if c == 3 && q == 24 && k == 3 && doy == 365 then 1 else 0;
    assert n / 36524 == c + last && n / 146096 == last;
    assert (146096 + n) / 1460 == 100 + 25 * c + q + e;
    assert (146096 + n) / 36524 == 4 + c + last && (146096 + n) / 146096 == 1 + last;
  }

  lemma LateYearIs(y: int, doy: int, e: int)
    requires 0 <= y <= 399 && 0 <= doy <= 365 && 0 <= e <= 1 && (e == 1 ==> doy >= 2)
    ensures (145999 + 365 * y + doy - e) / 365 == (if doy >= 1 then 400 + y else 399 + y)
  {
  }

  /** Before 0000-03-01 the era is taken one too low, except on its last day: 1 March then falls into the year before. */
  lemma LateYear(n: int, c: int, q: int, k: int, doy: int, y: int)
    requires Parts(n, c, q, k, doy) && n >= 1 && y == 100 * c + 4 * q + k
    ensures 0 <= y <= 399 && n == YearStart(y) + doy && (doy == 0 ==> y >= 1) && 0 <= doy < YearLength(y)
    ensures YearOfEra(146096 + n) == if doy >= 1 then 400 + y else 399 + y
  {
    var e := (96 + 24 * c + q + 365 * k + doy) / 1460;
    YearFromParts(n, c, q, k, doy);
    LateQuotients(n, c, q, k, doy, e);
    LateYearIs(y, doy, e);
  }

  lemma YearOfNextEra(y: int)
    requires y >= 0
    ensures YearStart(400 + y) == 146096 + YearStart(y)
  {
  }

  lemma LateEra(zz: int) returns (era: int, n: int)
    requires zz < 0 && zz % 146097 != 146096
    ensures era == (zz - 146096) / 146097 && zz == era * 146097 + 146096 + n && 1 <= n <= 146096
  {
    era := zz / 146097 - 1;
    n := zz % 146097 + 1;
    assert zz - 146096 == era * 146097 + n;
  }

  /** Whether day z is the 1 March of some year. */
  ghost predicate StartsMarch(z: int) { exists y: int :: IsMarchFirst(z, y) }

  ghost predicate IsMarchFirst(z: int, y: int) { DayNumber(Date(y, 3, 1)) == z }

  lemma LateDay(z: int, low: int, n: int, y: int, doy: int)
    requires z + 719468 < 0 && z + 719468 == low * 146097 + 146096 + n && 1 <= n <= 146096
    requires 0 <= y <= 399 && n == YearStart(y) + doy && YearOfEra(146096 + n) == 400 + y
    ensures CivilFromDays(z) == DateAt(low + 1, y, (5 * doy + 2) / 153, doy)
  {
    YearOfNextEra(y);
    LateEraIs(z, low, n);
    CivilIs(z, low, 146096 + n, 400 + y, doy);
  }

  lemma LateMarch(z: int, low: int, n: int, y: int)
    requires z + 719468 < 0 && z + 719468 == low * 146097 + 146096 + n && 1 <= n <= 146096
    requires 1 <= y <= 399 && n == YearStart(y) && YearOfEra(146096 + n) == 399 + y
    ensures CivilFromDays(z) == DateAt(low + 1, y - 1, 11, YearLength(y - 1))
  {
    YearOfNextEra(y - 1);
    NextYearStart(y - 1);
    LateEraIs(z, low, n);
    CivilIs(z, low, 146096 + n, 399 + y, YearLength(y - 1));
  }

  lemma LateEraIs(z: int, low: int, n: int)
    requires z + 719468 < 0 && z + 719468 == low * 146097 + 146096 + n && 1 <= n <= 146096
    ensures Fdiv(if z + 719468 >= 0 then z + 719468 else z + 719468 - 146096, 146097) == low
  {
    assert z + 719468 - 146096 == low * 146097 + n;
  }

  /** Elsewhere it names the next day, as the one after the last of February when that day is a 1 March. */
  lemma LateCivil(z: int) returns (era: int, y: int, doy: int)
    requires !EraRight(z)
    ensures 0 <= y <= 399 && 0 <= doy < YearLength(y) && z + 1 == era * 146097 + YearStart(y) + doy - 719468
    ensures doy == 0 ==> y >= 1 && CivilFromDays(z) == DateAt(era, y - 1, 11, YearLength(y - 1))
    ensures doy >= 1 ==> CivilFromDays(z) == DateAt(era, y, (5 * doy + 2) / 153, doy)
  {
    var low, n := LateEra(z + 719468);
    var c, q, k;
    c, q, k, doy := TakeApart(n);
    era, y := low + 1, 100 * c + 4 * q + k;
    LateYear(n, c, q, k, doy, y);
    if doy >= 1 { LateDay(z, low, n, y, doy); } else { LateMarch(z, low, n, y); }
  }

  lemma MarchFirst(z: int, era: int, y: int)
    requires 1 <= y <= 399 && z == era * 146097 + YearStart(y) - 719468
    ensures StartsMarch(z)
    ensures DayNumber(DateAt(era, y - 1, 11, YearLength(y - 1))) == z && !ValidDate(DateAt(era, y - 1, 11, YearLength(y - 1)))
  {
    DateAtNumber(era, y, 0, 0);
    assert IsMarchFirst(z, y + era * 400);
    NextYearStart(y - 1);
    DateAtNumber(era, y - 1, 11, YearLength(y - 1));
    LeapShifted(y, era);
  }

  lemma NotMarchFirst(z: int, era: int, y: int, doy: int)
    requires 0 <= y <= 399 && 1 <= doy < YearLength(y) && z == era * 146097 + YearStart(y) + doy - 719468
    ensures var t := DateAt(era, y, (5 * doy + 2) / 153, doy); DayNumber(t) == z && ValidDate(t) && !StartsMarch(z)
  {
    var mp := (5 * doy + 2) / 153;
    MonthFromDay(doy);
    DateAtNumber(era, y, mp, doy);
    DateAtValid(era, y, mp, doy);
    forall yy: int ensures !IsMarchFirst(z, yy) {
      if IsMarchFirst(z, yy) { DayNumberInjective(DateAt(era, y, mp, doy), Date(yy, 3, 1)); }
    }
  }

  /**
   * civilFromDays names the day itself where its era is right and the next day elsewhere; what it names is a real date
   * there unless that next day is a 1 March.
   */
  lemma CivilFromDaysExactWhen(z: int)
    ensures DayNumber(CivilFromDays(z)) == z + (if EraRight(z) then 0 else 1)
    ensures ValidDate(CivilFromDays(z)) <==> EraRight(z) || !StartsMarch(z + 1)
  {
    if EraRight(z) {
      var era, yoe, mp, doy := CivilAt(z);
      DateAtNumber(era, yoe, mp, doy);
      DateAtValid(era, yoe, mp, doy);
    } else {
      var era, y, doy := LateCivil(z);
      if doy == 0 { MarchFirst(z + 1, era, y); } else { NotMarchFirst(z + 1, era, y, doy); }
    }
  }

  /** Day -719835 is 28 February of the year -1, which is no leap year, and civilFromDays names its 29 February. */
  lemma EarlyDayImpossible(z: int)
    requires z == -719835
    ensures DayNumber(Date(-1, 2, 28)) == z && CivilFromDays(z) == Date(-1, 2, 29) && !ValidDate(CivilFromDays(z))
  {
    CivilIs(z, -2, 291827, 798, 365);
  }

  lemma ExactFromMarchZero(t: Date)
    requires FromMarchZero(t)
    ensures DaysFromCivil(t.y, t.m, t.d) == DayNumber(t)
  {
    DaysFromCivilExactWhen(t);
  }

  /** Two valid dates with the same day number are the same date. */
  lemma DayNumberInjective(s: Date, t: Date)
    requires ValidDate(s) && ValidDate(t) && DayNumber(s) == DayNumber(t)
    ensures s == t
  {
    var a := MarchBased(s);
    var b := MarchBased(t);
    SameYear(MarchYear(s), a, MarchYear(t), b);
    SameMonth(s, t);
  }

  /** The year counted from March. */
  function MarchYear(t: Date): int { t.y - (if t.m <= 2 then 1 else 0) }

  /** The day's position in its March-based year. */
  lemma MarchBased(t: Date) returns (doy: int)
    requires ValidDate(t)
    ensures doy == DayOfYear(MonthIndex(t.m), t.d)
    ensures 0 <= doy < YearLength(MarchYear(t) % 400)
    ensures DayNumber(t) == MarchYear(t) / 400 * 146097 + YearStart(MarchYear(t) % 400) + doy - 719468
  {
    doy := DayOfYear(MonthIndex(t.m), t.d);
    var yy := t.y - (if t.m <= 2 then 1 else 0);
    if t.m == 2 { LeapShift(yy); }
  }

  lemma LeapShift(yy: int)
    ensures Leap(yy + 1) <==> LeapEnd(yy % 400)
  {
    LeapInEra(yy + 1);
    LeapInEra(yy % 400 + 1);
    assert (yy + 1) % 400 == (yy % 400 + 1) % 400;
  }

  lemma {:induction false} YearStartsOrdered(a: int, b: int)
    requires 0 <= a < b <= 399
    ensures YearStart(a) + YearLength(a) <= YearStart(b)
    decreases b - a
  {
    NextYearStart(a);
    if a + 1 < b { YearStartsOrdered(a + 1, b); }
  }

  lemma {:induction false} YearFits(yoe: int)
    requires 0 <= yoe <= 399
    ensures 0 <= YearStart(yoe) && YearStart(yoe) + YearLength(yoe) <= 146097
  {
    if yoe < 399 { YearStartsOrdered(yoe, 399); }
  }

  lemma SameYear(ya: int, a: int, yb: int, b: int)
    requires 0 <= a < YearLength(ya % 400) && 0 <= b < YearLength(yb % 400)
    requires ya / 400 * 146097 + YearStart(ya % 400) + a == yb / 400 * 146097 + YearStart(yb % 400) + b
    ensures ya == yb && a == b
  {
    YearFits(ya % 400);
    YearFits(yb % 400);
    assert ya / 400 == yb / 400;
    if ya % 400 < yb % 400 { YearStartsOrdered(ya % 400, yb % 400); }
    if yb % 400 < ya % 400 { YearStartsOrdered(yb % 400, ya % 400); }
  }

  lemma SameMonth(s: Date, t: Date)
    requires ValidDate(s) && ValidDate(t)
    requires MarchYear(s) == MarchYear(t)
    requires DayOfYear(MonthIndex(s.m), s.d) == DayOfYear(MonthIndex(t.m), t.d)
    ensures s == t
  {
    MonthOf(s);
    MonthOf(t);
  }

  lemma MonthOf(t: Date)
    requires ValidDate(t)
    ensures (5 * DayOfYear(MonthIndex(t.m), t.d) + 2) / 153 == MonthIndex(t.m)
  {
  }

  /** Every valid date from 0000-03-01 on is the date of its own day number. */
  lemma DaysRoundTrip(t: Date)
    requires ValidDate(t) && FromMarchZero(t)
    ensures CivilFromDays(DaysFromCivil(t.y, t.m, t.d)) == t
  {
    ExactFromMarchZero(t);
    NumberNotBefore(t);
    var z := DayNumber(t);
    CivilRoundTrip(z);
    DayNumberInjective(CivilFromDays(z), t);
  }

  /** The date n days after t, one calendar step at a time. */
  function Later(t: Date, n: nat): Date {
    if n == 0 then t else NextDate(Later(t, n - 1))
  }

  lemma {:induction false} LaterCounts(t: Date, n: nat)
    requires ValidDate(t)
    ensures ValidDate(Later(t, n)) && DayNumber(Later(t, n)) == DayNumber(t) + n
  {
    if n > 0 {
      LaterCounts(t, n - 1);
      NextDateCounts(Later(t, n - 1));
    }
  }

  /** From day -719468 on, n day numbers later is n dates later. */
  lemma CivilCounts(z: int, n: nat)
    requires z >= -719468
    ensures CivilFromDays(z + n) == Later(CivilFromDays(z), n)
  {
    CivilRoundTrip(z);
    CivilRoundTrip(z + n);
    LaterCounts(CivilFromDays(z), n);
    DayNumberInjective(CivilFromDays(z + n), Later(CivilFromDays(z), n));
  }

  /** Day n is the n-th date after 1970-01-01. */
  lemma Epoch(t: Date, n: nat)
    requires t == Date(1970, 1, 1)
    ensures CivilFromDays(n) == Later(t, n)
  {
    EpochIsDayZero(t);
    DaysRoundTrip(t);
    CivilCounts(0, n);
  }

  lemma EpochIsDayZero(t: Date)
    requires t == Date(1970, 1, 1)
    ensures DaysFromCivil(t.y, t.m, t.d) == 0
  {
  }

  lemma NumberNotBefore(t: Date)
    requires ValidDate(t) && FromMarchZero(t)
    ensures DayNumber(t) >= -719468
  {
    var yy := t.y - (if t.m <= 2 then 1 else 0);
    YearFits(yy % 400);
    var doy := MarchBased(t);
    assert yy / 400 * 146097 >= 0;
  }

  /** Successive dates from 0000-03-01 on get successive numbers. */
  lemma SuccessorCounts(t: Date)
    requires ValidDate(t) && FromMarchZero(t)
    ensures var n := NextDate(t); DaysFromCivil(n.y, n.m, n.d) == DaysFromCivil(t.y, t.m, t.d) + 1
  {
    NextDateCounts(t);
    ExactFromMarchZero(t);
    ExactFromMarchZero(NextDate(t));
  }

  /** Day -719470 is 0000-02-28, and civilFromDays names the next day. */
  lemma EarlyDayDiffers(z: int)
    requires z == -719470
    ensures DayNumber(Date(0, 2, 28)) == z && CivilFromDays(z) == Date(0, 2, 29)
  {
    var doe := 292192;
    assert Fdiv(-146098, 146097) == -2;
    assert Fdiv(doe, 1460) == 200 && Fdiv(doe, 36524) == 8 && Fdiv(doe, 146096) == 2;
    assert YearOfEra(doe) == 799;
    assert YearStart(799) == 291827;
  }

  /** daysFromCivil puts 28 February of the year -1 a day early. */
  lemma EarlyDateDiffers(t: Date)
    requires t == Date(-1, 2, 28)
    ensures DaysFromCivil(t.y, t.m, t.d) == DayNumber(t) - 1
  {
    DaysFromCivilExactWhen(t);
  }
}
