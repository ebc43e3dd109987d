/** The signer's calendar: `civil_from_days` against day-by-day stepping of the
    proleptic Gregorian calendar, and the timestamps built from it. */
module Calendar {
  datatype Date = Date(year: int, month: int, day: int)

  // ---- The reference calendar ----

  predicate IsLeap(y: int) { y % 4 == 0 && (y % 100 != 0 || y % 400 == 0) }

  function DaysInMonth(y: int, m: int): int {
    if m == 2 then if IsLeap(y) then 29 else 28
    else if m == 4 || m == 6 || m == 9 || m == 11 then 30
    else 31
  }

  predicate ValidDate(d: Date) { 1 <= d.month <= 12 && 1 <= d.day <= DaysInMonth(d.year, d.month) }

  function NextDay(d: Date): Date {
    if d.day < DaysInMonth(d.year, d.month) then Date(d.year, d.month, d.day + 1)
    else if d.month < 12 then Date(d.year, d.month + 1, 1)
    else Date(d.year + 1, 1, 1)
  }

  function PreviousDay(d: Date): Date {
    if d.day > 1 then Date(d.year, d.month, d.day - 1)
    else if d.month > 1 then Date(d.year, d.month - 1, DaysInMonth(d.year, d.month - 1))
    else Date(d.year - 1, 12, 31)
  }

  /** The date `n` days after 1970-01-01, one day at a time, in either direction. */
  ghost function Stepped(n: int): Date
    decreases if n < 0 then -n else n
  {
    if n == 0 then Date(1970, 1, 1)
    else if n > 0 then NextDay(Stepped(n - 1))
    else PreviousDay(Stepped(n + 1))
  }

  predicate Before(a: Date, b: Date) {
    a.year < b.year || (a.year == b.year && (a.month < b.month || (a.month == b.month && a.day < b.day)))
  }

  // ---- The conversion ----

  /** Rust's `/` on signed integers: towards zero. */
  function TruncatedDiv(a: int, b: int): int
    requires b > 0
  {
    if a >= 0 then a / b else -((-a) / b)
  }

  function CivilFromDays(days: int): Date {
    var z := days + 719_468;
    var era := EraOf(z);
    CivilOfDayOfEra(era, z - era * 146_097)
  }

  function CivilOfDayOfEra(era: int, doe: int): Date {
    var yoe := YearOfEra(doe);
    var doy := doe - (365 * yoe + TruncatedDiv(yoe, 4) - TruncatedDiv(yoe, 100));
    CivilOfEra(era, yoe, doy)
  }

  function CivilOfEra(era: int, yoe: int, doy: int): Date {
    var mp := TruncatedDiv(5 * doy + 2, 153);
    var d := doy - TruncatedDiv(153 * mp + 2, 5) + 1;
    var m := if mp < 10 then mp + 3 else mp - 9;
    var y := yoe + era * 400 + if m <= 2 then 1 else 0;
    Date(y, m, d)
  }

  function EraOf(z: int): int { TruncatedDiv(if z >= 0 then z else z - 146_096, 146_097) }

  function YearOfEra(doe: int): int {
    TruncatedDiv(doe - TruncatedDiv(doe, 1460) + TruncatedDiv(doe, 36_524) - TruncatedDiv(doe, 146_096), 365)
  }

  // ---- Counting days ----

  function DaysBeforeYear(y: int): int { 365 * (y - 1) + (y - 1) / 4 - (y - 1) / 100 + (y - 1) / 400 }

  function DaysBeforeMonth(y: int, m: int): (n: int)
    requires 1 <= m <= 12
    ensures n >= 0
    decreases m
  {
    if m == 1 then 0 else DaysBeforeMonth(y, m - 1) + DaysInMonth(y, m - 1)
  }

  /** Days from 0001-01-01, by years, months and days; 719,162 of them up to the epoch. */
  function DayNumber(d: Date): int
    requires 1 <= d.month <= 12
  {
    DaysBeforeYear(d.year) + DaysBeforeMonth(d.year, d.month) + d.day - 1
  }

  const EPOCH := 719_162

  function YearLength(y: int): int { if IsLeap(y) then 366 else 365 }

  lemma DivisionSteps(y: int)
    ensures y / 4 == (y - 1) / 4 + if y % 4 == 0 then 1 else 0
    ensures y / 100 == (y - 1) / 100 + if y % 100 == 0 then 1 else 0
    ensures y / 400 == (y - 1) / 400 + if y % 400 == 0 then 1 else 0
  {
  }

  lemma MultiplesNest(y: int)
    ensures y % 400 == 0 ==> y % 100 == 0
    ensures y % 100 == 0 ==> y % 4 == 0
  {
    if y % 400 == 0 { Repeats100(0, 4 * (y / 400)); }
    if y % 100 == 0 { Repeats4(0, 25 * (y / 100)); }
  }

  lemma YearAdvances(y: int)
    ensures DaysBeforeYear(y + 1) == DaysBeforeYear(y) + YearLength(y)
  {
    DivisionSteps(y);
    MultiplesNest(y);
  }

  lemma MonthsOfYear(y: int)
    ensures var l := if IsLeap(y) then 1 else 0;
      && DaysBeforeMonth(y, 1) == 0 && DaysBeforeMonth(y, 2) == 31 && DaysBeforeMonth(y, 3) == 59 + l
      && DaysBeforeMonth(y, 4) == 90 + l && DaysBeforeMonth(y, 5) == 120 + l && DaysBeforeMonth(y, 6) == 151 + l
      && DaysBeforeMonth(y, 7) == 181 + l && DaysBeforeMonth(y, 8) == 212 + l && DaysBeforeMonth(y, 9) == 243 + l
      && DaysBeforeMonth(y, 10) == 273 + l && DaysBeforeMonth(y, 11) == 304 + l && DaysBeforeMonth(y, 12) == 334 + l
  {
    assert DaysBeforeMonth(y, 3) == DaysBeforeMonth(y, 2) + DaysInMonth(y, 2);
    assert DaysBeforeMonth(y, 6) == DaysBeforeMonth(y, 5) + 31 == DaysBeforeMonth(y, 4) + 61;
    assert DaysBeforeMonth(y, 9) == DaysBeforeMonth(y, 8) + 31 == DaysBeforeMonth(y, 7) + 62;
    assert DaysBeforeMonth(y, 12) == DaysBeforeMonth(y, 11) + 30 == DaysBeforeMonth(y, 10) + 61;
  }

  lemma NextDayCounts(d: Date)
    requires ValidDate(d)
    ensures ValidDate(NextDay(d)) && Before(d, NextDay(d)) && PreviousDay(NextDay(d)) == d
    ensures DayNumber(NextDay(d)) == DayNumber(d) + 1
  {
    if d.day == DaysInMonth(d.year, d.month) && d.month == 12 {
      YearAdvances(d.year);
      MonthsOfYear(d.year);
    }
  }

  lemma PreviousDayCounts(d: Date)
    requires ValidDate(d)
    ensures ValidDate(PreviousDay(d)) && NextDay(PreviousDay(d)) == d
  {
  }

  /** Stepping counts days, so different dates have different numbers. */
  lemma {:induction false} SteppedCounts(n: int)
    ensures ValidDate(Stepped(n)) && DayNumber(Stepped(n)) == EPOCH + n
    decreases if n < 0 then -n else n
  {
    if n == 0 {
      MonthsOfYear(1970);
    } else if n > 0 {
      SteppedCounts(n - 1);
      NextDayCounts(Stepped(n - 1));
    } else {
      SteppedCounts(n + 1);
      PreviousDayCounts(Stepped(n + 1));
      NextDayCounts(Stepped(n));
    }
  }

  // ---- The conversion inverts the count ----

  /** `doe` as centuries, four-year cycles and days of the cycle. */
  lemma YearOfEraParts(c: int, q: int, s: int)
    requires 0 <= c <= 3 && 0 <= q <= 24 && 0 <= s <= 1460 && (q == 24 && c < 3 ==> s <= 1459)
    ensures var r := if s == 1460 then 3 else s / 365;
      YearOfEra(36_524 * c + 1461 * q + s) == 100 * c + 4 * q + r
  {
    var doe := 36_524 * c + 1461 * q + s;
    assert doe < 146_097;
    var x := if 24 * c + q + s >= 1460 then 1 else 0;
    assert doe / 1460 == 25 * c + q + x;
    assert doe / 36_524 == c || (doe == 146_096 && doe / 36_524 == 4);
  }

  function YearStart(yoe: int): int { 365 * yoe + yoe / 4 - yoe / 100 }

  /** The centuries, four-year cycles and remaining days of a day of the era. */
  lemma EraParts(doe: int) returns (c: int, q: int, s: int)
    requires 0 <= doe <= 146_096
    ensures doe == 36_524 * c + 1461 * q + s
    ensures 0 <= c <= 3 && 0 <= q <= 24 && 0 <= s <= 1460 && (q == 24 && c < 3 ==> s <= 1459)
  {
    c := if doe == 146_096 then 3 else doe / 36_524;
    var rest := doe - 36_524 * c;
    q := if rest / 1461 <= 24 then rest / 1461 else 24;
    s := rest - 1461 * q;
  }

  lemma YearStartParts(c: int, q: int, r: int)
    requires 0 <= c && 0 <= q <= 24 && 0 <= r <= 3
    ensures YearStart(100 * c + 4 * q + r) == 36_524 * c + 1461 * q + 365 * r
  {
    var yoe := 100 * c + 4 * q + r;
    assert yoe / 4 == 25 * c + q && yoe / 100 == c;
  }

  lemma YearOfEraBounds(doe: int)
    requires 0 <= doe <= 146_096
    ensures var yoe, doy := YearOfEra(doe), doe - YearStart(YearOfEra(doe));
      0 <= yoe <= 399 && 0 <= doy <= 365 && (doy == 365 ==> IsLeap(yoe + 1))
  {
    var c, q, s := EraParts(doe);
    YearOfEraParts(c, q, s);
    var r := if s == 1460 then 3 else s / 365;
    YearStartParts(c, q, r);
    if s == 1460 {
      LastDayIsLeap(c, q);
    }
  }

  lemma LastDayIsLeap(c: int, q: int)
    requires 0 <= c <= 3 && 0 <= q <= 24 && (q == 24 ==> c == 3)
    ensures IsLeap(100 * c + 4 * q + 4)
  {
    assert 100 * c + 4 * q + 4 == 4 * (25 * c + q + 1);
    assert q < 24 ==> (100 * c + 4 * q + 4) % 100 == 4 * q + 4;
  }

  /** Years counted from March 1 of year 0: whole eras, then the years of one era. */
  lemma EraYears(era: int, yoe: int)
    requires 0 <= yoe <= 399
    ensures DaysBeforeYear(yoe + 400 * era + 1) == 146_097 * era + YearStart(yoe)
    ensures IsLeap(yoe + 400 * era + 1) <==> IsLeap(yoe + 1)
    ensures IsLeap(yoe + 400 * era) <==> IsLeap(yoe)
  {
    var y := yoe + 400 * era;
    assert y / 4 == yoe / 4 + 100 * era && y / 100 == yoe / 100 + 4 * era && y / 400 == era;
    LeapRepeats(yoe, era);
    LeapRepeats(yoe + 1, era);
  }

  lemma LeapRepeats(y: int, era: int)
    ensures IsLeap(y + 400 * era) <==> IsLeap(y)
  {
    Repeats4(y, 100 * era);
    Repeats100(y, 4 * era);
    Repeats400(y, era);
  }

  lemma Repeats4(y: int, k: int)
    ensures (y + 4 * k) % 4 == y % 4
  {
  }

  lemma Repeats100(y: int, k: int)
    ensures (y + 100 * k) % 100 == y % 100
  {
  }

  lemma Repeats400(y: int, k: int)
    ensures (y + 400 * k) % 400 == y % 400
  {
  }

  /** Where the March-based month `mp` starts: 0, 31, 61, 92, 122, 153, 184, 214, 245, 275, 306, 337. */
  lemma MarchMonths(y: int, doy: int)
    requires 0 <= doy <= 365
    ensures var mp := (5 * doy + 2) / 153;
      var start := (153 * mp + 2) / 5;
      && 0 <= mp <= 11 && start <= doy
      && (mp < 10 ==> doy - start + 1 <= DaysInMonth(y, mp + 3))
      && (mp < 10 ==> DaysBeforeMonth(y, mp + 3) == 59 + start + if IsLeap(y) then 1 else 0)
      && (mp >= 10 ==> DaysBeforeMonth(y + 1, mp - 9) == start - 306)
      && (mp >= 10 ==> doy - start + 1 <= DaysInMonth(y + 1, mp - 9) || (doy == 365 && !IsLeap(y + 1)))
  {
    MonthsOfYear(y);
    MonthsOfYear(y + 1);
    var mp := (5 * doy + 2) / 153;
    assert 0 <= mp <= 11;
    if mp == 0 {} else if mp == 1 {} else if mp == 2 {} else if mp == 3 {} else if mp == 4 {} else if mp == 5 {}
    else if mp == 6 {} else if mp == 7 {} else if mp == 8 {} else if mp == 9 {} else if mp == 10 {} else {}
  }

  /** The date of day `doy` of the March-based year `y`. */
  function DateOf(y: int, doy: int): Date {
    var mp := (5 * doy + 2) / 153;
    var m := if mp < 10 then mp + 3 else mp - 9;
    Date(if m <= 2 then y + 1 else y, m, doy - (153 * mp + 2) / 5 + 1)
  }

  lemma DateOfCounts(y: int, doy: int)
    requires 0 <= doy <= 365 && (doy == 365 ==> IsLeap(y + 1))
    ensures ValidDate(DateOf(y, doy)) && DayNumber(DateOf(y, doy)) == DaysBeforeYear(y + 1) - 306 + doy
  {
    MarchMonths(y, doy);
    YearAdvances(y);
  }

  lemma EraOfDay(z: int)
    ensures 0 <= z - EraOf(z) * 146_097 <= 146_096
  {
  }

  lemma CivilOfDay(era: int, yoe: int, doy: int)
    requires 0 <= doy
    ensures CivilOfEra(era, yoe, doy) == DateOf(yoe + 400 * era, doy)
  {
  }

  lemma YearStartTruncates(yoe: int)
    requires 0 <= yoe
    ensures 365 * yoe + TruncatedDiv(yoe, 4) - TruncatedDiv(yoe, 100) == YearStart(yoe)
  {
  }

  /** The conversion's steps, named: the year of the era and the day of that year. */
  lemma EraSteps(era: int, doe: int) returns (yoe: int, doy: int)
    requires 0 <= doe <= 146_096
    ensures doe == YearStart(yoe) + doy
    ensures 0 <= yoe <= 399 && 0 <= doy <= 365 && (doy == 365 ==> IsLeap(yoe + 1))
    ensures CivilOfDayOfEra(era, doe) == CivilOfEra(era, yoe, doy)
  {
    YearOfEraBounds(doe);
    yoe := YearOfEra(doe);
    doy := doe - YearStart(yoe);
    YearStartTruncates(yoe);
  }

  lemma DatePartsCount(era: int, yoe: int, doy: int)
    requires 0 <= yoe <= 399 && 0 <= doy <= 365 && (doy == 365 ==> IsLeap(yoe + 1))
    ensures ValidDate(CivilOfEra(era, yoe, doy))
    ensures DayNumber(CivilOfEra(era, yoe, doy)) == 146_097 * era + YearStart(yoe) + doy - 306
  {
    CivilOfDay(era, yoe, doy);
    EraYears(era, yoe);
    LeapRepeats(yoe + 1, era);
    DateOfCounts(yoe + 400 * era, doy);
  }

  lemma EraDateCounts(era: int, doe: int, d: Date)
    requires 0 <= doe <= 146_096 && d == CivilOfDayOfEra(era, doe)
    ensures ValidDate(d) && DayNumber(d) == 146_097 * era + doe - 306
  {
    var yoe, doy := EraSteps(era, doe);
    DatePartsCount(era, yoe, doy);
  }

  /** `civil_from_days` gives a valid date, and the day count of that date gives back its input. */
  lemma CivilCounts(n: int)
    ensures ValidDate(CivilFromDays(n)) && DayNumber(CivilFromDays(n)) == EPOCH + n
  {
    var era := EraOf(n + 719_468);
    EraOfDay(n + 719_468);
    EraDateCounts(era, n + 719_468 - era * 146_097, CivilFromDays(n));
  }

  // ---- The main results ----

  lemma {:induction false} MonthStartsGrow(y: int, a: int, b: int)
    requires 1 <= a < b <= 12
    ensures DaysBeforeMonth(y, a) + DaysInMonth(y, a) <= DaysBeforeMonth(y, b)
  {
    if a + 1 < b { MonthStartsGrow(y, a, b - 1); }
  }

  lemma MonthsFitYear(y: int, m: int)
    requires 1 <= m <= 12
    ensures DaysBeforeMonth(y, m) + DaysInMonth(y, m) <= YearLength(y)
  {
    MonthsOfYear(y);
    if m < 12 { MonthStartsGrow(y, m, 12); }
  }

  lemma {:induction false} YearStartsGrow(a: int, b: int)
    requires a < b
    ensures DaysBeforeYear(a) + YearLength(a) <= DaysBeforeYear(b)
    decreases b - a
  {
    YearAdvances(a);
    if a + 1 < b { YearStartsGrow(a + 1, b); }
  }

  /** Earlier dates have smaller numbers. */
  lemma DayNumberMonotone(a: Date, b: Date)
    requires ValidDate(a) && ValidDate(b) && Before(a, b)
    ensures DayNumber(a) < DayNumber(b)
  {
    if a.year < b.year {
      YearStartsGrow(a.year, b.year);
      MonthsFitYear(a.year, a.month);
    } else if a.month < b.month {
      MonthStartsGrow(a.year, a.month, b.month);
    }
  }

  lemma SameNumberSameDate(a: Date, b: Date)
    requires ValidDate(a) && ValidDate(b) && DayNumber(a) == DayNumber(b)
    ensures a == b
  {
    if Before(a, b) { DayNumberMonotone(a, b); }
    if Before(b, a) { DayNumberMonotone(b, a); }
  }

  /** For every day count, negative ones included, `civil_from_days` is the date reached by
      stepping the calendar day by day from 1970-01-01. */
  lemma CivilIsStepped(n: int)
    ensures CivilFromDays(n) == Stepped(n)
  {
    CivilCounts(n);
    SteppedCounts(n);
    SameNumberSameDate(CivilFromDays(n), Stepped(n));
  }

  lemma NumberDecides(d: Date, n: int, c: Date)
    requires ValidDate(d) && ValidDate(c) && DayNumber(c) == EPOCH + n
    ensures c == d <==> n == DayNumber(d) - EPOCH
  {
    if n == DayNumber(d) - EPOCH { SameNumberSameDate(c, d); }
  }

  /** Every valid date is reached, from exactly one day count. */
  lemma CivilInverts(d: Date, n: int)
    requires ValidDate(d)
    ensures CivilFromDays(n) == d <==> n == DayNumber(d) - EPOCH
  {
    CivilCounts(n);
    NumberDecides(d, n, CivilFromDays(n));
  }

  lemma CivilMonotone(a: int, b: int)
    ensures a < b <==> Before(CivilFromDays(a), CivilFromDays(b))
  {
    CivilCounts(a);
    CivilCounts(b);
    var x, y := CivilFromDays(a), CivilFromDays(b);
    if Before(x, y) { DayNumberMonotone(x, y); }
    if Before(y, x) { DayNumberMonotone(y, x); }
  }
}
