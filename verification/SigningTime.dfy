/** `amz_dates`: the two timestamps of a signed request. */
module SigningTime {
  import opened Calendar

  const SECOND := 1_000_000_000
  const DAY := 86_400
  /** The first second of the year 10000. */
  const YEAR_10000 := 253_402_300_800

  function Digit(n: int): char
    requires 0 <= n <= 9
  {
    "0123456789"[n]
  }

  /** `{n:0w}`: decimal digits, padded with zeros to at least `w` characters. */
  function Padded(n: nat, w: nat): string
    requires w >= 1
  {
    if w == 1 && n < 10 then [Digit(n)]
    else Padded(n / 10, if w == 1 then 1 else w - 1) + [Digit(n % 10)]
  }

  datatype Stamps = Stamps(amzDate: string, dateStamp: string)

  /** `now` in nanoseconds from 1970-01-01; a clock before that is read as the epoch itself. */
  function Seconds(now: int): nat { if now < 0 then 0 else now / SECOND }

  function AmzDates(now: int): Stamps {
    var secs := Seconds(now);
    DatesAfterEpoch(secs / DAY);
    var dateStamp := DateStamp(CivilFromDays(secs / DAY));
    Stamps(dateStamp + "T" + TimeOfDay(secs % DAY) + "Z", dateStamp)
  }

  function DateStamp(d: Date): string
    requires d.year >= 0 && d.month >= 0 && d.day >= 0
  {
    Padded(d.year, 4) + Padded(d.month, 2) + Padded(d.day, 2)
  }

  function TimeOfDay(rem: nat): string { Padded(rem / 3600, 2) + Padded(rem % 3600 / 60, 2) + Padded(rem % 60, 2) }

  lemma DatesAfterEpoch(days: nat)
    ensures ValidDate(CivilFromDays(days)) && CivilFromDays(days).year >= 1970
  {
    CivilCounts(days);
    CivilIsStepped(0);
    CivilMonotone(0, days);
    CivilMonotone(days, 0);
  }

  // ---- Reading the digits back ----

  function DigitValue(c: char): int { if '0' <= c <= '9' then c as int - '0' as int else 0 }

  function Value(s: string): (n: int)
    ensures n >= 0
  {
    if s == "" then 0 else 10 * Value(s[..|s| - 1]) + DigitValue(s[|s| - 1])
  }

  function Pow10(w: nat): nat { if w == 0 then 1 else 10 * Pow10(w - 1) }

  lemma ValueOfLast(s: string, n: int)
    requires 0 <= n <= 9
    ensures Value(s + [Digit(n)]) == 10 * Value(s) + n
  {
    assert (s + [Digit(n)])[..|s|] == s;
  }

  /** Padding keeps the value. */
  lemma {:induction false} PaddedReadsBack(n: nat, w: nat)
    requires w >= 1
    ensures Value(Padded(n, w)) == n
  {
    if w == 1 && n < 10 {
      ValueOfLast("", n);
      assert "" + [Digit(n)] == [Digit(n)];
    } else {
      var v := if w == 1 then 1 else w - 1;
      PaddedReadsBack(n / 10, v);
      ValueOfLast(Padded(n / 10, v), n % 10);
    }
  }

  /** The minimum width is the width exactly when the number fits in it. */
  lemma {:induction false} PaddedWidth(n: nat, w: nat)
    requires w >= 1
    ensures |Padded(n, w)| >= w
    ensures |Padded(n, w)| == w <==> n < Pow10(w)
  {
    if w == 1 {
      if n >= 10 { PaddedWidth(n / 10, 1); }
    } else {
      PaddedWidth(n / 10, w - 1);
    }
  }

  lemma TwoDigits(n: nat)
    requires n < 100
    ensures |Padded(n, 2)| == 2 && Value(Padded(n, 2)) == n
  {
    PaddedReadsBack(n, 2);
    PaddedWidth(n, 2);
    assert Pow10(2) == 10 * Pow10(1) == 100;
  }

  // ---- The main results ----

  /** The second a timestamp names: year, then two digits each for month, day, hour, minute and second. */
  ghost function SecondsOf(stamp: string): int {
    if |stamp| < 12 then 0 else
    var y := |stamp| - 12;
    var d := Date(Value(stamp[..y]), Value(stamp[y..y + 2]), Value(stamp[y + 2..y + 4]));
    if !ValidDate(d) then 0 else
    86_400 * (DayNumber(d) - EPOCH)
    + 3600 * Value(stamp[y + 5..y + 7]) + 60 * Value(stamp[y + 7..y + 9]) + Value(stamp[y + 9..y + 11])
  }

  lemma SplitStamp(y: string, m: string, d: string, h: string, i: string, s: string)
    requires |m| == |d| == |h| == |i| == |s| == 2
    ensures var stamp, n := y + m + d + "T" + (h + i + s) + "Z", |y|;
      && |stamp| == n + 12
      && stamp[..n] == y && stamp[n..n + 2] == m && stamp[n + 2..n + 4] == d
      && stamp[n + 5..n + 7] == h && stamp[n + 7..n + 9] == i && stamp[n + 9..n + 11] == s
  {
  }

  lemma SixDigits(rem: nat)
    requires rem < DAY
    ensures |TimeOfDay(rem)| == 6
    ensures 3600 * Value(TimeOfDay(rem)[..2]) + 60 * Value(TimeOfDay(rem)[2..4]) + Value(TimeOfDay(rem)[4..]) == rem
  {
    var h, m, s := rem / 3600, rem % 3600 / 60, rem % 60;
    TwoDigits(h);
    TwoDigits(m);
    TwoDigits(s);
    assert rem == 3600 * h + rem % 3600 && rem % 3600 == 60 * m + rem % 3600 % 60;
    assert rem % 3600 % 60 == s by { Remainders(rem); }
    var t := TimeOfDay(rem);
    assert t[..2] == Padded(h, 2) && t[2..4] == Padded(m, 2) && t[4..] == Padded(s, 2);
  }

  lemma Remainders(rem: nat)
    ensures rem % 3600 % 60 == rem % 60
  {
    var q, r := rem / 3600, rem % 3600;
    assert rem == 60 * (60 * q + r / 60) + r % 60;
  }

  lemma StampReads(d: Date, rem: nat)
    requires ValidDate(d) && d.year >= 0 && rem < DAY
    ensures SecondsOf(DateStamp(d) + "T" + TimeOfDay(rem) + "Z") == DAY * (DayNumber(d) - EPOCH) + rem
  {
    PaddedReadsBack(d.year, 4);
    TwoDigits(d.month);
    TwoDigits(d.day);
    SixDigits(rem);
    PartsRead(d, Padded(d.year, 4), Padded(d.month, 2), Padded(d.day, 2), TimeOfDay(rem));
  }

  lemma PartsRead(date: Date, y: string, m: string, d: string, time: string)
    requires |m| == |d| == 2 && |time| == 6 && ValidDate(date)
    requires date == Date(Value(y), Value(m), Value(d))
    ensures SecondsOf(y + m + d + "T" + time + "Z")
      == 86_400 * (DayNumber(date) - EPOCH) + 3600 * Value(time[..2]) + 60 * Value(time[2..4]) + Value(time[4..])
  {
    SplitStamp(y, m, d, time[..2], time[2..4], time[4..]);
    assert time[..2] + time[2..4] + time[4..] == time;
  }

  predicate AllDigits(s: string) { forall i :: 0 <= i < |s| ==> '0' <= s[i] <= '9' }

  lemma {:induction false} PaddedDigits(n: nat, w: nat)
    requires w >= 1
    ensures AllDigits(Padded(n, w))
  {
    if !(w == 1 && n < 10) { PaddedDigits(n / 10, if w == 1 then 1 else w - 1); }
  }

  /** A timestamp is digits, but for a `T` before the time and a `Z` after it. */
  lemma StampShape(now: int)
    ensures var stamp := AmzDates(now).amzDate;
      var n := |stamp|;
      && n >= 8 && AllDigits(stamp[..n - 8]) && stamp[n - 8] == 'T'
      && AllDigits(stamp[n - 7..n - 1]) && stamp[n - 1] == 'Z'
  {
    var secs := Seconds(now);
    var rem := secs % DAY;
    DatesAfterEpoch(secs / DAY);
    var d := CivilFromDays(secs / DAY);
    PaddedDigits(d.year, 4);
    PaddedDigits(d.month, 2);
    PaddedDigits(d.day, 2);
    TimeDigits(rem);
    StampParts(DateStamp(d), TimeOfDay(rem));
  }

  lemma TimeDigits(rem: nat)
    requires rem < DAY
    ensures |TimeOfDay(rem)| == 6 && AllDigits(TimeOfDay(rem))
  {
    SixDigits(rem);
    PaddedDigits(rem / 3600, 2);
    PaddedDigits(rem % 3600 / 60, 2);
    PaddedDigits(rem % 60, 2);
  }

  lemma StampParts(date: string, time: string)
    requires |time| == 6
    ensures var stamp := date + "T" + time + "Z";
      var n := |stamp|;
      n >= 8 && stamp[..n - 8] == date && stamp[n - 8] == 'T' && stamp[n - 7..n - 1] == time && stamp[n - 1] == 'Z'
  {
  }

  /** The timestamp names the second it was made for, whatever the year; before the epoch, the epoch. */
  lemma StampNamesSecond(now: int)
    ensures SecondsOf(AmzDates(now).amzDate) == if now < 0 then 0 else now / 1_000_000_000
  {
    var secs := Seconds(now);
    DatesAfterEpoch(secs / DAY);
    CivilCounts(secs / DAY);
    StampReads(CivilFromDays(secs / DAY), secs % DAY);
  }

  /** The timestamps have the 16 and 8 characters that signing asks for exactly until the year 10000,
      and the date is the first part of the timestamp. */
  lemma StampWidth(now: int)
    ensures |AmzDates(now).amzDate| == 16 <==> now < 253_402_300_800 * 1_000_000_000
    ensures |AmzDates(now).dateStamp| == 8 <==> now < 253_402_300_800 * 1_000_000_000
    ensures AmzDates(now).dateStamp == AmzDates(now).amzDate[..|AmzDates(now).amzDate| - 8]
  {
    var secs := Seconds(now);
    var days, rem := secs / DAY, secs % DAY;
    var d := CivilFromDays(days);
    DatesAfterEpoch(days);
    PaddedWidth(d.year, 4);
    TwoDigits(d.month);
    TwoDigits(d.day);
    SixDigits(rem);
    FourDigitYears(days);
  }

  lemma FourDigitYears(days: nat)
    ensures CivilFromDays(days).year < Pow10(4) <==> days < YEAR_10000 / DAY
  {
    var first := Date(10000, 1, 1);
    MonthsOfYear(10000);
    CivilInverts(first, YEAR_10000 / DAY);
    CivilMonotone(days, YEAR_10000 / DAY);
    CivilCounts(days);
    assert Pow10(4) == 10 * Pow10(3) == 100 * Pow10(2) == 1000 * Pow10(1) == 10_000;
  }
}
