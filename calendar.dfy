/** Local wall-clock time as the bot sees it, the two keys it formats from it
    (`today_key`, `minute_key`) and the one piece of clock arithmetic it does
    (the target time minus one minute). */
module Calendar {
  import opened Wrappers

  /** A local date and time in the bot's time zone, as the fields of a Python
      `datetime` it reads. `weekday` follows `datetime.weekday()`: Monday is 0,
      Sunday is 6. Sub-second precision plays no part in any decision. */
  datatype LocalTime = LocalTime(year: nat, month: nat, day: nat,
                                 hour: nat, minute: nat, second: nat,
                                 weekday: nat)

  predicate IsLeapYear(y: nat) {
    y % 4 == 0 && (y % 100 != 0 || y % 400 == 0)
  }

  /** Days in month `m` of year `y` in the proleptic Gregorian calendar Python uses. */
  function DaysInMonth(y: nat, m: nat): (n: nat)
    requires 1 <= m <= 12
    ensures 28 <= n <= 31
    ensures n == 29 <==> m == 2 && IsLeapYear(y)
  {
    if m == 2 then (if IsLeapYear(y) then 29 else 28)
    else if m == 4 || m == 6 || m == 9 || m == 11 then 30
    else 31
  }

  /** The times a Python `datetime` can hold (years 1 to 9999), with whole seconds. */
  predicate ValidTime(t: LocalTime) {
    1 <= t.year <= 9999 && 1 <= t.month <= 12 && 1 <= t.day <= DaysInMonth(t.year, t.month)
    && t.hour < 24 && t.minute < 60 && t.second < 60 && t.weekday < 7
  }

  predicate SameDate(a: LocalTime, b: LocalTime) {
    a.year == b.year && a.month == b.month && a.day == b.day
  }

  /** `is_weekday`: Monday to Friday. */
  predicate IsWeekday(t: LocalTime) {
    t.weekday <= 4
  }

  /** Python's `a >= b` on two datetimes of one time zone: lexicographic on the wall clock. */
  predicate NotBefore(a: LocalTime, b: LocalTime) {
    if a.year != b.year then a.year > b.year
    else if a.month != b.month then a.month > b.month
    else if a.day != b.day then a.day > b.day
    else if a.hour != b.hour then a.hour > b.hour
    else if a.minute != b.minute then a.minute > b.minute
    else a.second >= b.second
  }

  // ---------------------------------------------------------------------------
  // Decimal digits

  function Pow10(n: nat): (p: nat)
    ensures p >= 1
  {
    if n == 0 then 1 else 10 * Pow10(n - 1)
  }

  function DigitChar(d: nat): char
    requires d < 10
  {
    (48 + d) as char
  }

  function DigitValue(c: char): nat {
    if '0' <= c <= '9' then (c as int - 48) as nat else 0
  }

  predicate IsDigits(s: string) {
    forall i :: 0 <= i < |s| ==> '0' <= s[i] <= '9'
  }

  /** The low `width` decimal digits of `n`, zero-padded on the left: strftime's
      `%Y` (width 4) and `%m %d %H %M` (width 2). */
  function Pad(n: nat, width: nat): (s: string)
    ensures |s| == width && IsDigits(s)
  {
    if width == 0 then [] else Pad(n / 10, width - 1) + [DigitChar(n % 10)]
  }

  /** Reads a string of decimal digits back as a number; the inverse of `Pad`. */
  function Decimal(s: string): nat {
    if s == [] then 0 else 10 * Decimal(s[..|s| - 1]) + DigitValue(s[|s| - 1])
  }

  lemma {:induction false} DecimalOfPad(n: nat, width: nat)
    requires n < Pow10(width)
    ensures Decimal(Pad(n, width)) == n
  {
    if width > 0 {
      var s := Pad(n, width);
      assert s[..|s| - 1] == Pad(n / 10, width - 1);
      DecimalOfPad(n / 10, width - 1);
    }
  }

  // ---------------------------------------------------------------------------
  // Keys

  /** `today_key`: `strftime("%Y%m%d")`. */
  function TodayKey(t: LocalTime): (k: string)
    ensures |k| == 8 && IsDigits(k)
  {
    Pad(t.year, 4) + Pad(t.month, 2) + Pad(t.day, 2)
  }

  /** `minute_key`: `strftime("%Y%m%d%H%M")`. */
  function MinuteKey(t: LocalTime): (k: string)
    ensures |k| == 12 && IsDigits(k)
    ensures k[..8] == TodayKey(t)
  {
    TodayKey(t) + Pad(t.hour, 2) + Pad(t.minute, 2)
  }

  /** Every field small enough to be printed in full by its strftime directive. */
  predicate FitsKey(t: LocalTime) {
    t.year < 10000 && t.month < 100 && t.day < 100 && t.hour < 100 && t.minute < 100
  }

  lemma TodayKeyFields(t: LocalTime)
    requires FitsKey(t)
    ensures Decimal(TodayKey(t)[..4]) == t.year
    ensures Decimal(TodayKey(t)[4..6]) == t.month
    ensures Decimal(TodayKey(t)[6..8]) == t.day
  {
    var k := TodayKey(t);
    assert Pow10(2) == 100 && Pow10(4) == 10000;
    assert k[..4] == Pad(t.year, 4);
    assert k[4..6] == Pad(t.month, 2);
    assert k[6..8] == Pad(t.day, 2);
    DecimalOfPad(t.year, 4);
    DecimalOfPad(t.month, 2);
    DecimalOfPad(t.day, 2);
  }

  /** The last four digits of the minute key are the hour and the minute, in that order. */
  lemma MinuteKeyFields(t: LocalTime)
    requires FitsKey(t)
    ensures Decimal(MinuteKey(t)[8..10]) == t.hour
    ensures Decimal(MinuteKey(t)[10..12]) == t.minute
  {
    var k := MinuteKey(t);
    assert Pow10(2) == 100;
    assert k[8..10] == Pad(t.hour, 2);
    assert k[10..12] == Pad(t.minute, 2);
    DecimalOfPad(t.hour, 2);
    DecimalOfPad(t.minute, 2);
  }

  /** Two day keys are equal exactly when the dates are. */
  lemma TodayKeyInjective(a: LocalTime, b: LocalTime)
    requires FitsKey(a) && FitsKey(b)
    ensures TodayKey(a) == TodayKey(b) <==> SameDate(a, b)
  {
    TodayKeyFields(a);
    TodayKeyFields(b);
  }

  /** Two minute keys are equal exactly when the dates, hours and minutes are. */
  lemma MinuteKeyInjective(a: LocalTime, b: LocalTime)
    requires FitsKey(a) && FitsKey(b)
    ensures MinuteKey(a) == MinuteKey(b) <==>
            SameDate(a, b) && a.hour == b.hour && a.minute == b.minute
  {
    var ka, kb := MinuteKey(a), MinuteKey(b);
    if ka == kb {
      TodayKeyInjective(a, b);
      assert Pow10(2) == 100;
      assert ka[8..10] == Pad(a.hour, 2) && kb[8..10] == Pad(b.hour, 2);
      assert ka[10..12] == Pad(a.minute, 2) && kb[10..12] == Pad(b.minute, 2);
      DecimalOfPad(a.hour, 2);
      DecimalOfPad(b.hour, 2);
      DecimalOfPad(a.minute, 2);
      DecimalOfPad(b.minute, 2);
    }
  }

  // ---------------------------------------------------------------------------
  // One minute earlier

  function DaysInYear(y: nat): nat {
    if IsLeapYear(y) then 366 else 365
  }

  /** Days of years 1 .. y-1. */
  function DaysBeforeYear(y: nat): nat {
    if y <= 1 then 0 else DaysBeforeYear(y - 1) + DaysInYear(y - 1)
  }

  /** Days of months 1 .. m-1 of year `y`, from the usual table. */
  function DaysBeforeMonth(y: nat, m: nat): nat
    requires 1 <= m <= 12
  {
    [0, 31, 59, 90, 120, 151, 181, 212, 243, 273, 304, 334][m - 1]
      + (if m > 2 && IsLeapYear(y) then 1 else 0)
  }

  /** Minutes since 0001-01-01 00:00, an independent numbering of the wall clock. */
  function MinuteIndex(t: LocalTime): int
    requires 1 <= t.month <= 12
  {
    ((DaysBeforeYear(t.year) + DaysBeforeMonth(t.year, t.month) + t.day - 1) * 24 + t.hour) * 60 + t.minute
  }

  predicate IsFirstMinute(t: LocalTime) {
    t.year == 1 && t.month == 1 && t.day == 1 && t.hour == 0 && t.minute == 0
  }

  /** `t - timedelta(minutes=1)` on the wall clock, the weekday moving back with the
      date; `None` where Python raises `OverflowError` (before 0001-01-01 00:00). */
  function MinuteBefore(t: LocalTime): (p: Option<LocalTime>)
    requires ValidTime(t)
    ensures p.Some? <==> !IsFirstMinute(t)
    ensures p.Some? ==> ValidTime(p.value) && p.value.second == t.second
    ensures p.Some? ==> MinuteIndex(p.value) + 1 == MinuteIndex(t)
  {
    var back := (t.weekday + 6) % 7;
    if t.minute > 0 then Some(t.(minute := t.minute - 1))
    else if t.hour > 0 then Some(t.(hour := t.hour - 1, minute := 59))
    else if t.day > 1 then Some(t.(day := t.day - 1, hour := 23, minute := 59, weekday := back))
    else if t.month > 1 then
      Some(t.(month := t.month - 1, day := DaysInMonth(t.year, t.month - 1),
              hour := 23, minute := 59, weekday := back))
    else if t.year > 1 then
      Some(t.(year := t.year - 1, month := 12, day := 31, hour := 23, minute := 59, weekday := back))
    else None
  }
}
