/**
 * Naive Python datetimes as the core uses them: the proleptic Gregorian
 * calendar of Python's `datetime` module, the day ordinal it counts from
 * 0001-01-01, parsing with `'%Y-%m-%d %H:%M:%S'` and the ISO text of `str()`.
 */
module DateTimes {
  import opened Wrappers
  import opened Builtins

  datatype Date = Date(year: int, month: int, day: int)

  datatype Time = Time(hour: int, minute: int, second: int, microsecond: int)

  datatype DateTime = DateTime(date: Date, time: Time)

  const MinYear := 1
  const MaxYear := 9999

  predicate IsLeap(y: int)
  {
    y % 4 == 0 && (y % 100 != 0 || y % 400 == 0)
  }

  function DaysInMonth(y: int, m: int): (n: int)
    requires 1 <= m <= 12
    ensures 28 <= n <= 31
  {
    if m == 2 then (if IsLeap(y) then 29 else 28)
    else if m == 4 || m == 6 || m == 9 || m == 11 then 30
    else 31
  }

  /** Days in the months of year `y` before month `m`. */
  function DaysBeforeMonth(y: int, m: int): int
    requires 1 <= m <= 12
  {
    var leap := if IsLeap(y) && m > 2 then 1 else 0;
    (if m == 1 then 0 else if m == 2 then 31 else if m == 3 then 59
     else if m == 4 then 90 else if m == 5 then 120 else if m == 6 then 151
     else if m == 7 then 181 else if m == 8 then 212 else if m == 9 then 243
     else if m == 10 then 273 else if m == 11 then 304 else 334) + leap
  }

  /** Days in the years before year `y`, counting from year 1. */
  function DaysBeforeYear(y: int): int
  {
    var p := y - 1;
    p * 365 + p / 4 - p / 100 + p / 400
  }

  predicate ValidDate(d: Date)
  {
    MinYear <= d.year <= MaxYear && 1 <= d.month <= 12 && 1 <= d.day <= DaysInMonth(d.year, d.month)
  }

  predicate ValidTime(t: Time)
  {
    0 <= t.hour < 24 && 0 <= t.minute < 60 && 0 <= t.second < 60 && 0 <= t.microsecond < 1000000
  }

  predicate Valid(dt: DateTime)
  {
    ValidDate(dt.date) && ValidTime(dt.time)
  }

  /** `date.toordinal()`: 0001-01-01 is day 1. */
  function Ordinal(d: Date): int
    requires ValidDate(d)
  {
    DaysBeforeYear(d.year) + DaysBeforeMonth(d.year, d.month) + d.day
  }

  /** Whole minutes since 0001-01-01 00:00, ignoring seconds. */
  function EpochMinutes(dt: DateTime): int
    requires Valid(dt)
  {
    (Ordinal(dt.date) - 1) * 1440 + dt.time.hour * 60 + dt.time.minute
  }

  /** `datetime.min` and `datetime.max`. */
  const Min := DateTime(Date(1, 1, 1), Time(0, 0, 0, 0))
  const Max := DateTime(Date(9999, 12, 31), Time(23, 59, 59, 999999))

  // ---------------------------------------------------------------------------
  // Comparisons: Python compares dates, times and datetimes field by field

  predicate DateBefore(a: Date, b: Date)
  {
    a.year < b.year
    || (a.year == b.year && (a.month < b.month || (a.month == b.month && a.day < b.day)))
  }

  predicate TimeBefore(a: Time, b: Time)
  {
    a.hour < b.hour
    || (a.hour == b.hour
        && (a.minute < b.minute
            || (a.minute == b.minute
                && (a.second < b.second || (a.second == b.second && a.microsecond < b.microsecond)))))
  }

  /** `a <= b` on `datetime.time`. */
  predicate TimeAtMost(a: Time, b: Time)
  {
    TimeBefore(a, b) || a == b
  }

  /** `a < b` on naive datetimes. */
  predicate Before(a: DateTime, b: DateTime)
  {
    DateBefore(a.date, b.date) || (a.date == b.date && TimeBefore(a.time, b.time))
  }

  /** `a <= b` on naive datetimes. */
  predicate AtMost(a: DateTime, b: DateTime)
  {
    Before(a, b) || a == b
  }

  lemma AtMostTotal(a: DateTime, b: DateTime)
    ensures AtMost(a, b) || AtMost(b, a)
  {
  }

  lemma AtMostTransitive(a: DateTime, b: DateTime, c: DateTime)
    requires AtMost(a, b) && AtMost(b, c)
    ensures AtMost(a, c)
  {
  }

  // ---------------------------------------------------------------------------
  // The calendar count agrees with the field-by-field order

  lemma DaysBeforeMonthStep(y: int, m: int)
    requires 1 <= m < 12
    ensures DaysBeforeMonth(y, m + 1) == DaysBeforeMonth(y, m) + DaysInMonth(y, m)
  {
  }

  lemma DaysBeforeYearStep(y: int)
    ensures DaysBeforeYear(y + 1) == DaysBeforeYear(y) + DaysBeforeMonth(y, 12) + 31
  {
    var p := y - 1;
    QuotientStep4(p);
    QuotientStep100(p);
    QuotientStep400(p);
    LeapDivisors(y);
  }

  lemma QuotientStep4(p: int)
    ensures (p + 1) / 4 == p / 4 + (if (p + 1) % 4 == 0 then 1 else 0)
  {
  }

  lemma QuotientStep100(p: int)
    ensures (p + 1) / 100 == p / 100 + (if (p + 1) % 100 == 0 then 1 else 0)
  {
  }

  lemma QuotientStep400(p: int)
    ensures (p + 1) / 400 == p / 400 + (if (p + 1) % 400 == 0 then 1 else 0)
  {
  }

  lemma LeapDivisors(y: int)
    ensures y % 400 == 0 ==> y % 100 == 0
    ensures y % 100 == 0 ==> y % 4 == 0
  {
  }

  lemma {:induction false} DaysBeforeMonthBound(y: int, m: int, n: int)
    requires 1 <= m <= n <= 12
    ensures DaysBeforeMonth(y, m) + DaysInMonth(y, m) <= DaysBeforeMonth(y, n) + (if m == n then DaysInMonth(y, m) else 0)
    decreases n - m
  {
    if m < n {
      DaysBeforeMonthStep(y, m);
      if m + 1 < n {
        DaysBeforeMonthBound(y, m + 1, n);
      }
    }
  }

  lemma {:induction false} DaysBeforeYearMonotone(y: int, z: int)
    requires y <= z
    ensures DaysBeforeYear(y) <= DaysBeforeYear(z)
    decreases z - y
  {
    if y < z {
      DaysBeforeYearStep(y);
      DaysBeforeYearMonotone(y + 1, z);
    }
  }

  /** The day count is strictly increasing along the calendar order. */
  lemma OrdinalMonotone(a: Date, b: Date)
    requires ValidDate(a) && ValidDate(b) && DateBefore(a, b)
    ensures Ordinal(a) < Ordinal(b)
  {
    if a.year < b.year {
      DaysBeforeMonthBound(a.year, a.month, 12);
      DaysBeforeYearStep(a.year);
      DaysBeforeYearMonotone(a.year + 1, b.year);
    } else if a.month < b.month {
      DaysBeforeMonthBound(a.year, a.month, b.month);
    }
  }

  lemma OrdinalInjective(a: Date, b: Date)
    requires ValidDate(a) && ValidDate(b) && Ordinal(a) == Ordinal(b)
    ensures a == b
  {
    if DateBefore(a, b) {
      OrdinalMonotone(a, b);
    } else if DateBefore(b, a) {
      OrdinalMonotone(b, a);
    }
  }

  /**
   * On datetimes whose seconds and microseconds are zero, `<` is exactly the
   * order of the minute count.
   */
  lemma BeforeIffFewerMinutes(a: DateTime, b: DateTime)
    requires Valid(a) && Valid(b)
    requires a.time.second == 0 && a.time.microsecond == 0
    requires b.time.second == 0 && b.time.microsecond == 0
    ensures Before(a, b) <==> EpochMinutes(a) < EpochMinutes(b)
  {
    if DateBefore(a.date, b.date) {
      OrdinalMonotone(a.date, b.date);
    } else if DateBefore(b.date, a.date) {
      OrdinalMonotone(b.date, a.date);
    } else {
      assert a.date == b.date;
    }
  }

  // ---------------------------------------------------------------------------
  // Text forms

  /** `'%02d' % n` for 0 <= n < 100. */
  function Pad2(n: int): (s: string)
    requires 0 <= n < 100
    ensures |s| == 2 && AllDigits(s)
  {
    [DigitChar(n / 10), DigitChar(n % 10)]
  }

  /** `'%04d' % n` for 0 <= n < 10000. */
  function Pad4(n: int): (s: string)
    requires 0 <= n < 10000
    ensures |s| == 4 && AllDigits(s)
  {
    [DigitChar(n / 1000), DigitChar(n / 100 % 10), DigitChar(n / 10 % 10), DigitChar(n % 10)]
  }

  /** `str(date)`: `YYYY-MM-DD`. */
  function DateString(d: Date): (s: string)
    requires ValidDate(d)
    ensures |s| == 10 && s[4] == '-' && s[7] == '-'
  {
    Pad4(d.year) + "-" + Pad2(d.month) + "-" + Pad2(d.day)
  }

  /** `str(time)`: `HH:MM:SS`, followed by `.ffffff` only when there are microseconds. */
  function TimeString(t: Time): (s: string)
    requires ValidTime(t)
    ensures t.microsecond == 0 ==> |s| == 8 && s[2] == ':' && s[5] == ':'
  {
    Pad2(t.hour) + ":" + Pad2(t.minute) + ":" + Pad2(t.second)
    + (if t.microsecond == 0 then "" else "." + Pad6(t.microsecond))
  }

  function Pad6(n: int): string
    requires 0 <= n < 1000000
  {
    Pad2(n / 10000) + Pad2(n / 100 % 100) + Pad2(n % 100)
  }

  /** `strftime('%Y-%m-%d %H:%M:%S')` for years written with four digits. */
  function Format(dt: DateTime): (s: string)
    requires Valid(dt)
    ensures |s| == 19
  {
    DateString(dt.date) + " " + Pad2(dt.time.hour) + ":" + Pad2(dt.time.minute) + ":" + Pad2(dt.time.second)
  }

  function Value2(s: string, i: nat): int
    requires i + 2 <= |s| && IsDigit(s[i]) && IsDigit(s[i + 1])
  {
    DigitValue(s[i]) * 10 + DigitValue(s[i + 1])
  }

  predicate CanonicalLayout(s: string)
  {
    |s| == 19 && s[4] == '-' && s[7] == '-' && s[10] == ' ' && s[13] == ':' && s[16] == ':'
    && forall i :: 0 <= i < 19 && i !in {4, 7, 10, 13, 16} ==> IsDigit(s[i])
  }

  /**
   * `datetime.strptime(s, '%Y-%m-%d %H:%M:%S')` on zero-padded text: the
   * fields must form a real date and a time of day, else `ValueError`.
   */
  function ParseDateTime(s: string): (r: Result<DateTime, PyError>)
    ensures r.Ok? ==> Valid(r.value) && r.value.time.microsecond == 0
    ensures r.Err? ==> r.error == ValueError
  {
    if !CanonicalLayout(s) then Err(ValueError)
    else
      var year := Value2(s, 0) * 100 + Value2(s, 2);
      var dt := DateTime(Date(year, Value2(s, 5), Value2(s, 8)),
                         Time(Value2(s, 11), Value2(s, 14), Value2(s, 17), 0));
      if Valid(dt) then Ok(dt) else Err(ValueError)
  }

  lemma ParseFormat(dt: DateTime)
    requires Valid(dt) && dt.time.microsecond == 0
    ensures ParseDateTime(Format(dt)) == Ok(dt)
  {
    FormatLayout(dt);
    FormatValues(dt);
  }

  /** Where each field's digits sit in the formatted text. */
  lemma FormatPieces(dt: DateTime)
    requires Valid(dt)
    ensures forall k :: 0 <= k < 4 ==> Format(dt)[k] == Pad4(dt.date.year)[k]
    ensures forall k :: 0 <= k < 2 ==> Format(dt)[5 + k] == Pad2(dt.date.month)[k]
    ensures forall k :: 0 <= k < 2 ==> Format(dt)[8 + k] == Pad2(dt.date.day)[k]
    ensures forall k :: 0 <= k < 2 ==> Format(dt)[11 + k] == Pad2(dt.time.hour)[k]
    ensures forall k :: 0 <= k < 2 ==> Format(dt)[14 + k] == Pad2(dt.time.minute)[k]
    ensures forall k :: 0 <= k < 2 ==> Format(dt)[17 + k] == Pad2(dt.time.second)[k]
  {
    var date := DateString(dt.date);
    var clock := Pad2(dt.time.hour) + ":" + Pad2(dt.time.minute) + ":" + Pad2(dt.time.second);
    assert Format(dt) == date + " " + clock;
    assert date == Pad4(dt.date.year) + "-" + Pad2(dt.date.month) + "-" + Pad2(dt.date.day);
  }

  lemma FormatLayout(dt: DateTime)
    requires Valid(dt)
    ensures CanonicalLayout(Format(dt))
  {
    FormatPieces(dt);
  }

  lemma FormatValues(dt: DateTime)
    requires Valid(dt)
    ensures Value2(Format(dt), 0) * 100 + Value2(Format(dt), 2) == dt.date.year
    ensures Value2(Format(dt), 5) == dt.date.month && Value2(Format(dt), 8) == dt.date.day
    ensures Value2(Format(dt), 11) == dt.time.hour && Value2(Format(dt), 14) == dt.time.minute
    ensures Value2(Format(dt), 17) == dt.time.second
  {
    var s := Format(dt);
    var d, t := dt.date, dt.time;
    FormatPieces(dt);
    FormatLayout(dt);
    Pad2Value(d.month);
    Pad2Value(d.day);
    Pad2Value(t.hour);
    Pad2Value(t.minute);
    Pad2Value(t.second);
    Pad4Value(d.year);
    assert Value2(s, 5) == Value2(Pad2(d.month), 0);
    assert Value2(s, 8) == Value2(Pad2(d.day), 0);
    assert Value2(s, 11) == Value2(Pad2(t.hour), 0);
    assert Value2(s, 14) == Value2(Pad2(t.minute), 0);
    assert Value2(s, 17) == Value2(Pad2(t.second), 0);
    assert Value2(s, 0) == Value2(Pad4(d.year), 0);
    assert Value2(s, 2) == Value2(Pad4(d.year), 2);
  }

  lemma Pad2Value(n: int)
    requires 0 <= n < 100
    ensures Value2(Pad2(n), 0) == n
  {
  }

  lemma Pad4Value(n: int)
    requires 0 <= n < 10000
    ensures Value2(Pad4(n), 0) * 100 + Value2(Pad4(n), 2) == n
  {
    Pad4Halves(n);
    Pad2Value(n / 100);
    Pad2Value(n % 100);
    assert Value2(Pad4(n), 0) == Value2(Pad2(n / 100), 0);
    assert Value2(Pad4(n), 2) == Value2(Pad2(n % 100), 0);
  }

  /** Four digits are the two digits of the hundreds followed by the two of the rest. */
  lemma Pad4Halves(n: int)
    requires 0 <= n < 10000
    ensures Pad4(n) == Pad2(n / 100) + Pad2(n % 100)
  {
    QuotientDigits(n);
  }

  lemma QuotientDigits(n: int)
    requires 0 <= n < 10000
    ensures n / 1000 == n / 100 / 10
    ensures n / 10 % 10 == n % 100 / 10 && n % 10 == n % 100 % 10
  {
    var a, b := n / 100, n % 100;
    assert n == 100 * a + b;
    var q := a / 10;
    assert a == 10 * q + a % 10;
    assert n == 1000 * q + (100 * (a % 10) + b) && 0 <= 100 * (a % 10) + b < 1000;
    assert n == 10 * (10 * a + b / 10) + b % 10 && 0 <= b % 10 < 10;
    assert n / 10 == 10 * a + b / 10 && 0 <= b / 10 < 10;
  }
}
