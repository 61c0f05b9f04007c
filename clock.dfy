/**
 * Times of day, naive datetimes and the `HH:MM` wire format, as the
 * appointment code uses Python's `datetime.time`, `datetime.combine`,
 * `timedelta(minutes=...)`, `strftime('%H:%M')` and
 * `map(int, s.split(':'))`.  Seconds are not part of a time of day here:
 * every time the core handles is a whole minute.
 */
module Clock {
  import opened Wrappers
  import opened Strings

  const MinutesPerDay: int := 1440
  const SecondsPerDay: int := 86400

  /** A time of day as minutes since midnight (`time(h, m)` is `h * 60 + m`). */
  type Minute = m: int | 0 <= m < 1440

  /** A second of the day, for the moments the clock reports ("now"). */
  type Second = s: int | 0 <= s < 86400

  /** A naive datetime at minute resolution: a day number and a time of day. */
  datatype DateTime = DateTime(day: int, minute: Minute)

  /** A moment read from the clock (`timezone.now()`), at second resolution. */
  datatype Instant = Instant(day: int, second: Second)

  /** Minutes since day 0 at midnight. */
  function Absolute(dt: DateTime): int {
    dt.day * MinutesPerDay + dt.minute
  }

  /**
   * `dt + timedelta(minutes=n)`: the result is exactly n minutes later
   * (earlier for negative n), carrying into the date across midnight.
   */
  function AddMinutes(dt: DateTime, n: int): (r: DateTime)
    ensures Absolute(r) == Absolute(dt) + n
  {
    DateTime(dt.day + (dt.minute + n) / MinutesPerDay, (dt.minute + n) % MinutesPerDay)
  }

  /** Within a day AddMinutes only moves the clock hands. */
  lemma AddMinutesWithinDay(dt: DateTime, n: int)
    requires 0 <= dt.minute + n < MinutesPerDay
    ensures AddMinutes(dt, n) == DateTime(dt.day, dt.minute + n)
  {
    var r := AddMinutes(dt, n);
    assert Absolute(r) == Absolute(dt) + n;
  }

  /** `datetime.combine(d, t) < now` for a whole-minute datetime. */
  predicate Before(dt: DateTime, now: Instant) {
    dt.day < now.day || (dt.day == now.day && dt.minute * 60 < now.second)
  }

  /** Two decimal digits, zero padded, of a number below 100. */
  function Pad2(n: nat): (s: string)
    requires n < 100
    ensures |s| == 2 && AllDigits(s) && DecimalValue(s) == n
  {
    var s := [DigitChar(n / 10), DigitChar(n % 10)];
    assert s[..1] == [DigitChar(n / 10)];
    assert [DigitChar(n / 10)][..0] == [];
    assert DecimalValue(s[..1]) == n / 10;
    assert DecimalValue(s) == (n / 10) * 10 + n % 10;
    s
  }

  /** `t.strftime('%H:%M')`. */
  function FormatHHMM(t: Minute): (s: string)
    ensures |s| == 5 && s[2] == ':'
    ensures AllDigits(s[..2]) && AllDigits(s[3..])
  {
    Pad2(t / 60) + ":" + Pad2(t % 60)
  }

  /**
   * `time(*map(int, s.split(':')))`: exactly two colon-separated pieces,
   * each a decimal number, forming an hour below 24 and a minute below 60.
   * None stands for the ValueError the Python code would raise.
   */
  function ParseHHMM(s: string): (r: Option<Minute>)
    ensures r.Some? ==> |Split(s, ':')| == 2
  {
    var parts := Split(s, ':');
    if |parts| != 2 || !IsDecimal(parts[0]) || !IsDecimal(parts[1]) then None
    else
      var hour := DecimalValue(parts[0]);
      var minute := DecimalValue(parts[1]);
      if hour < 24 && minute < 60 then Some(hour * 60 + minute) else None
  }

  /** Parsing what strftime('%H:%M') printed gives back the same time. */
  lemma FormatThenParse(t: Minute)
    ensures ParseHHMM(FormatHHMM(t)) == Some(t)
  {
    var h, m := Pad2(t / 60), Pad2(t % 60);
    assert FormatHHMM(t) == h + [':'] + m;
    assert ':' !in h by {
      assert forall i :: 0 <= i < |h| ==> IsAsciiDigit(h[i]);
    }
    assert ':' !in m by {
      assert forall i :: 0 <= i < |m| ==> IsAsciiDigit(m[i]);
    }
    SplitAfterPrefix(h, m, ':');
    SplitWithoutSeparator(m, ':');
    assert Split(FormatHHMM(t), ':') == [h, m];
  }

  /** Distinct times print differently, so choice values never collide. */
  lemma FormatInjective(t: Minute, u: Minute)
    requires FormatHHMM(t) == FormatHHMM(u)
    ensures t == u
  {
    FormatThenParse(t);
    FormatThenParse(u);
  }
}
