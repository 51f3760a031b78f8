/** The optional value returned by operations that can reject their input. */
module Wrappers {
  datatype Option<+T> = None | Some(value: T)
}

/**
 * Wall-clock times of day as the wage calculator reads them: `HH:MM` text,
 * turned into minutes since midnight.
 */
module Clock {
  import opened Wrappers

  const MinutesPerHour: int := 60
  const HoursPerDay: int := 24
  const MinutesPerDay: int := 1440

  /** A time of day, in minutes since midnight: 00:00 is 0, 23:59 is 1439. */
  type Minute = m: int | 0 <= m < MinutesPerDay

  /** The time of day shown by the clock `offset` minutes after midnight of the start day. */
  function ClockAt(offset: int): Minute
  {
    offset % MinutesPerDay
  }

  predicate IsDigit(c: char)
  {
    '0' <= c <= '9'
  }

  function DigitValue(c: char): (d: nat)
    requires IsDigit(c)
    ensures d < 10
  {
    c as int - '0' as int
  }

  function DigitChar(d: nat): (c: char)
    requires d < 10
    ensures IsDigit(c) && DigitValue(c) == d
  {
    ('0' as int + d) as char
  }

  /** The two-digit decimal value of `s[i]` and `s[i+1]`. */
  function TwoDigits(s: string, i: nat): (v: nat)
    requires i + 1 < |s| && IsDigit(s[i]) && IsDigit(s[i + 1])
    ensures v < 100
  {
    10 * DigitValue(s[i]) + DigitValue(s[i + 1])
  }

  /**
   * Reads a time written `HH:MM` (two-digit hour 00-23, colon, two-digit
   * minute 00-59). Any other text is rejected with `None`.
   */
  function ParseTime(s: string): (r: Option<Minute>)
    ensures r.Some? ==> |s| == 5 && s[2] == ':'
    ensures r.Some? ==> IsDigit(s[0]) && IsDigit(s[1]) && IsDigit(s[3]) && IsDigit(s[4])
    ensures r.Some? ==> r.value / MinutesPerHour == TwoDigits(s, 0) && r.value % MinutesPerHour == TwoDigits(s, 3)
  {
    if |s| != 5 || s[2] != ':' then None
    else if !(IsDigit(s[0]) && IsDigit(s[1]) && IsDigit(s[3]) && IsDigit(s[4])) then None
    else
      var h := TwoDigits(s, 0);
      var m := TwoDigits(s, 3);
      if h < HoursPerDay && m < MinutesPerHour then Some(h * MinutesPerHour + m) else None
  }

  /** Writes a time of day as `HH:MM`, both fields zero-padded to two digits. */
  function FormatTime(t: Minute): (s: string)
    ensures |s| == 5 && s[2] == ':'
    ensures IsDigit(s[0]) && IsDigit(s[1]) && IsDigit(s[3]) && IsDigit(s[4])
    ensures TwoDigits(s, 0) == t / MinutesPerHour && TwoDigits(s, 3) == t % MinutesPerHour
  {
    var h := t / MinutesPerHour;
    var m := t % MinutesPerHour;
    [DigitChar(h / 10), DigitChar(h % 10), ':', DigitChar(m / 10), DigitChar(m % 10)]
  }

  /** Every time of day survives being written and read back. */
  lemma ParseFormat(t: Minute)
    ensures ParseTime(FormatTime(t)) == Some(t)
  {
    var s := FormatTime(t);
    assert TwoDigits(s, 0) < HoursPerDay;
  }

  /** Text that is accepted is exactly the canonical spelling of the time it denotes. */
  lemma {:induction false} FormatParse(s: string)
    requires ParseTime(s).Some?
    ensures FormatTime(ParseTime(s).value) == s
  {
    var t := ParseTime(s).value;
    var f := FormatTime(t);
    DigitsDetermined(s[0], s[1], f[0], f[1]);
    DigitsDetermined(s[3], s[4], f[3], f[4]);
    assert f == s;
  }

  /** Two digit pairs with the same two-digit value are the same characters. */
  lemma DigitsDetermined(a: char, b: char, c: char, d: char)
    requires IsDigit(a) && IsDigit(b) && IsDigit(c) && IsDigit(d)
    requires 10 * DigitValue(a) + DigitValue(b) == 10 * DigitValue(c) + DigitValue(d)
    ensures a == c && b == d
  {
  }
}
