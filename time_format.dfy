/** The `strftime` renderings in main/rtc.c, computed from given calendar
    fields: `%Y-%m-%d` for the CSV date column, `%H:%M:%S` for the time column
    and `%Y-%m-%d_%Hh%Mm` for CSV file names. The clock reading and
    `localtime_r` that produce the fields are not part of this module. */
module TimeFormat {
  import opened Common

  predicate IsDigit(c: char)
  {
    '0' <= c <= '9'
  }

  function DigitChar(d: int): (c: char)
    requires 0 <= d <= 9
    ensures IsDigit(c)
  {
    ('0' as int + d) as char
  }

  function DigitValue(c: char): int
    requires IsDigit(c)
  {
    c as int - '0' as int
  }

  function Pow10(n: nat): nat
  {
    if n == 0 then 1 else 10 * Pow10(n - 1)
  }

  predicate AllDigits(s: string)
  {
    forall i :: 0 <= i < |s| ==> IsDigit(s[i])
  }

  /** `n` printed in decimal with exactly `width` digits, zero-padded on the
      left, as `%0<width>d` prints it when `n < 10^width`. */
  function Digits(n: nat, width: nat): (s: string)
    ensures |s| == width && AllDigits(s)
  {
    if width == 0 then "" else Digits(n / 10, width - 1) + [DigitChar(n % 10)]
  }

  /** The number a string of decimal digits denotes. */
  function DigitsValue(s: string): nat
    requires AllDigits(s)
  {
    if s == [] then 0 else 10 * DigitsValue(s[..|s| - 1]) + DigitValue(s[|s| - 1])
  }

  /** Printing a number that fits the width and reading it back gives the
      number. */
  lemma {:induction false} DigitsRoundTrip(n: nat, width: nat)
    requires n < Pow10(width)
    ensures DigitsValue(Digits(n, width)) == n
  {
    if width > 0 {
      var s := Digits(n, width);
      assert s[..|s| - 1] == Digits(n / 10, width - 1);
      DigitsRoundTrip(n / 10, width - 1);
    }
  }

  /** Fields `strftime` renders in fixed width here: a four-digit year and
      the ranges `localtime_r` produces. */
  predicate Renderable(t: TimeFields)
  {
    IsLocalTime(t) && 1000 <= t.year + 1900 <= 9999
  }

  /** `%Y-%m-%d`. */
  function FormatDate(t: TimeFields): (s: string)
    requires Renderable(t)
    ensures |s| == 10 && s[4] == '-' && s[7] == '-'
  {
    Digits(t.year + 1900, 4) + "-" + Digits(t.mon + 1, 2) + "-" + Digits(t.mday, 2)
  }

  /** `%H:%M:%S`. */
  function FormatTime(t: TimeFields): (s: string)
    requires Renderable(t)
    ensures |s| == 8 && s[2] == ':' && s[5] == ':'
  {
    Digits(t.hour, 2) + ":" + Digits(t.min, 2) + ":" + Digits(t.sec, 2)
  }

  /** `%Y-%m-%d_%Hh%Mm`, the stem of a CSV file name. */
  function FormatFileStamp(t: TimeFields): (s: string)
    requires Renderable(t)
    ensures |s| == 17 && s[..10] == FormatDate(t)
    ensures s[10] == '_' && s[13] == 'h' && s[16] == 'm'
  {
    FormatDate(t) + "_" + Digits(t.hour, 2) + "h" + Digits(t.min, 2) + "m"
  }

  /** The calendar date a `%Y-%m-%d` rendering shows: year, month 1..12, day. */
  function ParseDate(s: string): (int, int, int)
    requires |s| == 10 && AllDigits(s[..4]) && AllDigits(s[5..7]) && AllDigits(s[8..])
  {
    (DigitsValue(s[..4]), DigitsValue(s[5..7]), DigitsValue(s[8..]))
  }

  /** The clock time a `%H:%M:%S` rendering shows. */
  function ParseTime(s: string): (int, int, int)
    requires |s| == 8 && AllDigits(s[..2]) && AllDigits(s[3..5]) && AllDigits(s[6..])
  {
    (DigitsValue(s[..2]), DigitsValue(s[3..5]), DigitsValue(s[6..]))
  }

  /** The date column reads back as the calendar year, month and day. */
  lemma DateRoundTrip(t: TimeFields)
    requires Renderable(t)
    ensures var s := FormatDate(t);
      AllDigits(s[..4]) && AllDigits(s[5..7]) && AllDigits(s[8..])
      && ParseDate(s) == (t.year + 1900, t.mon + 1, t.mday)
  {
    var s := FormatDate(t);
    assert s[..4] == Digits(t.year + 1900, 4);
    assert s[5..7] == Digits(t.mon + 1, 2);
    assert s[8..] == Digits(t.mday, 2);
    DigitsRoundTrip(t.year + 1900, 4);
    DigitsRoundTrip(t.mon + 1, 2);
    DigitsRoundTrip(t.mday, 2);
  }

  /** The time column reads back as hours, minutes and seconds. */
  lemma TimeRoundTrip(t: TimeFields)
    requires Renderable(t)
    ensures var s := FormatTime(t);
      AllDigits(s[..2]) && AllDigits(s[3..5]) && AllDigits(s[6..])
      && ParseTime(s) == (t.hour, t.min, t.sec)
  {
    var s := FormatTime(t);
    assert s[..2] == Digits(t.hour, 2);
    assert s[3..5] == Digits(t.min, 2);
    assert s[6..] == Digits(t.sec, 2);
    DigitsRoundTrip(t.hour, 2);
    DigitsRoundTrip(t.min, 2);
    DigitsRoundTrip(t.sec, 2);
  }

  /** Two clock readings share a CSV file name only when they fall in the
      same minute of the same day. */
  lemma FileStampDistinguishesMinutes(a: TimeFields, b: TimeFields)
    requires Renderable(a) && Renderable(b)
    requires FormatFileStamp(a) == FormatFileStamp(b)
    ensures a.year == b.year && a.mon == b.mon && a.mday == b.mday
    ensures a.hour == b.hour && a.min == b.min
  {
    var sa, sb := FormatFileStamp(a), FormatFileStamp(b);
    DateRoundTrip(a);
    DateRoundTrip(b);
    assert sa[11..13] == Digits(a.hour, 2) && sb[11..13] == Digits(b.hour, 2);
    assert sa[14..16] == Digits(a.min, 2) && sb[14..16] == Digits(b.min, 2);
    DigitsRoundTrip(a.hour, 2);
    DigitsRoundTrip(b.hour, 2);
    DigitsRoundTrip(a.min, 2);
    DigitsRoundTrip(b.min, 2);
  }
}
