/**
 * The `mm:ss` text the timer shows: whole minutes and the remaining
 * seconds, each written in decimal and padded with one leading zero when
 * below ten. Minutes are not clamped, so 6000 seconds read "100:00".
 *
 * Besides the formatter itself the module defines the inverse direction
 * (reading digits and a clock text back into numbers) so that the
 * formatter can be proved to lose no information.
 */
module ClockFormat {

  datatype Option<T> = None | Some(value: T)

  predicate IsDigit(c: char) {
    '0' <= c <= '9'
  }

  predicate AllDigits(s: string) {
    forall i :: 0 <= i < |s| ==> IsDigit(s[i])
  }

  function DigitChar(d: nat): (c: char)
    requires d < 10
    ensures IsDigit(c) && DigitValue(c) == d
  {
    ('0' as int + d) as char
  }

  function DigitValue(c: char): nat
    requires IsDigit(c)
  {
    c as int - '0' as int
  }

  /** A decimal numeral without superfluous leading zeros. */
  predicate Canonical(s: string) {
    s != [] && AllDigits(s) && (|s| > 1 ==> s[0] != '0')
  }

  /** The decimal text of a whole number, as a JavaScript template literal renders it. */
  function Decimal(n: nat): (s: string)
    ensures Canonical(s)
    ensures (s[0] == '0') == (n == 0)
    ensures (|s| > 1) == (n >= 10)
    ensures n >= 100 ==> |s| > 2
    decreases n
  {
    if n < 10 then [DigitChar(n)] else Decimal(n / 10) + [DigitChar(n % 10)]
  }

  /** The value of a string of decimal digits (the empty string reads as 0). */
  function ParseDecimal(s: string): nat
    requires AllDigits(s)
    decreases |s|
  {
    if s == [] then 0 else ParseDecimal(s[..|s| - 1]) * 10 + DigitValue(s[|s| - 1])
  }

  /** Reading back the decimal text of `n` gives `n`. */
  lemma {:induction false} DecimalRoundTrip(n: nat)
    ensures ParseDecimal(Decimal(n)) == n
    decreases n
  {
    var s := Decimal(n);
    if n >= 10 {
      assert s[..|s| - 1] == Decimal(n / 10);
      DecimalRoundTrip(n / 10);
    } else {
      assert s[..|s| - 1] == [];
    }
  }

  /** A canonical numeral that does not start with '0' stands for a positive number. */
  lemma {:induction false} ParsePositive(s: string)
    requires AllDigits(s) && s != [] && s[0] != '0'
    ensures ParseDecimal(s) > 0
    decreases |s|
  {
    if |s| > 1 {
      ParsePositive(s[..|s| - 1]);
    }
  }

  /** Every canonical numeral is the decimal text of the number it stands for. */
  lemma {:induction false} DecimalOfParse(s: string)
    requires Canonical(s)
    ensures Decimal(ParseDecimal(s)) == s
    decreases |s|
  {
    var t, c := s[..|s| - 1], s[|s| - 1];
    assert s == t + [c];
    if t != [] {
      ParsePositive(t);
      DecimalOfParse(t);
      var n := ParseDecimal(s);
      assert n / 10 == ParseDecimal(t) && n % 10 == DigitValue(c);
    }
  }

  /** A leading zero does not change the value of a digit string. */
  lemma {:induction false} ParseLeadingZero(s: string)
    requires AllDigits(s)
    ensures ParseDecimal("0" + s) == ParseDecimal(s)
    decreases |s|
  {
    if s != [] {
      var z := "0" + s;
      assert z[..|z| - 1] == "0" + s[..|s| - 1];
      ParseLeadingZero(s[..|s| - 1]);
    }
  }

  /** One field of the clock: `"0" + n` below ten, the plain decimal otherwise. */
  function Pad2(n: nat): (r: string)
    ensures AllDigits(r) && |r| >= 2
    ensures n < 100 ==> |r| == 2
    ensures n >= 100 ==> |r| > 2
    ensures n < 10 ==> r[0] == '0'
    ensures n >= 10 ==> Canonical(r)
    ensures ParseDecimal(r) == n
  {
    DecimalRoundTrip(n);
    if n < 10 then
      ParseLeadingZero(Decimal(n));
      "0" + Decimal(n)
    else
      Decimal(n)
  }

  /** The `mm:ss` rendering of a number of seconds. */
  function FormatClock(seconds: nat): (r: string)
    ensures |r| >= 5 && r[|r| - 3] == ':'
    ensures seconds < 6000 ==> |r| == 5
    ensures seconds >= 6000 ==> |r| > 5
    ensures AllDigits(r[..|r| - 3]) && AllDigits(r[|r| - 2..])
    ensures seconds < 600 ==> r[0] == '0'
    ensures seconds >= 600 ==> Canonical(r[..|r| - 3])
  {
    var r := Pad2(seconds / 60) + ":" + Pad2(seconds % 60);
    assert r[..|r| - 3] == Pad2(seconds / 60);
    assert r[|r| - 2..] == Pad2(seconds % 60);
    r
  }

  /** Reads a `mm:ss` text back into seconds; `None` for anything not of that shape. */
  function ParseClock(t: string): Option<nat> {
    if |t| >= 5 && t[|t| - 3] == ':' && AllDigits(t[..|t| - 3]) && AllDigits(t[|t| - 2..])
      && ParseDecimal(t[|t| - 2..]) < 60
    then Some(ParseDecimal(t[..|t| - 3]) * 60 + ParseDecimal(t[|t| - 2..]))
    else None
  }

  /** The clock text determines the number of seconds it was made from. */
  lemma FormatClockRoundTrip(seconds: nat)
    ensures ParseClock(FormatClock(seconds)) == Some(seconds)
  {
    var r := FormatClock(seconds);
    assert r[..|r| - 3] == Pad2(seconds / 60);
    assert r[|r| - 2..] == Pad2(seconds % 60);
  }

  /** Two different numbers of seconds are never shown as the same text. */
  lemma FormatClockInjective(a: nat, b: nat)
    requires FormatClock(a) == FormatClock(b)
    ensures a == b
  {
    FormatClockRoundTrip(a);
    FormatClockRoundTrip(b);
  }

  /** The outputs the display is expected to show below ten minutes. */
  lemma FormatClockExamples()
    ensures FormatClock(0) == "00:00"
    ensures FormatClock(59) == "00:59"
    ensures FormatClock(60) == "01:00"
    ensures FormatClock(65) == "01:05"
  {
    assert Pad2(0) == "00" && Pad2(1) == "01" && Pad2(5) == "05";
    assert Decimal(59) == "59";
  }

  /** Ten minutes and more: the minutes are written in full, never clamped. */
  lemma FormatClockLongExamples()
    ensures FormatClock(600) == "10:00"
    ensures FormatClock(6000) == "100:00"
  {
    assert Pad2(0) == "00";
    assert Decimal(10) == "10";
    assert Decimal(100) == Decimal(10) + "0";
  }
}
