/**
 * Scene timestamps: frame `n` of a video sampled every two seconds is labelled
 * "MM:SS", minutes and remaining seconds each rendered in decimal and
 * left-padded with '0' to at least two characters.
 */
module Timestamps {

  /** Seconds between two analysed frames. */
  const SecondsPerFrame: nat := 2

  predicate IsDigit(c: char)
  {
    '0' <= c <= '9'
  }

  predicate AllDigits(s: string)
  {
    forall i :: 0 <= i < |s| ==> IsDigit(s[i])
  }

  function DigitChar(d: nat): (c: char)
    requires d < 10
    ensures IsDigit(c) && c as int - '0' as int == d
  {
    "0123456789"[d]
  }

  /** `Number.prototype.toString()` for a non-negative integer: no leading zeros. */
  function NatToString(n: nat): (s: string)
    ensures 1 <= |s|
    ensures AllDigits(s)
    ensures n < 10 <==> |s| == 1
    ensures 10 <= n < 100 ==> |s| == 2
    ensures n > 0 ==> s[0] != '0'
  {
    if n < 10 then [DigitChar(n)] else NatToString(n / 10) + [DigitChar(n % 10)]
  }

  /** The value of a string of decimal digits (the inverse of `NatToString`). */
  function DigitsValue(s: string): nat
    requires AllDigits(s)
  {
    if s == [] then 0
    else DigitsValue(s[..|s| - 1]) * 10 + (s[|s| - 1] as int - '0' as int)
  }

  /** `String.prototype.padStart(target, fill)`. */
  function PadStart(s: string, target: nat, fill: char): (r: string)
  {
    if |s| >= target then s else seq(target - |s|, _ => fill) + s
  }

  function Pad2(s: string): string
  {
    PadStart(s, 2, '0')
  }

  /** The label of the `index`-th frame of a video. */
  function FormatTimestamp(index: nat): string
  {
    var seconds := index * SecondsPerFrame;
    var minutes := seconds / 60;
    var remainingSeconds := seconds % 60;
    Pad2(NatToString(minutes)) + ":" + Pad2(NatToString(remainingSeconds))
  }

  /**
   * Reads a label back: at least two minute digits, a colon, exactly two
   * second digits.
   */
  function ParseTimestamp(t: string): (r: (bool, nat, nat))
  {
    var n := |t|;
    if n >= 5 && t[n - 3] == ':' && AllDigits(t[..n - 3]) && AllDigits(t[n - 2..])
    then (true, DigitsValue(t[..n - 3]), DigitsValue(t[n - 2..]))
    else (false, 0, 0)
  }

  lemma {:induction false} NatToStringRoundTrip(n: nat)
    ensures DigitsValue(NatToString(n)) == n
  {
    var s := NatToString(n);
    if n >= 10 {
      NatToStringRoundTrip(n / 10);
      assert s[..|s| - 1] == NatToString(n / 10);
    } else {
      assert s[..0] == [];
    }
  }

  /** A leading '0' does not change the value of a digit string. */
  lemma {:induction false} LeadingZero(s: string)
    requires AllDigits(s)
    ensures AllDigits("0" + s) && DigitsValue("0" + s) == DigitsValue(s)
  {
    var z := "0" + s;
    if s == [] {
      assert z[..0] == [];
    } else {
      assert z[..|z| - 1] == "0" + s[..|s| - 1];
      LeadingZero(s[..|s| - 1]);
    }
  }

  /** Padding a rendered number keeps its value and yields at least two digits. */
  lemma PaddedNumber(m: nat)
    ensures var p := Pad2(NatToString(m));
      && |p| >= 2 && AllDigits(p) && DigitsValue(p) == m
      && (m < 100 ==> |p| == 2)
  {
    var s := NatToString(m);
    NatToStringRoundTrip(m);
    if |s| < 2 {
      assert Pad2(s) == "0" + s;
      LeadingZero(s);
    }
  }

  /** Joining two digit fields with a colon reads back as the two values. */
  lemma ParseJoined(mm: string, ss: string)
    requires AllDigits(mm) && |mm| >= 2 && AllDigits(ss) && |ss| == 2
    ensures var t := mm + ":" + ss;
      |t| >= 5 && t[|t| - 3] == ':' && t[..|t| - 3] == mm
      && ParseTimestamp(t) == (true, DigitsValue(mm), DigitsValue(ss))
  {
    var t := mm + ":" + ss;
    assert t[..|t| - 3] == mm;
    assert t[|t| - 2..] == ss;
  }

  /** The remainder of an even number by 60 is even. */
  lemma EvenRemainder(index: nat)
    ensures (2 * index) % 60 % 2 == 0
  {
    var q := (2 * index) / 60;
    assert (2 * index) % 60 == 2 * (index - 30 * q);
  }

  /**
   * The label has a minutes field of at least two digits, a colon, and a
   * seconds field of exactly two digits holding an even number 00..58; reading
   * it back gives the minutes and remaining seconds of `2 * index`.
   */
  lemma TimestampShape(index: nat)
    ensures var t := FormatTimestamp(index);
      && |t| >= 5
      && t[|t| - 3] == ':'
      && |t[..|t| - 3]| >= 2
      && ParseTimestamp(t) == (true, (2 * index) / 60, (2 * index) % 60)
      && ParseTimestamp(t).2 % 2 == 0
      && ParseTimestamp(t).2 <= 58
  {
    var seconds := index * SecondsPerFrame;
    var minutes, remaining := seconds / 60, seconds % 60;
    PaddedNumber(minutes);
    PaddedNumber(remaining);
    ParseJoined(Pad2(NatToString(minutes)), Pad2(NatToString(remaining)));
    EvenRemainder(index);
  }

  lemma TimestampExamples()
    ensures FormatTimestamp(0) == "00:00"
    ensures FormatTimestamp(31) == "01:02"
  {
    assert NatToString(0) == "0";
    assert Pad2("0") == "00";
    assert NatToString(1) == "1";
    assert Pad2("1") == "01";
    assert NatToString(2) == "2";
    assert Pad2("2") == "02";
  }
}
