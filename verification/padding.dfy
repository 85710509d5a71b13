/** The two-digit display of each countdown field,
    `value.toString().padStart(2, "0")` (src/components/CountdownTimer.tsx,
    lines 42, 52, 62 and 72). */
module Padding {
  import opened Countdown

  predicate IsDigit(c: char) {
    '0' <= c <= '9'
  }

  predicate AllDigits(s: string) {
    forall i :: 0 <= i < |s| ==> IsDigit(s[i])
  }

  function DigitChar(d: int): (c: char)
    requires 0 <= d < 10
    ensures IsDigit(c)
  {
    ('0' as int + d) as char
  }

  function DigitValue(c: char): (d: int)
    requires IsDigit(c)
    ensures 0 <= d < 10
    ensures DigitChar(d) == c
  {
    c as int - '0' as int
  }

  /** `toString()` of a non-negative integer: its decimal digits, most
      significant first, with no leading zero except for `0` itself. */
  function ToDecimal(n: nat): (s: string)
    ensures AllDigits(s)
    ensures 1 <= |s|
    ensures |s| == 1 <==> n < 10
    ensures s[0] != '0' || n == 0
    decreases n
  {
    if n < 10 then [DigitChar(n)] else ToDecimal(n / 10) + [DigitChar(n % 10)]
  }

  /** The value of a string of decimal digits: the partner of `ToDecimal`. */
  function ParseDecimal(s: string): nat
    requires AllDigits(s)
  {
    if |s| == 0 then 0 else ParseDecimal(s[..|s| - 1]) * 10 + DigitValue(s[|s| - 1])
  }

  /** Reading back the digits `toString()` wrote gives the number. */
  lemma {:induction false} ParseToDecimal(n: nat)
    ensures ParseDecimal(ToDecimal(n)) == n
    decreases n
  {
    if n >= 10 {
      var s := ToDecimal(n);
      assert s[..|s| - 1] == ToDecimal(n / 10);
      ParseToDecimal(n / 10);
    }
  }

  /** A leading zero does not change a digit string's value. */
  lemma {:induction false} ParseLeadingZero(s: string)
    requires AllDigits(s)
    ensures AllDigits("0" + s)
    ensures ParseDecimal("0" + s) == ParseDecimal(s)
    decreases |s|
  {
    if |s| > 0 {
      assert ("0" + s)[..|"0" + s| - 1] == "0" + s[..|s| - 1];
      ParseLeadingZero(s[..|s| - 1]);
    }
  }

  /** `padStart(2, "0")`: strings shorter than two characters get zeros in
      front up to length two; longer ones are returned unchanged. */
  function PadStart2(s: string): (r: string)
    ensures |r| == if |s| < 2 then 2 else |s|
    ensures r[|r| - |s|..] == s
    ensures forall i :: 0 <= i < |r| - |s| ==> r[i] == '0'
  {
    if |s| >= 2 then s else seq(2 - |s|, _ => '0') + s
  }

  /** `s` shows `n`: at least two decimal digits that read back as `n`. */
  predicate Shows(s: string, n: nat) {
    |s| >= 2 && AllDigits(s) && ParseDecimal(s) == n
  }

  /** One field of the countdown as it is displayed. */
  function FormatField(n: nat): (s: string)
    ensures Shows(s, n)
  {
    ParseToDecimal(n);
    if n < 10 then
      ParseLeadingZero(ToDecimal(n));
      assert PadStart2(ToDecimal(n)) == "0" + ToDecimal(n);
      PadStart2(ToDecimal(n))
    else
      PadStart2(ToDecimal(n))
  }

  /** Values below ten gain a leading zero; larger values are shown as they
      are. */
  lemma FormatFieldFacts(n: nat)
    ensures n < 10 ==> FormatField(n) == [ '0', DigitChar(n) ]
    ensures n >= 10 ==> FormatField(n) == ToDecimal(n)
  {
    if n < 10 {
      assert FormatField(n) == "0" + ToDecimal(n);
    }
  }

  /** The four displayed fields, days first; each reads back as its field. */
  function Display(t: TimeLeft): (shown: seq<string>)
    requires t.days >= 0 && t.hours >= 0 && t.minutes >= 0 && t.seconds >= 0
    ensures |shown| == 4
    ensures Shows(shown[0], t.days) && Shows(shown[1], t.hours)
    ensures Shows(shown[2], t.minutes) && Shows(shown[3], t.seconds)
  {
    [FormatField(t.days), FormatField(t.hours), FormatField(t.minutes), FormatField(t.seconds)]
  }

  /** For any millisecond difference, every displayed field has at least two
      digits and reads back as the decomposed value; hours, minutes and
      seconds take exactly two. */
  lemma DisplayReadsBack(difference: int)
    ensures var t := Decompose(difference);
            var shown := Display(t);
            && Shows(shown[0], t.days) && Shows(shown[1], t.hours)
            && Shows(shown[2], t.minutes) && Shows(shown[3], t.seconds)
            && |shown[1]| == 2 && |shown[2]| == 2 && |shown[3]| == 2
  {
    var t := Decompose(difference);
    TwoDigitsBelowHundred(t.hours);
    TwoDigitsBelowHundred(t.minutes);
    TwoDigitsBelowHundred(t.seconds);
  }

  /** Values below one hundred are displayed with exactly two digits. */
  lemma TwoDigitsBelowHundred(n: nat)
    requires n < 100
    ensures |FormatField(n)| == 2
  {
    if n >= 10 {
      assert ToDecimal(n) == ToDecimal(n / 10) + [DigitChar(n % 10)];
    }
  }
}
