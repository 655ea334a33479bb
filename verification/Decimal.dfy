/** Decimal numerals as fmt prints and strconv reads them. */
module Decimal {
  import opened Ordering

  predicate IsDigit(c: char) { '0' <= c <= '9' }

  predicate AllDigits(s: string) { forall i :: 0 <= i < |s| ==> IsDigit(s[i]) }

  function DigitChar(d: nat): (c: char)
    requires d < 10
    ensures IsDigit(c) && DigitValue(c) == d
  {
    '0' + d as char
  }

  function DigitValue(c: char): nat
    requires IsDigit(c)
  {
    (c - '0') as nat
  }

  /** %d of a natural number. */
  function Digits(n: nat): (s: string)
    ensures s != "" && AllDigits(s)
  {
    if n < 10 then [DigitChar(n)] else Digits(n / 10) + [DigitChar(n % 10)]
  }

  function ParseDigits(s: string): nat
    requires AllDigits(s)
  {
    if s == "" then 0 else 10 * ParseDigits(s[..|s| - 1]) + DigitValue(s[|s| - 1])
  }

  /** %0wd: zeros on the left up to width w. */
  function Pad(s: string, w: nat): string
    decreases w - |s|
  {
    if |s| >= w then s else Pad("0" + s, w)
  }

  lemma {:induction false} DigitsRoundTrip(n: nat)
    ensures ParseDigits(Digits(n)) == n
  {
    var s := Digits(n);
    if n < 10 {
      assert s[..|s| - 1] == "";
    } else {
      DigitsRoundTrip(n / 10);
      assert s[..|s| - 1] == Digits(n / 10);
    }
  }

  lemma {:induction false} LeadingZero(s: string)
    requires AllDigits(s)
    ensures AllDigits("0" + s) && ParseDigits("0" + s) == ParseDigits(s)
  {
    var z := "0" + s;
    if s == "" {
      assert z[..|z| - 1] == "";
    } else {
      LeadingZero(s[..|s| - 1]);
      assert z[..|z| - 1] == "0" + s[..|s| - 1];
    }
  }

  lemma {:induction false} PadKeepsValue(s: string, w: nat)
    requires AllDigits(s)
    ensures AllDigits(Pad(s, w)) && ParseDigits(Pad(s, w)) == ParseDigits(s)
    decreases w - |s|
  {
    if |s| < w {
      LeadingZero(s);
      PadKeepsValue("0" + s, w);
    }
  }

  /** Padded numerals of different numbers differ, whatever the width. */
  lemma PadIsInjective(a: nat, b: nat, w: nat)
    requires Pad(Digits(a), w) == Pad(Digits(b), w)
    ensures a == b
  {
    DigitsRoundTrip(a);
    DigitsRoundTrip(b);
    PadKeepsValue(Digits(a), w);
    PadKeepsValue(Digits(b), w);
  }

  /** strconv.Atoi, which takes one sign; an overflow of the machine integer is not modelled. */
  function ParseInt(s: string): Option<int> {
    if s == "" then None
    else if s[0] == '+' || s[0] == '-' then
      if |s| > 1 && AllDigits(s[1..]) then
        var magnitude: int := ParseDigits(s[1..]);
        Some(if s[0] == '-' then -magnitude else magnitude)
      else None
    else if AllDigits(s) then Some(ParseDigits(s))
    else None
  }

  /** One sign at most, then digits and nothing else. */
  lemma ParseIntIs(s: string)
    ensures s != "" && AllDigits(s) ==>
              && ParseInt(s) == ParseInt("+" + s) == Some(ParseDigits(s))
              && ParseInt("-" + s) == Some(-(ParseDigits(s) as int))
    ensures (s == "" || !AllDigits(s)) && (s != "" && s[0] in "+-" ==> s[1..] == "" || !AllDigits(s[1..])) ==>
              ParseInt(s) == None
  {
    assert ("+" + s)[1..] == s && ("-" + s)[1..] == s;
    if s != "" && s[0] in "+-" {
      assert !IsDigit(s[0]);
    }
  }

  lemma ParseIntOfDigits(n: nat)
    ensures ParseInt(Digits(n)) == Some(n)
  {
    DigitsRoundTrip(n);
    assert IsDigit(Digits(n)[0]);
  }
}
