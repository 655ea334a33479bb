/** Fixed-width timestamps (internal/library/time.go:5-11) and why comparing them as text is
    comparing times. */
module DatabaseTime {
  import opened Ordering
  import opened Decimal

  /** A UTC instant by its calendar fields. */
  datatype Instant = Instant(year: nat, month: nat, day: nat, hour: nat, minute: nat, second: nat, nanos: nat)

  predicate WellFormed(t: Instant) {
    && 1 <= t.month <= 12 && 1 <= t.day <= 31
    && t.hour < 24 && t.minute < 60 && t.second < 60 && t.nanos < 1_000_000_000
  }

  function Fields(t: Instant): seq<nat> {
    [t.year, t.month, t.day, t.hour, t.minute, t.second, t.nanos]
  }

  /** Earlier in time: the first calendar field that differs decides. */
  ghost predicate Before(a: Instant, b: Instant) {
    exists i :: 0 <= i < 7 && Fields(a)[i] < Fields(b)[i] && forall j :: 0 <= j < i ==> Fields(a)[j] == Fields(b)[j]
  }

  /** The layout 2006-01-02T15:04:05.000000000Z. */
  function Format(t: Instant): string {
    Pad(Digits(t.year), 4) + ("-" + (Pad(Digits(t.month), 2) + ("-" + (Pad(Digits(t.day), 2) + ("T"
    + (Pad(Digits(t.hour), 2) + (":" + (Pad(Digits(t.minute), 2) + (":" + (Pad(Digits(t.second), 2) + ("."
    + (Pad(Digits(t.nanos), 9) + "Z"))))))))))))
  }

  function Pow10(w: nat): nat {
    if w == 0 then 1 else 10 * Pow10(w - 1)
  }

  lemma {:induction false} DigitsFit(n: nat, w: nat)
    requires w > 0
    ensures |Digits(n)| <= w <==> n < Pow10(w)
  {
    if n >= 10 {
      if w > 1 {
        DigitsFit(n / 10, w - 1);
      }
    }
    PowersGrow(w);
  }

  lemma {:induction false} PowersGrow(w: nat)
    ensures Pow10(w) >= 1 && (w > 0 ==> Pow10(w) >= 10)
  {
    if w > 0 {
      PowersGrow(w - 1);
    }
  }

  lemma {:induction false} PadWidth(s: string, w: nat)
    ensures |Pad(s, w)| == if |s| >= w then |s| else w
    decreases w - |s|
  {
    if |s| < w {
      PadWidth("0" + s, w);
    }
  }

  lemma FieldText(n: nat, w: nat)
    requires w > 0 && n < Pow10(w)
    ensures var text := Pad(Digits(n), w); |text| == w && AllDigits(text) && ParseDigits(text) == n
  {
    hide Pow10;
    DigitsFit(n, w);
    PadWidth(Digits(n), w);
    DigitsRoundTrip(n);
    PadKeepsValue(Digits(n), w);
  }

  lemma DateParts(year: string, month: string, day: string, rest: string)
    requires |year| == 4 && |month| == 2 && |day| == 2
    ensures var s := year + ("-" + (month + ("-" + (day + rest))));
            && |s| == 10 + |rest| && s[4] == s[7] == '-' && s[10..] == rest
            && s[..4] == year && s[5..7] == month && s[8..10] == day
  {
  }

  lemma TimeParts(hour: string, minute: string, second: string, nanos: string)
    requires |hour| == 2 && |minute| == 2 && |second| == 2 && |nanos| == 9
    ensures var s := "T" + (hour + (":" + (minute + (":" + (second + ("." + (nanos + "Z")))))));
            && |s| == 20 && s[0] == 'T' && s[3] == s[6] == ':' && s[9] == '.' && s[19] == 'Z'
            && s[1..3] == hour && s[4..6] == minute && s[7..9] == second && s[10..19] == nanos
  {
  }

  predicate Reads(text: string, n: nat) { AllDigits(text) && ParseDigits(text) == n }

  /** Up to the year 9999 the text has the fixed layout of thirty characters, and every field reads back. */
  lemma FormatLayout(t: Instant)
    requires WellFormed(t) && t.year <= 9999
    ensures var s := Format(t);
            && |s| == 30 && s[4] == s[7] == '-'
            && Reads(s[..4], t.year) && Reads(s[5..7], t.month) && Reads(s[8..10], t.day)
    ensures var time := Format(t)[10..];
            && time[0] == 'T' && time[3] == time[6] == ':' && time[9] == '.' && time[19] == 'Z'
            && Reads(time[1..3], t.hour) && Reads(time[4..6], t.minute) && Reads(time[7..9], t.second)
            && Reads(time[10..19], t.nanos)
  {
    FieldTexts(t);
    hide Pow10, Pad, Digits, ParseDigits, AllDigits;
    var time := "T" + (Pad(Digits(t.hour), 2) + (":" + (Pad(Digits(t.minute), 2) + (":" + (Pad(Digits(t.second), 2) +
      ("." + (Pad(Digits(t.nanos), 9) + "Z")))))));
    TimeParts(Pad(Digits(t.hour), 2), Pad(Digits(t.minute), 2), Pad(Digits(t.second), 2), Pad(Digits(t.nanos), 9));
    var year, month, day := Pad(Digits(t.year), 4), Pad(Digits(t.month), 2), Pad(Digits(t.day), 2);
    DateParts(year, month, day, time);
    assert Format(t) == year + ("-" + (month + ("-" + (day + time))));
    hide Format;
  }

  lemma FieldTexts(t: Instant)
    requires WellFormed(t) && t.year <= 9999
    ensures |Pad(Digits(t.year), 4)| == 4 && Reads(Pad(Digits(t.year), 4), t.year)
    ensures |Pad(Digits(t.month), 2)| == 2 && Reads(Pad(Digits(t.month), 2), t.month)
    ensures |Pad(Digits(t.day), 2)| == 2 && Reads(Pad(Digits(t.day), 2), t.day)
    ensures |Pad(Digits(t.hour), 2)| == 2 && Reads(Pad(Digits(t.hour), 2), t.hour)
    ensures |Pad(Digits(t.minute), 2)| == 2 && Reads(Pad(Digits(t.minute), 2), t.minute)
    ensures |Pad(Digits(t.second), 2)| == 2 && Reads(Pad(Digits(t.second), 2), t.second)
    ensures |Pad(Digits(t.nanos), 9)| == 9 && Reads(Pad(Digits(t.nanos), 9), t.nanos)
  {
    hide Pad, Digits, ParseDigits, AllDigits;
    assert Pow10(2) == 100 && Pow10(4) == 10000 && Pow10(6) == 1_000_000 && Pow10(8) == 100_000_000;
    FieldText(t.year, 4);
    FieldText(t.month, 2);
    FieldText(t.day, 2);
    FieldText(t.hour, 2);
    FieldText(t.minute, 2);
    FieldText(t.second, 2);
    FieldText(t.nanos, 9);
  }

  /** Text order on texts of equal length looks at the last character last. */
  lemma {:induction false} TextLessOfConcat(a: string, b: string, c: string, d: string)
    requires |a| == |b|
    ensures TextLess(a + c, b + d) <==> TextLess(a, b) || (a == b && TextLess(c, d))
  {
    if a == "" {
      assert a + c == c && b + d == d;
    } else {
      TextLessOfConcat(a[1..], b[1..], c, d);
      assert (a + c)[1..] == a[1..] + c && (b + d)[1..] == b[1..] + d;
      assert a == [a[0]] + a[1..] && b == [b[0]] + b[1..];
    }
  }

  lemma {:induction false} NumeralsCompareAsText(a: string, b: string)
    requires AllDigits(a) && AllDigits(b) && |a| == |b|
    ensures TextLess(a, b) <==> ParseDigits(a) < ParseDigits(b)
    ensures a == b <==> ParseDigits(a) == ParseDigits(b)
  {
    if a != "" {
      var n := |a| - 1;
      NumeralsCompareAsText(a[..n], b[..n]);
      assert a == a[..n] + [a[n]] && b == b[..n] + [b[n]];
      TextLessOfConcat(a[..n], b[..n], [a[n]], [b[n]]);
      assert IsDigit(a[n]) && IsDigit(b[n]);
    }
  }

  lemma PaddedCompare(x: nat, y: nat, w: nat)
    requires w > 0 && x < Pow10(w) && y < Pow10(w)
    ensures var a, b := Pad(Digits(x), w), Pad(Digits(y), w);
            |a| == |b| == w && (TextLess(a, b) <==> x < y) && (a == b <==> x == y)
  {
    DigitsFit(x, w);
    DigitsFit(y, w);
    PadWidth(Digits(x), w);
    PadWidth(Digits(y), w);
    PadKeepsValue(Digits(x), w);
    PadKeepsValue(Digits(y), w);
    DigitsRoundTrip(x);
    DigitsRoundTrip(y);
    NumeralsCompareAsText(Pad(Digits(x), w), Pad(Digits(y), w));
  }

  /** One field and the separator after it. */
  lemma FieldDecides(x: nat, y: nat, w: nat, separator: string, restX: string, restY: string)
    requires w > 0 && x < Pow10(w) && y < Pow10(w)
    ensures TextLess(Pad(Digits(x), w) + (separator + restX), Pad(Digits(y), w) + (separator + restY))
       <==> x < y || (x == y && TextLess(restX, restY))
  {
    PaddedCompare(x, y, w);
    TextLessOfConcat(Pad(Digits(x), w), Pad(Digits(y), w), separator + restX, separator + restY);
    TextLessOfConcat(separator, separator, restX, restY);
    TextLessIrreflexive(separator);
  }

  predicate FieldsBefore(a: Instant, b: Instant) {
    a.year < b.year || (a.year == b.year &&
    (a.month < b.month || (a.month == b.month &&
    (a.day < b.day || (a.day == b.day &&
    (a.hour < b.hour || (a.hour == b.hour &&
    (a.minute < b.minute || (a.minute == b.minute &&
    (a.second < b.second || (a.second == b.second && a.nanos < b.nanos)))))))))))
  }

  lemma FieldsBeforeIsBefore(a: Instant, b: Instant)
    ensures FieldsBefore(a, b) <==> Before(a, b)
  {
    var x, y := Fields(a), Fields(b);
    if FieldsBefore(a, b) {
      var i := if a.year != b.year then 0 else if a.month != b.month then 1 else if a.day != b.day then 2
               else if a.hour != b.hour then 3 else if a.minute != b.minute then 4 else if a.second != b.second then
                   5 else 6;
      assert x[i] < y[i] && forall j :: 0 <= j < i ==> x[j] == y[j];
    }
    if Before(a, b) {
      var i :| 0 <= i < 7 && x[i] < y[i] && forall j :: 0 <= j < i ==> x[j] == y[j];
      assert (i > 0 ==> x[0] == y[0]) && (i > 1 ==> x[1] == y[1]) && (i > 2 ==> x[2] == y[2])
          && (i > 3 ==> x[3] == y[3]) && (i > 4 ==> x[4] == y[4]) && (i > 5 ==> x[5] == y[5]);
    }
  }

  /** Up to the year 9999, SQLite's comparison of stored timestamps is the comparison of times. */
  lemma TextOrderIsTimeOrder(a: Instant, b: Instant)
    requires WellFormed(a) && WellFormed(b) && a.year <= 9999 && b.year <= 9999
    ensures TextLess(Format(a), Format(b)) <==> Before(a, b)
  {
    hide Digits, Pad, TextLess, Before;
    assert Pow10(2) == 100 && Pow10(4) == 10000;
    assert Pow10(9) == 1_000_000_000 by { assert Pow10(5) == 100_000; }
    var n, m := Pad(Digits(a.nanos), 9) + "Z", Pad(Digits(b.nanos), 9) + "Z";
    assert "Z" + "" == "Z";
    FieldDecides(a.nanos, b.nanos, 9, "Z", "", "");
    TextLessIrreflexive("");
    var s, r := Pad(Digits(a.second), 2) + ("." + n), Pad(Digits(b.second), 2) + ("." + m);
    FieldDecides(a.second, b.second, 2, ".", n, m);
    var i, j := Pad(Digits(a.minute), 2) + (":" + s), Pad(Digits(b.minute), 2) + (":" + r);
    FieldDecides(a.minute, b.minute, 2, ":", s, r);
    var h, k := Pad(Digits(a.hour), 2) + (":" + i), Pad(Digits(b.hour), 2) + (":" + j);
    FieldDecides(a.hour, b.hour, 2, ":", i, j);
    var d, e := Pad(Digits(a.day), 2) + ("T" + h), Pad(Digits(b.day), 2) + ("T" + k);
    FieldDecides(a.day, b.day, 2, "T", h, k);
    var o, p := Pad(Digits(a.month), 2) + ("-" + d), Pad(Digits(b.month), 2) + ("-" + e);
    FieldDecides(a.month, b.month, 2, "-", d, e);
    FieldDecides(a.year, b.year, 4, "-", o, p);
    FieldsBeforeIsBefore(a, b);
  }

  /** Different instants never share a text. */
  lemma FormatIsInjective(a: Instant, b: Instant)
    requires WellFormed(a) && WellFormed(b) && a.year <= 9999 && b.year <= 9999 && Format(a) == Format(b)
    ensures a == b
  {
    TextLessIrreflexive(Format(a));
    TextOrderIsTimeOrder(a, b);
    TextOrderIsTimeOrder(b, a);
    FieldsBeforeIsBefore(a, b);
    FieldsBeforeIsBefore(b, a);
  }

  /** The year 9999 is exactly where this stops: a five-digit year sorts before a four-digit one. */
  lemma YearLimitIsExact(limit: nat)
    ensures (forall a, b :: WellFormed(a) && WellFormed(b) && a.year <= limit && b.year <= limit ==>
               (TextLess(Format(a), Format(b)) <==> Before(a, b)))
       <==> limit <= 9999
  {
    if limit <= 9999 {
      forall a, b | WellFormed(a) && WellFormed(b) && a.year <= limit && b.year <= limit
        ensures TextLess(Format(a), Format(b)) <==> Before(a, b)
      {
        TextOrderIsTimeOrder(a, b);
      }
    } else {
      var a, b := Instant(9999, 12, 31, 0, 0, 0, 0), Instant(10000, 1, 1, 0, 0, 0, 0);
      FieldsBeforeIsBefore(a, b);
      FiveDigitYear();
      assert Format(a)[0] == '9' && Format(b)[0] == '1';
    }
  }

  lemma FiveDigitYear()
    ensures Pad(Digits(10000), 4)[..1] == "1" && Pad(Digits(9999), 4)[..1] == "9"
  {
    assert Digits(10) == "10" && Digits(100) == "100" && Digits(1000) == "1000";
    assert Digits(10000) == "10000";
    assert Digits(99) == "99" && Digits(999) == "999";
    assert Digits(9999) == "9999";
  }
}
