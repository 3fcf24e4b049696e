/** Due dates and "today" are `YYYY-MM-DD` strings (the value of a date input,
    and the date part of `toISOString()`). This module shows why comparing
    them with JavaScript's string `<` is a comparison of calendar dates. */
module IsoDate {
  import opened JsString

  predicate IsDigit(c: char) {
    '0' <= c <= '9'
  }

  predicate AllDigits(s: string) {
    forall i :: 0 <= i < |s| ==> IsDigit(s[i])
  }

  /** The shape `YYYY-MM-DD`: ten characters, digits except for the two dashes.
      Month and day ranges are not checked, and the ordering does not need them. */
  predicate IsIsoDate(d: string) {
    && |d| == 10
    && AllDigits(d[..4]) && d[4] == '-'
    && AllDigits(d[5..7]) && d[7] == '-'
    && AllDigits(d[8..])
  }

  function Pow10(n: nat): (r: nat)
    ensures r >= 1
  {
    if n == 0 then 1 else 10 * Pow10(n - 1)
  }

  function DigitValue(c: char): nat
    requires IsDigit(c)
  {
    (c as int - '0' as int) as nat
  }

  /** Multiplying by a natural number keeps `<=`. */
  lemma {:induction false} MulMonotone(a: nat, b: nat, p: nat)
    requires a <= b
    ensures a * p <= b * p
    decreases b - a
  {
    if a < b {
      MulMonotone(a, b - 1, p);
      assert b * p == (b - 1) * p + p;
    }
  }

  /** The number a string of decimal digits denotes. */
  function Value(s: string): (v: nat)
    requires AllDigits(s)
    ensures v < Pow10(|s|)
  {
    if |s| == 0 then 0
    else
      var rest := Value(s[1..]);
      var d := DigitValue(s[0]);
      var p := Pow10(|s| - 1);
      assert (d + 1) * p == d * p + p;
      MulMonotone(d + 1, 10, p);
      d * p + rest
  }

  /** The date as the number YYYYMMDD: later dates have larger keys. */
  function Key(d: string): nat
    requires IsIsoDate(d)
  {
    Value(d[..4]) * 10000 + Value(d[5..7]) * 100 + Value(d[8..])
  }

  /** Among digit strings of one length, `<` on strings is `<` on the numbers. */
  lemma {:induction false} DigitsLess(x: string, y: string)
    requires AllDigits(x) && AllDigits(y) && |x| == |y|
    ensures Less(x, y) <==> Value(x) < Value(y)
    decreases |x|
  {
    if |x| > 0 {
      if x[0] == y[0] {
        SameLeadingDigit(x, y);
        DigitsLess(x[1..], y[1..]);
      } else if x[0] < y[0] {
        SmallerLeadingDigit(x, y);
      } else {
        SmallerLeadingDigit(y, x);
        LessTrichotomy(x, y);
      }
    }
  }

  /** Equal leading digits leave both comparisons to the rest. */
  lemma SameLeadingDigit(x: string, y: string)
    requires AllDigits(x) && AllDigits(y) && 0 < |x| == |y| && x[0] == y[0]
    ensures Less(x, y) == Less(x[1..], y[1..])
    ensures Value(x) < Value(y) <==> Value(x[1..]) < Value(y[1..])
  {
    var p := Pow10(|x| - 1);
    assert Value(x) == DigitValue(x[0]) * p + Value(x[1..]);
    assert Value(y) == DigitValue(y[0]) * p + Value(y[1..]);
  }

  /** A smaller leading digit decides both comparisons. */
  lemma SmallerLeadingDigit(x: string, y: string)
    requires AllDigits(x) && AllDigits(y) && 0 < |x| == |y| && x[0] < y[0]
    ensures Less(x, y)
    ensures Value(x) < Value(y)
  {
    var p := Pow10(|x| - 1);
    assert Value(x) == DigitValue(x[0]) * p + Value(x[1..]);
    assert Value(y) == DigitValue(y[0]) * p + Value(y[1..]);
    LeadingDigitDecides(DigitValue(x[0]), DigitValue(y[0]), p, Value(x[1..]), Value(y[1..]));
  }

  /** A smaller leading digit makes a smaller number, whatever follows it. */
  lemma LeadingDigitDecides(dx: nat, dy: nat, p: nat, rx: nat, ry: nat)
    requires dx < dy && rx < p
    ensures dx * p + rx < dy * p + ry
  {
    assert (dx + 1) * p == dx * p + p;
    MulMonotone(dx + 1, dy, p);
  }

  /** Among digit strings of one length, equal numbers mean equal strings. */
  lemma DigitsEqual(x: string, y: string)
    requires AllDigits(x) && AllDigits(y) && |x| == |y|
    ensures x == y <==> Value(x) == Value(y)
  {
    LessTrichotomy(x, y);
    DigitsLess(x, y);
    DigitsLess(y, x);
  }

  /** Lexicographic order on (year, month, day), with month and day below 100,
      is the order of the YYYYMMDD numbers. */
  lemma KeyOrder(y1: nat, m1: nat, d1: nat, y2: nat, m2: nat, d2: nat)
    requires m1 < 100 && d1 < 100 && m2 < 100 && d2 < 100
    ensures y1 * 10000 + m1 * 100 + d1 < y2 * 10000 + m2 * 100 + d2
        <==> y1 < y2 || (y1 == y2 && (m1 < m2 || (m1 == m2 && d1 < d2)))
  {
    if y1 < y2 {
      assert (y1 + 1) * 10000 <= y2 * 10000;
    } else if y2 < y1 {
      assert (y2 + 1) * 10000 <= y1 * 10000;
    } else if m1 < m2 {
      assert (m1 + 1) * 100 <= m2 * 100;
    } else if m2 < m1 {
      assert (m2 + 1) * 100 <= m1 * 100;
    }
  }

  /** An ISO date split at its dashes. */
  lemma Split(d: string)
    requires IsIsoDate(d)
    ensures d == d[..4] + ("-" + (d[5..7] + ("-" + d[8..])))
  {
  }

  /** For ISO dates, the string comparison the dashboard uses is the
      chronological one. */
  lemma IsoLessIsChronological(a: string, b: string)
    requires IsIsoDate(a) && IsIsoDate(b)
    ensures Less(a, b) <==> Key(a) < Key(b)
  {
    Split(a);
    Split(b);
    var ya, am, ad := a[..4], a[5..7], a[8..];
    var yb, bm, bd := b[..4], b[5..7], b[8..];
    LessConcat(ya, "-" + (am + ("-" + ad)), yb, "-" + (bm + ("-" + bd)));
    LessConcat("-", am + ("-" + ad), "-", bm + ("-" + bd));
    LessConcat(am, "-" + ad, bm, "-" + bd);
    LessConcat("-", ad, "-", bd);
    LessIrreflexive("-");
    DigitsLess(ya, yb);
    DigitsLess(am, bm);
    DigitsLess(ad, bd);
    DigitsEqual(ya, yb);
    DigitsEqual(am, bm);
    KeyOrder(Value(ya), Value(am), Value(ad), Value(yb), Value(bm), Value(bd));
  }
}
