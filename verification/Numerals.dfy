/** Decimal numerals, zero padding and the lexicographic order on strings. */
module Numerals {

  datatype Option<+T> = None | Some(value: T)

  type Byte = b: int | 0 <= b < 256 witness 0

  function Digit(d: nat): char
    requires d < 10
  {
    ('0' as int + d) as char
  }

  function Decimal(n: nat): (s: string)
    ensures |s| > 0
  {
    if n < 10 then [Digit(n)] else Decimal(n / 10) + [Digit(n % 10)]
  }

  // The number a digit string denotes; characters outside '0'..'9' denote nothing.
  function Value(s: string): int {
    if |s| == 0 then 0 else 10 * Value(s[..|s| - 1]) + (s[|s| - 1] as int - '0' as int)
  }

  function PadStart(s: string, width: nat): string
    decreases width - |s|
  {
    if |s| >= width then s else PadStart(['0'] + s, width)
  }

  function Pow10(k: nat): nat {
    if k == 0 then 1 else 10 * Pow10(k - 1)
  }

  // Exactly w digits, most significant first.
  function Fixed(n: nat, w: nat): (s: string)
    ensures |s| == w
  {
    if w == 0 then "" else Fixed(n / 10, w - 1) + [Digit(n % 10)]
  }

  predicate LexLess(a: string, b: string) {
    |b| > 0 && (|a| == 0 || a[0] < b[0] || (a[0] == b[0] && LexLess(a[1..], b[1..])))
  }

  lemma {:induction false} DecimalValue(n: nat)
    ensures Value(Decimal(n)) == n
  {
    if n >= 10 {
      DecimalValue(n / 10);
      var s := Decimal(n);
      assert s[..|s| - 1] == Decimal(n / 10);
    }
  }

  lemma {:induction false} LeadingZeroValue(s: string)
    ensures Value(['0'] + s) == Value(s)
  {
    if |s| > 0 {
      LeadingZeroValue(s[..|s| - 1]);
      assert (['0'] + s)[..|s|] == ['0'] + s[..|s| - 1];
    }
  }

  lemma {:induction false} PadValue(s: string, width: nat)
    ensures Value(PadStart(s, width)) == Value(s)
    decreases width - |s|
  {
    if |s| < width {
      LeadingZeroValue(s);
      PadValue(['0'] + s, width);
    }
  }

  lemma DecimalInjective(a: nat, b: nat)
    requires Decimal(a) == Decimal(b)
    ensures a == b
  {
    DecimalValue(a);
    DecimalValue(b);
  }

  lemma PaddedInjective(a: nat, b: nat, width: nat)
    requires PadStart(Decimal(a), width) == PadStart(Decimal(b), width)
    ensures a == b
  {
    PadValue(Decimal(a), width);
    PadValue(Decimal(b), width);
    DecimalValue(a);
    DecimalValue(b);
  }

  lemma {:induction false} FixedZero(w: nat)
    ensures w > 0 ==> Fixed(0, w) == ['0'] + Fixed(0, w - 1)
  {
    if w > 1 {
      FixedZero(w - 1);
    }
  }

  lemma {:induction false} FixedLeadingZero(n: nat, w: nat)
    requires n < Pow10(w)
    ensures Fixed(n, w + 1) == ['0'] + Fixed(n, w)
  {
    if w > 0 {
      FixedLeadingZero(n / 10, w - 1);
    }
  }

  // The shortest numeral is the fixed-width one of its own length.
  lemma {:induction false} DecimalFixed(n: nat)
    ensures n < Pow10(|Decimal(n)|)
    ensures Decimal(n) == Fixed(n, |Decimal(n)|)
  {
    if n >= 10 {
      DecimalFixed(n / 10);
    } else {
      assert Pow10(1) == 10;
      assert Fixed(n, 1) == [Digit(n)];
    }
  }

  lemma {:induction false} DecimalWidth(n: nat, w: nat)
    requires n < Pow10(w) && w > 0
    ensures |Decimal(n)| <= w
  {
    if n >= 10 {
      assert w > 1 by { assert Pow10(1) == 10; }
      DecimalWidth(n / 10, w - 1);
    }
  }

  lemma {:induction false} PadFixed(n: nat, v: nat, w: nat)
    requires n < Pow10(v)
    requires v <= w
    ensures PadStart(Fixed(n, v), w) == Fixed(n, w)
    decreases w - v
  {
    if v < w {
      FixedLeadingZero(n, v);
      PadFixed(n, v + 1, w);
    }
  }

  lemma {:induction false} LexAppend(a: string, b: string, x: string, y: string)
    requires |a| == |b|
    requires LexLess(a, b) || (a == b && LexLess(x, y))
    ensures LexLess(a + x, b + y)
  {
    if |a| > 0 {
      assert (a + x)[1..] == a[1..] + x;
      assert (b + y)[1..] == b[1..] + y;
      if a[0] == b[0] {
        LexAppend(a[1..], b[1..], x, y);
      }
    } else {
      assert a + x == x && b + y == y;
    }
  }

  lemma {:induction false} FixedOrdered(a: nat, b: nat, w: nat)
    requires a < b < Pow10(w)
    ensures LexLess(Fixed(a, w), Fixed(b, w))
  {
    if a / 10 < b / 10 {
      FixedOrdered(a / 10, b / 10, w - 1);
    }
    assert a / 10 == b / 10 ==> a % 10 < b % 10;
    LexAppend(Fixed(a / 10, w - 1), Fixed(b / 10, w - 1), [Digit(a % 10)], [Digit(b % 10)]);
  }

  // Below 10^w, zero padding to width w makes string order agree with number order.
  lemma PaddedOrdered(a: nat, b: nat, w: nat)
    requires a < b < Pow10(w)
    ensures LexLess(PadStart(Decimal(a), w), PadStart(Decimal(b), w))
  {
    assert w > 0;
    DecimalFixed(a);
    DecimalFixed(b);
    DecimalWidth(a, w);
    DecimalWidth(b, w);
    PadFixed(a, |Decimal(a)|, w);
    PadFixed(b, |Decimal(b)|, w);
    FixedOrdered(a, b, w);
  }
}
