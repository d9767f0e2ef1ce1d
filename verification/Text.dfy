/** Decimal numerals and the ordering of strings. */
module Text {
  import opened Wrappers

  function DigitChar(d: nat): char
    requires d < 10
  {
    '0' + d as char
  }

  predicate IsDigit(c: char) {
    '0' <= c <= '9'
  }

  function DigitValue(c: char): (d: nat)
    requires IsDigit(c)
    ensures d < 10
  {
    (c - '0') as nat
  }

  predicate AllDigits(s: string) {
    forall c <- s :: IsDigit(c)
  }

  /** The shortest decimal numeral of `n`. */
  function Decimal(n: nat): (s: string)
    ensures 0 < |s| && AllDigits(s)
  {
    if n < 10 then [DigitChar(n)] else Decimal(n / 10) + [DigitChar(n % 10)]
  }

  function Value(s: string): nat
    requires AllDigits(s)
  {
    if s == [] then 0 else 10 * Value(s[..|s| - 1]) + DigitValue(s[|s| - 1])
  }

  lemma {:induction false} DecimalValue(n: nat)
    ensures Value(Decimal(n)) == n
  {
    if n >= 10 {
      DecimalValue(n / 10);
      assert Decimal(n)[..|Decimal(n)| - 1] == Decimal(n / 10);
    }
  }

  /** No numeral but that of zero begins with a zero. */
  lemma {:induction false} DecimalIsShortest(n: nat)
    ensures n > 0 ==> Decimal(n)[0] != '0'
    ensures Decimal(0) == "0"
  {
    if n >= 10 {
      DecimalIsShortest(n / 10);
    }
  }

  function Zeros(k: nat): (s: string)
    ensures |s| == k && AllDigits(s)
  {
    seq(k, _ => '0')
  }

  /** `{n:0width}`: padded with zeros on the left to at least `width` characters. */
  function ZeroPadded(n: nat, width: nat): string {
    var s := Decimal(n);
    if |s| < width then Zeros(width - |s|) + s else s
  }

  // ---------------------------------------------------------------- fixed-width numerals

  function Pow10(w: nat): (p: nat)
    ensures p > 0
  {
    if w == 0 then 1 else 10 * Pow10(w - 1)
  }

  function Fixed(n: nat, w: nat): (s: string)
    ensures |s| == w
  {
    if w == 0 then [] else Fixed(n / 10, w - 1) + [DigitChar(n % 10)]
  }

  lemma {:induction false} FixedZero(w: nat)
    ensures Fixed(0, w) == Zeros(w)
  {
    if w > 0 {
      FixedZero(w - 1);
    }
  }

  lemma {:induction false} PaddedIsFixed(n: nat, w: nat)
    requires n < Pow10(w) && w > 0
    ensures ZeroPadded(n, w) == Fixed(n, w)
  {
    if n < 10 {
      FixedZero(w - 1);
      assert ZeroPadded(n, w) == Zeros(w - 1) + [DigitChar(n)];
    } else {
      PaddedIsFixed(n / 10, w - 1);
      assert Decimal(n) == Decimal(n / 10) + [DigitChar(n % 10)];
    }
  }

  /** A fixed-width numeral that is wide enough reads back as its number. */
  lemma {:induction false} FixedValue(n: nat, w: nat)
    requires n < Pow10(w)
    ensures AllDigits(Fixed(n, w)) && Value(Fixed(n, w)) == n
  {
    if w > 0 {
      FixedValue(n / 10, w - 1);
      assert Fixed(n, w)[..w - 1] == Fixed(n / 10, w - 1);
    }
  }

  // ---------------------------------------------------------------- ordering

  predicate LexLess(a: string, b: string) {
    b != [] && (a == [] || a[0] < b[0] || (a[0] == b[0] && LexLess(a[1..], b[1..])))
  }

  lemma {:induction false} LexIrreflexive(a: string)
    ensures !LexLess(a, a)
  {
    if a != [] {
      LexIrreflexive(a[1..]);
    }
  }

  /** Of two concatenations with first parts of equal length, the first parts decide, then the rest. */
  lemma {:induction false} LexConcat(a: string, b: string, x: string, y: string)
    requires |a| == |b|
    requires LexLess(a, b) || (a == b && LexLess(x, y))
    ensures LexLess(a + x, b + y)
  {
    if a == [] {
      assert a + x == x && b + y == y;
    } else {
      assert (a + x)[1..] == a[1..] + x && (b + y)[1..] == b[1..] + y;
      if a[0] == b[0] {
        LexConcat(a[1..], b[1..], x, y);
      }
    }
  }

  lemma {:induction false} FixedOrder(m: nat, n: nat, w: nat)
    requires m < n < Pow10(w)
    ensures LexLess(Fixed(m, w), Fixed(n, w))
  {
    if m / 10 < n / 10 {
      FixedOrder(m / 10, n / 10, w - 1);
    }
    LexConcat(Fixed(m / 10, w - 1), Fixed(n / 10, w - 1), [DigitChar(m % 10)], [DigitChar(n % 10)]);
  }
}
