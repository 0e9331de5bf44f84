/** Decimal numerals as Python's str(), int() and zero-padded formatting give
    them, on ASCII digits. */
module Decimal {

  predicate IsDigit(c: char) { '0' <= c <= '9' }

  ghost predicate AllDigits(s: string) { forall c :: c in s ==> IsDigit(c) }

  function DigitChar(d: nat): (c: char)
    requires d < 10
    ensures IsDigit(c)
  {
    '0' + d as char
  }

  function DigitValue(c: char): (d: nat)
    requires IsDigit(c)
    ensures d < 10
  {
    (c - '0') as int
  }

  /** str(n) */
  function ToString(n: nat): (s: string)
    ensures s != [] && AllDigits(s)
  {
    if n < 10 then [DigitChar(n)] else ToString(n / 10) + [DigitChar(n % 10)]
  }

  /** int(s); the empty string is given 0. */
  function Value(s: string): nat
    requires AllDigits(s)
  {
    if s == [] then 0 else 10 * Value(s[..|s| - 1]) + DigitValue(s[|s| - 1])
  }

  lemma {:induction false} ValueOfToString(n: nat)
    ensures Value(ToString(n)) == n
  {
    var s := ToString(n);
    if n >= 10 {
      ValueOfToString(n / 10);
      assert s[..|s| - 1] == ToString(n / 10);
    } else {
      assert s[..|s| - 1] == [];
    }
  }

  /** The last `width` digits of n, most significant first. */
  function Fixed(n: nat, width: nat): (s: string)
    ensures |s| == width && AllDigits(s)
  {
    if width == 0 then [] else Fixed(n / 10, width - 1) + [DigitChar(n % 10)]
  }

  function Pow10(w: nat): nat { if w == 0 then 1 else 10 * Pow10(w - 1) }

  /** f"{n:0{width}d}" */
  function Padded(n: nat, width: nat): string {
    var digits := ToString(n);
    if |digits| >= width then digits else seq(width - |digits|, _ => '0') + digits
  }

  lemma {:induction false} FixedOfZero(width: nat)
    ensures Fixed(0, width) == seq(width, _ => '0')
  {
    if width > 0 {
      FixedOfZero(width - 1);
    }
  }

  lemma {:induction false} PaddedIsFixed(n: nat, width: nat)
    requires |ToString(n)| <= width
    ensures Padded(n, width) == Fixed(n, width)
  {
    if n < 10 {
      FixedOfZero(width - 1);
    } else {
      PaddedIsFixed(n / 10, width - 1);
    }
  }

  lemma {:induction false} LengthBound(n: nat)
    ensures n < Pow10(|ToString(n)|)
    ensures n >= 10 ==> Pow10(|ToString(n)| - 1) <= n
  {
    if n >= 10 {
      LengthBound(n / 10);
    }
  }

  lemma {:induction false} LengthMonotone(m: nat, n: nat)
    requires m <= n
    ensures |ToString(m)| <= |ToString(n)|
  {
    if n >= 10 && m >= 10 {
      LengthMonotone(m / 10, n / 10);
    }
  }

  /** C-locale order of strings, the order of `ls` and shell globs. */
  predicate LexLess(a: string, b: string) {
    if b == [] then false
    else if a == [] then true
    else a[0] < b[0] || (a[0] == b[0] && LexLess(a[1..], b[1..]))
  }

  lemma {:induction false} LexPrefix(p: string, a: string, b: string)
    ensures LexLess(p + a, p + b) == LexLess(a, b)
  {
    if p == [] {
      assert p + a == a && p + b == b;
    } else {
      LexPrefix(p[1..], a, b);
      assert (p + a)[1..] == p[1..] + a && (p + b)[1..] == p[1..] + b;
    }
  }

  lemma {:induction false} LexSuffix(a: string, b: string, x: string, y: string)
    requires |a| == |b| && LexLess(a, b)
    ensures LexLess(a + x, b + y)
  {
    if a[0] == b[0] {
      LexSuffix(a[1..], b[1..], x, y);
      assert (a + x)[1..] == a[1..] + x && (b + y)[1..] == b[1..] + y;
    }
  }

  lemma {:induction false} FixedOrder(i: nat, j: nat, width: nat)
    requires i < j < Pow10(width)
    ensures LexLess(Fixed(i, width), Fixed(j, width))
  {
    var a, b := Fixed(i / 10, width - 1), Fixed(j / 10, width - 1);
    if i / 10 < j / 10 {
      FixedOrder(i / 10, j / 10, width - 1);
      LexSuffix(a, b, [DigitChar(i % 10)], [DigitChar(j % 10)]);
    } else {
      LexPrefix(a, [DigitChar(i % 10)], [DigitChar(j % 10)]);
    }
  }

  lemma {:induction false} LexIrreflexive(a: string)
    ensures !LexLess(a, a)
  {
    if a != [] {
      LexIrreflexive(a[1..]);
    }
  }

  lemma {:induction false} Pow10Monotone(a: nat, b: nat)
    requires a <= b
    ensures Pow10(a) <= Pow10(b)
  {
    if a < b {
      Pow10Monotone(a, b - 1);
    }
  }

  lemma {:induction false} ZerosAreZero(n: nat)
    ensures AllDigits(seq(n, _ => '0')) && Value(seq(n, _ => '0')) == 0
  {
    if n > 0 {
      ZerosAreZero(n - 1);
      assert seq(n, _ => '0')[..n - 1] == seq(n - 1, _ => '0');
    }
  }

  lemma {:induction false} ValueOfZeros(n: nat, digits: string)
    requires AllDigits(digits)
    ensures AllDigits(seq(n, _ => '0') + digits) && Value(seq(n, _ => '0') + digits) == Value(digits)
  {
    var zeros := seq(n, _ => '0');
    ZerosAreZero(n);
    if digits == "" {
      assert zeros + "" == zeros;
    } else {
      ValueOfZeros(n, digits[..|digits| - 1]);
      assert (zeros + digits)[..|zeros + digits| - 1] == zeros + digits[..|digits| - 1];
    }
  }

  /** A padded number reads back, and is as wide as wanted. */
  lemma PaddedSays(n: nat, width: nat)
    ensures AllDigits(Padded(n, width)) && Value(Padded(n, width)) == n && |Padded(n, width)| >= width
  {
    var digits := ToString(n);
    ValueOfToString(n);
    if |digits| < width {
      ValueOfZeros(width - |digits|, digits);
    }
  }
}
