/** The pieces of C++ integer behaviour the evaluator relies on: 32-bit `int`
    values, the 64-bit range of `int64_t`, the truncating `/` operator, the
    narrowing conversion of a `size_t` to `int`, and the decimal text that
    `std::stoi` reads and `operator<<` writes. */
module Numeric {

  const MinInt32: int := -0x8000_0000
  const MaxInt32: int := 0x7FFF_FFFF
  const MinInt64: int := -0x8000_0000_0000_0000
  const MaxInt64: int := 0x7FFF_FFFF_FFFF_FFFF

  /** A C++ `int`. */
  type Int32 = x: int | MinInt32 <= x <= MaxInt32

  predicate InInt64(x: int) {
    MinInt64 <= x <= MaxInt64
  }

  function Abs(x: int): int {
    if x < 0 then -x else x
  }

  /** C++ integer division: the quotient is truncated toward zero, so the
      remainder `a - q * b` has the sign of the dividend and is smaller than
      the divisor in magnitude. (Dafny's own `/` is Euclidean.) */
  function TruncDiv(a: int, b: int): (q: int)
    requires b != 0
    ensures a >= 0 ==> 0 <= a - q * b < Abs(b)
    ensures a < 0 ==> -Abs(b) < a - q * b <= 0
    ensures Abs(q) <= Abs(a)
  {
    var m := Abs(a) / Abs(b);
    var q := if (a >= 0) == (b > 0) then m else -m;
    TruncDivFacts(a, b, m, q);
    q
  }

  /** The arithmetic behind TruncDiv's contract, for m = |a| / |b|. */
  lemma TruncDivFacts(a: int, b: int, m: int, q: int)
    requires b != 0 && m == Abs(a) / Abs(b)
    requires q == if (a >= 0) == (b > 0) then m else -m
    ensures a >= 0 ==> 0 <= a - q * b < Abs(b)
    ensures a < 0 ==> -Abs(b) < a - q * b <= 0
    ensures Abs(q) <= Abs(a)
  {
    var n, d := Abs(a), Abs(b);
    assert 0 <= n - m * d < d;
    NegMul(m, d);
    if b > 0 {
      assert q * b == (if a >= 0 then m * d else (-m) * d);
    } else {
      assert q * b == (if a >= 0 then (-m) * (-d) else m * (-d));
    }
    MulMonotone(m, d);
  }

  lemma NegMul(x: int, y: int)
    ensures (-x) * y == -(x * y) && x * (-y) == -(x * y) && (-x) * (-y) == x * y
  {
  }

  lemma MulMonotone(m: nat, d: nat)
    requires d >= 1
    ensures m <= m * d
  {
  }

  lemma AbsMul(a: int, b: int)
    ensures Abs(a * b) == Abs(a) * Abs(b)
  {
    if a < 0 {
      assert a * b == -(Abs(a) * b);
    }
    if b < 0 {
      assert Abs(a) * b == -(Abs(a) * Abs(b));
    }
  }

  lemma MulLe(x: nat, b: nat, y: nat)
    requires x <= b
    ensures x * y <= b * y
  {
  }

  /** The value of a `size_t` converted to `int`: reduced modulo 2^32 into
      the signed range (the conversion C++20 defines). */
  function ToInt32(n: nat): (r: Int32)
    ensures n <= MaxInt32 ==> r == n
    ensures (n - r) % 0x1_0000_0000 == 0
  {
    var m := n % 0x1_0000_0000;
    if m <= MaxInt32 then m else m - 0x1_0000_0000
  }

  predicate IsDigit(c: char) {
    '0' <= c <= '9'
  }

  predicate AllDigits(s: string) {
    forall k :: 0 <= k < |s| ==> IsDigit(s[k])
  }

  /** The number a string of decimal digits denotes (leading zeros allowed). */
  function DigitsValue(s: string): nat
    requires AllDigits(s)
  {
    if s == [] then 0
    else DigitsValue(s[..|s| - 1]) * 10 + (s[|s| - 1] as int - '0' as int)
  }

  function DigitChar(d: nat): (c: char)
    requires d < 10
    ensures IsDigit(c) && c as int - '0' as int == d
  {
    ('0' as int + d) as char
  }

  /** The decimal text of a natural number: non-empty, digits only, without
      a leading zero, and denoting the number it was made from. */
  function NatText(n: nat): (s: string)
    ensures |s| > 0 && AllDigits(s)
    ensures s[0] == '0' ==> s == "0"
    ensures DigitsValue(s) == n
  {
    if n < 10 then [DigitChar(n)]
    else
      var s := NatText(n / 10) + [DigitChar(n % 10)];
      assert s[..|s| - 1] == NatText(n / 10);
      s
  }

  /** The decimal text `operator<<` writes for an integer: a minus sign for a
      negative value, then the digits of its magnitude, with no leading zero
      except in "0" itself. */
  function IntText(v: int): (s: string)
    ensures |s| > 0
    ensures v >= 0 ==> AllDigits(s) && DigitsValue(s) == v
    ensures v < 0 ==> s[0] == '-' && AllDigits(s[1..]) && DigitsValue(s[1..]) == -v
    ensures s[0] == '0' ==> s == "0"
    ensures v < 0 ==> |s| >= 2 && s[1] != '0'
  {
    if v < 0 then
      var s := "-" + NatText(-v);
      assert s[1..] == NatText(-v);
      s
    else NatText(v)
  }
}
