/** Numbers as text: digits in base eight or ten, and signed decimal integers. */
module Decimal {
  import opened Bits
  import opened Endian

  const ZERO: u8 := 0x30
  const MINUS: u8 := 0x2D
  const PLUS: u8 := 0x2B

  predicate Digit(b: u8, base: nat) {
    ZERO <= b < ZERO + base
  }

  predicate AllDigits(s: Bytes, base: nat) {
    forall i :: 0 <= i < |s| ==> Digit(s[i], base)
  }

  /** The digits of `n`, most significant first, without leading zeros. */
  function Digits(n: nat, base: nat): (s: Bytes)
    requires base == 8 || base == 10
    ensures |s| > 0 && AllDigits(s, base)
  {
    if n < base then [ZERO + n] else Digits(n / base, base) + [ZERO + n % base]
  }

  /** The number that a string of digits spells. */
  function Value(s: Bytes, base: nat): (n: nat)
    requires base == 8 || base == 10
    requires AllDigits(s, base)
  {
    if |s| == 0 then 0 else Value(s[..|s| - 1], base) * base + (s[|s| - 1] - ZERO)
  }

  lemma {:induction false} ValueOfDigits(n: nat, base: nat)
    requires base == 8 || base == 10
    ensures Value(Digits(n, base), base) == n
  {
    var s := Digits(n, base);
    if n >= base {
      ValueOfDigits(n / base, base);
      assert s[..|s| - 1] == Digits(n / base, base);
    } else {
      assert s[..|s| - 1] == [];
    }
  }

  lemma ValueSnoc(s: Bytes, b: u8, base: nat)
    requires base == 8 || base == 10
    requires AllDigits(s, base) && Digit(b, base)
    ensures AllDigits(s + [b], base) && Value(s + [b], base) == Value(s, base) * base + (b - ZERO)
  {
    assert (s + [b])[..|s|] == s;
  }

  /** Leading zeros do not change the value. */
  lemma {:induction false} LeadingZeros(z: Bytes, s: Bytes, base: nat)
    requires base == 8 || base == 10
    requires AllDigits(s, base) && forall i :: 0 <= i < |z| ==> z[i] == ZERO
    ensures AllDigits(z + s, base) && Value(z + s, base) == Value(s, base)
    decreases |z| + |s|
  {
    if |s| > 0 {
      var t := s[..|s| - 1];
      LeadingZeros(z, t, base);
      ValueSnoc(z + t, s[|s| - 1], base);
      assert z + s == (z + t) + [s[|s| - 1]];
    } else if |z| > 0 {
      LeadingZeros(z[..|z| - 1], [], base);
      assert z + s == z && (z + s)[..|z| - 1] == z[..|z| - 1] + [];
    } else {
      assert z + s == s;
    }
  }

  // ----- Powers and lengths.

  function Pow(base: nat, k: nat): (r: nat)
    requires base == 8 || base == 10
    ensures r >= 1
  {
    if k == 0 then 1 else base * Pow(base, k - 1)
  }

  /** The first digit is the most significant one. */
  lemma {:induction false} FirstDigit(d: u8, s: Bytes, base: nat)
    requires (base == 8 || base == 10) && Digit(d, base) && AllDigits(s, base)
    ensures AllDigits([d] + s, base) && Value([d] + s, base) == (d - ZERO) * Pow(base, |s|) + Value(s, base)
  {
    if |s| == 0 {
      ValueSnoc([], d, base);
      assert [] + [d] == [d] + s;
    } else {
      var n := |s| - 1;
      FirstDigit(d, s[..n], base);
      ValueSnoc([d] + s[..n], s[n], base);
      assert [d] + s == [d] + s[..n] + [s[n]];
      ShiftUp(d - ZERO, Pow(base, n), Value(s[..n], base), base);
    }
  }

  lemma ShiftUp(d: int, p: int, v: int, base: int)
    ensures (d * p + v) * base == d * (base * p) + v * base
  {
  }

  lemma {:induction false} ValueBound(s: Bytes, base: nat)
    requires base == 8 || base == 10
    requires AllDigits(s, base)
    ensures Value(s, base) < Pow(base, |s|)
  {
    if |s| > 0 {
      ValueBound(s[..|s| - 1], base);
    }
  }

  /** A number below a power of the base needs no more digits than the exponent. */
  lemma {:induction false} DigitsAtMost(n: nat, base: nat, k: nat)
    requires base == 8 || base == 10
    requires k > 0 && n < Pow(base, k)
    ensures |Digits(n, base)| <= k
  {
    if n >= base {
      assert k > 1 by {
        assert Pow(base, 1) == base * Pow(base, 0);
      }
      DigitsAtMost(n / base, base, k - 1);
    }
  }

  lemma {:induction false} DigitsAtLeast(n: nat, base: nat, k: nat)
    requires base == 8 || base == 10
    requires n >= Pow(base, k)
    ensures |Digits(n, base)| > k
  {
    if k > 0 && n >= base {
      DigitsAtLeast(n / base, base, k - 1);
    }
  }

  lemma {:induction false} PowMonotone(base: nat, j: nat, k: nat)
    requires base == 8 || base == 10
    requires j <= k
    ensures Pow(base, j) <= Pow(base, k)
  {
    if j < k {
      PowMonotone(base, j, k - 1);
    }
  }

  lemma DigitsSize(n: nat, base: nat)
    requires base == 8 || base == 10
    ensures n < Pow(base, |Digits(n, base)|)
    ensures n > 0 ==> n >= Pow(base, |Digits(n, base)| - 1)
  {
    ValueOfDigits(n, base);
    ValueBound(Digits(n, base), base);
    var k := |Digits(n, base)|;
    if 0 < n < Pow(base, k - 1) {
      if k > 1 {
        DigitsAtMost(n, base, k - 1);
      }
    }
  }

  lemma {:induction false} PowExceeds(k: nat)
    ensures Pow(10, k) > k
  {
    if k > 0 {
      PowExceeds(k - 1);
    }
  }

  // ----- Signed decimal integers, as printed and as parsed from text.

  function FormatInt(x: int): (s: Bytes)
    ensures |s| > 0
  {
    if x < 0 then [MINUS] + Digits(-x, 10) else Digits(x, 10)
  }

  /** Parsing a 64-bit integer: an optional sign, at least one digit, no overflow. */
  function ParseInt(s: Bytes): (r: Option<i64>)
    ensures r.Some? ==> s != []
  {
    var signed := |s| > 0 && (s[0] == MINUS || s[0] == PLUS);
    var digits := if signed then s[1..] else s;
    if |digits| == 0 || !AllDigits(digits, 10) then None
    else
      var n: int := Value(digits, 10);
      var x := if signed && s[0] == MINUS then -n else n;
      if -0x8000_0000_0000_0000 <= x < 0x8000_0000_0000_0000 then Some(x) else None
  }

  lemma ParseOfFormat(x: i64)
    ensures ParseInt(FormatInt(x)) == Some(x)
  {
    var y: int := x;
    var n: nat := if y < 0 then -y else y;
    ValueOfDigits(n, 10);
    assert FormatInt(x) == if x < 0 then [MINUS] + Digits(n, 10) else Digits(n, 10);
    assert ([MINUS] + Digits(n, 10))[1..] == Digits(n, 10);
  }

  // ----- Fixed widths.

  const BILLION: int := 1_000_000_000

  /** `n` in `w` digits. */
  function Padded(n: nat, w: nat): (s: Bytes)
    ensures |s| == w && AllDigits(s, 10)
  {
    if w == 0 then [] else Padded(n / 10, w - 1) + [ZERO + n % 10]
  }

  lemma {:induction false} PaddedValue(n: nat, w: nat)
    requires n < Pow(10, w)
    ensures Value(Padded(n, w), 10) == n
  {
    if w > 0 {
      PaddedValue(n / 10, w - 1);
      assert Padded(n, w)[..w - 1] == Padded(n / 10, w - 1);
    }
  }

  /** The fraction as nine digits: cut or filled up with zeros. */
  function NineDigits(s: Bytes): (d: Bytes)
    ensures |d| == 9 && (AllDigits(s, 10) ==> AllDigits(d, 10))
  {
    seq(9, i requires 0 <= i => if i < |s| then s[i] else ZERO)
  }

  lemma NineDigitsBound(s: Bytes)
    requires AllDigits(s, 10)
    ensures Value(NineDigits(s), 10) < BILLION
  {
    ValueBound(NineDigits(s), 10);
    Billion();
  }

  lemma Billion()
    ensures Pow(10, 9) == BILLION
  {
    assert Pow(10, 3) == 1000;
    assert Pow(10, 6) == 1_000_000;
  }
}
