/** Fixed-width unsigned integers as ranges of `int`, and the bitwise operations the
    filter uses, defined on naturals so that every wrap-around is written out. */
module Bits {

  type u8 = x: int | 0 <= x < 0x100
  type u16 = x: int | 0 <= x < 0x1_0000
  type u32 = x: int | 0 <= x < 0x1_0000_0000
  type u64 = x: int | 0 <= x < 0x1_0000_0000_0000_0000

  type i64 = x: int | -0x8000_0000_0000_0000 <= x < 0x8000_0000_0000_0000

  datatype Option<+T> = None | Some(value: T)

  const TWO32: int := 0x1_0000_0000
  const TWO64: int := 0x1_0000_0000_0000_0000

  /** The low bits of a byte, as a number. */
  function Low(b: u8, m: int): int
    requires m > 0
  {
    b % m
  }

  /** The naturals below `n`. */
  function Below(n: nat): (s: set<nat>)
    ensures |s| == n && forall i: nat :: i in s <==> i < n
  {
    if n == 0 then {} else Below(n - 1) + {n - 1}
  }

  function Pow2(k: nat): (r: nat)
    ensures r >= 1
  {
    if k == 0 then 1 else 2 * Pow2(k - 1)
  }

  lemma {:induction false} Pow2Add(j: nat, k: nat)
    ensures Pow2(j + k) == Pow2(j) * Pow2(k)
  {
    if j > 0 {
      Pow2Add(j - 1, k);
      assert Pow2(j + k) == 2 * Pow2(j - 1 + k);
    }
  }

  lemma Pow2Values()
    ensures Pow2(2) == 4 && Pow2(8) == 0x100 && Pow2(16) == 0x1_0000
    ensures Pow2(32) == TWO32 && Pow2(64) == TWO64
  {
    assert Pow2(4) == 16;
    Pow2Add(4, 4);
    Pow2Add(8, 8);
    Pow2Add(16, 16);
    Pow2Add(32, 32);
  }

  lemma {:induction false} Pow2Monotone(j: nat, k: nat)
    requires j <= k
    ensures Pow2(j) <= Pow2(k)
  {
    if j < k {
      Pow2Monotone(j, k - 1);
    }
  }

  /** Exclusive or, bit by bit. */
  function Xor(a: nat, b: nat): (r: nat)
    decreases a + b
  {
    if a == 0 && b == 0 then 0
    else 2 * Xor(a / 2, b / 2) + (if a % 2 == b % 2 then 0 else 1)
  }

  /** Bitwise and. */
  function And(a: nat, b: nat): (r: nat)
    decreases a + b
  {
    if a == 0 || b == 0 then 0
    else 2 * And(a / 2, b / 2) + (a % 2) * (b % 2)
  }

  /** Bitwise or. */
  function Or(a: nat, b: nat): (r: nat)
    decreases a + b
  {
    if a == 0 && b == 0 then 0
    else 2 * Or(a / 2, b / 2) + (if a % 2 == 0 && b % 2 == 0 then 0 else 1)
  }

  lemma {:induction false} XorComm(a: nat, b: nat)
    ensures Xor(a, b) == Xor(b, a)
    decreases a + b
  {
    if a != 0 || b != 0 {
      XorComm(a / 2, b / 2);
    }
  }

  lemma {:induction false} XorSelf(a: nat)
    ensures Xor(a, a) == 0
  {
    if a != 0 {
      XorSelf(a / 2);
    }
  }

  lemma {:induction false} XorZero(a: nat)
    ensures Xor(a, 0) == a && Xor(0, a) == a
  {
    if a != 0 {
      XorZero(a / 2);
    }
  }

  lemma XorUnfold(a: nat, b: nat)
    ensures Xor(a, b) / 2 == Xor(a / 2, b / 2)
    ensures Xor(a, b) % 2 == (if a % 2 == b % 2 then 0 else 1)
  {
  }

  lemma HalvesDetermine(x: nat, y: nat)
    requires x / 2 == y / 2 && x % 2 == y % 2
    ensures x == y
  {
  }

  lemma {:induction false} XorAssoc(a: nat, b: nat, c: nat)
    ensures Xor(Xor(a, b), c) == Xor(a, Xor(b, c))
    decreases a + b + c
  {
    if a != 0 || b != 0 || c != 0 {
      hide Xor;
      var x, y := Xor(Xor(a, b), c), Xor(a, Xor(b, c));
      assert x / 2 == y / 2 by {
        XorAssoc(a / 2, b / 2, c / 2);
        XorUnfold(a, b);
        XorUnfold(b, c);
        XorUnfold(Xor(a, b), c);
        XorUnfold(a, Xor(b, c));
      }
      assert x % 2 == y % 2 by {
        XorUnfold(a, b);
        XorUnfold(b, c);
        XorUnfold(Xor(a, b), c);
        XorUnfold(a, Xor(b, c));
      }
      HalvesDetermine(x, y);
    }
  }

  /** `x ^ y ^ y == x`. */
  lemma XorCancel(x: nat, y: nat)
    ensures Xor(Xor(x, y), y) == x
    ensures Xor(y, Xor(y, x)) == x
  {
    XorAssoc(x, y, y);
    XorAssoc(y, y, x);
    XorSelf(y);
    XorZero(x);
  }

  /** Equal values are the only ones whose exclusive or is zero. */
  lemma XorZeroMeansEqual(a: nat, b: nat)
    requires Xor(a, b) == 0
    ensures a == b
  {
    XorCancel(a, b);
    XorZero(b);
  }

  /** `a ^ b ^ c == a ^ c ^ b`. */
  lemma XorSwapLast(a: nat, b: nat, c: nat)
    ensures Xor(Xor(a, b), c) == Xor(Xor(a, c), b)
  {
    XorAssoc(a, b, c);
    XorComm(b, c);
    XorAssoc(a, c, b);
  }

  lemma {:induction false} XorBound(k: nat, a: nat, b: nat)
    requires a < Pow2(k) && b < Pow2(k)
    ensures Xor(a, b) < Pow2(k)
    decreases k
  {
    if k > 0 && (a != 0 || b != 0) {
      XorBound(k - 1, a / 2, b / 2);
    }
  }

  lemma HalfOf(x: nat, k: nat)
    requires k > 0
    ensures x / Pow2(k) == x / 2 / Pow2(k - 1)
    ensures x % Pow2(k) / 2 == x / 2 % Pow2(k - 1) && x % Pow2(k) % 2 == x % 2
  {
    var p := Pow2(k - 1);
    var q, r := x / 2 / p, x / 2 % p;
    assert x == 2 * (q * p + r) + x % 2;
    assert q * Pow2(k) == 2 * (q * p);
    ModOf(x, q, 2 * r + x % 2, Pow2(k));
  }

  /** `x` shifted right by `k`. */
  function Shr(x: nat, k: nat): nat {
    if k == 0 then x else Shr(x / 2, k - 1)
  }

  lemma {:induction false} ShrIsQuotient(x: nat, k: nat)
    ensures Shr(x, k) == x / Pow2(k)
  {
    if k > 0 {
      hide Pow2;
      ShrIsQuotient(x / 2, k - 1);
      HalfOf(x, k);
    } else {
      assert Pow2(0) == 1;
    }
  }

  /** Exclusive or commutes with shifting right. */
  lemma {:induction false} XorShr(a: nat, b: nat, k: nat)
    ensures Shr(Xor(a, b), k) == Xor(Shr(a, k), Shr(b, k))
    decreases k
  {
    hide Xor;
    if k > 0 {
      XorUnfold(a, b);
      XorShr(a / 2, b / 2, k - 1);
    }
  }

  lemma {:induction false} ShrTwice(x: nat, j: nat, k: nat)
    ensures Shr(Shr(x, j), k) == Shr(x, j + k)
    decreases j
  {
    if j > 0 {
      ShrTwice(x / 2, j - 1, k);
    }
  }

  lemma {:induction false} ShrOut(x: nat, k: nat)
    requires x < Pow2(k)
    ensures Shr(x, k) == 0
    decreases k
  {
    if k > 0 {
      ShrOut(x / 2, k - 1);
    }
  }

  /** A word from its exclusive or with its own upper half. */
  lemma XorShiftBack(x: u64, k: nat)
    requires k >= 32
    ensures var z := Xor(x, Shr(x, k)); Xor(z, Shr(z, k)) == x
  {
    hide Xor, Shr;
    var s := Shr(x, k);
    XorShr(x, s, k);
    ShrTwice(x, k, k);
    assert Shr(x, k + k) == 0 by {
      Pow2Values();
      Pow2Monotone(64, k + k);
      ShrOut(x, k + k);
    }
    XorZero(s);
    XorCancel(x, s);
  }

  /** Exclusive or of the low bits. */
  lemma {:induction false} XorMod(a: nat, b: nat, k: nat)
    ensures Xor(a, b) % Pow2(k) == Xor(a % Pow2(k), b % Pow2(k))
    decreases k
  {
    if k > 0 {
      hide Xor, Pow2;
      XorMod(a / 2, b / 2, k - 1);
      XorUnfold(a, b);
      HalfOf(a, k);
      HalfOf(b, k);
      HalfOf(Xor(a, b), k);
      XorUnfold(a % Pow2(k), b % Pow2(k));
      HalvesDetermine(Xor(a, b) % Pow2(k), Xor(a % Pow2(k), b % Pow2(k)));
    }
  }

  /** `q` shifted left by `k`. */
  function Shl(q: nat, k: nat): nat {
    if k == 0 then q else 2 * Shl(q, k - 1)
  }

  lemma {:induction false} ShlIsProduct(q: nat, k: nat)
    ensures Shl(q, k) == q * Pow2(k)
  {
    if k > 0 {
      ShlIsProduct(q, k - 1);
      assert q * Pow2(k) == 2 * (q * Pow2(k - 1));
    }
  }

  /** Exclusive or acts on the low `k` bits and on the rest separately. */
  lemma {:induction false} XorLowBits(k: nat, q: nat, r: nat, s: nat)
    requires r < Pow2(k) && s < Pow2(k)
    ensures Xor(Shl(q, k) + r, s) == Shl(q, k) + Xor(r, s)
    decreases k
  {
    if k == 0 {
      XorZero(q);
    } else {
      XorLowBits(k - 1, q, r / 2, s / 2);
      XorUnfold(Shl(q, k) + r, s);
      XorUnfold(r, s);
      assert (Shl(q, k) + r) / 2 == Shl(q, k - 1) + r / 2;
      assert (Shl(q, k) + r) % 2 == r % 2;
    }
  }

  lemma MultipleInRange(d: int, m: int)
    requires -m < d * m < m
    ensures d == 0
  {
    assert d >= 1 ==> d * m >= m;
    assert d <= -1 ==> d * m <= -m;
  }

  lemma ModOf(x: int, q: int, y: int, m: int)
    requires m > 0 && 0 <= y < m && x == q * m + y
    ensures x % m == y && x / m == q
  {
    var q' := x / m;
    assert (q' - q) * m == y - x % m;
    MultipleInRange(q' - q, m);
  }

  lemma {:induction false} AndKeepsLow(k: nat, q: nat, r: nat)
    requires r < Pow2(k)
    ensures And(Shl(q, k) + r, Pow2(k) - 1) == r
    decreases k
  {
    if k > 0 && Shl(q, k) + r > 0 {
      AndKeepsLow(k - 1, q, r / 2);
      var x, p := Shl(q, k) + r, Pow2(k - 1);
      assert x / 2 == Shl(q, k - 1) + r / 2 && x % 2 == r % 2;
      assert (2 * p - 1) / 2 == p - 1 && (2 * p - 1) % 2 == 1;
    }
  }

  /** Masking with `2^k - 1` keeps the value modulo `2^k`. */
  lemma AndLowMask(k: nat, x: nat)
    ensures And(x, Pow2(k) - 1) == x % Pow2(k)
  {
    hide And, Pow2;
    var q, r := x / Pow2(k), x % Pow2(k);
    ShlIsProduct(q, k);
    AndKeepsLow(k, q, r);
  }

  lemma AndZero(a: nat)
    ensures And(a, 0) == 0 && And(0, a) == 0
  {
  }

  lemma {:induction false} AndAtMost(a: nat, b: nat)
    ensures And(a, b) <= a
    decreases a
  {
    if a != 0 && b != 0 {
      AndAtMost(a / 2, b / 2);
    }
  }

  /** The all-ones word is neutral for words of its width. */
  lemma AndAllOnes(k: nat, x: nat)
    requires x < Pow2(k)
    ensures And(x, Pow2(k) - 1) == x
  {
    ShlIsProduct(0, k);
    AndKeepsLow(k, 0, x);
  }

  function Xor8(a: u8, b: u8): (r: u8)
    ensures r == Xor(a, b)
  {
    Pow2Values();
    XorBound(8, a, b);
    Xor(a, b)
  }

  function Xor16(a: u16, b: u16): (r: u16)
    ensures r == Xor(a, b)
  {
    Pow2Values();
    XorBound(16, a, b);
    Xor(a, b)
  }

  function Xor32(a: u32, b: u32): (r: u32)
    ensures r == Xor(a, b)
  {
    Pow2Values();
    XorBound(32, a, b);
    Xor(a, b)
  }

  function Xor64(a: u64, b: u64): (r: u64)
    ensures r == Xor(a, b)
  {
    Pow2Values();
    XorBound(64, a, b);
    Xor(a, b)
  }

  function And32(a: u32, b: u32): (r: u32)
    ensures r == And(a, b)
  {
    AndAtMost(a, b);
    And(a, b)
  }

  function Not32(a: u32): (r: u32)
    ensures a + r == TWO32 - 1
  {
    TWO32 - 1 - a
  }

  function WrapAdd32(a: u32, b: u32): (r: u32)
  {
    (a + b) % TWO32
  }

  function WrapSub32(a: u32, b: u32): (r: u32)
  {
    (a - b) % TWO32
  }

  function WrapNeg32(a: u32): (r: u32)
  {
    (TWO32 - a) % TWO32
  }

  function WrapAdd8(a: u8, b: u8): (r: u8)
  {
    (a + b) % 0x100
  }

  function WrapSub8(a: u8, b: u8): (r: u8)
  {
    (a - b) % 0x100
  }
}
