/** What the fields of a header block mean, told from their bytes alone: a field parses as a text
    or a number exactly when it holds it, whichever writer filled it in. */
module TarNumbers {
  import opened Bits
  import opened Decimal
  import opened Endian
  import opened PaxText
  import opened TarFields

  // ----- Texts.

  /** The text fills the field, or a NUL ends it. */
  predicate HoldsText(f: Bytes, s: Bytes) {
    s <= f && NUL !in s && (|s| < |f| ==> f[|s|] == NUL)
  }

  lemma TextExactly(f: Bytes, s: Bytes)
    ensures ParseString(f) == s <==> HoldsText(f, s)
  {
    var k := FirstIndex(f, NUL);
    if HoldsText(f, s) {
      assert |s| < |f| ==> f[|s|] == NUL;
      assert forall j :: 0 <= j < |s| ==> f[j] == s[j];
      assert k == |s|;
    }
  }

  // ----- Octal numbers.

  predicate Blanks(s: Bytes) {
    forall i :: 0 <= i < |s| ==> Blank(s[i])
  }

  lemma BlanksAt(f: Bytes, lo: nat, hi: nat)
    requires lo <= hi <= |f| && Blanks(f[lo..hi])
    ensures forall k :: lo <= k < hi ==> Blank(f[k])
  {
    forall k | lo <= k < hi ensures Blank(f[k]) {
      assert f[k] == f[lo..hi][k - lo];
    }
  }

  /** An unsigned number taken for a signed one of 64 bits. */
  predicate SameBits(v: nat, x: i64) {
    v == if x >= 0 then x else x + TWO64
  }

  /** No digits at all are zero. */
  predicate Spells(s: Bytes, x: i64) {
    AllDigits(s, 8) && SameBits(Value(s, 8), x)
  }

  /** What may stand behind the digits: blanks, or a NUL and then anything. */
  predicate Ends(digits: Bytes, t: Bytes) {
    Blanks(t) || (digits != [] && t[0] == NUL)
  }

  predicate OctalBetween(f: Bytes, i: nat, j: nat, x: i64) {
    i <= j <= |f| && Blanks(f[..i]) && Spells(f[i..j], x) && Ends(f[i..j], f[j..])
  }

  /** Blanks, the octal digits of the number, and what may follow them. */
  ghost predicate HoldsOctal(f: Bytes, x: i64) {
    exists i, j :: OctalBetween(f, i, j, x)
  }

  lemma WrapSame(v: nat, x: i64)
    requires v < TWO64
    ensures Wrap64(v) == x <==> SameBits(v, x)
  {
  }

  lemma DigitAt(f: Bytes, i: nat, j: nat, x: i64)
    requires OctalBetween(f, i, j, x)
    ensures i < j ==> !Blank(f[i])
  {
    hide Value;
    assert i < j ==> f[i] == f[i..j][0];
  }

  lemma AllBlank(f: Bytes, x: i64)
    requires TextStart(f) >= TextEnd(f)
    ensures HoldsOctal(f, x) <==> x == 0
  {
    assert Blanks(f[..|f|]) && f[|f|..] == [] && f[|f|..|f|] == [];
    assert OctalBetween(f, |f|, |f|, 0);
    forall i: nat, j: nat | OctalBetween(f, i, j, x) ensures x == 0 {
      DigitAt(f, i, j, x);
    }
  }

  lemma Inside(f: Bytes, i: nat, e: nat, k: nat)
    requires i <= i + k <= e <= |f|
    ensures f[i..e][..k] == f[i..i + k]
  {
  }

  lemma OctalParts(f: Bytes, x: i64)
    requires OctalValue(f) == Some(x) && TextStart(f) < TextEnd(f)
    ensures HoldsOctal(f, x)
  {
    hide Value;
    var i, e := TextStart(f), TextEnd(f);
    var t := f[i..e];
    var s := ParseString(t);
    var j := i + |s|;
    Inside(f, i, e, |s|);
    WrapSame(Value(s, 8), x);
    assert Ends(s, f[j..]) by {
      assert |s| < |t| ==> t[|s|] == NUL && f[j..][0] == t[|s|];
    }
    assert OctalBetween(f, i, j, x);
  }

  lemma PartsValue(f: Bytes, i: nat, j: nat, x: i64)
    requires OctalBetween(f, i, j, x) && TextStart(f) < TextEnd(f)
    ensures OctalValue(f) == Some(x)
  {
    hide Value;
    var s, e := f[i..j], TextEnd(f);
    PartsStart(f, i, j, x);
    PartsEnd(f, i, j, x);
    var t := f[i..e];
    assert ParseString(t) == s by {
      assert t[..|s|] == s;
      assert |s| < |t| ==> t[|s|] == f[j] == f[j..][0];
      TextExactly(t, s);
    }
    WrapSame(Value(s, 8), x);
  }

  lemma NoDigits(f: Bytes, i: nat, j: nat, x: i64)
    requires OctalBetween(f, i, j, x)
    ensures i == j ==> TextStart(f) >= TextEnd(f)
  {
    hide Value;
    if i == j {
      BlanksAt(f, 0, i);
      BlanksAt(f, j, |f|);
    }
  }

  lemma PartsStart(f: Bytes, i: nat, j: nat, x: i64)
    requires OctalBetween(f, i, j, x) && TextStart(f) < TextEnd(f)
    ensures i < j && TextStart(f) == i
  {
    hide Value;
    var k := TextStart(f);
    BlanksAt(f, 0, i);
    NoDigits(f, i, j, x);
    DigitAt(f, i, j, x);
  }

  lemma PartsEnd(f: Bytes, i: nat, j: nat, x: i64)
    requires OctalBetween(f, i, j, x) && i < j
    ensures j <= TextEnd(f) && (TextEnd(f) > j ==> f[j] == NUL)
  {
    hide Value;
    var e := TextEnd(f);
    assert f[j - 1] == f[i..j][j - 1 - i];
    assert e > j ==> f[e - 1] == f[j..][e - 1 - j] && f[j] == f[j..][0];
  }

  lemma OctalExactly(f: Bytes, x: i64)
    ensures OctalValue(f) == Some(x) <==> HoldsOctal(f, x)
  {
    hide Value, OctalBetween;
    if TextStart(f) >= TextEnd(f) {
      AllBlank(f, x);
    } else if OctalValue(f) == Some(x) {
      OctalParts(f, x);
    } else if HoldsOctal(f, x) {
      var i, j :| OctalBetween(f, i, j, x);
      PartsValue(f, i, j, x);
    }
  }

  // ----- Numbers in base 256.

  /** The bytes without their top bit are the number in two's complement, most significant first. */
  predicate HoldsBinary(f: Bytes, x: i64) {
    && |f| > 0
    && var p := Pow256(|f| - 1);
       -64 * p <= x < 64 * p && FromBigEndian(f) == (if x >= 0 then 128 * p + x else 256 * p + x)
  }

  /** A set top bit announces base 256. */
  ghost predicate HoldsNumber(f: Bytes, x: i64) {
    if |f| > 0 && f[0] >= 0x80 then HoldsBinary(f, x) else HoldsOctal(f, x)
  }

  /** The bytes as they are added up. */
  function Plain(f: Bytes, inverted: bool): (c: Bytes)
    ensures |c| == |f|
  {
    seq(|f|, i requires 0 <= i < |f| => Base256Byte(f, i, inverted))
  }

  /** The number `x` with the bytes of `c` behind it. */
  function Followed(x: nat, c: Bytes): nat {
    x * Pow256(|c|) + FromBigEndian(c)
  }

  lemma FollowedBy(x: nat, c: u8, t: Bytes)
    ensures Followed(x, [c] + t) == Followed(x * 256 + c, t)
    ensures x >= 0x100_0000_0000_0000 ==> Followed(x, [c] + t) >= TWO64
  {
    hide FromBigEndian, Pow256;
    var p := Pow256(|t|);
    FirstByte(c, t);
    NextPower(|t|);
    assert |[c] + t| == |t| + 1;
    ShiftIn(x, c, p, FromBigEndian(t));
  }

  lemma NextPower(n: nat)
    ensures Pow256(n + 1) == 256 * Pow256(n)
  {
  }

  lemma ShiftIn(x: nat, c: u8, p: nat, v: nat)
    requires p >= 1
    ensures x * (256 * p) + (c * p + v) == (x * 256 + c) * p + v
    ensures x >= 0x100_0000_0000_0000 ==> x * (256 * p) + (c * p + v) >= TWO64
  {
    assert x * (256 * p) == (x * 256) * p;
    Grows(x * 256, p);
  }

  lemma Grows(x: nat, p: nat)
    requires p >= 1
    ensures x * p >= x
  {
  }

  lemma {:induction false} Appended(f: Bytes, i: nat, inverted: bool, x: nat)
    requires i <= |f| && x < TWO64
    ensures var v := Followed(x, Plain(f, inverted)[i..]);
            Base256From(f, i, inverted, x) == if v < TWO64 then Some(v) else None
    decreases |f| - i
  {
    hide Base256Byte, Followed;
    var c := Plain(f, inverted);
    if i < |f| {
      assert c[i..] == [c[i]] + c[i + 1..];
      FollowedBy(x, c[i], c[i + 1..]);
      if x < 0x100_0000_0000_0000 {
        Appended(f, i + 1, inverted, x * 256 + c[i]);
      }
    } else {
      assert c[i..] == [];
      NothingFollows(x);
    }
  }

  lemma NothingFollows(x: nat)
    ensures Followed(x, []) == x
  {
  }

  lemma OnlyFollows(c: Bytes)
    ensures Followed(0, c) == FromBigEndian(c)
  {
  }

  lemma {:induction false} Complement(f: Bytes, g: Bytes)
    requires |f| == |g| && forall i :: 0 <= i < |f| ==> g[i] == 255 - f[i]
    ensures FromBigEndian(g) == Pow256(|f|) - 1 - FromBigEndian(f)
  {
    if |f| > 0 {
      Complement(f[..|f| - 1], g[..|g| - 1]);
    }
  }

  lemma PlainValue(f: Bytes)
    requires |f| > 0 && f[0] >= 0x80
    ensures var p, v := Pow256(|f| - 1), FromBigEndian(f);
            && (f[0] < 192 ==> FromBigEndian(Plain(f, false)) == v - 128 * p && 128 * p <= v < 192 * p)
            && (f[0] >= 192 ==> FromBigEndian(Plain(f, true)) == 256 * p - 1 - v && 192 * p <= v < 256 * p)
  {
    hide FromBigEndian, Plain;
    var p, t := Pow256(|f| - 1), f[1..];
    assert f == [f[0]] + t;
    FirstByte(f[0], t);
    FromBigEndianBound(t);
    Leading(f[0], p, FromBigEndian(t));
    if f[0] < 192 {
      PlainMarked(f);
      FirstByte(f[0] - 128, t);
    } else {
      PlainInverted(f);
      Complement(f, Plain(f, true));
    }
  }

  lemma PlainMarked(f: Bytes)
    requires |f| > 0 && f[0] >= 0x80
    ensures Plain(f, false) == [f[0] - 128] + f[1..]
  {
  }

  lemma PlainInverted(f: Bytes)
    requires |f| > 0 && f[0] >= 0x80
    ensures forall i :: 0 <= i < |f| ==> Plain(f, true)[i] == 255 - f[i]
  {
  }

  lemma AtLeast(a: nat, b: nat, p: nat)
    requires a <= b
    ensures a * p <= b * p && (b - a) * p == b * p - a * p
  {
  }

  lemma Leading(c: u8, p: nat, v: nat)
    requires c >= 128 && v < p
    ensures c < 192 ==> (c - 128) * p == c * p - 128 * p && 128 * p <= c * p + v < 192 * p
    ensures c >= 192 ==> 192 * p <= c * p + v < 256 * p
  {
    AtLeast(128, c, p);
    AtLeast(c, 255, p);
    if c < 192 {
      AtLeast(c, 191, p);
    } else {
      AtLeast(192, c, p);
    }
  }

  lemma BinaryExactly(f: Bytes, x: i64)
    requires |f| > 0 && f[0] >= 0x80
    ensures NumericValue(f) == Some(x) <==> HoldsBinary(f, x)
  {
    hide Plain, Base256From, OctalValue;
    var inverted := f[0] >= 192;
    PlainValue(f);
    Appended(f, 0, inverted, 0);
    assert Plain(f, inverted)[0..] == Plain(f, inverted);
    OnlyFollows(Plain(f, inverted));
    assert Low(f[0], 128) == f[0] - 128;
  }

  /** A field parses as a number exactly when it holds that number. */
  lemma NumberExactly(f: Bytes, x: i64)
    ensures NumericValue(f) == Some(x) <==> HoldsNumber(f, x)
  {
    hide HoldsOctal, HoldsBinary, OctalValue;
    if |f| > 0 && f[0] >= 0x80 {
      BinaryExactly(f, x);
    } else {
      OctalExactly(f, x);
    }
  }
}
