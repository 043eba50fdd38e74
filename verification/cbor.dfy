/** CBOR heads as the deterministic codecs write and read them (section 4.2 of RFC 8949). */
module Cbor {
  import opened Bits
  import opened Endian

  const MAJOR_UINT: u8 := 0
  const MAJOR_NEGINT: u8 := 1
  const MAJOR_BSTR: u8 := 2
  const MAJOR_TSTR: u8 := 3
  const MAJOR_ARRAY: u8 := 4
  const MAJOR_MAP: u8 := 5
  const MAJOR_TAG: u8 := 6
  const MAJOR_SIMPLE: u8 := 7

  type Major = m: int | 0 <= m < 8

  /** The head of an item with argument `n`, in the shortest form. */
  function Head(major: Major, n: u64): (b: Bytes)
    ensures 1 <= |b| <= 9
  {
    var h := major * 32;
    if n < 24 then [h + n]
    else if n < 0x100 then [h + 24, n]
    else if n < 0x1_0000 then [h + 25] + ToBigEndian(n, 2)
    else if n < 0x1_0000_0000 then [h + 26] + ToBigEndian(n, 4)
    else [h + 27] + ToBigEndian(n, 8)
  }

  /** `append_head`. */
  method AppendHead(b: Bytes, major: Major, n: u64) returns (r: Bytes)
    ensures r == b + Head(major, n)
  {
    hide ToBigEndian;
    var h := major * 32;
    if n < 24 {
      r := b + [h + n];
    } else if n < 0x100 {
      r := b + [h + 24];
      r := r + [n];
    } else if n < 0x1_0000 {
      r := b + [h + 25];
      r := r + ToBigEndian(n, 2);
    } else if n < 0x1_0000_0000 {
      r := b + [h + 26];
      r := r + ToBigEndian(n, 4);
    } else {
      r := b + [h + 27];
      r := r + ToBigEndian(n, 8);
    }
  }

  datatype HeadResult = HeadOk(major: Major, arg: u64, rest: Bytes) | Eof | UnsupportedInfo

  function Argument(major: Major, b: Bytes, w: nat): (r: HeadResult)
    requires w <= 8
    ensures r.HeadOk? ==> |r.rest| == |b| - w && r.major == major
  {
    if |b| < w then Eof
    else
      FromBigEndianBound(b[..w]);
      Pow256Small(w);
      HeadOk(major, FromBigEndian(b[..w]), b[w..])
  }

  lemma Pow256Small(w: nat)
    requires w <= 8
    ensures Pow256(w) <= TWO64
  {
    Pow256Values();
    assert Pow256(3) == 0x100_0000;
    assert Pow256(5) == 256 * TWO32;
    assert Pow256(6) == 0x1_0000 * TWO32;
    assert Pow256(7) == 0x100_0000 * TWO32;
  }

  /** `read_head`: every definite-length form is accepted, shortest or not. */
  function ReadHead(b: Bytes): (r: HeadResult)
    ensures r.HeadOk? ==> |r.rest| < |b|
  {
    if |b| == 0 then Eof
    else
      var first: int := b[0];
      var major, ai := first / 32, first % 32;
      if ai < 24 then HeadOk(major, ai, b[1..])
      else if ai == 24 then Argument(major, b[1..], 1)
      else if ai == 25 then Argument(major, b[1..], 2)
      else if ai == 26 then Argument(major, b[1..], 4)
      else if ai == 27 then Argument(major, b[1..], 8)
      else UnsupportedInfo
  }

  lemma ArgumentBack(major: Major, n: u64, w: nat, z: Bytes)
    requires w <= 8 && n < Pow256(w)
    ensures Argument(major, ToBigEndian(n, w) + z, w) == HeadOk(major, n, z)
  {
    FromToBigEndian(n, w);
    var b := ToBigEndian(n, w) + z;
    assert b[..w] == ToBigEndian(n, w) && b[w..] == z;
  }

  /** A head reads back, whatever follows. */
  lemma HeadReads(major: Major, n: u64, z: Bytes)
    ensures ReadHead(Head(major, n) + z) == HeadOk(major, n, z)
  {
    hide ToBigEndian, FromBigEndian, Argument;
    var b := Head(major, n) + z;
    Pow256Values();
    if n < 24 {
      assert b[1..] == z;
    } else if n < 0x100 {
      assert ToBigEndian(n, 1) == [n] by { OneByte(n); }
      assert b[1..] == ToBigEndian(n, 1) + z;
      ArgumentBack(major, n, 1, z);
    } else if n < 0x1_0000 {
      assert b[1..] == ToBigEndian(n, 2) + z;
      ArgumentBack(major, n, 2, z);
    } else if n < 0x1_0000_0000 {
      assert b[1..] == ToBigEndian(n, 4) + z;
      ArgumentBack(major, n, 4, z);
    } else {
      assert b[1..] == ToBigEndian(n, 8) + z;
      ArgumentBack(major, n, 8, z);
    }
  }

  lemma OneByte(n: u8)
    ensures ToBigEndian(n, 1) == [n]
  {
    assert ToBigEndian(n / 256, 0) == [];
  }

  // ----- Strings and integers.

  function StringItem(major: Major, s: Bytes): Bytes
    requires |s| < TWO64
  {
    Head(major, |s|) + s
  }

  /** An integer in the shortest form: a negative one carries its complement. */
  function IntItem(v: i64): Bytes {
    var x: int := v;
    if x >= 0 then Head(MAJOR_UINT, x) else Head(MAJOR_NEGINT, -1 - x)
  }

  /** `append_tstr` and `append_bstr`. */
  method AppendString(b: Bytes, major: Major, s: Bytes) returns (r: Bytes)
    requires |s| < TWO64
    ensures r == b + StringItem(major, s)
  {
    r := AppendHead(b, major, |s|);
    r := r + s;
  }

  /** `append_int`. */
  method AppendInt(b: Bytes, v: i64) returns (r: Bytes)
    ensures r == b + IntItem(v)
  {
    var x: int := v;
    if x >= 0 {
      r := AppendHead(b, MAJOR_UINT, x);
    } else {
      r := AppendHead(b, MAJOR_NEGINT, -1 - x);
    }
  }
}
