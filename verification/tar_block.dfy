/** The 512-byte header block of the ustar interchange format: its fields, numbers and strings in
    them, and the checksum over it. */
module TarBlock {
  import opened Bits
  import opened Endian

  const BLOCK_SIZE: nat := 512
  const SLASH: u8 := 0x2F

  // The fields in order; the checksum field is its seven formatted bytes and its last byte.
  const NAME_FIELD := 0
  const MODE_FIELD := 1
  const UID_FIELD := 2
  const GID_FIELD := 3
  const SIZE_FIELD := 4
  const MTIME_FIELD := 5
  const CHECK_FIELD := 6
  const CHECK_END := 7
  const TYPE_FIELD := 8
  const LINK_FIELD := 9
  const MAGIC_FIELD := 10
  const VERSION_FIELD := 11
  const UNAME_FIELD := 12
  const GNAME_FIELD := 13
  const MAJOR_FIELD := 14
  const MINOR_FIELD := 15
  const PREFIX_FIELD := 16
  const TAIL_FIELD := 17
  const FIELDS := 18

  function Width(i: nat): (w: nat)
    requires i < FIELDS
    ensures w > 0
  {
    match i
    case 0 => 100 case 1 => 8 case 2 => 8 case 3 => 8 case 4 => 12 case 5 => 12
    case 6 => 7 case 7 => 1 case 8 => 1 case 9 => 100 case 10 => 6 case 11 => 2
    case 12 => 32 case 13 => 32 case 14 => 8 case 15 => 8 case 16 => 155 case _ => 12
  }

  /** Where field `i` begins. */
  function Offset(i: nat): nat
    requires i <= FIELDS
  {
    if i == 0 then 0 else Offset(i - 1) + Width(i - 1)
  }

  /** The positions that the reader and the writer name. */
  lemma Offsets()
    ensures Offset(NAME_FIELD) == 0 && Offset(MODE_FIELD) == 100 && Offset(UID_FIELD) == 108
    ensures Offset(GID_FIELD) == 116 && Offset(SIZE_FIELD) == 124 && Offset(MTIME_FIELD) == 136
    ensures Offset(CHECK_FIELD) == 148 && Offset(CHECK_END) == 155 && Offset(TYPE_FIELD) == 156
    ensures Offset(LINK_FIELD) == 157 && Offset(MAGIC_FIELD) == 257 && Offset(VERSION_FIELD) == 263
    ensures Offset(UNAME_FIELD) == 265 && Offset(GNAME_FIELD) == 297 && Offset(MAJOR_FIELD) == 329
    ensures Offset(MINOR_FIELD) == 337 && Offset(PREFIX_FIELD) == 345 && Offset(TAIL_FIELD) == 500
    ensures Offset(FIELDS) == BLOCK_SIZE
  {
    assert Offset(3) == 116;
    assert Offset(6) == 148;
    assert Offset(9) == 157;
    assert Offset(12) == 265;
    assert Offset(15) == 337;
  }

  lemma {:induction false} OffsetsApart(i: nat, j: nat)
    requires i < j <= FIELDS
    ensures Offset(i) + Width(i) <= Offset(j)
  {
    hide Width;
    if i + 1 < j {
      OffsetsApart(i, j - 1);
    }
  }

  function Field(b: Bytes, i: nat): (f: Bytes)
    requires |b| == BLOCK_SIZE && i < FIELDS
    ensures |f| == Width(i)
  {
    Offsets();
    OffsetsApart(i, FIELDS);
    b[Offset(i)..Offset(i) + Width(i)]
  }

  type Parts = parts: seq<Bytes> | |parts| == FIELDS witness seq(FIELDS, _ => [])

  /** The block with these fields. */
  ghost predicate Laid(b: Bytes, parts: Parts) {
    |b| == BLOCK_SIZE && forall i :: 0 <= i < FIELDS ==> Field(b, i) == parts[i]
  }

  lemma Untouched(b: Bytes, o: nat, x: Bytes, lo: nat, hi: nat)
    requires o + |x| <= |b| && lo <= hi <= |b| && (hi <= o || o + |x| <= lo)
    ensures (b[..o] + x + b[o + |x|..])[lo..hi] == b[lo..hi]
  {
    var c := b[..o] + x + b[o + |x|..];
    assert |c| == |b|;
    forall k | 0 <= k < hi - lo ensures c[lo..hi][k] == b[lo..hi][k] {
      assert c[lo + k] == b[lo + k];
    }
  }

  lemma LaidUpdate(b: Bytes, parts: Parts, i: nat, new_: Bytes, b': Bytes)
    requires Laid(b, parts) && i < FIELDS && |new_| == Width(i)
    requires Offset(i) + Width(i) <= BLOCK_SIZE
    requires b' == b[..Offset(i)] + new_ + b[Offset(i) + Width(i)..]
    ensures Laid(b', parts[i := new_])
  {
    hide Offset, Width;
    Offsets();
    forall j | 0 <= j < FIELDS ensures Field(b', j) == parts[i := new_][j] {
      OffsetsApart(j, FIELDS);
      if j < i {
        OffsetsApart(j, i);
        Untouched(b, Offset(i), new_, Offset(j), Offset(j) + Width(j));
      } else if i < j {
        OffsetsApart(i, j);
        Untouched(b, Offset(i), new_, Offset(j), Offset(j) + Width(j));
      }
    }
  }

  function Zeros(n: nat): (z: Bytes)
    ensures |z| == n && forall i :: 0 <= i < n ==> z[i] == 0
  {
    seq(n, _ => 0)
  }

  function ZeroParts(): (parts: Parts)
    ensures forall i :: 0 <= i < FIELDS ==> parts[i] == Zeros(Width(i))
  {
    seq(FIELDS, i requires 0 <= i < FIELDS => Zeros(Width(i)))
  }

  lemma ZerosLaid(b: Bytes)
    requires |b| == BLOCK_SIZE && forall i :: 0 <= i < BLOCK_SIZE ==> b[i] == 0
    ensures Laid(b, ZeroParts())
  {
    hide Offset, Width;
    forall i | 0 <= i < FIELDS ensures Field(b, i) == ZeroParts()[i] {
      Offsets();
      OffsetsApart(i, FIELDS);
    }
  }

  // ----- The block as the concatenation of its fields.

  function Concat(parts: seq<Bytes>): Bytes {
    if |parts| == 0 then [] else Concat(parts[..|parts| - 1]) + parts[|parts| - 1]
  }

  predicate Sized(parts: Parts) {
    forall i :: 0 <= i < FIELDS ==> |parts[i]| == Width(i)
  }

  lemma {:induction false} LaidPrefix(b: Bytes, parts: Parts, n: nat)
    requires Laid(b, parts) && n <= FIELDS
    ensures Offset(n) <= BLOCK_SIZE && Concat(parts[..n]) == b[..Offset(n)]
  {
    hide Width;
    Offsets();
    if n < FIELDS {
      OffsetsApart(n, FIELDS);
    }
    if n > 0 {
      LaidPrefix(b, parts, n - 1);
      assert parts[..n][..n - 1] == parts[..n - 1];
      assert Field(b, n - 1) == parts[n - 1];
      assert b[..Offset(n)] == b[..Offset(n - 1)] + Field(b, n - 1);
    }
  }

  /** The fields determine the block. */
  lemma LaidIs(b: Bytes, parts: Parts)
    requires Laid(b, parts)
    ensures b == Concat(parts)
  {
    LaidPrefix(b, parts, FIELDS);
    Offsets();
    assert parts[..FIELDS] == parts && b[..BLOCK_SIZE] == b;
  }

  lemma {:induction false} ConcatSize(parts: Parts, n: nat)
    requires Sized(parts) && n <= FIELDS
    ensures |Concat(parts[..n])| == Offset(n)
  {
    hide Width;
    if n > 0 {
      ConcatSize(parts, n - 1);
      assert parts[..n][..n - 1] == parts[..n - 1];
    }
  }

  lemma {:induction false} ConcatPrefix(parts: Parts, i: nat, n: nat)
    requires Sized(parts) && i < n <= FIELDS
    ensures |Concat(parts[..n])| == Offset(n) >= Offset(i) + Width(i)
    ensures Concat(parts[..n])[Offset(i)..Offset(i) + Width(i)] == parts[i]
    decreases n
  {
    hide Width;
    ConcatSize(parts, n);
    ConcatSize(parts, n - 1);
    OffsetsApart(i, n);
    assert parts[..n][..n - 1] == parts[..n - 1];
    if i < n - 1 {
      ConcatPrefix(parts, i, n - 1);
    }
  }

  lemma ConcatLaid(parts: Parts)
    requires Sized(parts)
    ensures Laid(Concat(parts), parts)
  {
    hide Width, Concat;
    Offsets();
    assert parts[..FIELDS] == parts;
    ConcatSize(parts, FIELDS);
    forall i | 0 <= i < FIELDS ensures Field(Concat(parts), i) == parts[i] {
      ConcatPrefix(parts, i, FIELDS);
    }
  }
}
