/** Tar headers, the blocks they are packed into, and how a block is read. */
module TarHeader {
  import opened Bits
  import opened Buffers
  import opened Endian
  import opened PaxText
  import opened TarBlock
  import opened TarFields

  /** A set of formats: those a header can be encoded in, or those asked for. */
  datatype Formats = Formats(ustar: bool, pax: bool, gnu: bool)

  datatype Header = Header(
    typeflag: u8,
    name: Bytes,
    linkname: Bytes,
    size: i64,
    mode: i64,
    uid: i64,
    gid: i64,
    uname: Bytes,
    gname: Bytes,
    modTime: Option<Time>,
    accessTime: Option<Time>,
    changeTime: Option<Time>,
    devmajor: i64,
    devminor: i64,
    paxRecords: Records,
    format: Formats)

  const NO_FORMATS := Formats(false, false, false)

  const TYPE_REG: u8 := 0x30
  const TYPE_REG_A: u8 := 0
  const TYPE_LINK: u8 := 0x31
  const TYPE_SYMLINK: u8 := 0x32
  const TYPE_CHAR: u8 := 0x33
  const TYPE_BLOCK: u8 := 0x34
  const TYPE_DIR: u8 := 0x35
  const TYPE_FIFO: u8 := 0x36
  const TYPE_XHEADER: u8 := 0x78
  const TYPE_XGLOBAL_HEADER: u8 := 0x67
  const TYPE_GNU_SPARSE: u8 := 0x53
  const TYPE_GNU_LONGNAME: u8 := 0x4C
  const TYPE_GNU_LONGLINK: u8 := 0x4B

  const USTAR_MAGIC: Bytes := [0x75, 0x73, 0x74, 0x61, 0x72, 0]
  const USTAR_VERSION: Bytes := [0x30, 0x30]
  const GNU_MAGIC: Bytes := [0x75, 0x73, 0x74, 0x61, 0x72, 0x20]
  const GNU_VERSION: Bytes := [0x20, 0]
  const STAR_TRAILER: Bytes := [0x74, 0x61, 0x72, 0]

  /** `is_header_only`: no data follows whatever the size says. */
  predicate HeaderOnly(flag: u8) {
    || flag == TYPE_LINK || flag == TYPE_SYMLINK || flag == TYPE_CHAR
    || flag == TYPE_BLOCK || flag == TYPE_DIR || flag == TYPE_FIFO
  }

  /** `block_padding`. */
  function Padding(n: nat): (p: nat)
    ensures p < BLOCK_SIZE
  {
    if n % BLOCK_SIZE == 0 then 0 else BLOCK_SIZE - n % BLOCK_SIZE
  }

  /** Padding ends on a block boundary. */
  lemma PaddingAligns(n: nat)
    ensures (n + Padding(n)) % BLOCK_SIZE == 0
  {
    var q := n / BLOCK_SIZE;
    if n % BLOCK_SIZE != 0 {
      assert n + Padding(n) == BLOCK_SIZE * (q + 1);
    }
  }

  predicate IsAscii(s: Bytes) {
    forall i :: 0 <= i < |s| ==> 0 < s[i] < 0x80
  }

  /** `to_ascii`. */
  function ToAscii(s: Bytes): (t: Bytes)
    ensures IsAscii(t)
    ensures IsAscii(s) ==> t == s
  {
    if |s| == 0 then []
    else if 0 < s[0] < 0x80 then [s[0]] + ToAscii(s[1..])
    else ToAscii(s[1..])
  }

  // ----- The checksum.

  /** A byte as the checksum counts it: its own field counts as spaces. */
  function Counted(b: Bytes, i: nat): u8
    requires i < |b|
  {
    if 148 <= i < 156 then SPACE else b[i]
  }

  function SignedByte(c: u8): int {
    var x: int := c;
    if x < 0x80 then x else x - 0x100
  }

  /** The sum of the first `n` bytes, unsigned and signed. */
  function Checksum(b: Bytes, n: nat): nat
    requires n <= |b|
  {
    if n == 0 then 0 else Checksum(b, n - 1) + Counted(b, n - 1)
  }

  function SignedChecksum(b: Bytes, n: nat): int
    requires n <= |b|
  {
    if n == 0 then 0 else SignedChecksum(b, n - 1) + SignedByte(Counted(b, n - 1))
  }

  /** `compute_checksum`. */
  method ComputeChecksum(b: Bytes) returns (unsigned: nat, signed: int)
    ensures unsigned == Checksum(b, |b|) && signed == SignedChecksum(b, |b|)
  {
    unsigned, signed := 0, 0;
    for i := 0 to |b|
      invariant unsigned == Checksum(b, i) && signed == SignedChecksum(b, i)
    {
      var c := Counted(b, i);
      unsigned := unsigned + c;
      signed := signed + SignedByte(c);
    }
  }

  lemma {:induction false} ChecksumBound(b: Bytes, n: nat)
    requires n <= |b|
    ensures Checksum(b, n) <= 255 * n
  {
    if n > 0 {
      ChecksumBound(b, n - 1);
    }
  }

  /** The checksum does not depend on the checksum field. */
  lemma {:induction false} ChecksumSame(b: Bytes, c: Bytes, n: nat)
    requires n <= |b| == |c| && forall i :: 0 <= i < |b| ==> Counted(b, i) == Counted(c, i)
    ensures Checksum(b, n) == Checksum(c, n)
  {
    if n > 0 {
      ChecksumSame(b, c, n - 1);
    }
  }

  // ----- Packing.

  function Text(s: Bytes, ascii: bool): Bytes {
    if ascii then ToAscii(s) else s
  }

  function Seconds(h: Header): i64 {
    if h.modTime.Some? then h.modTime.value.sec else 0
  }

  /** A string or a number in an empty field. */
  function Str(w: nat, s: Bytes): (f: Bytes)
    requires w > 0
    ensures |f| == w
  {
    StringField(Zeros(w), s)
  }

  function Oct(w: nat, x: i64): (f: Bytes)
    requires w > 0
    ensures |f| == w
  {
    OctalField(Zeros(w), x)
  }

  /** Field `i` of a header before the magic and the checksum are set. */
  function HeaderPart(h: Header, ascii: bool, prefix: Bytes, i: nat): (f: Bytes)
    requires i < FIELDS
    ensures |f| == Width(i)
  {
    match i
    case 0 => Str(100, Text(h.name, ascii))
    case 1 => Oct(8, h.mode)
    case 2 => Oct(8, h.uid)
    case 3 => Oct(8, h.gid)
    case 4 => Oct(12, h.size)
    case 5 => Oct(12, Seconds(h))
    case 8 => [h.typeflag]
    case 9 => Str(100, Text(h.linkname, ascii))
    case 12 => Str(32, Text(h.uname, ascii))
    case 13 => Str(32, Text(h.gname, ascii))
    case 14 => Oct(8, h.devmajor)
    case 15 => Oct(8, h.devminor)
    case 16 => Str(155, prefix)
    case _ => Zeros(Width(i))
  }

  function HeaderParts(h: Header, ascii: bool, prefix: Bytes): (parts: Parts)
    ensures Sized(parts)
  {
    seq(FIELDS, i requires 0 <= i < FIELDS => HeaderPart(h, ascii, prefix, i))
  }

  function Marked(parts: Parts): (p: Parts)
    requires Sized(parts)
    ensures Sized(p)
  {
    parts[MAGIC_FIELD := USTAR_MAGIC][VERSION_FIELD := USTAR_VERSION]
  }

  /** The fields once the magic and the checksum are set. */
  function Sealed(parts: Parts): (p: Parts)
    requires Sized(parts)
    ensures Sized(p)
  {
    var m := Marked(parts);
    var sum := Checksum(Concat(m), |Concat(m)|);
    m[CHECK_FIELD := OctalField(m[CHECK_FIELD], sum)][CHECK_END := [SPACE]]
  }

  /** Writes bytes that make up a whole field. */
  method PutField(blk: array<u8>, i: nat, x: Bytes, ghost parts: Parts)
    requires blk.Length == BLOCK_SIZE && i < FIELDS && Laid(blk[..], parts) && |x| == Width(i)
    modifies blk
    ensures Laid(blk[..], parts[i := x])
  {
    hide Offset, Width;
    Offsets();
    OffsetsApart(i, FIELDS);
    ghost var before := blk[..];
    Overwrite(blk, Offset(i), x);
    LaidUpdate(before, parts, i, x, blk[..]);
  }

  /** `set_format` for the two formats this writer produces. */
  method SetFormat(blk: array<u8>, ghost parts: Parts)
    requires blk.Length == BLOCK_SIZE && Laid(blk[..], parts)
    modifies blk
    ensures Sized(parts) && Laid(blk[..], Sealed(parts))
  {
    hide Offset, Concat, Checksum, Laid;
    assert Sized(parts) by { LaidSized(blk[..], parts); }
    PutField(blk, MAGIC_FIELD, USTAR_MAGIC, parts);
    PutField(blk, VERSION_FIELD, USTAR_VERSION, parts[MAGIC_FIELD := USTAR_MAGIC]);
    ghost var m := Marked(parts);
    LaidIs(blk[..], m);
    var sum, _ := ComputeChecksum(blk[..]);
    assert sum <= 255 * 512 by { ChecksumBound(blk[..], BLOCK_SIZE); }
    var f := new Formatter();
    f.FormatOctal(blk, CHECK_FIELD, sum, m);
    PutField(blk, CHECK_END, [SPACE], m[CHECK_FIELD := OctalField(m[CHECK_FIELD], sum)]);
  }

  lemma LaidSized(b: Bytes, parts: Parts)
    requires Laid(b, parts)
    ensures Sized(parts)
  {
    forall i | 0 <= i < FIELDS ensures |parts[i]| == Width(i) {
      assert Field(b, i) == parts[i];
    }
  }

  /** Every string and number fits its field. */
  predicate FieldsFit(h: Header, ascii: bool) {
    && |Text(h.name, ascii)| <= 100 && |Text(h.linkname, ascii)| <= 100
    && |Text(h.uname, ascii)| <= 32 && |Text(h.gname, ascii)| <= 32
    && FitsOctal(8, h.mode) && FitsOctal(8, h.uid) && FitsOctal(8, h.gid)
    && FitsOctal(12, h.size) && FitsOctal(12, Seconds(h))
    && FitsOctal(8, h.devmajor) && FitsOctal(8, h.devminor)
  }

  /** The order in which the template fills the fields; the rest stay empty. */
  function Rank(i: nat): nat {
    match i
    case 8 => 0 case 0 => 1 case 9 => 2 case 12 => 3 case 13 => 4
    case 1 => 5 case 2 => 6 case 3 => 7 case 4 => 8 case 5 => 9 case 14 => 10 case 15 => 11
    case _ => 12 + i
  }

  /** The first `n` fields in that order are in place. */
  function Filled(h: Header, ascii: bool, n: nat): (parts: Parts) {
    seq(FIELDS, i requires 0 <= i < FIELDS => if Rank(i) < n then HeaderPart(h, ascii, [], i) else Zeros(Width(i)))
  }

  lemma RankUnique(i: nat, j: nat)
    requires Rank(i) == Rank(j) < 12
    ensures i == j
  {
  }

  lemma FillOne(h: Header, ascii: bool, n: nat, i: nat)
    requires i < FIELDS && Rank(i) == n < 12
    ensures Filled(h, ascii, n)[i := HeaderPart(h, ascii, [], i)] == Filled(h, ascii, n + 1)
    ensures Filled(h, ascii, n)[i] == Zeros(Width(i))
  {
    hide HeaderPart, Rank, Width;
    var a, b := Filled(h, ascii, n)[i := HeaderPart(h, ascii, [], i)], Filled(h, ascii, n + 1);
    forall j | 0 <= j < FIELDS ensures a[j] == b[j] {
      if Rank(j) == n {
        RankUnique(i, j);
      }
    }
  }

  method PutString(f: Formatter, blk: array<u8>, ghost h: Header, ghost ascii: bool, ghost n: nat, i: nat, s: Bytes)
    requires blk.Length == BLOCK_SIZE && i < FIELDS && Rank(i) == n < 12 && Laid(blk[..], Filled(h, ascii, n))
    requires HeaderPart(h, ascii, [], i) == Str(Width(i), s)
    modifies f, blk
    ensures Laid(blk[..], Filled(h, ascii, n + 1))
    ensures f.fieldTooLong == (old(f.fieldTooLong) || |s| > Width(i))
  {
    hide HeaderPart, Filled;
    FillOne(h, ascii, n, i);
    f.FormatString(blk, i, s, Filled(h, ascii, n));
  }

  method PutOctal(f: Formatter, blk: array<u8>, ghost h: Header, ghost ascii: bool, ghost n: nat, i: nat, x: i64)
    requires blk.Length == BLOCK_SIZE && i < FIELDS && Rank(i) == n < 12 && Laid(blk[..], Filled(h, ascii, n))
    requires 2 <= Width(i) <= 12 && HeaderPart(h, ascii, [], i) == Oct(Width(i), x)
    modifies f, blk
    ensures Laid(blk[..], Filled(h, ascii, n + 1))
    ensures f.fieldTooLong == (old(f.fieldTooLong) || !FitsOctal(Width(i), x))
  {
    hide HeaderPart, Filled, FitsOctal;
    FillOne(h, ascii, n, i);
    f.FormatOctal(blk, i, x, Filled(h, ascii, n));
  }

  /** `template_v7_plus`. */
  method Template(blk: array<u8>, f: Formatter, h: Header, ascii: bool)
    requires blk.Length == BLOCK_SIZE && Laid(blk[..], ZeroParts())
    modifies f, blk
    ensures Laid(blk[..], HeaderParts(h, ascii, []))
    ensures f.fieldTooLong == (old(f.fieldTooLong) || !FieldsFit(h, ascii))
  {
    hide Laid, Text, FitsOctal, Seconds;
    NoneFilled(h, ascii);
    TemplateStrings(blk, f, h, ascii);
    TemplateNumbers(blk, f, h, ascii);
    AllFilled(h, ascii);
  }

  lemma NoneFilled(h: Header, ascii: bool)
    ensures ZeroParts() == Filled(h, ascii, 0)
  {
  }

  lemma AllFilled(h: Header, ascii: bool)
    ensures Filled(h, ascii, 12) == HeaderParts(h, ascii, [])
  {
    hide Text, Seconds, Oct, Width;
    assert StringField(Zeros(155), []) == Zeros(155);
    var a, b := Filled(h, ascii, 12), HeaderParts(h, ascii, []);
    forall j | 0 <= j < FIELDS ensures a[j] == b[j] {
    }
  }

  method TemplateStrings(blk: array<u8>, f: Formatter, h: Header, ascii: bool)
    requires blk.Length == BLOCK_SIZE && Laid(blk[..], Filled(h, ascii, 0))
    modifies f, blk
    ensures Laid(blk[..], Filled(h, ascii, 5))
    ensures f.fieldTooLong == (|| old(f.fieldTooLong) || |Text(h.name, ascii)| > 100 || |Text(h.linkname, ascii)| > 100
                               || |Text(h.uname, ascii)| > 32 || |Text(h.gname, ascii)| > 32)
  {
    hide Laid, Text, Str, Filled;
    FillOne(h, ascii, 0, 8);
    PutField(blk, TYPE_FIELD, [h.typeflag], Filled(h, ascii, 0));
    PutString(f, blk, h, ascii, 1, NAME_FIELD, Text(h.name, ascii));
    PutString(f, blk, h, ascii, 2, LINK_FIELD, Text(h.linkname, ascii));
    PutString(f, blk, h, ascii, 3, UNAME_FIELD, Text(h.uname, ascii));
    PutString(f, blk, h, ascii, 4, GNAME_FIELD, Text(h.gname, ascii));
  }

  method TemplateNumbers(blk: array<u8>, f: Formatter, h: Header, ascii: bool)
    requires blk.Length == BLOCK_SIZE && Laid(blk[..], Filled(h, ascii, 5))
    modifies f, blk
    ensures Laid(blk[..], Filled(h, ascii, 12))
    ensures f.fieldTooLong == (|| old(f.fieldTooLong)
                               || !FitsOctal(8, h.mode) || !FitsOctal(8, h.uid) || !FitsOctal(8, h.gid)
                               || !FitsOctal(12, h.size) || !FitsOctal(12, Seconds(h))
                               || !FitsOctal(8, h.devmajor) || !FitsOctal(8, h.devminor))
  {
    hide Laid, Oct, Filled, Seconds, FitsOctal;
    PutOctal(f, blk, h, ascii, 5, MODE_FIELD, h.mode);
    PutOctal(f, blk, h, ascii, 6, UID_FIELD, h.uid);
    PutOctal(f, blk, h, ascii, 7, GID_FIELD, h.gid);
    PutOctal(f, blk, h, ascii, 8, SIZE_FIELD, h.size);
    PutOctal(f, blk, h, ascii, 9, MTIME_FIELD, Seconds(h));
    PutOctal(f, blk, h, ascii, 10, MAJOR_FIELD, h.devmajor);
    PutOctal(f, blk, h, ascii, 11, MINOR_FIELD, h.devminor);
  }
}
