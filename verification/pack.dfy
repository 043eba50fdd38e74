/** Pack streams: records with a checksum between a magic and an end marker. */
module Pack {
  import opened Bits
  import opened Buffers
  import opened Endian
  import StoreKey

  const TAG_CHUNK: u8 := 1
  const TAG_END: u8 := 0
  const CODEC_RAW: u8 := 0
  const CODEC_ZSTD: u8 := 1
  const CODEC_LZ4: u8 := 2
  const REC_HEADER_SIZE: nat := 46
  const MAX_PAYLOAD: nat := 0x1000_0000

  /** "AMBERPK" and the version. */
  const MAGIC: Bytes := [0x41, 0x4D, 0x42, 0x45, 0x52, 0x50, 0x4B, 0x04]

  datatype Compression = NoCompression | Zstd(level: int) | Lz4(level: int)

  function CodecOf(c: Compression): u8 {
    match c
    case NoCompression => CODEC_RAW
    case Zstd(_) => CODEC_ZSTD
    case Lz4(_) => CODEC_LZ4
  }

  /** `Compression::validate`. */
  predicate ValidCompression(c: Compression) {
    match c
    case NoCompression => true
    case Zstd(level) => 0 <= level <= 22
    case Lz4(level) => 0 <= level <= 12
  }

  /** The checksum and the compressors: compressing may fail, decompressing is told the length. */
  datatype Codecs = Codecs(
    crc: Bytes -> u32,
    squeeze: (Compression, Bytes) -> Option<Bytes>,
    expand: (u8, nat, Bytes) -> Option<Bytes>)

  /** Decompressing inverts compressing. */
  ghost predicate Lossless(cd: Codecs) {
    forall c, data :: c != NoCompression && cd.squeeze(c, data).Some? ==>
      cd.expand(CodecOf(c), |data|, cd.squeeze(c, data).value) == Some(data)
  }

  // ----- Records.

  /** `compress`: only a strictly smaller result is used. */
  function Compress(cd: Codecs, c: Compression, data: Bytes): (r: Option<Bytes>)
    ensures r.Some? ==> |r.value| < |data| && c != NoCompression && r == cd.squeeze(c, data)
  {
    if data == [] || c == NoCompression then None
    else
      var out := cd.squeeze(c, data);
      if out.Some? && |out.value| < |data| then out else None
  }

  /** The header up to the checksum. */
  function Front(key: Bytes, flags: u8, ulen: nat, slen: nat): (h: Bytes)
    ensures |h| == |key| + 10
  {
    [TAG_CHUNK] + key + [flags] + ToBigEndian(ulen, 4) + ToBigEndian(slen, 4)
  }

  function Header(key: Bytes, flags: u8, ulen: nat, slen: nat, crc: u32): (h: Bytes)
    ensures |h| == |key| + 14
  {
    Front(key, flags, ulen, slen) + ToBigEndian(crc, 4)
  }

  /** A record: its checksum is taken with the checksum field zero. */
  function RecordBytes(cd: Codecs, key: Bytes, flags: u8, ulen: nat, payload: Bytes): Bytes {
    Header(key, flags, ulen, |payload|, cd.crc(Header(key, flags, ulen, |payload|, 0) + payload)) + payload
  }

  /** The record of an object. */
  function Encoded(cd: Codecs, key: Bytes, data: Bytes, c: Compression): Bytes {
    var comp := Compress(cd, c, data);
    if comp.Some? then RecordBytes(cd, key, CodecOf(c), |data|, comp.value)
    else RecordBytes(cd, key, CODEC_RAW, |data|, data)
  }

  datatype EncodeResult = Record(bytes: Bytes) | InvalidCompression | TooLarge

  /** `encode_record_with`. */
  method EncodeRecord(cd: Codecs, key: Bytes, data: Bytes, c: Compression) returns (r: EncodeResult)
    requires |key| == 32
    ensures r == if !ValidCompression(c) then InvalidCompression
                 else if |data| > MAX_PAYLOAD then TooLarge
                 else Record(Encoded(cd, key, data, c))
  {
    if !ValidCompression(c) {
      return InvalidCompression;
    }
    if |data| > MAX_PAYLOAD {
      return TooLarge;
    }
    var comp := Compress(cd, c, data);
    var payload, flags := if comp.Some? then comp.value else data, if comp.Some? then CodecOf(c) else CODEC_RAW;
    var bytes := FillRecord(cd, key, flags, |data|, payload);
    return Record(bytes);
  }

  /** The buffer of a record, filled field by field. */
  method FillRecord(cd: Codecs, key: Bytes, flags: u8, ulen: nat, payload: Bytes) returns (bytes: Bytes)
    requires |key| == 32
    ensures bytes == RecordBytes(cd, key, flags, ulen, payload)
  {
    hide ToBigEndian, Front;
    var rec := new u8[REC_HEADER_SIZE + |payload|](_ => 0);
    FillFront(rec, key, flags, ulen, |payload|);
    ghost var r := rec[..];
    Overwrite(rec, REC_HEADER_SIZE, payload);
    ghost var front := Front(key, flags, ulen, |payload|);
    assert r[..REC_HEADER_SIZE] == front + ToBigEndian(0, 4) by {
      ZeroBytes();
    }
    assert rec[..] == front + ToBigEndian(0, 4) + payload;
    var crc := cd.crc(rec[..]);
    Overwrite(rec, 42, ToBigEndian(crc, 4));
    assert rec[..] == front + ToBigEndian(crc, 4) + payload;
    return rec[..];
  }

  /** The fields before the checksum; the rest stays zero. */
  method FillFront(rec: array<u8>, key: Bytes, flags: u8, ulen: nat, slen: nat)
    requires |key| == 32 && rec.Length >= REC_HEADER_SIZE && forall i :: 0 <= i < rec.Length ==> rec[i] == 0
    modifies rec
    ensures rec[..][..42] == Front(key, flags, ulen, slen)
    ensures forall i :: 42 <= i < rec.Length ==> rec[i] == 0
  {
    hide ToBigEndian;
    ghost var zeros := rec[..];
    rec[0] := TAG_CHUNK;
    Overwrite(rec, 1, key);
    assert rec[..][..33] == [TAG_CHUNK] + key && rec[..][33..] == zeros[33..];
    rec[33] := flags;
    assert rec[..][..34] == [TAG_CHUNK] + key + [flags] && rec[..][34..] == zeros[34..];
    PutNext(rec, 34, ToBigEndian(ulen, 4), zeros);
    PutNext(rec, 38, ToBigEndian(slen, 4), zeros);
    forall i | 42 <= i < rec.Length ensures rec[i] == 0 {
      assert rec[i] == rec[..][42..][i - 42] == zeros[42..][i - 42] == zeros[i];
    }
  }

  /** The next four bytes of a record that is still zero from there on. */
  method PutNext(rec: array<u8>, o: nat, x: Bytes, ghost zeros: Bytes)
    requires o + 4 <= rec.Length == |zeros| && |x| == 4 && rec[..][o..] == zeros[o..]
    modifies rec
    ensures rec[..][..o + 4] == old(rec[..][..o]) + x && rec[..][o + 4..] == zeros[o + 4..]
  {
    ghost var before := rec[..];
    Overwrite(rec, o, x);
    assert before[o + 4..] == before[o..][4..] == zeros[o + 4..];
  }

  lemma ZeroBytes()
    ensures ToBigEndian(0, 4) == [0, 0, 0, 0]
  {
    assert ToBigEndian(0, 1) == [0];
    assert ToBigEndian(0, 2) == [0, 0];
    assert ToBigEndian(0, 3) == [0, 0, 0];
  }

  /** `Record`: a parsed header. */
  datatype RecordHeader = RecordHeader(key: Bytes, flags: u8, ulen: u32, slen: u32)

  /** `parse_record`: framing, flags, lengths, checksum and key of the record at the start of `b`. */
  function ParseRecord(cd: Codecs, b: Bytes): (r: Option<RecordHeader>)
    ensures r.Some? ==> |b| >= REC_HEADER_SIZE + r.value.slen && StoreKey.Canonical(r.value.key)
  {
    if |b| < REC_HEADER_SIZE || b[0] != TAG_CHUNK || b[33] > CODEC_LZ4 then None
    else
      var flags, ulen, slen := b[33], U32(b[34..38]), U32(b[38..42]);
      if |b| < REC_HEADER_SIZE + slen then None
      else if flags == CODEC_RAW && ulen != slen then None
      else if ulen > MAX_PAYLOAD then None
      else if flags != CODEC_RAW && slen >= ulen then None
      else if cd.crc(b[..42] + [0, 0, 0, 0] + b[REC_HEADER_SIZE..REC_HEADER_SIZE + slen]) != U32(b[42..46]) then None
      else if !StoreKey.Canonical(b[1..33]) then None
      else Some(RecordHeader(b[1..33], flags, ulen, slen))
  }

  /** `decode_payload`. */
  function DecodePayload(cd: Codecs, flags: u8, ulen: u32, stored: Bytes): Option<Bytes> {
    if flags == CODEC_RAW then Some(stored)
    else if flags != CODEC_ZSTD && flags != CODEC_LZ4 then None
    else
      var out := cd.expand(flags, ulen, stored);
      if out.None? || |out.value| != ulen then None else out
  }

  // ----- A record reads back.

  lemma HeaderFields(key: Bytes, flags: u8, ulen: u32, slen: u32, crc: u32, z: Bytes)
    requires |key| == 32
    ensures var b := Header(key, flags, ulen, slen, crc) + z;
            && b[0] == TAG_CHUNK && b[1..33] == key && b[33] == flags
            && U32(b[34..38]) == ulen && U32(b[38..42]) == slen && U32(b[42..46]) == crc
            && b[..42] == Front(key, flags, ulen, slen) && b[46..] == z
  {
    hide ToBigEndian;
    var b := Header(key, flags, ulen, slen, crc) + z;
    U32RoundTrip(ulen);
    U32RoundTrip(slen);
    U32RoundTrip(crc);
    assert b[1..33] == key;
    assert b[34..38] == ToBigEndian(ulen, 4);
    assert b[38..42] == ToBigEndian(slen, 4);
    assert b[42..46] == ToBigEndian(crc, 4);
    assert b[..42] == Front(key, flags, ulen, slen);
    assert b[46..] == z;
  }

  /** What makes a record acceptable to the reader. */
  predicate Wellformed(key: Bytes, flags: u8, ulen: nat, slen: nat) {
    && StoreKey.Canonical(key) && flags <= CODEC_LZ4 && ulen <= MAX_PAYLOAD
    && (if flags == CODEC_RAW then ulen == slen else slen < ulen)
  }

  lemma RecordParses(cd: Codecs, key: Bytes, flags: u8, ulen: nat, payload: Bytes, z: Bytes)
    requires Wellformed(key, flags, ulen, |payload|)
    ensures ParseRecord(cd, RecordBytes(cd, key, flags, ulen, payload) + z)
         == Some(RecordHeader(key, flags, ulen, |payload|))
  {
    hide ToBigEndian, U32, StoreKey.Canonical, Header, Front;
    var crc := cd.crc(Header(key, flags, ulen, |payload|, 0) + payload);
    var b := Header(key, flags, ulen, |payload|, crc) + (payload + z);
    assert RecordBytes(cd, key, flags, ulen, payload) + z == b;
    KeyLength(key);
    HeaderFields(key, flags, ulen, |payload|, crc, payload + z);
    assert b[46..46 + |payload|] == payload by {
      assert b[46..46 + |payload|] == b[46..][..|payload|];
    }
    assert b[..42] + [0, 0, 0, 0] == Header(key, flags, ulen, |payload|, 0) by {
      ZeroHeader(key, flags, ulen, |payload|);
    }
  }

  lemma KeyLength(key: Bytes)
    requires StoreKey.Canonical(key)
    ensures |key| == 32
  {
  }

  lemma ZeroHeader(key: Bytes, flags: u8, ulen: nat, slen: nat)
    ensures Front(key, flags, ulen, slen) + [0, 0, 0, 0] == Header(key, flags, ulen, slen, 0)
  {
    ZeroBytes();
  }

  // ----- What the reader's checks mean.

  /** Where the fields of a record lie, and what its checksum is taken over. */
  lemma RecordLayout(cd: Codecs, key: Bytes, flags: u8, ulen: u32, payload: Bytes)
    requires |key| == 32 && |payload| < TWO32
    ensures var b := RecordBytes(cd, key, flags, ulen, payload);
            && |b| == 46 + |payload| && b[0] == 1 && b[1..33] == key && b[33] == flags && b[46..] == payload
            && FromBigEndian(b[34..38]) == ulen && FromBigEndian(b[38..42]) == |payload|
            && FromBigEndian(b[42..46]) == cd.crc(b[..42] + [0, 0, 0, 0] + b[46..])
  {
    hide ToBigEndian, FromBigEndian, Header, Front;
    var crc := cd.crc(Header(key, flags, ulen, |payload|, 0) + payload);
    HeaderFields(key, flags, ulen, |payload|, crc, payload);
    ZeroHeader(key, flags, ulen, |payload|);
  }

  /** The reader accepts nothing but records: what it accepts is the record of the header that it
      reports and of the bytes behind it, and well-formed. */
  lemma AcceptedIsRecord(cd: Codecs, b: Bytes)
    requires ParseRecord(cd, b).Some?
    ensures var h := ParseRecord(cd, b).value;
            && |b| >= 46 + h.slen && Wellformed(h.key, h.flags, h.ulen, h.slen)
            && RecordBytes(cd, h.key, h.flags, h.ulen, b[46..46 + h.slen]) == b[..46 + h.slen]
            && FromBigEndian(b[42..46]) == cd.crc(b[..42] + [0, 0, 0, 0] + b[46..46 + h.slen])
  {
    hide ToBigEndian, FromBigEndian, StoreKey.Canonical, Header, Front;
    var h := ParseRecord(cd, b).value;
    var payload := b[46..46 + h.slen];
    FrontIs(b, h);
    ZeroHeader(h.key, h.flags, h.ulen, h.slen);
    ToFromBigEndian(b[42..46]);
    HeaderIs(h.key, h.flags, h.ulen, h.slen, U32(b[42..46]));
    assert b[..46 + h.slen] == b[..42] + b[42..46] + payload;
  }

  lemma HeaderIs(key: Bytes, flags: u8, ulen: nat, slen: nat, crc: u32)
    ensures Header(key, flags, ulen, slen, crc) == Front(key, flags, ulen, slen) + ToBigEndian(crc, 4)
  {
  }

  lemma FrontIs(b: Bytes, h: RecordHeader)
    requires |b| >= 46 && b[0] == TAG_CHUNK && h == RecordHeader(b[1..33], b[33], U32(b[34..38]), U32(b[38..42]))
    ensures Front(h.key, h.flags, h.ulen, h.slen) == b[..42]
  {
    hide ToBigEndian, FromBigEndian;
    ToFromBigEndian(b[34..38]);
    ToFromBigEndian(b[38..42]);
    assert b[..42] == [b[0]] + b[1..33] + [b[33]] + b[34..38] + b[38..42];
  }

  /** A damaged record of the same length is accepted only if its bytes collide with those of the
      written one under the checksum, or the stored checksum itself was damaged to match. */
  lemma DamageCollides(cd: Codecs, key: Bytes, flags: u8, ulen: u32, payload: Bytes, b: Bytes)
    requires |key| == 32 && |payload| < TWO32
    requires ParseRecord(cd, b).Some? && |b| == 46 + ParseRecord(cd, b).value.slen
    requires var a := RecordBytes(cd, key, flags, ulen, payload); a != b && a[42..46] == b[42..46]
    ensures var a := RecordBytes(cd, key, flags, ulen, payload);
            var x, y := a[..42] + [0, 0, 0, 0] + a[46..], b[..42] + [0, 0, 0, 0] + b[46..];
            x != y && cd.crc(x) == cd.crc(y)
  {
    hide RecordBytes, ParseRecord, FromBigEndian;
    var a := RecordBytes(cd, key, flags, ulen, payload);
    RecordLayout(cd, key, flags, ulen, payload);
    AcceptedIsRecord(cd, b);
    assert b[46..|b|] == b[46..];
    if a[..42] + [0, 0, 0, 0] + a[46..] == b[..42] + [0, 0, 0, 0] + b[46..] {
      SameButChecksum(a, b);
    }
  }

  lemma SameButChecksum(a: Bytes, b: Bytes)
    requires |a| >= 46 && |b| >= 46 && a[42..46] == b[42..46]
    requires a[..42] + [0, 0, 0, 0] + a[46..] == b[..42] + [0, 0, 0, 0] + b[46..]
    ensures a == b
  {
    var x, y := a[..42] + [0, 0, 0, 0] + a[46..], b[..42] + [0, 0, 0, 0] + b[46..];
    assert a[..42] == x[..42] == y[..42] == b[..42] && a[46..] == x[46..] == y[46..] == b[46..];
    assert a == a[..42] + a[42..46] + a[46..] && b == b[..42] + b[42..46] + b[46..];
  }

  // ----- Streams.

  datatype Object = Object(key: Bytes, data: Bytes)

  /** An object and the compression it is written with. */
  datatype Entry = Entry(obj: Object, compression: Compression)

  predicate Writable(e: Entry) {
    StoreKey.Canonical(e.obj.key) && |e.obj.data| <= MAX_PAYLOAD && ValidCompression(e.compression)
  }

  predicate AllWritable(es: seq<Entry>) {
    forall i :: 0 <= i < |es| ==> Writable(es[i])
  }

  function EntryBytes(cd: Codecs, e: Entry): Bytes {
    Encoded(cd, e.obj.key, e.obj.data, e.compression)
  }

  function Records(cd: Codecs, es: seq<Entry>): Bytes {
    if |es| == 0 then [] else EntryBytes(cd, es[0]) + Records(cd, es[1..])
  }

  function Stream(cd: Codecs, es: seq<Entry>): Bytes {
    MAGIC + (Records(cd, es) + [TAG_END])
  }

  function Objects(es: seq<Entry>): seq<Object> {
    seq(|es|, i requires 0 <= i < |es| => es[i].obj)
  }

  datatype One = Item(obj: Object, rest: Bytes) | EndMark | Malformed

  /** The record at the start of `s`, or the end marker. */
  function ReadOne(cd: Codecs, s: Bytes): (r: One)
    ensures r.Item? ==> |r.rest| < |s|
  {
    if s == [] then Malformed
    else if s[0] == TAG_END then EndMark
    else if s[0] != TAG_CHUNK || |s| < REC_HEADER_SIZE then Malformed
    else
      var slen := U32(s[38..42]);
      if slen > MAX_PAYLOAD || |s| < REC_HEADER_SIZE + slen then Malformed
      else
        var full := s[..REC_HEADER_SIZE + slen];
        var rec := ParseRecord(cd, full);
        if rec.None? then Malformed
        else
          var payload := DecodePayload(cd, rec.value.flags, rec.value.ulen, full[REC_HEADER_SIZE..]);
          if payload.None? then Malformed
          else Item(Object(rec.value.key, payload.value), s[REC_HEADER_SIZE + slen..])
  }

  /** Everything a stream yields, and whether it ended cleanly. */
  datatype Yield = Yield(objects: seq<Object>, clean: bool)

  function ReadRecords(cd: Codecs, s: Bytes): Yield
    decreases |s|
  {
    match ReadOne(cd, s)
    case EndMark => Yield([], true)
    case Malformed => Yield([], false)
    case Item(obj, rest) =>
      var y := ReadRecords(cd, rest);
      Yield([obj] + y.objects, y.clean)
  }

  function ReadStream(cd: Codecs, s: Bytes): Yield {
    if |s| < 8 || s[..8] != MAGIC then Yield([], false) else ReadRecords(cd, s[8..])
  }

  lemma EncodedShape(cd: Codecs, e: Entry) returns (flags: u8, payload: Bytes)
    requires Writable(e) && Lossless(cd)
    ensures EntryBytes(cd, e) == RecordBytes(cd, e.obj.key, flags, |e.obj.data|, payload)
    ensures Wellformed(e.obj.key, flags, |e.obj.data|, |payload|)
    ensures DecodePayload(cd, flags, |e.obj.data|, payload) == Some(e.obj.data)
  {
    hide RecordBytes, StoreKey.Canonical;
    var comp := Compress(cd, e.compression, e.obj.data);
    if comp.Some? {
      flags, payload := CodecOf(e.compression), comp.value;
    } else {
      flags, payload := CODEC_RAW, e.obj.data;
    }
  }

  /** A written record is the next item, whatever follows. */
  lemma EntryReads(cd: Codecs, e: Entry, z: Bytes)
    requires Writable(e) && Lossless(cd)
    ensures ReadOne(cd, EntryBytes(cd, e) + z) == Item(e.obj, z)
  {
    hide ParseRecord, Lossless, Writable, DecodePayload, U32, Header;
    var flags, payload := EncodedShape(cd, e);
    var b := EntryBytes(cd, e);
    var s := b + z;
    RecordHead(cd, e.obj.key, flags, |e.obj.data|, payload, z);
    assert s[..46 + |payload|] == b && s[46 + |payload|..] == z;
    RecordParses(cd, e.obj.key, flags, |e.obj.data|, payload, []);
    assert b + [] == b;
  }

  lemma RecordHead(cd: Codecs, key: Bytes, flags: u8, ulen: nat, payload: Bytes, z: Bytes)
    requires Wellformed(key, flags, ulen, |payload|)
    ensures var b := RecordBytes(cd, key, flags, ulen, payload);
            && |b| == 46 + |payload| && (b + z)[0] == TAG_CHUNK && U32((b + z)[38..42]) == |payload| <= MAX_PAYLOAD
            && b[46..] == payload
  {
    hide ToBigEndian, U32, StoreKey.Canonical, Header;
    KeyLength(key);
    var crc := cd.crc(Header(key, flags, ulen, |payload|, 0) + payload);
    HeaderFields(key, flags, ulen, |payload|, crc, payload + z);
    assert RecordBytes(cd, key, flags, ulen, payload) + z == Header(key, flags, ulen, |payload|, crc) + (payload + z);
    assert RecordBytes(cd, key, flags, ulen, payload)[46..] == payload;
  }

  /** A clean stream yields every object. */
  lemma {:induction false} StreamReads(cd: Codecs, es: seq<Entry>)
    requires AllWritable(es) && Lossless(cd)
    ensures ReadRecords(cd, Records(cd, es) + [TAG_END]) == Yield(Objects(es), true)
    decreases |es|
  {
    hide ReadOne, EntryBytes, Lossless, Writable;
    var s := Records(cd, es) + [TAG_END];
    if |es| == 0 {
      assert s == [TAG_END];
      EndReads(cd);
    } else {
      var z := Records(cd, es[1..]) + [TAG_END];
      assert s == EntryBytes(cd, es[0]) + z;
      EntryReads(cd, es[0], z);
      StreamReads(cd, es[1..]);
      assert Objects(es) == [es[0].obj] + Objects(es[1..]);
    }
  }

  lemma EndReads(cd: Codecs)
    ensures ReadOne(cd, [TAG_END]) == EndMark
  {
  }

  /** A record cut short anywhere is malformed. */
  lemma CutRecord(cd: Codecs, e: Entry, n: nat)
    requires Writable(e) && Lossless(cd) && n < |EntryBytes(cd, e)|
    ensures ReadOne(cd, EntryBytes(cd, e)[..n]) == Malformed
  {
    hide Lossless, Writable, ParseRecord, DecodePayload, U32, Wellformed;
    var flags, payload := EncodedShape(cd, e);
    var b := EntryBytes(cd, e);
    RecordHead(cd, e.obj.key, flags, |e.obj.data|, payload, []);
    assert b + [] == b;
    var s := b[..n];
    assert n > 0 ==> s[0] == b[0];
    assert n >= 46 ==> s[38..42] == b[38..42];
  }

  /** How many of the records lie wholly within the first `n` bytes. */
  function Whole(cd: Codecs, es: seq<Entry>, n: nat): (k: nat)
    ensures k <= |es|
  {
    if |es| == 0 || n < |EntryBytes(cd, es[0])| then 0
    else 1 + Whole(cd, es[1..], n - |EntryBytes(cd, es[0])|)
  }

  lemma {:induction false} WholeExact(cd: Codecs, es: seq<Entry>, n: nat, j: nat)
    requires j <= |es|
    ensures j <= Whole(cd, es, n) <==> |Records(cd, es[..j])| <= n
    decreases |es|
  {
    hide EntryBytes;
    if j > 0 {
      assert es[..j][0] == es[0] && es[..j][1..] == es[1..][..j - 1];
      if n >= |EntryBytes(cd, es[0])| {
        WholeExact(cd, es[1..], n - |EntryBytes(cd, es[0])|, j - 1);
      }
    }
  }

  /** Every proper prefix of the records and the end marker yields the objects of the records that are
      whole, and then fails. */
  lemma {:induction false} PrefixFails(cd: Codecs, es: seq<Entry>, n: nat)
    requires AllWritable(es) && Lossless(cd) && n < |Records(cd, es)| + 1
    ensures ReadRecords(cd, (Records(cd, es) + [TAG_END])[..n]) == Yield(Objects(es[..Whole(cd, es, n)]), false)
    decreases |es|
  {
    hide ReadOne, EntryBytes, Lossless, Writable;
    var s := Records(cd, es) + [TAG_END];
    if |es| == 0 {
      assert s[..n] == [];
      EmptyFails(cd);
    } else {
      var b := EntryBytes(cd, es[0]);
      var z := Records(cd, es[1..]) + [TAG_END];
      assert s == b + z;
      if n < |b| {
        assert s[..n] == b[..n];
        CutRecord(cd, es[0], n);
      } else {
        assert s[..n] == b + z[..n - |b|];
        EntryReads(cd, es[0], z[..n - |b|]);
        PrefixFails(cd, es[1..], n - |b|);
        var k := Whole(cd, es[1..], n - |b|);
        assert es[..1 + k] == [es[0]] + es[1..][..k];
        assert Objects(es[..1 + k]) == [es[0].obj] + Objects(es[1..][..k]);
      }
    }
  }

  lemma EmptyFails(cd: Codecs)
    ensures ReadOne(cd, []) == Malformed
  {
  }

  /** Reading what was written gives the objects back, under any mix of compressions. */
  lemma RoundTrip(cd: Codecs, es: seq<Entry>)
    requires AllWritable(es) && Lossless(cd)
    ensures ReadStream(cd, Stream(cd, es)) == Yield(Objects(es), true)
  {
    hide Records, ReadRecords;
    StreamReads(cd, es);
    assert Stream(cd, es)[..8] == MAGIC && Stream(cd, es)[8..] == Records(cd, es) + [TAG_END];
  }

  /** How many records of a stream lie wholly before a cut. */
  function WholeBefore(cd: Codecs, es: seq<Entry>, n: nat): (k: nat)
    ensures k <= |es|
  {
    if n < 8 then 0 else Whole(cd, es, n - 8)
  }

  /** They are as many as can be: the magic and the first `j` records fit before the cut exactly for
      those `j`. */
  lemma WholeBeforeExact(cd: Codecs, es: seq<Entry>, n: nat, j: nat)
    requires 0 < j <= |es|
    ensures j <= WholeBefore(cd, es, n) <==> |MAGIC + Records(cd, es[..j])| <= n
  {
    hide Records, Whole;
    if n >= 8 {
      WholeExact(cd, es, n - 8, j);
    }
  }

  /** A stream cut short anywhere yields the objects whose records lie wholly before the cut, and then
      an error. */
  lemma Truncated(cd: Codecs, es: seq<Entry>, n: nat)
    requires AllWritable(es) && Lossless(cd) && n < |Stream(cd, es)|
    ensures ReadStream(cd, Stream(cd, es)[..n]) == Yield(Objects(es[..WholeBefore(cd, es, n)]), false)
  {
    hide Records, ReadRecords, Whole;
    var s := Stream(cd, es);
    if n >= 8 {
      assert s[..n][..8] == MAGIC && s[..n][8..] == (Records(cd, es) + [TAG_END])[..n - 8];
      PrefixFails(cd, es, n - 8);
    }
  }
}
