/** The tar writer: header blocks, extended headers before them, bodies and padding. */
module TarWriting {
  import opened Bits
  import opened ByteOrder
  import opened Endian
  import PathClean
  import opened PaxText
  import opened TarBlock
  import opened TarChecks
  import opened TarFields
  import opened TarFormats
  import opened TarHeader
  import opened TarParse

  const MAX_SPECIAL_FILE_SIZE: nat := 0x10_0000

  /** "PaxHeaders.0" */
  const PAX_HEADERS: Bytes := [0x50, 0x61, 0x78, 0x48, 0x65, 0x61, 0x64, 0x65, 0x72, 0x73, 0x2E, 0x30]

  /** "GlobalHead.0.0" */
  const GLOBAL_HEAD: Bytes := [0x47, 0x6C, 0x6F, 0x62, 0x61, 0x6C, 0x48, 0x65, 0x61, 0x64, 0x2E, 0x30, 0x2E, 0x30]

  // ----- What a header is written as.

  function RoundToSecond(t: Time): Time {
    var s: int := t.sec;
    Time(if t.nsec >= 500_000_000 then Wrap64(s + 1) else t.sec, 0)
  }

  /** The header actually written: no legacy type flag, and whole seconds unless a format was chosen. */
  function Prepared(h: Header): Header {
    var h1 := if h.typeflag != TYPE_REG_A then h
              else h.(typeflag := if EndsWithSlash(h.name) then TYPE_DIR else TYPE_REG);
    if h.format != NO_FORMATS then h1
    else h1.(modTime := if h.modTime.Some? then Some(RoundToSecond(h.modTime.value)) else None,
             accessTime := None, changeTime := None)
  }

  /** The number of body bytes that follow a header. */
  function BodySize(h: Header): nat
    requires HeaderOnly(h.typeflag) || h.size >= 0
  {
    if HeaderOnly(h.typeflag) then 0 else h.size
  }

  function TrimRightSlashes(s: Bytes): Bytes {
    s[..TrimSlashes(s)]
  }

  /** The name of a special file: ASCII, at most 100 bytes, no slash at the end. */
  function SpecialName(name: Bytes): Bytes {
    var a := ToAscii(name);
    TrimRightSlashes(if |a| > NAME_SIZE then a[..NAME_SIZE] else a)
  }

  /** Field `i` of the header block of a special file. */
  function SpecialPart(name: Bytes, size: i64, flag: u8, i: nat): (f: Bytes)
    requires i < FIELDS
    ensures |f| == Width(i)
  {
    match i
    case 0 => Str(100, SpecialName(name))
    case 1 => Oct(8, 0)
    case 2 => Oct(8, 0)
    case 3 => Oct(8, 0)
    case 4 => Oct(12, size)
    case 5 => Oct(12, 0)
    case 8 => [flag]
    case _ => Zeros(Width(i))
  }

  function SpecialParts(name: Bytes, size: i64, flag: u8): (parts: Parts)
    ensures Sized(parts)
  {
    seq(FIELDS, i requires 0 <= i < FIELDS => SpecialPart(name, size, flag, i))
  }

  function SpecialBlock(name: Bytes, size: i64, flag: u8): (b: Bytes)
    ensures |b| == BLOCK_SIZE
  {
    ConcatLaid(Sealed(SpecialParts(name, size, flag)));
    Concat(Sealed(SpecialParts(name, size, flag)))
  }

  /** The name of the extended header of `name`. */
  function ExtendedName(name: Bytes): Bytes {
    var i := LastIndex(name, SLASH);
    var dir, file := if i == |name| then [] else name[..i + 1], if i == |name| then name else name[i + 1..];
    PathClean.Clean((if dir == [] then [] else dir + [SLASH]) + PAX_HEADERS + [SLASH] + file)
  }

  /** A special file with its data, up to the next block. */
  function SpecialFile(name: Bytes, data: Bytes, flag: u8): Bytes
    requires |data| <= MAX_SPECIAL_FILE_SIZE
  {
    SpecialBlock(name, |data|, flag) + data
  }

  /** The name field and prefix field of a ustar header. */
  function UstarName(name: Bytes): (r: (Bytes, Bytes))
  {
    if SplitUstar(name).Some? then SplitUstar(name).value else ([], name)
  }

  function UstarBlock(h: Header): Bytes {
    HeaderBlock(h.(name := UstarName(h.name).1), false, UstarName(h.name).0)
  }

  /** What a header makes the writer emit: the bytes, and the body and padding it then expects. */
  datatype Emitted = Nothing | Emitted(bytes: Bytes, remaining: nat, pad: nat)

  ghost function PaxEmits(h: Header, records: Records): Emitted
    requires AllValid(records) && (HeaderOnly(h.typeflag) || h.size >= 0)
  {
    var data := FormatRecords(records);
    var n := BodySize(h);
    if h.typeflag == TYPE_XGLOBAL_HEADER then
      if |data| > MAX_SPECIAL_FILE_SIZE then Nothing
      else Emitted(SpecialFile(if h.name == [] then GLOBAL_HEAD else h.name, data, TYPE_XGLOBAL_HEADER), 0, Padding(|data|))
    else if records == map[] then Emitted(HeaderBlock(h, true, []), n, Padding(n))
    else if |data| > MAX_SPECIAL_FILE_SIZE then Nothing
    else
      Emitted(SpecialFile(ExtendedName(h.name), data, TYPE_XHEADER) + Zeros(Padding(|data|)) + HeaderBlock(h, true, []),
              n, Padding(n))
  }

  ghost function HeaderEmits(h: Header): Emitted {
    var p := Prepared(h);
    match AllowedFormats(p)
    case Refused => Nothing
    case Allowed(formats, records) =>
      if formats.ustar then Emitted(UstarBlock(p), BodySize(p), Padding(BodySize(p)))
      else if formats.pax then PaxEmits(p, records)
      else Nothing
  }

  // ----- Packing blocks.

  lemma NewBlock(b: Bytes)
    requires b == Zeros(BLOCK_SIZE)
    ensures Laid(b, ZeroParts())
  {
    ZerosLaid(b);
  }

  /** The block of a header, as `write_ustar_header` and `write_pax_header` pack it; `fits` tells
      whether every field did. */
  method PackHeader(h: Header, ascii: bool, prefix: Bytes) returns (blk: Bytes, fits: bool)
    ensures blk == HeaderBlock(h, ascii, prefix)
    ensures fits == (FieldsFit(h, ascii) && |prefix| <= 155)
  {
    hide Laid, HeaderPart, Sealed, Text, FieldsFit, HeaderParts;
    var a := new u8[BLOCK_SIZE](_ => 0);
    assert a[..] == Zeros(BLOCK_SIZE);
    NewBlock(a[..]);
    var f := new Formatter();
    Template(a, f, h, ascii);
    PrefixPart(h, ascii, prefix);
    f.FormatString(a, PREFIX_FIELD, prefix, HeaderParts(h, ascii, []));
    SetFormat(a, HeaderParts(h, ascii, prefix));
    LaidIs(a[..], Sealed(HeaderParts(h, ascii, prefix)));
    return a[..], !f.fieldTooLong;
  }

  lemma PrefixPart(h: Header, ascii: bool, prefix: Bytes)
    ensures var parts := HeaderParts(h, ascii, []);
            parts[PREFIX_FIELD := StringField(parts[PREFIX_FIELD], prefix)] == HeaderParts(h, ascii, prefix)
  {
    hide Text, Oct, Seconds;
    assert StringField(Zeros(155), []) == Zeros(155);
    var parts := HeaderParts(h, ascii, []);
    var a, b := parts[PREFIX_FIELD := StringField(parts[PREFIX_FIELD], prefix)], HeaderParts(h, ascii, prefix);
    forall i | 0 <= i < FIELDS ensures a[i] == b[i] {
    }
  }

  /** The same order of filling as the template's, with only some fields. */
  function SpecialRank(i: nat): nat {
    match i
    case 8 => 0 case 0 => 1 case 1 => 2 case 2 => 3 case 3 => 4 case 4 => 5 case 5 => 6
    case _ => 7 + i
  }

  function SpecialFilled(name: Bytes, size: i64, flag: u8, n: nat): (parts: Parts) {
    seq(FIELDS, i requires 0 <= i < FIELDS =>
      if SpecialRank(i) < n then SpecialPart(name, size, flag, i) else Zeros(Width(i)))
  }

  lemma SpecialFillOne(name: Bytes, size: i64, flag: u8, n: nat, i: nat)
    requires i < FIELDS && SpecialRank(i) == n < 7
    ensures SpecialFilled(name, size, flag, n)[i := SpecialPart(name, size, flag, i)] == SpecialFilled(name, size, flag, n + 1)
    ensures SpecialFilled(name, size, flag, n)[i] == Zeros(Width(i))
  {
    hide SpecialPart, Width;
    var a := SpecialFilled(name, size, flag, n)[i := SpecialPart(name, size, flag, i)];
    var b := SpecialFilled(name, size, flag, n + 1);
    forall j | 0 <= j < FIELDS ensures a[j] == b[j] {
    }
  }

  lemma SpecialEnds(name: Bytes, size: i64, flag: u8)
    ensures SpecialFilled(name, size, flag, 0) == ZeroParts()
    ensures SpecialFilled(name, size, flag, 7) == SpecialParts(name, size, flag)
  {
    hide SpecialName, Str, Oct, Width;
    var a, b := SpecialFilled(name, size, flag, 7), SpecialParts(name, size, flag);
    forall j | 0 <= j < FIELDS ensures a[j] == b[j] {
    }
  }

  method PutNumber(f: Formatter, a: array<u8>, i: nat, x: i64, ghost name: Bytes, ghost size: i64, ghost flag: u8, ghost n: nat)
    requires a.Length == BLOCK_SIZE && i < FIELDS && SpecialRank(i) == n < 7 && 2 <= Width(i) <= 12
    requires Laid(a[..], SpecialFilled(name, size, flag, n)) && SpecialPart(name, size, flag, i) == Oct(Width(i), x)
    modifies f, a
    ensures Laid(a[..], SpecialFilled(name, size, flag, n + 1))
    ensures f.fieldTooLong == (old(f.fieldTooLong) || !FitsOctal(Width(i), x))
  {
    hide SpecialPart, SpecialFilled, FitsOctal;
    SpecialFillOne(name, size, flag, n, i);
    f.FormatOctal(a, i, x, SpecialFilled(name, size, flag, n));
  }

  /** The block that `write_raw_file` packs. */
  method PackSpecial(name: Bytes, size: i64, flag: u8) returns (blk: Bytes, fits: bool)
    ensures blk == SpecialBlock(name, size, flag)
    ensures fits == FitsOctal(12, size)
  {
    hide Laid, Sealed, SpecialFilled, SpecialName, Oct, Str, FitsOctal;
    var a := new u8[BLOCK_SIZE](_ => 0);
    assert a[..] == Zeros(BLOCK_SIZE);
    NewBlock(a[..]);
    SpecialEnds(name, size, flag);
    SpecialNameFits(name);
    SpecialFillOne(name, size, flag, 0, 8);
    PutField(a, TYPE_FIELD, [flag], SpecialFilled(name, size, flag, 0));
    var f := new Formatter();
    SpecialFillOne(name, size, flag, 1, 0);
    PutName(f, a, SpecialName(name), SpecialFilled(name, size, flag, 1));
    PutNumber(f, a, MODE_FIELD, 0, name, size, flag, 2);
    PutNumber(f, a, UID_FIELD, 0, name, size, flag, 3);
    PutNumber(f, a, GID_FIELD, 0, name, size, flag, 4);
    PutNumber(f, a, SIZE_FIELD, size, name, size, flag, 5);
    PutNumber(f, a, MTIME_FIELD, 0, name, size, flag, 6);
    SetFormat(a, SpecialParts(name, size, flag));
    LaidIs(a[..], Sealed(SpecialParts(name, size, flag)));
    ZeroFits();
    return a[..], !f.fieldTooLong;
  }

  method PutName(f: Formatter, a: array<u8>, s: Bytes, ghost parts: Parts)
    requires a.Length == BLOCK_SIZE && Laid(a[..], parts) && parts[NAME_FIELD] == Zeros(100) && |s| <= 100
    modifies f, a
    ensures Laid(a[..], parts[NAME_FIELD := Str(100, s)])
    ensures f.fieldTooLong == old(f.fieldTooLong)
  {
    f.FormatString(a, NAME_FIELD, s, parts);
  }

  lemma SpecialNameFits(name: Bytes)
    ensures |SpecialName(name)| <= 100
  {
  }

  lemma ZeroFits()
    ensures FitsOctal(8, 0) && FitsOctal(12, 0)
  {
  }

  // ----- The writer.

  datatype WriteResult = Written | Missed | Rejected

  /** `TarWriter` over a sink that accepts every byte. */
  class TarWriter {
    var out: Bytes
    var pad: nat
    var remaining: nat

    constructor ()
      ensures out == [] && pad == 0 && remaining == 0
    {
      out, pad, remaining := [], 0, 0;
    }

    /** What has been written, with the padding still owed. */
    function Settled(): Bytes
      reads this
    {
      out + Zeros(pad)
    }

    /** `flush_padding`. */
    method FlushPadding() returns (ok: bool)
      modifies this
      ensures ok == (old(remaining) == 0)
      ensures ok ==> out == old(Settled()) && pad == 0 && remaining == 0
      ensures !ok ==> out == old(out) && pad == old(pad) && remaining == old(remaining)
    {
      if remaining > 0 {
        return false;
      }
      out, pad := out + Zeros(pad), 0;
      ok := true;
    }

    /** `write_raw_header`. */
    method WriteRawHeader(blk: Bytes, size: i64, flag: u8) returns (ok: bool)
      requires HeaderOnly(flag) || size >= 0
      modifies this
      ensures ok == (old(remaining) == 0)
      ensures ok ==> out == old(Settled()) + blk
      ensures ok ==> remaining == (if HeaderOnly(flag) then 0 else size) && pad == Padding(remaining)
      ensures !ok ==> out == old(out) && pad == old(pad) && remaining == old(remaining)
    {
      ok := FlushPadding();
      if ok {
        out := out + blk;
        remaining := if HeaderOnly(flag) then 0 else size;
        pad := Padding(remaining);
      }
    }

    /** Writing all of a buffer: it must not exceed what the header announced. */
    method WriteData(data: Bytes) returns (ok: bool)
      modifies this
      ensures ok == (|data| <= old(remaining))
      ensures pad == old(pad)
      ensures out == old(out) + if ok then data else data[..old(remaining)]
      ensures remaining == if ok then old(remaining) - |data| else 0
    {
      var left := data;
      while left != []
        invariant |left| <= |data| && left == data[|data| - |left|..]
        invariant out == old(out) + data[..|data| - |left|] && pad == old(pad)
        invariant remaining == old(remaining) - (|data| - |left|)
        decreases |left|
      {
        if remaining == 0 {
          return false;
        }
        var n := if remaining < |left| then remaining else |left|;
        assert data[..|data| - |left| + n] == data[..|data| - |left|] + left[..n];
        out, remaining, left := out + left[..n], remaining - n, left[n..];
      }
      ok := true;
    }

    /** `write_raw_file`. */
    method WriteRawFile(name: Bytes, data: Bytes, flag: u8) returns (ok: bool)
      requires |data| <= MAX_SPECIAL_FILE_SIZE && !HeaderOnly(flag)
      modifies this
      ensures ok == (old(remaining) == 0)
      ensures ok ==> out == old(Settled()) + SpecialFile(name, data, flag) && remaining == 0 && pad == Padding(|data|)
      ensures !ok ==> out == old(out) && pad == old(pad) && remaining == old(remaining)
    {
      hide SpecialBlock, FitsOctal, Padding;
      var blk, fits := PackSpecial(name, |data|, flag);
      assert fits by { SmallFits(|data|); }
      ok := WriteRawHeader(blk, |data|, flag);
      if ok {
        var _ := WriteData(data);
        assert old(Settled()) + blk + data == old(Settled()) + (blk + data);
      }
    }

    /** `write_ustar_header`: the checks made before rule out a field that is too long. */
    method WriteUstarHeader(h: Header) returns (ok: bool)
      requires AllowedFormats(h).Allowed? && AllowedFormats(h).formats.ustar
      modifies this
      ensures ok == (old(remaining) == 0)
      ensures ok ==> out == old(Settled()) + UstarBlock(h)
      ensures ok ==> remaining == BodySize(h) && pad == Padding(remaining)
      ensures !ok ==> out == old(out) && pad == old(pad) && remaining == old(remaining)
    {
      hide AllowedFormats, HeaderBlock, FieldsFit, Padding, SplitUstar;
      UstarFits(h);
      var prefix, name := UstarName(h.name).0, UstarName(h.name).1;
      var blk, fits := PackHeader(h.(name := name), false, prefix);
      assert fits;
      ok := WriteRawHeader(blk, h.size, h.typeflag);
    }

    /** `write_pax_header`. */
    method WritePaxHeader(h: Header, records: Records) returns (ok: bool)
      requires AllValid(records) && (HeaderOnly(h.typeflag) || h.size >= 0) && remaining == 0
      modifies this
      ensures ok == PaxEmits(h, records).Emitted?
      ensures var e := PaxEmits(h, records);
              if ok then out == old(Settled()) + e.bytes && remaining == e.remaining && pad == e.pad
              else out == old(out) && pad == old(pad) && remaining == old(remaining)
    {
      hide HeaderBlock, SpecialFile, FormatRecords, Padding, ExtendedName;
      var isGlobal := h.typeflag == TYPE_XGLOBAL_HEADER;
      ghost var before, x := Settled(), [];
      if records != map[] || isGlobal {
        ok := WriteExtended(h.name, records, isGlobal);
        if !ok || isGlobal {
          return;
        }
        x := SpecialFile(ExtendedName(h.name), FormatRecords(records), TYPE_XHEADER) + Zeros(pad);
      }
      assert Settled() == before + x;
      var blk, _ := PackHeader(h, true, []);
      ok := WriteRawHeader(blk, h.size, h.typeflag);
      assert (before + x) + blk == before + (x + blk);
    }

    /** The extended header file of `write_pax_header`. */
    method WriteExtended(name: Bytes, records: Records, isGlobal: bool) returns (ok: bool)
      requires AllValid(records) && remaining == 0
      modifies this
      ensures ok == (|FormatRecords(records)| <= MAX_SPECIAL_FILE_SIZE)
      ensures ok ==> remaining == 0 && pad == Padding(|FormatRecords(records)|)
      ensures ok ==>
                out == old(Settled())
                       + if isGlobal
                         then SpecialFile(if name == [] then GLOBAL_HEAD else name, FormatRecords(records), TYPE_XGLOBAL_HEADER)
                         else SpecialFile(ExtendedName(name), FormatRecords(records), TYPE_XHEADER)
      ensures !ok ==> out == old(out) && pad == old(pad) && remaining == old(remaining)
    {
      hide SpecialFile, FormatRecords, Padding, ExtendedName;
      var data := RecordData(records);
      var file := ExtendedHeaderName(name, isGlobal);
      if |data| > MAX_SPECIAL_FILE_SIZE {
        return false;
      }
      ok := WriteRawFile(file, data, if isGlobal then TYPE_XGLOBAL_HEADER else TYPE_XHEADER);
    }

    /** `write_header`. */
    method WriteHeader(hdr: Header) returns (r: WriteResult)
      modifies this
      ensures r == (if old(remaining) > 0 then Missed else if HeaderEmits(hdr).Emitted? then Written else Rejected)
      ensures r == Written ==> out == old(Settled()) + HeaderEmits(hdr).bytes
      ensures r == Written ==> remaining == HeaderEmits(hdr).remaining && pad == HeaderEmits(hdr).pad
    {
      hide UstarBlock, PaxEmits, Unwritable, Padding;
      var ok := FlushPadding();
      if !ok {
        return Missed;
      }
      assert out + Zeros(0) == out;
      var h := Prepared(hdr);
      var a := ComputeAllowed(h);
      if a.Refused? {
        return Rejected;
      }
      assert HeaderOnly(h.typeflag) || h.size >= 0 by { AllowedSize(h); }
      if a.formats.ustar {
        ok := WriteUstarHeader(h);
        return Written;
      } else if a.formats.pax {
        ok := WritePaxHeader(h, a.records);
        return if ok then Written else Rejected;
      } else {
        return Rejected;
      }
    }

    /** `close`: the padding, then two zero blocks. */
    method Close() returns (ok: bool)
      modifies this
      ensures ok == (old(remaining) == 0)
      ensures ok ==> out == old(Settled()) + Zeros(2 * BLOCK_SIZE)
    {
      ok := FlushPadding();
      if ok {
        ghost var settled := out;
        for i := 0 to 2
          invariant out == settled + Zeros(i * BLOCK_SIZE)
        {
          out := out + Zeros(BLOCK_SIZE);
          assert Zeros(i * BLOCK_SIZE) + Zeros(BLOCK_SIZE) == Zeros((i + 1) * BLOCK_SIZE);
        }
      }
    }
  }

  lemma AllowedSize(h: Header)
    requires AllowedFormats(h).Allowed?
    ensures HeaderOnly(h.typeflag) || h.size >= 0
  {
    hide Remaining, AllRecords, AllValid;
  }

  /** The extended header's data: every record, in key order. */
  method RecordData(records: Records) returns (data: Bytes)
    requires AllValid(records)
    ensures data == FormatRecords(records)
  {
    hide FormatRecords, FormatRecord, ValidRecord;
    data := [];
    var todo := records;
    while todo != map[]
      invariant AllValid(todo) && data + FormatRecords(todo) == FormatRecords(records)
      decreases |todo|
    {
      FormatUnfold(todo);
      LeastExists(todo.Keys);
      var k :| k in todo.Keys && IsLeast(k, todo.Keys);
      OneLeast(todo.Keys, k);
      SelfCounting(k, todo[k]);
      data := data + FormatRecord(k, todo[k]).value;
      todo := todo - {k};
    }
    EmptyRecords(map[]);
  }

  method ExtendedHeaderName(name: Bytes, isGlobal: bool) returns (r: Bytes)
    ensures r == if !isGlobal then ExtendedName(name) else if name == [] then GLOBAL_HEAD else name
  {
    hide PathClean.Clean;
    if isGlobal {
      return if name == [] then GLOBAL_HEAD else name;
    }
    var i := LastIndex(name, SLASH);
    var dir, file := if i == |name| then [] else name[..i + 1], if i == |name| then name else name[i + 1..];
    r := PathClean.CleanPath((if dir == [] then [] else dir + [SLASH]) + PAX_HEADERS + [SLASH] + file);
  }

  lemma SmallFits(n: nat)
    requires n <= MAX_SPECIAL_FILE_SIZE
    ensures FitsOctal(12, n)
  {
    EightTo11();
  }

  /** A header that ustar is allowed for fits its block. */
  lemma UstarFits(h: Header)
    requires AllowedFormats(h).Allowed? && AllowedFormats(h).formats.ustar
    ensures HeaderOnly(h.typeflag) || h.size >= 0
    ensures FieldsFit(h.(name := UstarName(h.name).1), false) && |UstarName(h.name).0| <= 155
  {
    hide Fields, AllRecords, AllValid, FitsOctal, SplitUstar;
    UstarFacts(h);
    EightTo11();
    assert h.modTime.None? ==> FitsOctal(12, Seconds(h)) by {
      ZeroFits();
    }
  }
}
