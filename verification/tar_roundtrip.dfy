/** What the writer writes, the reader reads: whole archives. */
module TarRoundTrip {
  import opened Bits
  import opened Buffers
  import opened Decimal
  import opened Endian
  import opened PaxText
  import opened TarBlock
  import opened TarChecks
  import opened TarFields
  import opened TarFormats
  import opened TarHeader
  import opened TarParse
  import opened TarReading
  import opened TarWriting

  /** Headers as the exporter builds them: pinned to pax, with a modification time. */
  predicate Pinned(h: Header) {
    h.format == ONLY_PAX && h.modTime.Some? && h.typeflag != TYPE_XGLOBAL_HEADER
  }

  /** The header read back agrees with the one written in every field, and in every record that does
      not stand for a field. */
  ghost predicate Faithful(h: Header, r: Header) {
    && r.typeflag == Prepared(h).typeflag
    && r.name == h.name && r.linkname == h.linkname && r.uname == h.uname && r.gname == h.gname
    && r.size == h.size && r.mode == h.mode && r.uid == h.uid && r.gid == h.gid
    && r.modTime == h.modTime && r.accessTime == h.accessTime && r.changeTime == h.changeTime
    && r.devmajor == h.devmajor && r.devminor == h.devminor
    && (forall k :: Carried(k) ==> Same(h.paxRecords, r.paxRecords, k))
    && (forall k :: k in r.paxRecords ==> IsBasic(k) || Carried(k))
  }

  // ----- Fields that fit read back.

  lemma TextReads(s: Bytes, w: nat, ascii: bool)
    requires w > 0 && !StringNeedsRecord(s, w)
    ensures ParseString(Str(w, Text(s, ascii))) == s
  {
    assert NUL !in s;
    StringReads(Zeros(w), s);
  }

  /** A plain ustar header reads back whole, prefix and name joined again. */
  lemma UstarReads(h: Header)
    requires AllowedFormats(h).Allowed? && AllowedFormats(h).formats.ustar && Pinned(h)
    ensures HeaderOf(UstarBlock(h)) == Some(h.(format := NO_FORMATS))
  {
    hide AllowedFormats, FitsOctal, SplitUstar, HeaderOf, HeaderBlock, ParseString, Str, StringNeedsRecord;
    UstarFacts(h);
    var prefix, name := UstarName(h.name).0, UstarName(h.name).1;
    BlockReads(h.(name := name), false, prefix);
    TextReads(h.linkname, 100, false);
    TextReads(h.uname, 32, false);
    TextReads(h.gname, 32, false);
    UstarNameReads(h.name);
  }

  lemma UstarNameReads(name: Bytes)
    requires StringNeedsRecord(name, 100) ==> SplitUstar(name).Some?
    ensures var (prefix, suffix) := UstarName(name);
            WithPrefix(ParseString(Str(155, prefix)), ParseString(Str(100, Text(suffix, false)))) == name
  {
    hide ParseString, Str;
    var (prefix, suffix) := UstarName(name);
    AsciiParts(name, prefix, suffix);
    TextReads(prefix, 155, false);
    TextReads(suffix, 100, false);
  }

  lemma AsciiParts(name: Bytes, prefix: Bytes, suffix: Bytes)
    requires (prefix, suffix) == UstarName(name) && (StringNeedsRecord(name, 100) ==> SplitUstar(name).Some?)
    ensures !StringNeedsRecord(prefix, 155) && !StringNeedsRecord(suffix, 100)
    ensures WithPrefix(prefix, suffix) == name
  {
    if SplitUstar(name).Some? {
      assert name == prefix + [SLASH] + suffix;
      forall i | 0 <= i < |prefix| ensures 0 < prefix[i] < 0x80 {
        assert prefix[i] == name[i];
      }
      forall i | 0 <= i < |suffix| ensures 0 < suffix[i] < 0x80 {
        assert suffix[i] == name[|prefix| + 1 + i];
      }
    }
  }

  // ----- Fields that do not fit come back from their records.

  lemma TextMerges(m: Records, key: Bytes, s: Bytes, w: nat)
    requires w > 0 && Own(m, key, StringNeedsRecord(s, w), s)
    ensures MergedText(m, key, ParseString(Str(w, Text(s, true)))) == s
  {
    hide ParseString, Str, ToAscii;
    if !StringNeedsRecord(s, w) {
      TextReads(s, w, true);
    }
  }

  lemma IntMerges(m: Records, key: Bytes, x: i64, w: nat)
    requires w > 0 && Own(m, key, !FitsOctal(w, x), FormatInt(x))
    ensures MergedInt(m, key, Held(w, x)) == Some(x)
  {
    ParseOfFormat(x);
  }

  lemma FormatTimeSome(t: Time)
    ensures FormatTime(t) != []
  {
    TimeRoundTrip(t);
    hide FormatTime;
    assert TimeOf([]).None?;
  }

  lemma TimeMerges(m: Records, key: Bytes, ts: Option<Time>, t: Option<Time>)
    requires TimeRecord(m, ts, key)
    requires ts.None? ==> t.None?
    requires ts.Some? && TimeInField(ts, 12, key) ==> t == ts
    ensures MergedTime(m, key, t) == Some(ts)
  {
    hide FormatTime, TimeOf;
    if ts.Some? {
      TimeRoundTrip(ts.value);
      FormatTimeSome(ts.value);
    }
  }

  /** The block of a pax header, with its records folded in, is the header. */
  lemma PaxMerges(h: Header, m: Records)
    requires h.modTime.Some? && PlainNumbersFit(h)
    requires StringRecords(m, h) && NumberRecords(m, h) && TimeRecords(m, h)
    ensures Mergeable(Shown(h, true, []), m)
    ensures Merged(Shown(h, true, []), m) == h.(paxRecords := map[], format := NO_FORMATS)
  {
    hide MergedText, MergedInt, MergedTime, ParseString, Str, Text, Own, StringNeedsRecord, FitsOctal, Held, FormatInt;
    TextMerges(m, PATH, h.name, 100);
    TextMerges(m, LINKPATH, h.linkname, 100);
    TextMerges(m, UNAME, h.uname, 32);
    TextMerges(m, GNAME, h.gname, 32);
    IntMerges(m, UID, h.uid, 8);
    IntMerges(m, GID, h.gid, 8);
    IntMerges(m, SIZE, h.size, 12);
    HeldFits(8, h.mode);
    HeldFits(8, h.devmajor);
    HeldFits(8, h.devminor);
    HeldTime(h);
    TimeMerges(m, MTIME, h.modTime, Some(Time(Held(12, Seconds(h)), 0)));
    TimeMerges(m, ATIME, h.accessTime, None);
    TimeMerges(m, CTIME, h.changeTime, None);
    assert ParseString(Str(155, [])) == [] by { NoPrefix(); }
  }

  lemma HeldFits(w: nat, x: i64)
    requires w > 0 && FitsOctal(w, x)
    ensures Held(w, x) == x
  {
  }

  lemma HeldTime(h: Header)
    requires h.modTime.Some?
    ensures TimeInField(h.modTime, 12, MTIME) ==> Time(Held(12, Seconds(h)), 0) == h.modTime.value
  {
  }

  lemma NoPrefix()
    ensures ParseString(Str(155, [])) == []
  {
    StringReads(Zeros(155), []);
  }

  /** The records written are those of the fields and those that are carried along. */
  lemma RecordFacts(h: Header)
    requires h.typeflag != TYPE_XGLOBAL_HEADER && AllValid(AllRecords(h))
    ensures var m := AllRecords(h);
            && StringRecords(m, h) && NumberRecords(m, h) && TimeRecords(m, h)
            && (forall k :: Carried(k) ==> Same(h.paxRecords, m, k))
            && (forall k :: k in m ==> IsBasic(k) || Carried(k))
  {
    hide Fields, FitsOctal, FormatInt, FormatTime, StringNeedsRecord, TimeInField;
    FieldFacts(h);
    var r, m := Fields(h).records, AllRecords(h);
    assert [] !in m;
    KeptRecords(r, m, h);
    forall k | Carried(k) ensures Same(h.paxRecords, m, k) {
      assert k in r ==> k == [];
    }
  }

  lemma KeptRecords(r: Records, m: Records, h: Header)
    requires StringRecords(r, h) && NumberRecords(r, h) && TimeRecords(r, h)
    requires forall k :: IsBasic(k) ==> Same(r, m, k)
    ensures StringRecords(m, h) && NumberRecords(m, h) && TimeRecords(m, h)
  {
    hide FitsOctal, FormatInt, FormatTime, StringNeedsRecord, TimeInField;
    assert Same(r, m, PATH) && Same(r, m, LINKPATH) && Same(r, m, UNAME) && Same(r, m, GNAME);
    assert Same(r, m, UID) && Same(r, m, GID) && Same(r, m, SIZE);
    assert Same(r, m, MTIME) && Same(r, m, ATIME) && Same(r, m, CTIME);
  }

  // ----- Blocks in a stream.

  lemma NotZeros(b: Block)
    requires KindOf(b) == Ustar
    ensures b != Zeros(512)
  {
    hide Offset, Width, OctalValue, Checksum, SignedChecksum;
    assert Field(b, MAGIC_FIELD)[0] == b[Offset(MAGIC_FIELD)] == 0x75 by {
      Offsets();
    }
  }

  lemma StepBlock(b: Block, z: Bytes)
    requires KindOf(b) == Ustar && HeaderOf(b).Some? && SizeOk(HeaderOf(b).value)
    ensures StepAt(b + z) == Done && (b + z)[..512] == b && (b + z)[512..] == z
  {
    hide HeaderOf, KindOf;
    NotZeros(b);
    assert (b + z)[..512] == b && (b + z)[512..] == z;
  }

  lemma SpecialKind(name: Bytes, size: i64, flag: u8)
    ensures KindOf(SpecialBlock(name, size, flag)) == Ustar
  {
    hide Sealed, KindOf;
    SealedKind(SpecialParts(name, size, flag), SpecialBlock(name, size, flag));
  }

  lemma SpecialField(name: Bytes, size: i64, flag: u8, i: nat)
    requires i < FIELDS && i != MAGIC_FIELD && i != VERSION_FIELD && i != CHECK_FIELD && i != CHECK_END
    ensures Field(SpecialBlock(name, size, flag), i) == SpecialPart(name, size, flag, i)
  {
    hide Concat, SpecialPart, OctalField;
    var parts := SpecialParts(name, size, flag);
    ConcatLaid(Sealed(parts));
    FieldIs(Concat(Sealed(parts)), Sealed(parts), i);
  }

  /** The header of a special file shows its type and its size. */
  lemma SpecialReads(name: Bytes, size: nat, flag: u8)
    requires size <= MAX_SPECIAL_FILE_SIZE
    ensures var h := HeaderOf(SpecialBlock(name, size, flag));
            h.Some? && h.value.typeflag == flag && h.value.size == size
  {
    hide SpecialBlock, Field, NumericValue, ParseString, Str, Oct, KindOf, FitsOctal, SpecialName;
    SpecialKind(name, size, flag);
    SpecialField(name, size, flag, MODE_FIELD);
    SpecialField(name, size, flag, UID_FIELD);
    SpecialField(name, size, flag, GID_FIELD);
    SpecialField(name, size, flag, SIZE_FIELD);
    SpecialField(name, size, flag, MTIME_FIELD);
    SpecialField(name, size, flag, TYPE_FIELD);
    SpecialField(name, size, flag, MAJOR_FIELD);
    SpecialField(name, size, flag, MINOR_FIELD);
    OctReads(8, 0);
    OctReads(12, 0);
    OctReads(12, size);
    SmallFits(size);
    assert NumericValue(Zeros(8)) == Some(0) by { ZeroNumber(); }
  }

  lemma ZeroNumber()
    ensures NumericValue(Zeros(8)) == Some(0)
  {
    ZerosRead(8);
  }

  // ----- One entry.

  /** A header written as plain ustar is the next entry. */
  lemma UstarEntry(h: Header, z: Bytes, records: Option<Records>)
    requires AllowedFormats(h).Allowed? && AllowedFormats(h).formats.ustar && Pinned(h)
    requires h.typeflag != TYPE_REG_A && records == None
    ensures SizeOk(h)
    ensures NextAt(UstarBlock(h) + z, records) == Entry(h.(format := NO_FORMATS), z, BodySize(h), Padding(BodySize(h)))
    ensures h.paxRecords == map[]
  {
    hide UstarBlock, HeaderOf, KindOf, Padding, Fields, StepAt, AllRecords, AllValid;
    UstarFacts(h);
    AllowedSize(h);
    UstarReads(h);
    UstarBlockKind(h);
    StepBlock(UstarBlock(h), z);
    NextUnfold(UstarBlock(h) + z, records);
    AllowedType(h);
  }

  lemma UstarBlockKind(h: Header)
    ensures |UstarBlock(h)| == 512 && KindOf(UstarBlock(h)) == Ustar
  {
    BlockKind(h.(name := UstarName(h.name).1), false, UstarName(h.name).0);
  }

  lemma AllowedType(h: Header)
    requires AllowedFormats(h).Allowed?
    ensures h.typeflag != TYPE_XHEADER
  {
    hide Remaining, AllRecords, AllValid;
  }

  /** The main block of a pax header, after its records or without any. */
  lemma PaxMain(h: Header, m: Records, z: Bytes, records: Option<Records>)
    requires AllowedFormats(h).Allowed? && AllowedFormats(h).formats.pax && Pinned(h) && h.typeflag != TYPE_REG_A
    requires m == AllRecords(h) && records == (if m == map[] then None else Some(m))
    ensures SizeOk(h)
    ensures NextAt(HeaderBlock(h, true, []) + z, records)
         == Entry(h.(paxRecords := m, format := NO_FORMATS), z, BodySize(h), Padding(BodySize(h)))
  {
    hide HeaderBlock, HeaderOf, KindOf, Padding, Fields, StepAt, AllRecords, AllValid, Merged, Mergeable, Shown;
    AllowedSize(h);
    AllowedType(h);
    RecordFacts(h);
    PaxNumbers(h);
    PaxMerges(h, m);
    BlockReads(h, true, []);
    BlockKind(h, true, []);
    ShownFacts(h, m);
    StepBlock(HeaderBlock(h, true, []), z);
    NextUnfold(HeaderBlock(h, true, []) + z, records);
    if m == map[] {
      NothingMerged(Shown(h, true, []));
    }
  }

  lemma ShownFacts(h: Header, m: Records)
    ensures SizeOk(Shown(h, true, [])) && Shown(h, true, []).typeflag == h.typeflag
    ensures Shown(h, true, []).paxRecords == map[]
  {
  }

  lemma PaxNumbers(h: Header)
    requires AllowedFormats(h).Allowed? && AllowedFormats(h).formats.pax
    ensures PlainNumbersFit(h)
  {
    hide Fields, AllRecords, AllValid, FitsOctal;
    FieldFacts(h);
  }

  /** An extended header and the block it applies to. */
  lemma ExtendedEntry(h: Header, m: Records, z: Bytes)
    requires AllowedFormats(h).Allowed? && AllowedFormats(h).formats.pax && Pinned(h) && h.typeflag != TYPE_REG_A
    requires m == AllRecords(h) && m != map[] && AllValid(m) && |FormatRecords(m)| <= MAX_SPECIAL_FILE_SIZE
    ensures SizeOk(h)
    ensures NextAt(SpecialFile(ExtendedName(h.name), FormatRecords(m), TYPE_XHEADER)
                   + Zeros(Padding(|FormatRecords(m)|)) + HeaderBlock(h, true, []) + z, None)
         == Entry(h.(paxRecords := m, format := NO_FORMATS), z, BodySize(h), Padding(BodySize(h)))
  {
    hide SpecialBlock, HeaderBlock, HeaderOf, KindOf, Padding, StepAt, AllRecords, AllValid, AllowedFormats,
         RecordsFrom, ExtendedName, FormatRecords, NextAt;
    var data := FormatRecords(m);
    var name := ExtendedName(h.name);
    var blk := SpecialBlock(name, |data|, TYPE_XHEADER);
    var main := HeaderBlock(h, true, []) + z;
    var rest := data + Zeros(Padding(|data|)) + main;
    assert SpecialFile(name, data, TYPE_XHEADER) + Zeros(Padding(|data|)) + HeaderBlock(h, true, []) + z == blk + rest;
    SpecialReads(name, |data|, TYPE_XHEADER);
    SpecialKind(name, |data|, TYPE_XHEADER);
    StepBlock(blk, rest);
    NextUnfold(blk + rest, None);
    assert rest[..|data|] == data && rest[|data|..] == Zeros(Padding(|data|)) + main;
    ParseOfRecords(map[], m);
    assert map[] + m == m;
    assert (Zeros(Padding(|data|)) + main)[0 + Padding(|data|)..] == main;
    PaxMain(h, m, z, Some(m));
  }

  /** The header as it comes back: the records are those that were written. */
  ghost function ReadBack(h: Header): Header {
    var p := Prepared(h);
    p.(format := NO_FORMATS,
       paxRecords := if AllowedFormats(p).Allowed? && !AllowedFormats(p).formats.ustar then AllRecords(p) else map[])
  }

  lemma PreparedFacts(h: Header)
    requires Pinned(h)
    ensures Pinned(Prepared(h)) && Prepared(h).typeflag != TYPE_REG_A
    ensures Prepared(h) == h.(typeflag := Prepared(h).typeflag)
  {
  }

  /** Whatever the representation chosen, the header that the reader returns is the one written. */
  lemma EntryReads(h: Header, z: Bytes)
    requires Pinned(h) && HeaderEmits(h).Emitted?
    ensures var e := HeaderEmits(h);
            && NextAt(e.bytes + z, None) == Entry(ReadBack(h), z, e.remaining, e.pad)
            && Faithful(h, ReadBack(h))
  {
    hide SpecialFile, HeaderBlock, UstarBlock, Padding, AllRecords, AllValid, NextAt, FormatRecords, Fields, Unwritable, Prepared;
    var p := Prepared(h);
    PreparedFacts(h);
    AllowedSize(p);
    if AllowedFormats(p).formats.ustar {
      UstarEntry(p, z, None);
    } else {
      var m := AllRecords(p);
      RecordFacts(p);
      if m == map[] {
        PaxMain(p, m, z, None);
      } else {
        ExtendedEntry(p, m, z);
      }
    }
  }

  // ----- Whole archives.

  datatype Item = Item(hdr: Header, body: Bytes)

  /** Items that the writer accepts: a header it can encode and a body of the announced size. */
  ghost predicate Accepted(items: seq<Item>) {
    forall i :: 0 <= i < |items| ==> AcceptedItem(items[i])
  }

  ghost predicate AcceptedItem(item: Item) {
    HeaderEmits(item.hdr).Emitted? && |item.body| == HeaderEmits(item.hdr).remaining
  }

  /** The bytes of items, up to the next block boundary. */
  ghost function Archive(items: seq<Item>): Bytes
    requires Accepted(items)
  {
    if |items| == 0 then []
    else
      var e := HeaderEmits(items[0].hdr);
      e.bytes + items[0].body + Zeros(e.pad) + Archive(items[1..])
  }

  /** Every item of a stream, in order; none if it is broken somewhere. */
  function ReadAll(s: Bytes, pad: nat): Option<seq<Item>>
    decreases |s|
  {
    match At(s, 0, pad, None)
    case End => Some([])
    case Bad(_) => None
    case Entry(h, rest, n, p) =>
      if |rest| < n then None
      else
        match ReadAll(rest[n..], p)
        case None => None
        case Some(items) => Some([Item(h, rest[..n])] + items)
  }

  /** The items read are those written. */
  ghost predicate SameItems(written: seq<Item>, read: seq<Item>) {
    && |written| == |read|
    && forall i :: 0 <= i < |written| ==> Faithful(written[i].hdr, read[i].hdr) && read[i].body == written[i].body
  }

  predicate AllPinned(items: seq<Item>) {
    forall i :: 0 <= i < |items| ==> Pinned(items[i].hdr)
  }

  lemma TrailerEnds(pad: nat)
    ensures ReadAll(Zeros(pad) + Zeros(1024), pad) == Some([])
  {
    var s := Zeros(pad) + Zeros(1024);
    var t := s[0 + pad..];
    assert t == Zeros(1024);
    assert t[..512] == Zeros(512) && t[512..1024] == Zeros(512);
    NextUnfold(t, None);
  }

  /** Reading an item and then the items behind it. */
  lemma ReadOne(pad: nat, bytes: Bytes, body: Bytes, h: Header, p: nat, after: Bytes)
    requires NextAt(bytes + (body + after), None) == Entry(h, body + after, |body|, p)
    requires ReadAll(after, p).Some?
    ensures ReadAll(Zeros(pad) + (bytes + (body + after)), pad) == Some([Item(h, body)] + ReadAll(after, p).value)
  {
    hide NextAt;
    var s, z := Zeros(pad) + (bytes + (body + after)), body + after;
    assert s[0 + pad..] == bytes + z;
    assert z[..|body|] == body && z[|body|..] == after;
  }

  lemma Regroup(a: Bytes, b: Bytes, c: Bytes, d: Bytes, e: Bytes, f: Bytes)
    ensures a + (b + c + d + e) + f == a + (b + (c + (d + e + f)))
  {
  }

  lemma Prepend(written: Item, read: Item, items: seq<Item>, later: seq<Item>)
    requires Faithful(written.hdr, read.hdr) && read.body == written.body && SameItems(items, later)
    ensures SameItems([written] + items, [read] + later)
  {
    hide Faithful;
  }

  /** Every archive of accepted, pinned items reads back item by item. */
  lemma {:induction false} ArchiveReads(items: seq<Item>, pad: nat) returns (read: seq<Item>)
    requires Accepted(items) && AllPinned(items)
    ensures ReadAll(Zeros(pad) + Archive(items) + Zeros(1024), pad) == Some(read)
    ensures SameItems(items, read)
    decreases |items|
  {
    hide HeaderEmits, NextAt, Faithful, Pinned, ReadBack, ReadAll, SameItems;
    if |items| == 0 {
      TrailerEnds(pad);
      assert Zeros(pad) + Archive(items) + Zeros(1024) == Zeros(pad) + Zeros(1024);
      NoItems();
      return [];
    }
    var h, body, e := items[0].hdr, items[0].body, HeaderEmits(items[0].hdr);
    var later := ArchiveReads(items[1..], e.pad);
    var after := Zeros(e.pad) + Archive(items[1..]) + Zeros(1024);
    assert AcceptedItem(items[0]);
    EntryReads(h, body + after);
    ReadOne(pad, e.bytes, body, ReadBack(h), e.pad, after);
    Regroup(Zeros(pad), e.bytes, body, Zeros(e.pad), Archive(items[1..]), Zeros(1024));
    read := [Item(ReadBack(h), body)] + later;
    Prepend(items[0], Item(ReadBack(h), body), items[1..], later);
    assert [items[0]] + items[1..] == items;
  }

  lemma NoItems()
    ensures SameItems([], [])
  {
  }

  // ----- The two classes, one after the other.

  /** Writes items one after the other; `ok` exactly when the writer accepts each of them. */
  method WriteArchive(items: seq<Item>) returns (ok: bool, bytes: Bytes)
    ensures ok == Accepted(items)
    ensures ok ==> bytes == Archive(items) + Zeros(1024)
  {
    hide HeaderEmits, Archive;
    var w := new TarWriter();
    bytes := [];
    NothingArchived();
    for i := 0 to |items|
      invariant fresh(w) && w.remaining == 0
      invariant Accepted(items[..i]) && w.Settled() == Archive(items[..i])
    {
      var r := w.WriteHeader(items[i].hdr);
      if r != Written {
        assert !AcceptedItem(items[i]);
        return false, [];
      }
      ghost var out, e := w.out, HeaderEmits(items[i].hdr);
      var written := w.WriteData(items[i].body);
      if !written || w.remaining > 0 {
        assert !AcceptedItem(items[i]);
        return false, [];
      }
      assert AcceptedItem(items[i]);
      ArchiveSnoc(items[..i], items[i]);
      assert items[..i + 1] == items[..i] + [items[i]];
      assert w.Settled() == Archive(items[..i]) + (e.bytes + items[i].body + Zeros(e.pad));
    }
    assert items[..|items|] == items;
    ok := w.Close();
    bytes := w.out;
  }

  lemma NothingArchived()
    ensures Accepted([]) && Archive([]) == []
  {
  }

  lemma {:induction false} ArchiveSnoc(items: seq<Item>, item: Item)
    requires Accepted(items) && AcceptedItem(item)
    ensures Accepted(items + [item])
    ensures var e := HeaderEmits(item.hdr);
            Archive(items + [item]) == Archive(items) + (e.bytes + item.body + Zeros(e.pad))
    decreases |items|
  {
    hide HeaderEmits;
    var all := items + [item];
    if |items| == 0 {
      assert all[1..] == [];
    } else {
      assert all[0] == items[0] && all[1..] == items[1..] + [item];
      ArchiveSnoc(items[1..], item);
    }
  }

  /** Reads every item of an archive. */
  method ReadArchive(bytes: Bytes) returns (r: Option<seq<Item>>)
    ensures r == ReadAll(bytes, 0)
  {
    hide NextAt, At;
    var src := new Source(bytes);
    var reader := new TarReader(src);
    var items: seq<Item> := [];
    NonePreceded(ReadAll(bytes, 0));
    while true
      invariant fresh(reader) && fresh(reader.src) && reader.remaining == 0
      invariant ReadAll(bytes, 0) == Preceded(items, ReadAll(reader.src.rest, reader.pad))
      decreases |reader.src.rest|
    {
      ghost var s, p := reader.src.rest, reader.pad;
      var next := reader.Next();
      if next.Bad? {
        return None;
      }
      if next == End {
        assert items + [] == items;
        return Some(items);
      }
      ghost var rest := reader.src.rest;
      Shorter(s, p);
      var wrong, body := reader.ReadWhole(reader.remaining);
      if wrong.Some? {
        return None;
      }
      PrecededByOne(items, Item(next.hdr, body), ReadAll(rest[next.remaining..], reader.pad));
      items := items + [Item(next.hdr, body)];
    }
  }

  lemma NonePreceded(r: Option<seq<Item>>)
    ensures Preceded([], r) == r
  {
    assert r.Some? ==> [] + r.value == r.value;
  }

  lemma PrecededByOne(items: seq<Item>, item: Item, r: Option<seq<Item>>)
    ensures Preceded(items, Preceded([item], r)) == Preceded(items + [item], r)
  {
    assert r.Some? ==> items + ([item] + r.value) == items + [item] + r.value;
  }

  function Preceded(items: seq<Item>, r: Option<seq<Item>>): Option<seq<Item>> {
    if r.None? then None else Some(items + r.value)
  }

  lemma Shorter(s: Bytes, pad: nat)
    ensures var e := At(s, 0, pad, None); e.Entry? ==> |e.rest| < |s|
  {
  }

  /** Writing an archive and reading it: the same names, links, types, modes, ids, sizes, times,
      device numbers, carried records and bodies, for all headers pinned to pax with a time. */
  method Transfer(items: seq<Item>) returns (ok: bool, read: seq<Item>)
    requires AllPinned(items)
    ensures ok == Accepted(items)
    ensures ok ==> SameItems(items, read)
  {
    hide SameItems, ReadAll, Accepted, AllPinned;
    var bytes;
    ok, bytes := WriteArchive(items);
    if !ok {
      return false, [];
    }
    ghost var expected := ArchiveReads(items, 0);
    assert Zeros(0) + Archive(items) + Zeros(1024) == bytes;
    var r := ReadArchive(bytes);
    return true, r.value;
  }
}
