/** Archives of any writer, told from their bytes: which header a block means, and which entries a
    stream of blocks, bodies and padding lists. */
module TarForeign {
  import opened Bits
  import opened Endian
  import opened PaxText
  import opened TarBlock
  import opened TarFields
  import opened TarHeader
  import opened TarNumbers
  import opened TarParse
  import opened TarReading
  import opened TarRoundTrip

  // ----- The checksum.

  const EIGHT_SPACES: Bytes := [0x20, 0x20, 0x20, 0x20, 0x20, 0x20, 0x20, 0x20]

  /** The bytes added up, as unsigned or as signed ones. */
  function Total(s: Bytes, signed: bool): int {
    if |s| == 0 then 0
    else
      var c: int := s[|s| - 1];
      Total(s[..|s| - 1], signed) + if signed && c >= 128 then c - 256 else c
  }

  /** The block adds up to the number in its checksum field, that field taken for spaces. */
  ghost predicate AddsUp(b: Block) {
    var c := b[..148] + EIGHT_SPACES + b[156..];
    exists x: i64 :: HoldsOctal(b[148..156], x) && (x == Total(c, false) || x == Total(c, true))
  }

  lemma {:induction false} TotalIs(b: Block, c: Bytes, n: nat)
    requires n <= 512 == |c| && forall i :: 0 <= i < 512 ==> c[i] == Counted(b, i)
    ensures Checksum(b, n) == Total(c[..n], false) && SignedChecksum(b, n) == Total(c[..n], true)
  {
    if n > 0 {
      TotalIs(b, c, n - 1);
      assert c[..n][..n - 1] == c[..n - 1] && c[..n][n - 1] == c[n - 1];
    }
  }

  lemma SumExactly(b: Block)
    ensures KindOf(b) != Unknown <==> AddsUp(b)
  {
    hide OctalValue, HoldsOctal, Checksum, SignedChecksum, Total, Field;
    var c := b[..148] + EIGHT_SPACES + b[156..];
    assert forall i :: 0 <= i < 512 ==> c[i] == Counted(b, i);
    TotalIs(b, c, 512);
    assert c[..512] == c;
    var f := b[148..156];
    forall x: i64 ensures OctalValue(f) == Some(x) <==> HoldsOctal(f, x) {
      OctalExactly(f, x);
    }
    if OctalValue(f).Some? {
      assert HoldsOctal(f, OctalValue(f).value);
    }
  }

  // ----- The fields.

  ghost predicate HoldsTime(f: Bytes, t: Option<Time>) {
    t.Some? && t.value.nsec == 0 && HoldsNumber(f, t.value.sec)
  }

  /** Fields that every format has. */
  ghost predicate CommonFields(b: Block, name: Bytes, h: Header) {
    && HoldsText(b[0..100], name) && HoldsNumber(b[100..108], h.mode)
    && HoldsNumber(b[108..116], h.uid) && HoldsNumber(b[116..124], h.gid)
    && HoldsNumber(b[124..136], h.size) && HoldsTime(b[136..148], h.modTime)
    && h.typeflag == b[156] && HoldsText(b[157..257], h.linkname)
    && h.paxRecords == map[] && h.format == NO_FORMATS
  }

  /** Fields that all but the oldest have. */
  ghost predicate OwnerFields(b: Block, h: Header) {
    && HoldsText(b[265..297], h.uname) && HoldsText(b[297..329], h.gname)
    && HoldsNumber(b[329..337], h.devmajor) && HoldsNumber(b[337..345], h.devminor)
  }

  /** A ustar block has a prefix of the name and no further times. */
  ghost predicate UstarFields(b: Block, prefix: Bytes, h: Header) {
    HoldsText(b[345..500], prefix) && h.accessTime == None && h.changeTime == None
  }

  /** A star block has a shorter prefix and both times. */
  ghost predicate StarFields(b: Block, prefix: Bytes, h: Header) {
    HoldsText(b[345..476], prefix) && HoldsTime(b[476..488], h.accessTime) && HoldsTime(b[488..500], h.changeTime)
  }

  ghost predicate Legible(f: Bytes)
    requires |f| > 0
  {
    f[0] == 0 || exists x: i64 :: HoldsNumber(f, x)
  }

  ghost predicate HoldsGnuTime(f: Bytes, t: Option<Time>)
    requires |f| > 0
  {
    if f[0] == 0 then t == None else HoldsTime(f, t)
  }

  predicate SevenBit(s: Bytes) {
    forall i :: 0 <= i < |s| ==> s[i] < 0x80
  }

  /** A GNU block may have either time and has no prefix; unless a time is illegible: then the place
      is a prefix, which counts if it is ASCII. */
  ghost predicate GnuFields(b: Block, prefix: Bytes, h: Header) {
    if Legible(b[345..357]) && Legible(b[357..369]) then
      prefix == [] && HoldsGnuTime(b[345..357], h.accessTime) && HoldsGnuTime(b[357..369], h.changeTime)
    else
      && h.accessTime == None && h.changeTime == None
      && exists s :: HoldsText(b[345..500], s) && prefix == if SevenBit(s) then s else []
  }

  /** The oldest format has nothing else. */
  predicate V7Fields(prefix: Bytes, h: Header) {
    && prefix == [] && h.uname == [] && h.gname == [] && h.devmajor == 0 && h.devminor == 0
    && h.accessTime == None && h.changeTime == None
  }

  /** "ustar" and a NUL. */
  predicate UstarMagic(b: Block) {
    b[257] == 0x75 && b[258] == 0x73 && b[259] == 0x74 && b[260] == 0x61 && b[261] == 0x72 && b[262] == 0
  }

  /** "tar" and a NUL. */
  predicate StarMark(b: Block) {
    b[508] == 0x74 && b[509] == 0x61 && b[510] == 0x72 && b[511] == 0
  }

  /** "ustar", two spaces and a NUL. */
  predicate GnuMagic(b: Block) {
    && b[257] == 0x75 && b[258] == 0x73 && b[259] == 0x74 && b[260] == 0x61 && b[261] == 0x72
    && b[262] == 0x20 && b[263] == 0x20 && b[264] == 0
  }

  ghost predicate FormatFields(b: Block, prefix: Bytes, h: Header) {
    if UstarMagic(b) && StarMark(b) then OwnerFields(b, h) && StarFields(b, prefix, h)
    else if UstarMagic(b) then OwnerFields(b, h) && UstarFields(b, prefix, h)
    else if GnuMagic(b) then OwnerFields(b, h) && GnuFields(b, prefix, h)
    else V7Fields(prefix, h)
  }

  ghost predicate MeansWith(b: Block, prefix: Bytes, name: Bytes, h: Header) {
    && AddsUp(b) && CommonFields(b, name, h) && FormatFields(b, prefix, h)
    && h.name == if prefix == [] then name else prefix + [0x2F] + name
  }

  /** The header that a block means. */
  ghost predicate Means(b: Block, h: Header) {
    exists prefix, name :: MeansWith(b, prefix, name, h)
  }

  // ----- A block parses as the header it means, and as nothing else.

  lemma Places(b: Block)
    ensures Field(b, NAME_FIELD) == b[0..100] && Field(b, MODE_FIELD) == b[100..108]
    ensures Field(b, UID_FIELD) == b[108..116] && Field(b, GID_FIELD) == b[116..124]
    ensures Field(b, SIZE_FIELD) == b[124..136] && Field(b, MTIME_FIELD) == b[136..148]
    ensures Field(b, TYPE_FIELD) == b[156..157] && Field(b, LINK_FIELD) == b[157..257]
    ensures Field(b, MAGIC_FIELD) == b[257..263] && Field(b, VERSION_FIELD) == b[263..265]
    ensures Field(b, UNAME_FIELD) == b[265..297] && Field(b, GNAME_FIELD) == b[297..329]
    ensures Field(b, MAJOR_FIELD) == b[329..337] && Field(b, MINOR_FIELD) == b[337..345]
    ensures Field(b, PREFIX_FIELD) == b[345..500]
  {
    hide Offset;
    Offsets();
  }

  lemma TimeExactly(f: Bytes, t: Option<Time>)
    ensures HoldsTime(f, t) <==> (NumericValue(f).Some? && t == Some(TimeAt(NumericValue(f).value)))
  {
    hide NumericValue, HoldsNumber;
    if t.Some? {
      NumberExactly(f, t.value.sec);
    }
  }

  /** A header with the common fields alone. */
  function Bare(h: Header, name: Bytes): Header {
    h.(name := name, uname := [], gname := [], accessTime := None, changeTime := None, devmajor := 0, devminor := 0)
  }

  lemma CommonExactly(b: Block, name: Bytes, h: Header)
    ensures CommonFields(b, name, h) <==> Basics(b) == Some(Bare(h, name))
  {
    hide Field, NumericValue, ParseString, HoldsText, HoldsNumber, HoldsTime, TimeAt;
    Places(b);
    TextExactly(b[0..100], name);
    TextExactly(b[157..257], h.linkname);
    NumberExactly(b[100..108], h.mode);
    NumberExactly(b[108..116], h.uid);
    NumberExactly(b[116..124], h.gid);
    NumberExactly(b[124..136], h.size);
    TimeExactly(b[136..148], h.modTime);
  }

  lemma OwnersExactly(b: Block, h: Header)
    ensures OwnerFields(b, h) <==>
              && ParseString(Field(b, UNAME_FIELD)) == h.uname && ParseString(Field(b, GNAME_FIELD)) == h.gname
              && NumericValue(Field(b, MAJOR_FIELD)) == Some(h.devmajor)
              && NumericValue(Field(b, MINOR_FIELD)) == Some(h.devminor)
  {
    hide Field, NumericValue, ParseString, HoldsText, HoldsNumber;
    Places(b);
    TextExactly(b[265..297], h.uname);
    TextExactly(b[297..329], h.gname);
    NumberExactly(b[329..337], h.devmajor);
    NumberExactly(b[337..345], h.devminor);
  }

  lemma KindExactly(b: Block)
    requires KindOf(b) != Unknown
    ensures KindOf(b) == Star <==> UstarMagic(b) && StarMark(b)
    ensures KindOf(b) == Ustar <==> UstarMagic(b) && !StarMark(b)
    ensures KindOf(b) == Gnu <==> !UstarMagic(b) && GnuMagic(b)
    ensures KindOf(b) == V7 <==> !UstarMagic(b) && !GnuMagic(b)
  {
    hide Field, OctalValue, Checksum, SignedChecksum;
    Places(b);
    Magics(b[257..263], b[263..265], b[508..512]);
  }

  lemma Magics(m: Bytes, v: Bytes, t: Bytes)
    requires |m| == 6 && |v| == 2 && |t| == 4
    ensures m == USTAR_MAGIC <==>
              m[0] == 0x75 && m[1] == 0x73 && m[2] == 0x74 && m[3] == 0x61 && m[4] == 0x72 && m[5] == 0
    ensures m == GNU_MAGIC <==>
              m[0] == 0x75 && m[1] == 0x73 && m[2] == 0x74 && m[3] == 0x61 && m[4] == 0x72 && m[5] == 0x20
    ensures v == GNU_VERSION <==> v[0] == 0x20 && v[1] == 0
    ensures t == STAR_TRAILER <==> t[0] == 0x74 && t[1] == 0x61 && t[2] == 0x72 && t[3] == 0
  {
  }

  lemma UstarExactly(b: Block, prefix: Bytes, h: Header)
    ensures UstarFields(b, prefix, h) <==>
              ExtraOf(b, Ustar) == Some(Extra(prefix, h.accessTime, h.changeTime))
  {
    hide Field, ParseString, HoldsText;
    Places(b);
    TextExactly(b[345..500], prefix);
  }

  lemma StarExactly(b: Block, prefix: Bytes, h: Header)
    ensures StarFields(b, prefix, h) <==>
              ExtraOf(b, Star) == Some(Extra(prefix, h.accessTime, h.changeTime))
  {
    hide NumericValue, ParseString, HoldsText, HoldsTime, TimeAt;
    TextExactly(b[345..476], prefix);
    TimeExactly(b[476..488], h.accessTime);
    TimeExactly(b[488..500], h.changeTime);
  }

  lemma LegibleExactly(f: Bytes)
    requires |f| > 0
    ensures Legible(f) <==> f[0] == 0 || NumericValue(f).Some?
  {
    hide NumericValue, HoldsNumber;
    forall x: i64 ensures NumericValue(f) == Some(x) <==> HoldsNumber(f, x) {
      NumberExactly(f, x);
    }
    if NumericValue(f).Some? {
      assert HoldsNumber(f, NumericValue(f).value);
    }
  }

  lemma GnuTimeExactly(f: Bytes, t: Option<Time>)
    requires |f| > 0 && Legible(f)
    ensures HoldsGnuTime(f, t) <==> GnuTime(f) == t
  {
    hide NumericValue, HoldsTime, TimeAt, Legible;
    LegibleExactly(f);
    TimeExactly(f, t);
  }

  lemma OldPrefixExactly(f: Bytes, prefix: Bytes)
    ensures (exists s :: HoldsText(f, s) && prefix == if SevenBit(s) then s else []) <==>
              prefix == if IsAscii(ParseString(f)) then ParseString(f) else []
  {
    hide ParseString, HoldsText;
    var s := ParseString(f);
    TextExactly(f, s);
    assert HoldsText(f, s);
    assert IsAscii(s) <==> SevenBit(s) by {
      AsciiText(f, s);
    }
    forall t | HoldsText(f, t) ensures t == s {
      TextExactly(f, t);
    }
  }

  lemma AsciiText(f: Bytes, s: Bytes)
    requires HoldsText(f, s)
    ensures IsAscii(s) <==> SevenBit(s)
  {
    assert forall i :: 0 <= i < |s| ==> s[i] in s;
  }

  lemma GnuExactly(b: Block, prefix: Bytes, h: Header)
    ensures GnuFields(b, prefix, h) <==>
              ExtraOf(b, Gnu) == Some(Extra(prefix, h.accessTime, h.changeTime))
  {
    hide Field, NumericValue, ParseString, HoldsText, Legible, HoldsGnuTime, GnuTime, IsAscii, SevenBit;
    Places(b);
    var a, c := b[345..357], b[357..369];
    LegibleExactly(a);
    LegibleExactly(c);
    if Legible(a) && Legible(c) {
      GnuTimeExactly(a, h.accessTime);
      GnuTimeExactly(c, h.changeTime);
    } else {
      OldPrefixExactly(b[345..500], prefix);
    }
  }

  /** The header that the fields give, kind by kind. */
  predicate Parses(b: Block, prefix: Bytes, name: Bytes, h: Header) {
    && KindOf(b) != Unknown && Basics(b) == Some(Bare(h, name)) && h.name == WithPrefix(prefix, name)
    && if KindOf(b) == V7 then V7Fields(prefix, h)
       else
         && ParseString(Field(b, UNAME_FIELD)) == h.uname && ParseString(Field(b, GNAME_FIELD)) == h.gname
         && NumericValue(Field(b, MAJOR_FIELD)) == Some(h.devmajor)
         && NumericValue(Field(b, MINOR_FIELD)) == Some(h.devminor)
         && ExtraOf(b, KindOf(b)) == Some(Extra(prefix, h.accessTime, h.changeTime))
  }

  lemma ParsesExactly(b: Block, prefix: Bytes, name: Bytes, h: Header)
    ensures Parses(b, prefix, name, h) <==> MeansWith(b, prefix, name, h)
  {
    hide KindOf, Basics, Bare, ExtraOf, Field, NumericValue, ParseString, AddsUp, CommonFields, V7Fields,
      OwnerFields, UstarFields, StarFields, GnuFields, UstarMagic, StarMark, GnuMagic;
    SumExactly(b);
    if KindOf(b) != Unknown {
      CommonExactly(b, name, h);
      KindExactly(b);
      OwnersExactly(b, h);
      UstarExactly(b, prefix, h);
      StarExactly(b, prefix, h);
      GnuExactly(b, prefix, h);
    }
  }

  lemma ParsedHeader(b: Block, prefix: Bytes, name: Bytes, h: Header)
    requires Parses(b, prefix, name, h)
    ensures HeaderOf(b) == Some(h)
  {
    hide KindOf, Basics, ExtraOf, Field, NumericValue, ParseString;
  }

  lemma HeaderParsed(b: Block, h: Header) returns (prefix: Bytes, name: Bytes)
    requires HeaderOf(b) == Some(h)
    ensures Parses(b, prefix, name, h)
  {
    hide KindOf, ExtraOf, Field, NumericValue, ParseString, TimeAt;
    name := Basics(b).value.name;
    prefix := if KindOf(b) == V7 then [] else ExtraOf(b, KindOf(b)).value.prefix;
  }

  /** Whatever its writer, a block parses as a header exactly when it means that header. */
  lemma HeaderExactly(b: Block, h: Header)
    ensures HeaderOf(b) == Some(h) <==> Means(b, h)
  {
    hide HeaderOf, MeansWith, Parses;
    if HeaderOf(b) == Some(h) {
      var prefix, name := HeaderParsed(b, h);
      ParsesExactly(b, prefix, name, h);
    } else if Means(b, h) {
      var prefix, name :| MeansWith(b, prefix, name, h);
      ParsesExactly(b, prefix, name, h);
      ParsedHeader(b, prefix, name, h);
    }
  }

  // ----- Entries.

  /** A NUL type is a directory if and only if the name ends in a slash, else a regular file. */
  function EntryType(h: Header): u8 {
    if h.typeflag != 0 then h.typeflag
    else if h.name != [] && h.name[|h.name| - 1] == 0x2F then 0x35
    else 0x30
  }

  /** Links, devices, directories and pipes have no body. */
  predicate Bodiless(flag: u8) {
    0x31 <= flag <= 0x36
  }

  /** A header that announces an entry and the length of its body: neither an extended header nor of
      a negative size. */
  predicate Announces(h: Header, item: Item) {
    && h.typeflag != 0x78 && h.typeflag != 0x67 && (Bodiless(h.typeflag) || h.size >= 0)
    && item.hdr == h.(typeflag := EntryType(h))
    && |item.body| == if Bodiless(EntryType(h)) then 0 else h.size
  }

  function ToBoundary(n: nat): nat {
    (512 - n % 512) % 512
  }

  lemma {:induction false} ChecksumOfZeros(n: nat)
    requires n <= 512
    ensures Checksum(Zeros(512), n) == SignedChecksum(Zeros(512), n)
    ensures n > 148 ==> Checksum(Zeros(512), n) > 0
  {
    if n > 0 {
      ChecksumOfZeros(n - 1);
    }
  }

  /** A block of zeros is no header. */
  lemma ZerosMeanNothing()
    ensures HeaderOf(Zeros(512)) == None
  {
    hide Checksum, SignedChecksum, OctalValue, Zeros, Field, Basics, ExtraOf;
    ChecksumOfZeros(512);
    assert Zeros(512)[148..156] == Zeros(8);
    ZerosRead(8);
  }

  lemma StepMeans(b: Block, z: Bytes)
    ensures (b + z)[..512] == b && (b + z)[512..] == z
    ensures b != Zeros(512) ==>
              StepAt(b + z) == if HeaderOf(b).Some? && SizeOk(HeaderOf(b).value) then Done else Broken(BadHeader)
  {
    hide HeaderOf;
    assert (b + z)[..512] == b && (b + z)[512..] == z;
  }

  /** A block that means a header gives the entry that the header announces. */
  lemma EntryMeant(b: Block, h: Header, item: Item, z: Bytes)
    requires Means(b, h) && Announces(h, item)
    ensures NextAt(b + z, None) == Entry(item.hdr, z, |item.body|, ToBoundary(|item.body|))
  {
    hide HeaderOf, Means, NextAt, StepAt;
    HeaderExactly(b, h);
    ZerosMeanNothing();
    StepMeans(b, z);
    NextUnfold(b + z, None);
  }

  /** A block that is not of zeros and means no header, or one of a negative size, is refused. */
  lemma NothingMeant(b: Block, z: Bytes)
    requires b != Zeros(512) && forall h :: Means(b, h) ==> h.size < 0 && !Bodiless(h.typeflag)
    ensures NextAt(b + z, None) == Bad(BadHeader)
  {
    hide HeaderOf, Means, NextAt, StepAt;
    StepMeans(b, z);
    NextUnfold(b + z, None);
    if HeaderOf(b).Some? {
      HeaderExactly(b, HeaderOf(b).value);
    }
  }

  // ----- Streams.

  /** Where an archive may stop: at once, after a block of zeros, or before two of them. */
  predicate Stops(s: Bytes) {
    s == [] || s == Zeros(512) || (|s| >= 1024 && s[..512] == Zeros(512) && s[512..1024] == Zeros(512))
  }

  /** A stream lists items: a block that announces the first, its body, padding of any bytes, and the
      others. The last padding may be cut short. */
  ghost predicate Lists(s: Bytes, items: seq<Item>)
    decreases |items|, 0
  {
    if items == [] then Stops(s)
    else
      && |s| >= 512 && (exists h :: Means(s[..512], h) && Announces(h, items[0]))
      && items[0].body <= s[512..]
      && ListsAfter(s[512 + |items[0].body|..], ToBoundary(|items[0].body|), items[1..])
  }

  ghost predicate ListsAfter(t: Bytes, pad: nat, items: seq<Item>)
    decreases |items|, 1
  {
    if |t| < pad then items == [] else Lists(t[pad..], items)
  }

  lemma StopsEnd(s: Bytes)
    requires Stops(s)
    ensures NextAt(s, None) == End
  {
    hide HeaderOf, NextAt;
    NextUnfold(s, None);
    assert |s| == 512 ==> s[..512] == s;
  }

  lemma FirstListed(s: Bytes, items: seq<Item>)
    requires items != [] && Lists(s, items)
    ensures NextAt(s, None) == Entry(items[0].hdr, s[512..], |items[0].body|, ToBoundary(|items[0].body|))
  {
    hide Means, Announces, NextAt;
    var h :| Means(s[..512], h) && Announces(h, items[0]);
    assert s == s[..512] + s[512..];
    EntryMeant(s[..512], h, items[0], s[512..]);
  }

  lemma {:induction false} ListedReads(t: Bytes, pad: nat, items: seq<Item>)
    requires ListsAfter(t, pad, items)
    ensures ReadAll(t, pad) == Some(items)
    decreases |items|
  {
    hide Means, Announces, NextAt, Stops, ToBoundary;
    if |t| >= pad {
      var s := t[pad..];
      if items == [] {
        StopsEnd(s);
      } else {
        var body, p := items[0].body, ToBoundary(|items[0].body|);
        FirstListed(s, items);
        var rest := s[512..];
        assert rest[..|body|] == body && rest[|body|..] == s[512 + |body|..];
        ListedReads(rest[|body|..], p, items[1..]);
        assert [items[0]] + items[1..] == items;
      }
    }
  }

  /** Every stream that lists items, whoever wrote it, reads as those items in order. */
  lemma ForeignReads(s: Bytes, items: seq<Item>)
    requires Lists(s, items)
    ensures ReadAll(s, 0) == Some(items)
  {
    hide Lists, ReadAll;
    assert s[0..] == s;
    ListedReads(s, 0, items);
  }
}
