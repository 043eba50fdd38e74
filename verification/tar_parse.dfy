/** Reading header blocks: verifying the checksum, telling the formats apart, unpacking the fields. */
module TarParse {
  import opened Bits
  import opened Endian
  import opened PaxText
  import opened TarBlock
  import opened TarFields
  import opened TarHeader

  type Block = b: Bytes | |b| == 512 witness seq(512, _ => 0)

  datatype Kind = Unknown | V7 | Ustar | Star | Gnu

  /** The format that a block's checksum and magic show. */
  function KindOf(b: Block): Kind {
    var sum := OctalValue(b[148..156]);
    if sum.None? || (sum.value != Checksum(b, 512) && sum.value != SignedChecksum(b, 512)) then Unknown
    else
      var magic, version := Field(b, MAGIC_FIELD), Field(b, VERSION_FIELD);
      if magic == USTAR_MAGIC then if b[508..512] == STAR_TRAILER then Star else Ustar
      else if magic == GNU_MAGIC && version == GNU_VERSION then Gnu
      else V7
  }

  /** `get_format`. */
  method GetFormat(b: Block) returns (kind: Kind)
    ensures kind == KindOf(b)
  {
    var p := new Parser();
    var value := p.ParseOctal(b[148..156]);
    var unsigned, signed := ComputeChecksum(b);
    if p.err || (value != unsigned && value != signed) {
      return Unknown;
    }
    var magic, version := Field(b, MAGIC_FIELD), Field(b, VERSION_FIELD);
    if magic == USTAR_MAGIC && b[508..512] == STAR_TRAILER {
      return Star;
    } else if magic == USTAR_MAGIC {
      return Ustar;
    } else if magic == GNU_MAGIC && version == GNU_VERSION {
      return Gnu;
    } else {
      return V7;
    }
  }

  function TimeAt(x: i64): Time {
    Unix(x, 0)
  }

  /** The fields that every format has. */
  function Basics(b: Block): Option<Header> {
    var size, mode := NumericValue(Field(b, SIZE_FIELD)), NumericValue(Field(b, MODE_FIELD));
    var uid, gid := NumericValue(Field(b, UID_FIELD)), NumericValue(Field(b, GID_FIELD));
    var mtime := NumericValue(Field(b, MTIME_FIELD));
    if size.None? || mode.None? || uid.None? || gid.None? || mtime.None? then None
    else
      Some(Header(
        Field(b, TYPE_FIELD)[0],
        ParseString(Field(b, NAME_FIELD)), ParseString(Field(b, LINK_FIELD)),
        size.value, mode.value, uid.value, gid.value, [], [],
        Some(TimeAt(mtime.value)), None, None, 0, 0, map[], NO_FORMATS))
  }

  /** What a format with its own prefix and times adds. */
  datatype Extra = Extra(prefix: Bytes, atime: Option<Time>, ctime: Option<Time>)

  function StarExtra(b: Block): Option<Extra> {
    var a, c := NumericValue(b[476..488]), NumericValue(b[488..500]);
    if a.None? || c.None? then None
    else Some(Extra(ParseString(b[345..476]), Some(TimeAt(a.value)), Some(TimeAt(c.value))))
  }

  function GnuTime(f: Bytes): Option<Time>
    requires |f| > 0
  {
    if f[0] == 0 || NumericValue(f).None? then None else Some(TimeAt(NumericValue(f).value))
  }

  /** Times of the old GNU format; if they do not parse, the place was used for a prefix. */
  function GnuExtra(b: Block): Extra {
    var a, c := b[345..357], b[357..369];
    if (a[0] != 0 && NumericValue(a).None?) || (c[0] != 0 && NumericValue(c).None?) then
      var s := ParseString(Field(b, PREFIX_FIELD));
      Extra(if IsAscii(s) then s else [], None, None)
    else Extra([], GnuTime(a), GnuTime(c))
  }

  function ExtraOf(b: Block, kind: Kind): Option<Extra> {
    match kind
    case Ustar => Some(Extra(ParseString(Field(b, PREFIX_FIELD)), None, None))
    case Star => StarExtra(b)
    case Gnu => Some(GnuExtra(b))
    case _ => Some(Extra([], None, None))
  }

  function WithPrefix(prefix: Bytes, name: Bytes): Bytes {
    if prefix == [] then name else prefix + [SLASH] + name
  }

  /** The header that a block holds, if it is one. */
  function HeaderOf(b: Block): Option<Header> {
    var kind, basics := KindOf(b), Basics(b);
    if kind == Unknown || basics.None? then None
    else if kind == V7 then basics
    else
      var major, minor := NumericValue(Field(b, MAJOR_FIELD)), NumericValue(Field(b, MINOR_FIELD));
      var extra := ExtraOf(b, kind);
      if major.None? || minor.None? || extra.None? then None
      else
        Some(basics.value.(
          uname := ParseString(Field(b, UNAME_FIELD)), gname := ParseString(Field(b, GNAME_FIELD)),
          devmajor := major.value, devminor := minor.value,
          accessTime := extra.value.atime, changeTime := extra.value.ctime,
          name := WithPrefix(extra.value.prefix, basics.value.name)))
  }

  method ReadBasics(p: Parser, b: Block) returns (h: Header)
    modifies p
    ensures p.err == (old(p.err) || Basics(b).None?)
    ensures Basics(b).Some? ==> h == Basics(b).value
  {
    hide NumericValue, ParseString;
    var size := p.ParseNumeric(Field(b, SIZE_FIELD));
    var mode := p.ParseNumeric(Field(b, MODE_FIELD));
    var uid := p.ParseNumeric(Field(b, UID_FIELD));
    var gid := p.ParseNumeric(Field(b, GID_FIELD));
    var mtime := p.ParseNumeric(Field(b, MTIME_FIELD));
    h := Header(
      Field(b, TYPE_FIELD)[0],
      ParseString(Field(b, NAME_FIELD)), ParseString(Field(b, LINK_FIELD)),
      size, mode, uid, gid, [], [],
      Some(TimeAt(mtime)), None, None, 0, 0, map[], NO_FORMATS);
  }

  method ReadExtra(p: Parser, b: Block, kind: Kind) returns (e: Extra)
    modifies p
    ensures p.err == (old(p.err) || ExtraOf(b, kind).None?)
    ensures ExtraOf(b, kind).Some? ==> e == ExtraOf(b, kind).value
  {
    hide NumericValue, ParseString, Field;
    e := Extra([], None, None);
    if kind == Ustar {
      e := e.(prefix := ParseString(Field(b, PREFIX_FIELD)));
    } else if kind == Star {
      var a := p.ParseNumeric(b[476..488]);
      var c := p.ParseNumeric(b[488..500]);
      e := Extra(ParseString(b[345..476]), Some(TimeAt(a)), Some(TimeAt(c)));
    } else if kind == Gnu {
      var p2 := new Parser();
      if b[345] != 0 {
        var a := p2.ParseNumeric(b[345..357]);
        e := e.(atime := Some(TimeAt(a)));
      }
      if b[357] != 0 {
        var c := p2.ParseNumeric(b[357..369]);
        e := e.(ctime := Some(TimeAt(c)));
      }
      if p2.err {
        var s := ParseString(Field(b, PREFIX_FIELD));
        e := Extra(if IsAscii(s) || s == [] then s else [], None, None);
      }
    }
  }

  /** The unpacking half of `read_header`: errors stick until every field has been looked at. */
  method ParseHeader(b: Block) returns (r: Option<Header>)
    ensures r == HeaderOf(b)
  {
    hide NumericValue, ParseString, Basics, ExtraOf, KindOf, Field;
    var kind := GetFormat(b);
    if kind == Unknown {
      return None;
    }
    var p := new Parser();
    var h := ReadBasics(p, b);
    if kind != V7 {
      h := h.(uname := ParseString(Field(b, UNAME_FIELD)), gname := ParseString(Field(b, GNAME_FIELD)));
      var major := p.ParseNumeric(Field(b, MAJOR_FIELD));
      var minor := p.ParseNumeric(Field(b, MINOR_FIELD));
      var e := ReadExtra(p, b, kind);
      h := h.(devmajor := major, devminor := minor, accessTime := e.atime, changeTime := e.ctime,
              name := WithPrefix(e.prefix, h.name));
    }
    if p.err {
      return None;
    }
    return Some(h);
  }

  // ----- What was packed is unpacked.

  /** The block of a header. */
  function HeaderBlock(h: Header, ascii: bool, prefix: Bytes): (b: Bytes)
    ensures |b| == BLOCK_SIZE
  {
    ConcatLaid(Sealed(HeaderParts(h, ascii, prefix)));
    Concat(Sealed(HeaderParts(h, ascii, prefix)))
  }

  lemma ChecksumField(b: Block, parts: Parts)
    requires Laid(b, parts)
    ensures b[148..156] == parts[CHECK_FIELD] + parts[CHECK_END]
    ensures b[508..512] == parts[TAIL_FIELD][8..]
  {
    hide Width;
    Offsets();
    assert Field(b, CHECK_FIELD) == parts[CHECK_FIELD] && Field(b, CHECK_END) == parts[CHECK_END];
    assert Field(b, TAIL_FIELD) == parts[TAIL_FIELD];
    assert b[148..155] == parts[CHECK_FIELD] && b[155..156] == parts[CHECK_END] by {
      CheckWidths();
    }
    assert b[500..512] == parts[TAIL_FIELD] by {
      CheckWidths();
    }
    assert b[508..512] == b[500..512][8..];
  }

  lemma CheckWidths()
    ensures Width(CHECK_FIELD) == 7 && Width(CHECK_END) == 1 && Width(TAIL_FIELD) == 12
  {
  }

  lemma CheckedElsewhere(b: Block, c: Block, parts: Parts, x: Bytes, y: Bytes)
    requires Laid(b, parts) && Laid(c, parts[CHECK_FIELD := x][CHECK_END := y])
    ensures Checksum(b, 512) == Checksum(c, 512)
  {
    hide Laid, Concat;
    var p := parts[CHECK_FIELD := x][CHECK_END := y];
    Prefixes(b, c, parts, p, CHECK_FIELD);
    Suffixes(b, c, parts, p, TYPE_FIELD);
    Offsets();
    forall i | 0 <= i < 512 ensures Counted(b, i) == Counted(c, i) {
      assert i < 148 ==> b[i] == b[..148][i] && c[i] == c[..148][i];
      assert i >= 156 ==> b[i] == b[156..][i - 156] && c[i] == c[156..][i - 156];
    }
    ChecksumSame(b, c, 512);
  }

  lemma Prefixes(b: Block, c: Block, parts: Parts, p: Parts, n: nat)
    requires Laid(b, parts) && Laid(c, p) && n <= FIELDS && parts[..n] == p[..n]
    ensures Offset(n) <= 512 && b[..Offset(n)] == c[..Offset(n)]
  {
    LaidPrefix(b, parts, n);
    LaidPrefix(c, p, n);
  }

  /** Fields from `n` on determine the rest of the block. */
  lemma {:induction false} Suffixes(b: Block, c: Block, parts: Parts, p: Parts, n: nat)
    requires Laid(b, parts) && Laid(c, p) && n <= FIELDS && parts[n..] == p[n..]
    ensures Offset(n) <= 512 && b[Offset(n)..] == c[Offset(n)..]
    decreases FIELDS - n
  {
    hide Width;
    Offsets();
    if n < FIELDS {
      OffsetsApart(n, FIELDS);
      assert parts[n] == parts[n..][0] == p[n..][0] == p[n];
      assert parts[n + 1..] == parts[n..][1..] == p[n + 1..];
      Suffixes(b, c, parts, p, n + 1);
      assert Field(b, n) == parts[n] && Field(c, n) == p[n];
      assert b[Offset(n)..] == Field(b, n) + b[Offset(n + 1)..];
      assert c[Offset(n)..] == Field(c, n) + c[Offset(n + 1)..];
    }
  }

  /** A sealed block passes its checksum and shows the ustar format. */
  lemma SealedKind(parts: Parts, b: Block)
    requires Sized(parts) && parts[CHECK_FIELD] == Zeros(7) && parts[TAIL_FIELD] == Zeros(12)
    requires b == Concat(Sealed(parts))
    ensures Laid(b, Sealed(parts)) && KindOf(b) == Ustar
  {
    hide Concat, Laid, OctalValue, OctalField, Checksum, SignedChecksum;
    ConcatLaid(Sealed(parts));
    var m := Marked(parts);
    ConcatLaid(m);
    var c := Concat(m);
    LaidBlock(c, m);
    var sum := Checksum(c, 512);
    CheckedElsewhere(c, b, m, OctalField(Zeros(7), sum), [SPACE]);
    ChecksumField(b, Sealed(parts));
    assert OctalValue(b[148..156]) == Some(sum) by {
      ChecksumBound(c, 512);
      ChecksumReads(sum);
    }
    assert Field(b, MAGIC_FIELD) == USTAR_MAGIC by {
      FieldIs(b, Sealed(parts), MAGIC_FIELD);
    }
    assert b[508..512][0] == 0;
  }

  lemma LaidBlock(b: Bytes, parts: Parts)
    requires Laid(b, parts)
    ensures |b| == 512
  {
  }

  lemma FieldIs(b: Block, parts: Parts, i: nat)
    requires Laid(b, parts) && i < FIELDS
    ensures Field(b, i) == parts[i]
  {
  }

  lemma ChecksumReads(sum: nat)
    requires sum <= 255 * 512
    ensures OctalValue(OctalField(Zeros(7), sum) + [SPACE]) == Some(sum)
  {
    EightTo11();
    OctalRoundTrip(Zeros(7), sum);
    OctalTextValue(7, sum);
    OctalReads(OctalText(7, sum), [NUL, SPACE]);
    assert OctalField(Zeros(7), sum) + [SPACE] == OctalText(7, sum) + [NUL, SPACE];
  }

  /** The number that a field holds: zero stands for one that did not fit. */
  function Held(w: nat, x: i64): i64
    requires w > 0
  {
    if FitsOctal(w, x) then x else 0
  }

  lemma OctReads(w: nat, x: i64)
    requires 2 <= w <= 12
    ensures NumericValue(Oct(w, x)) == Some(Held(w, x))
  {
    hide OctalValue, OctalField;
    assert FitsOctal(w, 0);
    OctalRoundTrip(Zeros(w), Held(w, x));
    assert OctalField(Zeros(w), x) == OctalField(Zeros(w), Held(w, x)) by {
      HeldField(w, x);
    }
  }

  lemma HeldField(w: nat, x: i64)
    requires w > 0
    ensures OctalField(Zeros(w), x) == OctalField(Zeros(w), Held(w, x))
  {
    hide OctalText, StringField;
    assert FitsOctal(w, 0);
  }

  /** The header that the block of a header reads as. */
  function Shown(h: Header, ascii: bool, prefix: Bytes): Header {
    Header(
      h.typeflag,
      WithPrefix(ParseString(Str(155, prefix)), ParseString(Str(100, Text(h.name, ascii)))),
      ParseString(Str(100, Text(h.linkname, ascii))),
      Held(12, h.size), Held(8, h.mode), Held(8, h.uid), Held(8, h.gid),
      ParseString(Str(32, Text(h.uname, ascii))), ParseString(Str(32, Text(h.gname, ascii))),
      Some(Time(Held(12, Seconds(h)), 0)), None, None,
      Held(8, h.devmajor), Held(8, h.devminor), map[], NO_FORMATS)
  }

  lemma PartOf(h: Header, ascii: bool, prefix: Bytes, i: nat)
    requires i < FIELDS && i != MAGIC_FIELD && i != VERSION_FIELD && i != CHECK_FIELD && i != CHECK_END
    ensures Field(HeaderBlock(h, ascii, prefix), i) == HeaderPart(h, ascii, prefix, i)
  {
    hide Concat, HeaderPart, OctalField;
    var parts := HeaderParts(h, ascii, prefix);
    ConcatLaid(Sealed(parts));
    FieldIs(Concat(Sealed(parts)), Sealed(parts), i);
  }

  lemma BlockKind(h: Header, ascii: bool, prefix: Bytes)
    ensures KindOf(HeaderBlock(h, ascii, prefix)) == Ustar
  {
    hide Sealed, KindOf;
    var parts := HeaderParts(h, ascii, prefix);
    SealedKind(parts, HeaderBlock(h, ascii, prefix));
  }

  lemma BasicsRead(h: Header, ascii: bool, prefix: Bytes)
    ensures var s := Shown(h, ascii, prefix);
            Basics(HeaderBlock(h, ascii, prefix)) == Some(s.(
              name := ParseString(Str(100, Text(h.name, ascii))), uname := [], gname := [], devmajor := 0, devminor := 0))
  {
    hide HeaderBlock, Field, NumericValue, ParseString, Str, Oct, Text, Held, Seconds;
    PartOf(h, ascii, prefix, NAME_FIELD);
    PartOf(h, ascii, prefix, MODE_FIELD);
    PartOf(h, ascii, prefix, UID_FIELD);
    PartOf(h, ascii, prefix, GID_FIELD);
    PartOf(h, ascii, prefix, SIZE_FIELD);
    PartOf(h, ascii, prefix, MTIME_FIELD);
    PartOf(h, ascii, prefix, TYPE_FIELD);
    PartOf(h, ascii, prefix, LINK_FIELD);
    OctReads(8, h.mode);
    OctReads(8, h.uid);
    OctReads(8, h.gid);
    OctReads(12, h.size);
    OctReads(12, Seconds(h));
  }

  /** A packed header unpacks to what its fields could hold. */
  lemma BlockReads(h: Header, ascii: bool, prefix: Bytes)
    ensures HeaderOf(HeaderBlock(h, ascii, prefix)) == Some(Shown(h, ascii, prefix))
  {
    hide HeaderBlock, Field, NumericValue, ParseString, Str, Oct, Text, Held, Seconds, KindOf, Basics;
    BlockKind(h, ascii, prefix);
    BasicsRead(h, ascii, prefix);
    PartOf(h, ascii, prefix, UNAME_FIELD);
    PartOf(h, ascii, prefix, GNAME_FIELD);
    PartOf(h, ascii, prefix, MAJOR_FIELD);
    PartOf(h, ascii, prefix, MINOR_FIELD);
    PartOf(h, ascii, prefix, PREFIX_FIELD);
    OctReads(8, h.devmajor);
    OctReads(8, h.devminor);
  }
}
