/** Which formats can encode a header, and which fields then travel in pax records. */
module TarFormats {
  import opened Bits
  import opened Decimal
  import opened Endian
  import opened PaxText
  import opened TarBlock
  import opened TarFields
  import opened TarHeader

  const NAME_SIZE: nat := 100
  const PREFIX_SIZE: nat := 155

  /** "GNU.sparse." */
  const GNU_SPARSE: Bytes := [0x47, 0x4E, 0x55, 0x2E, 0x73, 0x70, 0x61, 0x72, 0x73, 0x65, 0x2E]

  /** Where `b` last occurs in `s`, or the length of `s`. */
  function LastIndex(s: Bytes, b: u8): (i: nat)
    ensures i <= |s| && (i < |s| ==> s[i] == b) && forall j :: i < j < |s| ==> s[j] != b
    ensures i == |s| ==> b !in s
  {
    if |s| == 0 then 0
    else if s[|s| - 1] == b then |s| - 1
    else
      var i := LastIndex(s[..|s| - 1], b);
      if i == |s| - 1 then |s| else i
  }

  /** `split_ustar_path`: at the last slash that leaves both halves short enough. */
  function SplitUstar(name: Bytes): (r: Option<(Bytes, Bytes)>)
    ensures r.Some? ==> name == r.value.0 + [SLASH] + r.value.1
    ensures r.Some? ==> 0 < |r.value.0| <= PREFIX_SIZE && 0 < |r.value.1| <= NAME_SIZE && IsAscii(name)
  {
    if |name| <= NAME_SIZE || !IsAscii(name) then None
    else
      var length := if |name| > PREFIX_SIZE + 1 then PREFIX_SIZE + 1
                    else if name[|name| - 1] == SLASH then |name| - 1 else |name|;
      var i := LastIndex(name[..length], SLASH);
      if i == length || i == 0 then None
      else
        var nlen := |name| - i - 1;
        if nlen > NAME_SIZE || nlen == 0 || i > PREFIX_SIZE then None
        else Some((name[..i], name[i + 1..]))
  }

  /** A slash that leaves a prefix and a suffix of allowed lengths. */
  predicate SplitsAt(name: Bytes, i: nat) {
    i < |name| && name[i] == SLASH && 0 < i <= PREFIX_SIZE && 0 < |name| - i - 1 <= NAME_SIZE
  }

  /** A name is split exactly if it is long, ASCII and has such a slash, and then at the last one. */
  lemma SplitExact(name: Bytes)
    ensures SplitUstar(name).Some? <==> |name| > NAME_SIZE && IsAscii(name) && exists i: nat :: SplitsAt(name, i)
    ensures SplitUstar(name).Some? ==>
              var i := |SplitUstar(name).value.0|; SplitsAt(name, i) && forall j: nat :: SplitsAt(name, j) ==> j <= i
  {
    if |name| > NAME_SIZE && IsAscii(name) {
      var length := if |name| > PREFIX_SIZE + 1 then PREFIX_SIZE + 1
                    else if name[|name| - 1] == SLASH then |name| - 1 else |name|;
      var head := name[..length];
      var i := LastIndex(head, SLASH);
      forall j: nat | SplitsAt(name, j) ensures j < length && j <= i < length && SplitsAt(name, i) {
        assert head[j] == name[j] == SLASH;
        assert head[i] == name[i];
      }
      if SplitUstar(name).Some? {
        assert head[i] == name[i] && SplitsAt(name, i);
      }
    }
  }

  /** `fits_in_base256`. */
  predicate FitsBase256(n: nat, x: int)
    requires n > 0
  {
    n >= 9 || (var bound: int := Pow256(n - 1); -bound <= x < bound)
  }

  predicate IsBasic(k: Bytes) {
    || k == PATH || k == LINKPATH || k == SIZE || k == UID || k == GID
    || k == UNAME || k == GNAME || k == MTIME || k == ATIME || k == CTIME
  }

  /** Records that travel as they are. */
  predicate Carried(k: Bytes) {
    !IsBasic(k) && !(GNU_SPARSE <= k)
  }

  // ----- The state of the field checks.

  datatype Check = Check(formats: Formats, records: Records, preferPax: bool)

  function NoGnu(c: Check): Check { c.(formats := c.formats.(gnu := false)) }

  function NoUstar(c: Check): Check { c.(formats := c.formats.(ustar := false)) }

  /** A field that the header block cannot hold goes into a record, if it has a key. */
  function Recorded(c: Check, key: Bytes, text: Bytes): Check {
    if key == [] then c.(formats := c.formats.(pax := false))
    else c.(records := c.records[key := text])
  }

  /** A record that the header brings along for this very value is kept. */
  function Confirmed(c: Check, given: Records, key: Bytes, text: Bytes): Check {
    if key in given && given[key] == text then c.(records := c.records[key := text]) else c
  }

  predicate StringNeedsRecord(s: Bytes, size: nat) {
    !IsAscii(s) || |s| > size
  }

  function CheckString(c: Check, given: Records, s: Bytes, size: nat, key: Bytes): Check {
    var c1 := if NUL in s || (|s| > size && key != PATH && key != LINKPATH) then NoGnu(c) else c;
    var c2 := if !StringNeedsRecord(s, size) then c1
              else Recorded(if key != PATH || SplitUstar(s).None? then NoUstar(c1) else c1, key, s);
    Confirmed(c2, given, key, s)
  }

  function CheckNumber(c: Check, given: Records, n: i64, size: nat, key: Bytes): Check
    requires size > 0
  {
    var c1 := if FitsBase256(size, n) then c else NoGnu(c);
    var c2 := if FitsOctal(size, n) then c1 else Recorded(NoUstar(c1), key, FormatInt(n));
    Confirmed(c2, given, key, FormatInt(n))
  }

  function CheckTime(c: Check, given: Records, ts: Option<Time>, size: nat, key: Bytes): Check
    requires size > 0
  {
    if ts.None? then c
    else
      var t := ts.value;
      var inField := key == MTIME && FitsOctal(size, t.sec);
      var c1 := if FitsBase256(size, t.sec) then c else NoGnu(c);
      var c2 := if inField then c1 else NoUstar(c1);
      var c3 := if inField && t.nsec == 0 then c2
                else Recorded(c2.(preferPax := true), key, FormatTime(t));
      Confirmed(c3, given, key, FormatTime(t))
  }

  /** `FmtCheck`: the checks update the formats still possible and the records needed. */
  class FmtCheck {
    var formats: Formats
    var pax: Records
    var preferPax: bool

    constructor ()
      ensures State() == Check(Formats(true, true, true), map[], false)
    {
      formats, pax, preferPax := Formats(true, true, true), map[], false;
    }

    function State(): Check
      reads this
    {
      Check(formats, pax, preferPax)
    }

    method VerifyString(given: Records, s: Bytes, size: nat, key: Bytes)
      modifies this
      ensures State() == CheckString(old(State()), given, s, size, key)
    {
      var tooLong := |s| > size;
      var allowLongGnu := key == PATH || key == LINKPATH;
      if NUL in s || (tooLong && !allowLongGnu) {
        formats := formats.(gnu := false);
      }
      if !IsAscii(s) || tooLong {
        if key != PATH || SplitUstar(s).None? {
          formats := formats.(ustar := false);
        }
        if key == [] {
          formats := formats.(pax := false);
        } else {
          pax := pax[key := s];
        }
      }
      if key in given && given[key] == s {
        pax := pax[key := s];
      }
    }

    method VerifyNumeric(given: Records, n: i64, size: nat, key: Bytes)
      requires size > 0
      modifies this
      ensures State() == CheckNumber(old(State()), given, n, size, key)
    {
      if !FitsBase256(size, n) {
        formats := formats.(gnu := false);
      }
      if !FitsOctal(size, n) {
        formats := formats.(ustar := false);
        if key == [] {
          formats := formats.(pax := false);
        } else {
          pax := pax[key := FormatInt(n)];
        }
      }
      var want := FormatInt(n);
      if key in given && given[key] == want {
        pax := pax[key := want];
      }
    }

    method VerifyTime(given: Records, ts: Option<Time>, size: nat, key: Bytes)
      requires size > 0
      modifies this
      ensures State() == CheckTime(old(State()), given, ts, size, key)
    {
      hide FormatTime;
      if ts.None? {
        return;
      }
      var t := ts.value;
      if !FitsBase256(size, t.sec) {
        formats := formats.(gnu := false);
      }
      var isMtime := key == MTIME;
      var fitsOctal := FitsOctal(size, t.sec);
      if !(isMtime && fitsOctal) {
        formats := formats.(ustar := false);
      }
      if !isMtime || !fitsOctal || t.nsec != 0 {
        preferPax := true;
        if key == [] {
          formats := formats.(pax := false);
        } else {
          pax := pax[key := FormatTime(t)];
        }
      }
      var want := FormatTime(t);
      if key in given && given[key] == want {
        pax := pax[key := want];
      }
    }
  }

  // ----- All the checks.

  function CheckStrings(c: Check, h: Header): Check {
    var r := h.paxRecords;
    var c1 := CheckString(c, r, h.name, 100, PATH);
    var c2 := CheckString(c1, r, h.linkname, 100, LINKPATH);
    var c3 := CheckString(c2, r, h.uname, 32, UNAME);
    CheckString(c3, r, h.gname, 32, GNAME)
  }

  function CheckNumbers(c: Check, h: Header): Check {
    var r := h.paxRecords;
    var c1 := CheckNumber(c, r, h.mode, 8, []);
    var c2 := CheckNumber(c1, r, h.uid, 8, UID);
    var c3 := CheckNumber(c2, r, h.gid, 8, GID);
    var c4 := CheckNumber(c3, r, h.size, 12, SIZE);
    var c5 := CheckNumber(c4, r, h.devmajor, 8, []);
    CheckNumber(c5, r, h.devminor, 8, [])
  }

  function CheckTimes(c: Check, h: Header): Check {
    var r := h.paxRecords;
    var c1 := CheckTime(c, r, h.modTime, 12, MTIME);
    var c2 := CheckTime(c1, r, h.accessTime, 12, ATIME);
    CheckTime(c2, r, h.changeTime, 12, CTIME)
  }

  function Fields(h: Header): Check {
    CheckTimes(CheckNumbers(CheckStrings(Check(Formats(true, true, true), map[], false), h), h), h)
  }

  /** Records of the header that are added to those of the fields. */
  function Added(h: Header, records: Records): Records {
    map k | k in h.paxRecords && k !in records && (h.typeflag == TYPE_XGLOBAL_HEADER || Carried(k)) :: h.paxRecords[k]
  }

  function AllRecords(h: Header): Records {
    Fields(h).records + Added(h, Fields(h).records)
  }

  predicate EndsWithSlash(s: Bytes) {
    |s| > 0 && s[|s| - 1] == SLASH
  }

  /** Headers refused whatever the format. */
  predicate Unwritable(h: Header) {
    || (EndsWithSlash(h.name)
        && (h.typeflag == TYPE_REG || h.typeflag == TYPE_CHAR || h.typeflag == TYPE_BLOCK
            || h.typeflag == TYPE_FIFO || h.typeflag == TYPE_GNU_SPARSE))
    || h.typeflag == TYPE_XHEADER || h.typeflag == TYPE_GNU_LONGNAME || h.typeflag == TYPE_GNU_LONGLINK
    || (!HeaderOnly(h.typeflag) && h.size < 0)
  }

  function Meet(a: Formats, b: Formats): Formats {
    Formats(a.ustar && b.ustar, a.pax && b.pax, a.gnu && b.gnu)
  }

  const ONLY_PAX := Formats(false, true, false)

  /** The formats that remain, given what the header asks for. */
  function Remaining(h: Header): Formats {
    var c := Fields(h);
    var f1 := if h.typeflag == TYPE_XGLOBAL_HEADER || h.paxRecords != map[] then Meet(c.formats, ONLY_PAX) else c.formats;
    if h.format == NO_FORMATS then f1
    else Meet(f1, if h.format.pax && !c.preferPax then h.format.(ustar := true) else h.format)
  }

  datatype Allowed = Refused | Allowed(formats: Formats, records: Records)

  /** What `allowed_formats` decides. */
  function AllowedFormats(h: Header): Allowed {
    if Unwritable(h) || !AllValid(AllRecords(h)) || Remaining(h) == NO_FORMATS then Refused
    else Allowed(Remaining(h), AllRecords(h))
  }

  method VerifyFields(h: Header) returns (c: FmtCheck)
    ensures fresh(c) && c.State() == Fields(h)
  {
    hide CheckString, CheckNumber, CheckTime;
    var r := h.paxRecords;
    c := new FmtCheck();
    c.VerifyString(r, h.name, 100, PATH);
    c.VerifyString(r, h.linkname, 100, LINKPATH);
    c.VerifyString(r, h.uname, 32, UNAME);
    c.VerifyString(r, h.gname, 32, GNAME);
    c.VerifyNumeric(r, h.mode, 8, []);
    c.VerifyNumeric(r, h.uid, 8, UID);
    c.VerifyNumeric(r, h.gid, 8, GID);
    c.VerifyNumeric(r, h.size, 12, SIZE);
    c.VerifyNumeric(r, h.devmajor, 8, []);
    c.VerifyNumeric(r, h.devminor, 8, []);
    c.VerifyTime(r, h.modTime, 12, MTIME);
    c.VerifyTime(r, h.accessTime, 12, ATIME);
    c.VerifyTime(r, h.changeTime, 12, CTIME);
  }

  /** The loop that adds the header's own records. */
  method AddRecords(h: Header, records: Records) returns (all: Records)
    ensures all == records + Added(h, records)
  {
    hide IsBasic;
    all := records;
    var todo := h.paxRecords.Keys;
    while todo != {}
      invariant todo <= h.paxRecords.Keys
      invariant forall k :: k in all <==> k in records || (k in Added(h, records) && k !in todo)
      invariant forall k :: k in all ==> all[k] == if k in records then records[k] else h.paxRecords[k]
      decreases |todo|
    {
      var k :| k in todo;
      if k !in all && (h.typeflag == TYPE_XGLOBAL_HEADER || Carried(k)) {
        all := all[k := h.paxRecords[k]];
      }
      todo := todo - {k};
    }
  }

  method CheckValid(records: Records) returns (ok: bool)
    ensures ok == AllValid(records)
  {
    hide ValidRecord;
    var todo := records.Keys;
    while todo != {}
      invariant todo <= records.Keys
      invariant forall k :: k in records && k !in todo ==> ValidRecord(k, records[k])
      decreases |todo|
    {
      var k :| k in todo;
      if !ValidRecord(k, records[k]) {
        return false;
      }
      todo := todo - {k};
    }
    return true;
  }

  /** `allowed_formats`. */
  method ComputeAllowed(h: Header) returns (r: Allowed)
    ensures r == AllowedFormats(h)
  {
    hide Fields, AllValid, Added;
    var c := VerifyFields(h);
    if Unwritable(h) {
      return Refused;
    }
    if h.typeflag == TYPE_XGLOBAL_HEADER {
      c.formats := Meet(c.formats, ONLY_PAX);
    }
    if h.paxRecords != map[] {
      c.pax := AddRecords(h, c.pax);
      c.formats := Meet(c.formats, ONLY_PAX);
    } else {
      NothingAdded(h, c.pax);
    }
    var ok := CheckValid(c.pax);
    if !ok {
      return Refused;
    }
    if h.format != NO_FORMATS {
      var want := h.format;
      if want.pax && !c.preferPax {
        want := want.(ustar := true);
      }
      c.formats := Meet(c.formats, want);
    }
    if c.formats == NO_FORMATS {
      return Refused;
    }
    return Allowed(c.formats, c.pax);
  }

  lemma NothingAdded(h: Header, records: Records)
    requires h.paxRecords == map[]
    ensures records + Added(h, records) == records
  {
    assert Added(h, records) == map[];
  }
}
