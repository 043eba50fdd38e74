/** What the field checks establish: which fields are recorded, and what each format then rules out. */
module TarChecks {
  import opened Bits
  import opened Decimal
  import opened Endian
  import opened PaxText
  import opened TarFields
  import opened TarFormats
  import opened TarHeader

  /** A field's record is there when it has to be, and then holds the field. */
  predicate Own(records: Records, key: Bytes, needed: bool, text: Bytes) {
    (needed ==> key in records) && (key in records ==> records[key] == text)
  }

  predicate Same(a: Records, b: Records, k: Bytes) {
    (k in a <==> k in b) && (k in a ==> a[k] == b[k])
  }

  /** A check changes at most the record of its own key. */
  ghost predicate Only(a: Records, b: Records, keys: set<Bytes>) {
    forall k :: k !in keys ==> Same(a, b, k)
  }

  lemma OnlyChain(a: Records, b: Records, c: Records, s: set<Bytes>, t: set<Bytes>)
    requires Only(a, b, s) && Only(b, c, t)
    ensures Only(a, c, s + t)
  {
    forall k | k !in s + t ensures Same(a, c, k) {
      assert Same(a, b, k) && Same(b, c, k);
    }
  }

  lemma StringStep(c: Check, given: Records, s: Bytes, size: nat, key: Bytes)
    requires key != []
    ensures var d := CheckString(c, given, s, size, key);
            && Only(c.records, d.records, {key})
            && (key !in c.records ==> Own(d.records, key, StringNeedsRecord(s, size), s))
            && d.preferPax == c.preferPax && d.formats.pax == c.formats.pax
            && (d.formats.ustar <==> c.formats.ustar && (StringNeedsRecord(s, size) ==> key == PATH && SplitUstar(s).Some?))
  {
    hide SplitUstar, StringNeedsRecord;
  }

  lemma NumberStep(c: Check, given: Records, n: i64, size: nat, key: Bytes)
    requires size > 0
    ensures var d := CheckNumber(c, given, n, size, key);
            && Only(c.records, d.records, {key})
            && (key != [] && key !in c.records ==> Own(d.records, key, !FitsOctal(size, n), FormatInt(n)))
            && d.preferPax == c.preferPax
            && (d.formats.pax <==> c.formats.pax && (key == [] ==> FitsOctal(size, n)))
            && (d.formats.ustar <==> c.formats.ustar && FitsOctal(size, n))
  {
    hide FitsOctal, FitsBase256, FormatInt;
  }

  predicate TimeInField(ts: Option<Time>, size: nat, key: Bytes)
    requires size > 0
  {
    ts.None? || (key == MTIME && FitsOctal(size, ts.value.sec) && ts.value.nsec == 0)
  }

  lemma TimeStep(c: Check, given: Records, ts: Option<Time>, size: nat, key: Bytes)
    requires size > 0 && key != []
    ensures var d := CheckTime(c, given, ts, size, key);
            && Only(c.records, d.records, {key})
            && (ts.None? ==> d == c)
            && (ts.Some? && key !in c.records ==>
                  Own(d.records, key, !TimeInField(ts, size, key), FormatTime(ts.value)))
            && d.formats.pax == c.formats.pax
            && (d.preferPax <==> c.preferPax || !TimeInField(ts, size, key))
            && (d.formats.ustar <==> c.formats.ustar && (ts.None? || (key == MTIME && FitsOctal(size, ts.value.sec))))
  {
    hide FitsOctal, FitsBase256, FormatTime;
  }

  // ----- The strings, the numbers and the times in turn.

  const STRING_KEYS: set<Bytes> := {PATH} + {LINKPATH} + {UNAME} + {GNAME}
  const NUMBER_KEYS: set<Bytes> := {[]} + {UID} + {GID} + {SIZE} + {[]} + {[]}
  const TIME_KEYS: set<Bytes> := {MTIME} + {ATIME} + {CTIME}

  /** The record of each string field. */
  predicate StringRecords(r: Records, h: Header) {
    && Own(r, PATH, StringNeedsRecord(h.name, 100), h.name)
    && Own(r, LINKPATH, StringNeedsRecord(h.linkname, 100), h.linkname)
    && Own(r, UNAME, StringNeedsRecord(h.uname, 32), h.uname)
    && Own(r, GNAME, StringNeedsRecord(h.gname, 32), h.gname)
  }

  predicate StringsInUstar(h: Header) {
    && (StringNeedsRecord(h.name, 100) ==> SplitUstar(h.name).Some?)
    && !StringNeedsRecord(h.linkname, 100) && !StringNeedsRecord(h.uname, 32) && !StringNeedsRecord(h.gname, 32)
  }

  lemma StringFacts(c: Check, h: Header)
    requires c.records == map[]
    ensures var d := CheckStrings(c, h);
            && Only(c.records, d.records, STRING_KEYS) && StringRecords(d.records, h)
            && d.preferPax == c.preferPax && d.formats.pax == c.formats.pax
            && (d.formats.ustar <==> c.formats.ustar && StringsInUstar(h))
  {
    hide CheckString, StringNeedsRecord, SplitUstar;
    var r := h.paxRecords;
    var c1 := CheckString(c, r, h.name, 100, PATH);
    var c2 := CheckString(c1, r, h.linkname, 100, LINKPATH);
    var c3 := CheckString(c2, r, h.uname, 32, UNAME);
    var c4 := CheckString(c3, r, h.gname, 32, GNAME);
    StringStep(c, r, h.name, 100, PATH);
    StringStep(c1, r, h.linkname, 100, LINKPATH);
    StringStep(c2, r, h.uname, 32, UNAME);
    StringStep(c3, r, h.gname, 32, GNAME);
    OnlyChain(c.records, c1.records, c2.records, {PATH}, {LINKPATH});
    OnlyChain(c.records, c2.records, c3.records, {PATH} + {LINKPATH}, {UNAME});
    OnlyChain(c.records, c3.records, c4.records, {PATH} + {LINKPATH} + {UNAME}, {GNAME});
    assert Same(c.records, c1.records, LINKPATH);
    assert Same(c.records, c2.records, UNAME);
    assert Same(c.records, c3.records, GNAME);
    assert Same(c1.records, c2.records, PATH) && Same(c2.records, c3.records, PATH) && Same(c3.records, c4.records, PATH);
    assert Same(c2.records, c3.records, LINKPATH) && Same(c3.records, c4.records, LINKPATH);
    assert Same(c3.records, c4.records, UNAME);
  }

  predicate NumberRecords(r: Records, h: Header) {
    && Own(r, UID, !FitsOctal(8, h.uid), FormatInt(h.uid))
    && Own(r, GID, !FitsOctal(8, h.gid), FormatInt(h.gid))
    && Own(r, SIZE, !FitsOctal(12, h.size), FormatInt(h.size))
  }

  /** The numbers that have no record to go to. */
  predicate PlainNumbersFit(h: Header) {
    FitsOctal(8, h.mode) && FitsOctal(8, h.devmajor) && FitsOctal(8, h.devminor)
  }

  predicate NumbersFit(h: Header) {
    PlainNumbersFit(h) && FitsOctal(8, h.uid) && FitsOctal(8, h.gid) && FitsOctal(12, h.size)
  }

  lemma NumberFacts(c: Check, h: Header)
    requires UID !in c.records && GID !in c.records && SIZE !in c.records
    ensures var d := CheckNumbers(c, h);
            && Only(c.records, d.records, NUMBER_KEYS) && NumberRecords(d.records, h)
            && d.preferPax == c.preferPax
            && (d.formats.pax <==> c.formats.pax && PlainNumbersFit(h))
            && (d.formats.ustar <==> c.formats.ustar && NumbersFit(h))
  {
    hide CheckNumber, FitsOctal, FormatInt;
    var r := h.paxRecords;
    var c1 := CheckNumber(c, r, h.mode, 8, []);
    var c2 := CheckNumber(c1, r, h.uid, 8, UID);
    var c3 := CheckNumber(c2, r, h.gid, 8, GID);
    var c4 := CheckNumber(c3, r, h.size, 12, SIZE);
    var c5 := CheckNumber(c4, r, h.devmajor, 8, []);
    var c6 := CheckNumber(c5, r, h.devminor, 8, []);
    NumberStep(c, r, h.mode, 8, []);
    NumberStep(c1, r, h.uid, 8, UID);
    NumberStep(c2, r, h.gid, 8, GID);
    NumberStep(c3, r, h.size, 12, SIZE);
    NumberStep(c4, r, h.devmajor, 8, []);
    NumberStep(c5, r, h.devminor, 8, []);
    OnlyChain(c.records, c1.records, c2.records, {[]}, {UID});
    OnlyChain(c.records, c2.records, c3.records, {[]} + {UID}, {GID});
    OnlyChain(c.records, c3.records, c4.records, {[]} + {UID} + {GID}, {SIZE});
    OnlyChain(c.records, c4.records, c5.records, {[]} + {UID} + {GID} + {SIZE}, {[]});
    OnlyChain(c.records, c5.records, c6.records, {[]} + {UID} + {GID} + {SIZE} + {[]}, {[]});
    assert Same(c.records, c1.records, UID) && Same(c.records, c2.records, GID) && Same(c.records, c3.records, SIZE);
    assert Same(c2.records, c3.records, UID) && Same(c3.records, c4.records, UID);
    assert Same(c4.records, c5.records, UID) && Same(c5.records, c6.records, UID);
    assert Same(c3.records, c4.records, GID) && Same(c4.records, c5.records, GID) && Same(c5.records, c6.records, GID);
    assert Same(c4.records, c5.records, SIZE) && Same(c5.records, c6.records, SIZE);
  }

  predicate TimeRecord(r: Records, ts: Option<Time>, key: Bytes) {
    if ts.None? then key !in r else Own(r, key, !TimeInField(ts, 12, key), FormatTime(ts.value))
  }

  predicate TimeRecords(r: Records, h: Header) {
    TimeRecord(r, h.modTime, MTIME) && TimeRecord(r, h.accessTime, ATIME) && TimeRecord(r, h.changeTime, CTIME)
  }

  predicate TimesInField(h: Header) {
    TimeInField(h.modTime, 12, MTIME) && h.accessTime.None? && h.changeTime.None?
  }

  lemma TimeFacts(c: Check, h: Header)
    requires MTIME !in c.records && ATIME !in c.records && CTIME !in c.records
    ensures var d := CheckTimes(c, h);
            && Only(c.records, d.records, TIME_KEYS) && TimeRecords(d.records, h)
            && d.formats.pax == c.formats.pax
            && (d.preferPax <==> c.preferPax || !TimesInField(h))
            && (d.formats.ustar ==> c.formats.ustar)
  {
    hide CheckTime, FitsOctal, FormatTime;
    var r := h.paxRecords;
    var c1 := CheckTime(c, r, h.modTime, 12, MTIME);
    var c2 := CheckTime(c1, r, h.accessTime, 12, ATIME);
    var c3 := CheckTime(c2, r, h.changeTime, 12, CTIME);
    TimeStep(c, r, h.modTime, 12, MTIME);
    TimeStep(c1, r, h.accessTime, 12, ATIME);
    TimeStep(c2, r, h.changeTime, 12, CTIME);
    OnlyChain(c.records, c1.records, c2.records, {MTIME}, {ATIME});
    OnlyChain(c.records, c2.records, c3.records, {MTIME} + {ATIME}, {CTIME});
    assert Same(c.records, c1.records, ATIME) && Same(c.records, c2.records, CTIME);
    assert Same(c1.records, c2.records, MTIME) && Same(c2.records, c3.records, MTIME);
    assert Same(c2.records, c3.records, ATIME);
  }

  // ----- Together.

  lemma KeysApart()
    ensures forall k :: k in STRING_KEYS ==> k !in NUMBER_KEYS && k !in TIME_KEYS
    ensures forall k :: k in NUMBER_KEYS ==> k !in STRING_KEYS && k !in TIME_KEYS
    ensures forall k :: k in TIME_KEYS ==> k !in STRING_KEYS && k !in NUMBER_KEYS
    ensures forall k :: k in STRING_KEYS || k in NUMBER_KEYS || k in TIME_KEYS ==> k == [] || IsBasic(k)
  {
  }

  /** The records that the fields call for, and the formats they leave. */
  lemma FieldFacts(h: Header)
    ensures var d := Fields(h);
            && StringRecords(d.records, h) && NumberRecords(d.records, h) && TimeRecords(d.records, h)
            && (forall k :: k in d.records ==> k == [] || IsBasic(k))
            && (d.preferPax <==> !TimesInField(h))
            && (d.formats.pax <==> PlainNumbersFit(h))
            && (d.formats.ustar ==> StringsInUstar(h) && NumbersFit(h))
  {
    hide CheckStrings, CheckNumbers, CheckTimes, StringsInUstar, FitsOctal, FormatInt, FormatTime, StringNeedsRecord,
         IsBasic, TimesInField, TimeInField;
    var c0 := Check(Formats(true, true, true), map[], false);
    var c1 := CheckStrings(c0, h);
    var c2 := CheckNumbers(c1, h);
    var c3 := CheckTimes(c2, h);
    KeysApart();
    StringFacts(c0, h);
    assert Same(c0.records, c1.records, UID) && Same(c0.records, c1.records, GID) && Same(c0.records, c1.records, SIZE);
    NumberFacts(c1, h);
    OnlyChain(c0.records, c1.records, c2.records, STRING_KEYS, NUMBER_KEYS);
    assert Same(c0.records, c2.records, MTIME) && Same(c0.records, c2.records, ATIME) && Same(c0.records, c2.records, CTIME);
    TimeFacts(c2, h);
    OnlyChain(c0.records, c2.records, c3.records, STRING_KEYS + NUMBER_KEYS, TIME_KEYS);
    KeptStrings(c1.records, c2.records, h, NUMBER_KEYS);
    KeptStrings(c2.records, c3.records, h, TIME_KEYS);
    assert Same(c2.records, c3.records, UID) && Same(c2.records, c3.records, GID) && Same(c2.records, c3.records, SIZE);
    forall k | k in c3.records ensures k == [] || IsBasic(k) {
      assert !Same(c0.records, c3.records, k);
    }
  }

  lemma KeptStrings(a: Records, b: Records, h: Header, keys: set<Bytes>)
    requires StringRecords(a, h) && Only(a, b, keys)
    requires PATH !in keys && LINKPATH !in keys && UNAME !in keys && GNAME !in keys
    ensures StringRecords(b, h)
  {
    hide StringNeedsRecord;
    assert Same(a, b, PATH) && Same(a, b, LINKPATH) && Same(a, b, UNAME) && Same(a, b, GNAME);
  }

  /** A header asking for pax is written as plain ustar only if nothing is lost by it. */
  lemma UstarFacts(h: Header)
    requires AllowedFormats(h).Allowed? && AllowedFormats(h).formats.ustar
    ensures StringsInUstar(h) && NumbersFit(h)
    ensures h.paxRecords == map[] && h.typeflag != TYPE_XGLOBAL_HEADER
    ensures h.format == ONLY_PAX ==> TimesInField(h)
    ensures h.modTime.Some? ==> FitsOctal(12, h.modTime.value.sec)
  {
    hide Fields, AllValid, AllRecords, StringsInUstar, FitsOctal, PlainNumbersFit;
    FieldFacts(h);
    UstarTime(h);
  }

  lemma UstarTime(h: Header)
    requires Fields(h).formats.ustar
    ensures h.modTime.Some? ==> FitsOctal(12, h.modTime.value.sec)
  {
    hide CheckStrings, CheckNumbers, CheckTime, FitsOctal, FormatTime;
    var r := h.paxRecords;
    var c0 := Check(Formats(true, true, true), map[], false);
    var c := CheckNumbers(CheckStrings(c0, h), h);
    var c1 := CheckTime(c, r, h.modTime, 12, MTIME);
    var c2 := CheckTime(c1, r, h.accessTime, 12, ATIME);
    TimeStep(c, r, h.modTime, 12, MTIME);
    TimeStep(c1, r, h.accessTime, 12, ATIME);
    TimeStep(c2, r, h.changeTime, 12, CTIME);
  }
}
