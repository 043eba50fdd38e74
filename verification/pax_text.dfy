/** The text of POSIX.1 pax extended headers: records whose length counts its own digits, and
    times with a decimal fraction. */
module PaxText {
  import opened Bits
  import opened ByteOrder
  import opened Decimal
  import opened Endian

  const SPACE: u8 := 0x20
  const EQUALS: u8 := 0x3D
  const NEWLINE: u8 := 0x0A
  const DOT: u8 := 0x2E
  const NUL: u8 := 0

  const PATH: Bytes := [0x70, 0x61, 0x74, 0x68]
  const LINKPATH: Bytes := [0x6C, 0x69, 0x6E, 0x6B, 0x70, 0x61, 0x74, 0x68]
  const SIZE: Bytes := [0x73, 0x69, 0x7A, 0x65]
  const UID: Bytes := [0x75, 0x69, 0x64]
  const GID: Bytes := [0x67, 0x69, 0x64]
  const UNAME: Bytes := [0x75, 0x6E, 0x61, 0x6D, 0x65]
  const GNAME: Bytes := [0x67, 0x6E, 0x61, 0x6D, 0x65]
  const MTIME: Bytes := [0x6D, 0x74, 0x69, 0x6D, 0x65]
  const ATIME: Bytes := [0x61, 0x74, 0x69, 0x6D, 0x65]
  const CTIME: Bytes := [0x63, 0x74, 0x69, 0x6D, 0x65]

  type Records = map<Bytes, Bytes>

  /** Where `b` first occurs in `s`, or the length of `s`. */
  function FirstIndex(s: Bytes, b: u8): (i: nat)
    ensures i <= |s| && (i < |s| ==> s[i] == b)
    ensures forall j :: 0 <= j < i ==> s[j] != b
  {
    if |s| == 0 || s[0] == b then 0 else 1 + FirstIndex(s[1..], b)
  }

  lemma FirstIndexIs(s: Bytes, b: u8, i: nat)
    requires i < |s| && s[i] == b && forall j :: 0 <= j < i ==> s[j] != b
    ensures FirstIndex(s, b) == i
  {
    var k := FirstIndex(s, b);
    assert !(k < i) && !(i < k);
  }

  // ----- Records.

  /** `valid_pax_record`. */
  predicate ValidRecord(k: Bytes, v: Bytes) {
    && k != [] && EQUALS !in k
    && if k == PATH || k == LINKPATH || k == UNAME || k == GNAME then NUL !in v else NUL !in k
  }

  function RecordText(size: nat, k: Bytes, v: Bytes): (s: Bytes)
    ensures |s| == |Digits(size, 10)| + |k| + |v| + 3
  {
    Digits(size, 10) + [SPACE] + k + [EQUALS] + v + [NEWLINE]
  }

  /** `format_pax_record`: the length is guessed, and corrected once. */
  function FormatRecord(k: Bytes, v: Bytes): Option<Bytes> {
    if !ValidRecord(k, v) then None
    else
      var base := |k| + |v| + 3;
      var size := base + |Digits(base, 10)|;
      var record := RecordText(size, k, v);
      Some(if |record| != size then RecordText(|record|, k, v) else record)
  }

  /** Adding the digits of a length to it lengthens it by at most one digit, and then counting that
      digit as well changes nothing more. */
  lemma OneCorrection(base: nat)
    requires base >= 4
    ensures var d := |Digits(base, 10)|;
            var e := |Digits(base + d, 10)|;
            e == d || (e == d + 1 && |Digits(base + e, 10)| == e)
  {
    hide Digits, Pow;
    var d := |Digits(base, 10)|;
    var p, q := Pow(10, d - 1), Pow(10, d);
    DigitsSize(base, 10);
    NextPow(d);
    NextPow(d + 1);
    PowExceeds(d - 1);
    DigitsAtMost(base + d, 10, d + 1);
    DigitsAtMost(base + d + 1, 10, d + 1);
    if base + d < q {
      DigitsAtMost(base + d, 10, d);
      DigitsAtLeast(base + d, 10, d - 1);
    } else {
      DigitsAtLeast(base + d, 10, d);
      DigitsAtLeast(base + d + 1, 10, d);
    }
  }

  lemma NextPow(k: nat)
    requires k > 0
    ensures Pow(10, k) == 10 * Pow(10, k - 1)
  {
  }

  /** The length of a record counts the whole record, its own digits included. */
  lemma SelfCounting(k: Bytes, v: Bytes)
    requires ValidRecord(k, v)
    ensures FormatRecord(k, v).Some?
    ensures var record := FormatRecord(k, v).value; record == RecordText(|record|, k, v)
  {
    OneCorrection(|k| + |v| + 3);
  }

  /** `parse_pax_record`: key, value and what follows. */
  function ParseRecord(s: Bytes): (r: Option<(Bytes, Bytes, Bytes)>)
    ensures r.Some? ==> |r.value.2| < |s|
  {
    var sp := FirstIndex(s, SPACE);
    if sp == |s| then None
    else
      var rest := s[sp + 1..];
      var size := ParseInt(s[..sp]);
      if size.None? || size.value < 5 || size.value > |s| then None
      else
        var n: int := size.value - (sp + 1);
        if n <= 0 || rest[n - 1] != NEWLINE then None
        else
          var rec := rest[..n - 1];
          var eq := FirstIndex(rec, EQUALS);
          if eq == |rec| || !ValidRecord(rec[..eq], rec[eq + 1..]) then None
          else Some((rec[..eq], rec[eq + 1..], rest[n..]))
  }

  lemma DigitsHaveNo(n: nat, b: u8)
    requires !Digit(b, 10)
    ensures b !in Digits(n, 10)
  {
  }

  /** A formatted record parses back, whatever follows it. */
  lemma ParseOfRecord(k: Bytes, v: Bytes, z: Bytes)
    requires ValidRecord(k, v) && |FormatRecord(k, v).value| < 0x8000_0000_0000_0000
    ensures ParseRecord(FormatRecord(k, v).value + z) == Some((k, v, z))
  {
    hide ValidRecord, ParseInt, FormatInt, Digits;
    SelfCounting(k, v);
    var record := FormatRecord(k, v).value;
    var digits := Digits(|record|, 10);
    var sp := |digits|;
    var s := record + z;
    assert s[sp] == SPACE && s[..sp] == digits;
    DigitsHaveNo(|record|, SPACE);
    FirstIndexIs(s, SPACE, sp);
    assert ParseInt(digits) == Some(|record|) by {
      NonNegative(|record|);
    }
    var rest, rec := s[sp + 1..], k + [EQUALS] + v;
    assert rest == rec + [NEWLINE] + z;
    assert rest[..|rec|] == rec && rest[|rec|] == NEWLINE && rest[|rec| + 1..] == z;
    KeyValue(k, v);
  }

  lemma NonNegative(n: nat)
    requires n < 0x8000_0000_0000_0000
    ensures ParseInt(Digits(n, 10)) == Some(n)
  {
    ParseOfFormat(n);
  }

  lemma KeyValue(k: Bytes, v: Bytes)
    requires ValidRecord(k, v)
    ensures var rec := k + [EQUALS] + v;
            k != [] && FirstIndex(rec, EQUALS) == |k| && rec[..|k|] == k && rec[|k| + 1..] == v
  {
    var rec := k + [EQUALS] + v;
    FirstIndexIs(rec, EQUALS, |k|);
  }

  // ----- Whole extended headers.

  predicate AllValid(m: Records) {
    forall k :: k in m ==> ValidRecord(k, m[k])
  }

  /** The records in key order, as the writer lays them out. */
  ghost function FormatRecords(m: Records): Bytes
    requires AllValid(m)
    decreases |m|
  {
    if m == map[] then []
    else
      assert m.Keys != {} by { var k :| k in m; assert k in m.Keys; }
      var k := Least(m.Keys);
      assert (m - {k}).Keys == m.Keys - {k};
      assert |m - {k}| < |m| by { Smaller(m, k); }
      FormatRecord(k, m[k]).value + FormatRecords(m - {k})
  }

  lemma FormatUnfold(m: Records)
    requires AllValid(m) && m != map[]
    ensures m.Keys != {}
    ensures var k := Least(m.Keys);
            && AllValid(m - {k}) && |m - {k}| < |m|
            && ValidRecord(k, m[k])
            && FormatRecords(m) == FormatRecord(k, m[k]).value + FormatRecords(m - {k}) != []
  {
    hide ValidRecord, FormatRecord;
    assert m.Keys != {} by { var k :| k in m; assert k in m.Keys; }
    Smaller(m, Least(m.Keys));
    SelfCounting(Least(m.Keys), m[Least(m.Keys)]);
  }

  lemma Reinsert(before: Records, m: Records, k: Bytes)
    requires k in m
    ensures before[k := m[k]] + (m - {k}) == before + m
  {
  }

  lemma Smaller(m: Records, k: Bytes)
    requires k in m
    ensures |m - {k}| < |m|
  {
    assert (m - {k}).Keys == m.Keys - {k};
    assert |m| == |m.Keys| && |m - {k}| == |(m - {k}).Keys|;
  }

  /** What parsing gives on top of records already read; a repeated key keeps its last value. */
  function RecordsFrom(m: Records, buf: Bytes): Option<Records>
    decreases |buf|
  {
    if buf == [] then Some(m)
    else
      match ParseRecord(buf)
      case None => None
      case Some((k, v, rest)) => RecordsFrom(m[k := v], rest)
  }

  /** `parse_pax`. */
  method ParsePax(buf: Bytes) returns (r: Option<Records>)
    ensures r == RecordsFrom(map[], buf)
  {
    hide ParseRecord;
    var sbuf, m := buf, map[];
    while sbuf != []
      invariant RecordsFrom(m, sbuf) == RecordsFrom(map[], buf)
      decreases |sbuf|
    {
      var parts := ParseRecord(sbuf);
      if parts.None? {
        return None;
      }
      m, sbuf := m[parts.value.0 := parts.value.1], parts.value.2;
    }
    return Some(m);
  }

  lemma EmptyRecords(before: Records)
    ensures FormatRecords(map[]) == [] && RecordsFrom(before, []) == Some(before)
  {
  }

  /** Parsing the concatenation of formatted records gives the same map. */
  lemma {:induction false} ParseOfRecords(before: Records, m: Records)
    requires AllValid(m) && |FormatRecords(m)| < 0x8000_0000_0000_0000
    ensures RecordsFrom(before, FormatRecords(m)) == Some(before + m)
    decreases |m|
  {
    hide ParseRecord, ValidRecord, FormatRecord, FormatRecords, RecordText;
    if m == map[] {
      EmptyRecords(before);
      assert before + m == before;
    } else {
      FormatUnfold(m);
      var k := Least(m.Keys);
      var rest := m - {k};
      ParseOfRecords(before[k := m[k]], rest);
      ParseOfRecord(k, m[k], FormatRecords(rest));
      Reinsert(before, m, k);
    }
  }

  // ----- Times.

  type Nanos = n: int | 0 <= n < 1_000_000_000

  /** `PaxTime`: whole seconds and a normalised fraction. */
  datatype Time = Time(sec: i64, nsec: Nanos)

  function Wrap64(x: int): i64 {
    (x + 0x8000_0000_0000_0000) % 0x1_0000_0000_0000_0000 - 0x8000_0000_0000_0000
  }

  /** `PaxTime::unix`: the seconds borrow from or lend to the nanoseconds; division truncates. */
  function Unix(sec: i64, nsec: i64): Time {
    if 0 <= nsec < BILLION then Time(sec, nsec)
    else
      var x: int := nsec;
      var n: int := if x < 0 then -(-x / BILLION) else x / BILLION;
      var left: int := x - n * BILLION;
      if left < 0 then Time(Wrap64(Wrap64(sec + n) - 1), left + BILLION)
      else Time(Wrap64(sec + n), left)
  }

  function TrimZeros(s: Bytes): (t: Bytes)
    ensures |t| <= |s| && t == s[..|t|]
    ensures forall i :: |t| <= i < |s| ==> s[i] == ZERO
    ensures |t| > 0 ==> t[|t| - 1] != ZERO
  {
    if |s| > 0 && s[|s| - 1] == ZERO then TrimZeros(s[..|s| - 1]) else s
  }

  /** `format_pax_time`. */
  function FormatTime(t: Time): Bytes {
    if t.nsec == 0 then FormatInt(t.sec)
    else if t.sec < 0 then
      var n: nat := BILLION - t.nsec;
      var s: int := t.sec;
      TrimZeros([MINUS] + Digits(-(s + 1), 10) + [DOT] + Padded(n, 9))
    else TrimZeros(Digits(t.sec, 10) + [DOT] + Padded(t.nsec, 9))
  }

  /** The time that a text stands for. */
  function TimeOf(s: Bytes): Option<Time> {
    var dot := FirstIndex(s, DOT);
    var ss, sn := s[..dot], if dot == |s| then [] else s[dot + 1..];
    var secs := ParseInt(ss);
    if secs.None? then None
    else if sn == [] then Some(Unix(secs.value, 0))
    else if !AllDigits(sn, 10) then None
    else
      var n: int := Value(NineDigits(sn), 10);
      NineDigitsBound(sn);
      Some(Unix(secs.value, if ss[0] == MINUS then -n else n))
  }

  /** `parse_pax_time`: the fraction is copied into nine digits, checking every one. */
  method ParsePaxTime(s: Bytes) returns (r: Option<Time>)
    ensures r == TimeOf(s)
  {
    hide ParseInt, NineDigits, Value, Unix;
    var dot := FirstIndex(s, DOT);
    var ss, sn := s[..dot], if dot == |s| then [] else s[dot + 1..];
    var secs := ParseInt(ss);
    if secs.None? {
      return None;
    }
    if sn == [] {
      return Some(Unix(secs.value, 0));
    }
    var ok, digits := CopyFraction(sn);
    if !ok {
      return None;
    }
    var n: int := Value(digits, 10);
    NineDigitsBound(sn);
    return Some(Unix(secs.value, if ss[0] == MINUS then -n else n));
  }

  method CopyFraction(sn: Bytes) returns (ok: bool, digits: Bytes)
    ensures ok == AllDigits(sn, 10) && (ok ==> digits == NineDigits(sn))
  {
    var nanoDigits := new u8[9](_ => ZERO);
    for i := 0 to |sn|
      invariant AllDigits(sn[..i], 10)
      invariant forall j :: 0 <= j < 9 ==> nanoDigits[j] == if j < i then sn[j] else ZERO
    {
      if !Digit(sn[i], 10) {
        return false, [];
      }
      if i < 9 {
        nanoDigits[i] := sn[i];
      }
    }
    assert sn[..|sn|] == sn;
    return true, nanoDigits[..];
  }

  lemma {:induction false} TrimFraction(a: Bytes, p: Bytes)
    ensures TrimZeros(a + [DOT] + p) == a + [DOT] + TrimZeros(p)
    decreases |p|
  {
    var s := a + [DOT] + p;
    if |p| == 0 {
      assert s[|s| - 1] == DOT;
    } else {
      assert s[|s| - 1] == p[|p| - 1];
      assert s[..|s| - 1] == a + [DOT] + p[..|p| - 1];
      TrimFraction(a, p[..|p| - 1]);
    }
  }

  lemma {:induction false} ZerosValue(s: Bytes)
    requires forall i :: 0 <= i < |s| ==> s[i] == ZERO
    ensures Value(s, 10) == 0
  {
    if |s| > 0 {
      ZerosValue(s[..|s| - 1]);
    }
  }

  /** A fraction without its trailing zeros still reads as the same number of nanoseconds. */
  lemma FractionDigits(n: nat)
    requires 0 < n < BILLION
    ensures var t := TrimZeros(Padded(n, 9));
            t != [] && AllDigits(t, 10) && Value(NineDigits(t), 10) == n
  {
    hide TrimZeros, Padded;
    Billion();
    PaddedValue(n, 9);
    var p := Padded(n, 9);
    var t := TrimZeros(p);
    assert NineDigits(t) == p;
    if t == [] {
      ZerosValue(p);
    }
  }

  lemma TimeOfParts(a: Bytes, t: Bytes)
    requires DOT !in a && ParseInt(a).Some? && t != [] && AllDigits(t, 10) && a != []
    ensures var n: int := Value(NineDigits(t), 10);
            n < BILLION && TimeOf(a + [DOT] + t) == Some(Unix(ParseInt(a).value, if a[0] == MINUS then -n else n))
  {
    hide NineDigits, Value, Unix, ParseInt;
    var s := a + [DOT] + t;
    FirstIndexIs(s, DOT, |a|);
    assert s[..|a|] == a && s[|a| + 1..] == t;
    NineDigitsBound(t);
  }

  lemma TimeOfFraction(a: Bytes, n: int)
    requires 0 < n < BILLION && DOT !in a && ParseInt(a).Some? && a != []
    ensures TimeOf(TrimZeros(a + [DOT] + Padded(n, 9))) == Some(Unix(ParseInt(a).value, if a[0] == MINUS then -n else n))
  {
    hide TrimZeros, Padded, NineDigits, Value, Unix, ParseInt, TimeOf;
    TrimFraction(a, Padded(n, 9));
    FractionDigits(n);
    TimeOfParts(a, TrimZeros(Padded(n, 9)));
  }

  lemma BorrowBack(t: Time)
    requires t.sec < 0 < t.nsec
    ensures Unix(t.sec + 1, t.nsec - BILLION) == t
  {
  }

  /** Every time reads back, before and after the epoch, with or without a fraction. */
  lemma TimeRoundTrip(t: Time)
    ensures TimeOf(FormatTime(t)) == Some(t)
  {
    hide TrimZeros, Padded, Digits, TimeOf, ParseInt, Unix;
    if t.nsec == 0 {
      ParseOfFormat(t.sec);
      WholeSeconds(FormatInt(t.sec));
    } else if t.sec < 0 {
      var m: nat := NegativePart(t.sec);
      NegativeText(m);
      TimeOfFraction([MINUS] + Digits(m, 10), BILLION - t.nsec);
      BorrowBack(t);
    } else {
      NonNegative(t.sec);
      DigitsHaveNo(t.sec, DOT);
      DigitsHaveNo(t.sec, MINUS);
      TimeOfFraction(Digits(t.sec, 10), t.nsec);
      assert Unix(t.sec, t.nsec) == t by {
        Normalised(t);
      }
    }
  }

  lemma Normalised(t: Time)
    ensures Unix(t.sec, t.nsec) == t
  {
  }

  function NegativePart(sec: i64): (m: nat)
    requires sec < 0
    ensures sec == -1 - m
  {
    var s: int := sec;
    -(s + 1)
  }

  lemma NegativeText(m: nat)
    requires m < 0x8000_0000_0000_0000
    ensures ParseInt([MINUS] + Digits(m, 10)) == Some(0 - m)
    ensures DOT !in [MINUS] + Digits(m, 10)
  {
    ValueOfDigits(m, 10);
    assert ([MINUS] + Digits(m, 10))[1..] == Digits(m, 10);
    DigitsHaveNo(m, DOT);
  }

  lemma WholeSeconds(s: Bytes)
    requires ParseInt(s).Some?
    ensures TimeOf(s) == Some(Time(ParseInt(s).value, 0))
  {
    assert DOT !in s;
    assert s[..|s|] == s;
  }
}
