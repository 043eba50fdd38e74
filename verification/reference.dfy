/** Reference records: the canonical encoding and the decoder that accepts nothing else. */
module ReferenceRecord {
  import opened Bits
  import opened Cbor
  import opened Endian
  import opened ReferenceFields
  import opened ReferenceSkip
  import StoreKey
  import opened Utf8

  const MAX_NAME_LEN: nat := 1024
  const MAX_USER_LEN: nat := 1024
  const MAX_SIGNATURE_LEN: nat := 0x1_0000
  const MAX_PUBLIC_KEY_LEN: nat := 0x4000

  datatype Reference = Reference(
    name: Bytes, key: Bytes, user: Bytes, createdAt: i64, signature: Bytes, publicKey: Bytes)

  const EMPTY := Reference([], [], [], 0, [], [])

  /** The string fields are strings. */
  predicate Texts(r: Reference) {
    ValidUtf8(r.name) && ValidUtf8(r.user)
  }

  /** Control characters are single bytes in UTF-8. */
  predicate NoControls(s: Bytes) {
    forall i :: 0 <= i < |s| ==> s[i] >= 0x20 && s[i] != 0x7F
  }

  /** `validate`. */
  predicate Valid(r: Reference) {
    && 1 <= |r.name| <= MAX_NAME_LEN && NoControls(r.name) && 0x40 !in r.name
    && StoreKey.Canonical(r.key)
    && |r.user| <= MAX_USER_LEN && NoControls(r.user)
    && |r.signature| <= MAX_SIGNATURE_LEN
    && |r.publicKey| <= MAX_PUBLIC_KEY_LEN
  }

  // ----- The encoding.

  function Pair(k: u64, item: Bytes): Bytes {
    Head(MAJOR_UINT, k) + item
  }

  function BytesPair(k: u64, s: Bytes): Bytes
    requires |s| < TWO64
  {
    if s == [] then [] else Pair(k, StringItem(MAJOR_BSTR, s))
  }

  function PairCount(r: Reference): nat {
    4 + (if r.signature == [] then 0 else 1) + (if r.publicKey == [] then 0 else 1)
  }

  function Pairs(r: Reference): Bytes
    requires Valid(r)
  {
    Pair(0, StringItem(MAJOR_TSTR, r.name)) +
    (Pair(1, StringItem(MAJOR_BSTR, r.key)) +
     (Pair(2, StringItem(MAJOR_TSTR, r.user)) +
      (Pair(3, IntItem(r.createdAt)) +
       (BytesPair(4, r.signature) + BytesPair(5, r.publicKey)))))
  }

  function Encoding(r: Reference): Bytes
    requires Valid(r)
  {
    Head(MAJOR_MAP, PairCount(r)) + Pairs(r)
  }

  /** `encode_unchecked`. */
  method EncodeUnchecked(r: Reference) returns (b: Bytes)
    requires Valid(r)
    ensures b == Encoding(r)
  {
    hide Head, Pair, IntItem, StringItem, BytesPair;
    var pairs: nat := 4;
    if r.signature != [] {
      pairs := pairs + 1;
    }
    if r.publicKey != [] {
      pairs := pairs + 1;
    }
    b := AppendHead([], MAJOR_MAP, pairs);
    b := AppendStringPair(b, 0, MAJOR_TSTR, r.name);
    b := AppendStringPair(b, 1, MAJOR_BSTR, r.key);
    b := AppendStringPair(b, 2, MAJOR_TSTR, r.user);
    b := AppendIntPair(b, 3, r.createdAt);
    if r.signature != [] {
      b := AppendStringPair(b, 4, MAJOR_BSTR, r.signature);
    }
    if r.publicKey != [] {
      b := AppendStringPair(b, 5, MAJOR_BSTR, r.publicKey);
    }
    OptionalPair(4, r.signature);
    OptionalPair(5, r.publicKey);
    Regroup(Head(MAJOR_MAP, pairs), Pair(0, StringItem(MAJOR_TSTR, r.name)), Pair(1, StringItem(MAJOR_BSTR, r.key)),
            Pair(2, StringItem(MAJOR_TSTR, r.user)), Pair(3, IntItem(r.createdAt)),
            BytesPair(4, r.signature), BytesPair(5, r.publicKey));
  }

  method AppendStringPair(start: Bytes, k: u64, major: Major, s: Bytes) returns (b: Bytes)
    requires |s| < TWO64
    ensures b == start + Pair(k, StringItem(major, s))
  {
    hide Head, StringItem;
    b := AppendHead(start, MAJOR_UINT, k);
    b := AppendString(b, major, s);
    assert start + Head(MAJOR_UINT, k) + StringItem(major, s) == start + (Head(MAJOR_UINT, k) + StringItem(major, s));
  }

  method AppendIntPair(start: Bytes, k: u64, v: i64) returns (b: Bytes)
    ensures b == start + Pair(k, IntItem(v))
  {
    hide Head, IntItem;
    b := AppendHead(start, MAJOR_UINT, k);
    b := AppendInt(b, v);
    assert start + Head(MAJOR_UINT, k) + IntItem(v) == start + (Head(MAJOR_UINT, k) + IntItem(v));
  }

  lemma OptionalPair(k: u64, s: Bytes)
    requires |s| < TWO64
    ensures BytesPair(k, s) == if s == [] then [] else Pair(k, StringItem(MAJOR_BSTR, s))
  {
  }

  lemma Regroup(h: Bytes, a: Bytes, b: Bytes, c: Bytes, d: Bytes, e: Bytes, f: Bytes)
    ensures h + (a + (b + (c + (d + (e + f))))) == h + a + b + c + d + e + f
    ensures [] + h == h && h + [] == h
    ensures e == [] ==> h + a + b + c + d + e == h + a + b + c + d
    ensures f == [] ==> h + a + b + c + d + e + f == h + a + b + c + d + e
  {
  }

  // ----- The lax decoder.

  type Seen = seen: seq<bool> | |seen| == 6 witness seq(6, _ => false)

  const NONE_SEEN: Seen := [false, false, false, false, false, false]

  /** A key that names no field: integers and strings are skipped with their value. */
  function UnknownKey(h: HeadResult): Option<DecodeError>
    requires h.HeadOk?
  {
    if h.major == MAJOR_UINT || h.major == MAJOR_NEGINT then
      if h.arg > MAX_INT64 then Some(IntKeyOverflow) else None
    else if h.major == MAJOR_TSTR then
      if |h.rest| < h.arg then Some(UnexpectedEof)
      else if !ValidUtf8(h.rest[..h.arg]) then Some(InvalidUtf8)
      else None
    else Some(BadMapKeyType)
  }

  function SkipPair(b: Bytes): (r: Result<Bytes>)
    ensures r.Ok? ==> |r.value| < |b|
  {
    match Skip(b, 1)
    case Err(e) => Err(e)
    case Ok(value) => Skip(value, 1)
  }

  /** The value of field `k` into the record. */
  function ReadField(k: nat, b: Bytes, r: Reference): (s: Result<(Reference, Bytes)>)
    ensures s.Ok? ==> |s.value.1| < |b|
  {
    if k == 0 || k == 2 then
      match ReadText(b)
      case Err(e) => Err(e)
      case Ok((v, rest)) => Ok((if k == 0 then r.(name := v) else r.(user := v), rest))
    else if k == 3 then
      match ReadInt64(b)
      case Err(e) => Err(e)
      case Ok((v, rest)) => Ok((r.(createdAt := v), rest))
    else
      match ReadBytes(b)
      case Err(e) => Err(e)
      case Ok((v, rest)) =>
        Ok((if k == 1 then r.(key := v) else if k == 4 then r.(signature := v) else r.(publicKey := v), rest))
  }

  datatype State = State(record: Reference, seen: Seen, rest: Bytes)

  /** One key and its value: unknown keys are skipped, and of a repeated key the first value stays. */
  function ReadPair(s: State): (t: Result<State>)
    ensures t.Ok? ==> |t.value.rest| < |s.rest|
  {
    var h := ReadHead(s.rest);
    if !h.HeadOk? then Err(HeadError(h))
    else if h.major != MAJOR_UINT || h.arg > 5 then
      match UnknownKey(h)
      case Some(e) => Err(e)
      case None =>
        match SkipPair(s.rest)
        case Err(e) => Err(e)
        case Ok(rest) => Ok(s.(rest := rest))
    else if s.seen[h.arg] then
      match Skip(h.rest, 1)
      case Err(e) => Err(e)
      case Ok(rest) => Ok(s.(rest := rest))
    else
      match ReadField(h.arg, h.rest, s.record)
      case Err(e) => Err(e)
      case Ok((record, rest)) => Ok(State(record, s.seen[h.arg := true], rest))
  }

  function ReadPairs(s: State, count: nat): (t: Result<(Reference, Bytes)>)
    decreases |s.rest|
  {
    if count == 0 then Ok((s.record, s.rest))
    else
      match ReadPair(s)
      case Err(e) => Err(e)
      case Ok(next) => ReadPairs(next, count - 1)
  }

  /** The document under its tags. */
  function TopDocument(b: Bytes): Result<Bytes>
    decreases |b|
  {
    match Strip(b)
    case Err(e) => Err(e)
    case Ok(doc) =>
      var h := ReadHead(doc);
      if !h.HeadOk? then Err(HeadError(h))
      else if h.major != MAJOR_TAG then Ok(doc)
      else if h.arg == 2 || h.arg == 3 then Err(NotAMap)
      else TopDocument(h.rest)
  }

  /** The second pass: the record, and what it left unread. */
  function SecondPass(b: Bytes): Result<(Reference, Bytes)> {
    match TopDocument(b)
    case Err(e) => Err(e)
    case Ok(doc) =>
      var h := ReadHead(doc);
      if !h.HeadOk? then Err(HeadError(h))
      else if IsNullHead(h, |doc| - |h.rest|) then Ok((EMPTY, h.rest))
      else if h.major != MAJOR_MAP then Err(NotAMap)
      else ReadPairs(State(EMPTY, NONE_SEEN, h.rest), h.arg)
  }

  /** What `unmarshal` gives: the first pass checks the whole document before any field is read. */
  function Unmarshal(b: Bytes): Result<Reference> {
    match Skip(b, 0)
    case Err(e) => Err(e)
    case Ok(after) =>
      if after != [] then Err(Extraneous)
      else
        match SecondPass(b)
        case Err(e) => Err(e)
        case Ok((r, _)) => Ok(r)
  }

  /** `unmarshal`. */
  method UnmarshalBytes(b: Bytes) returns (result: Result<Reference>)
    ensures result == Unmarshal(b)
  {
    hide Skip, Strip, ReadHead, ReadPair;
    var after := SkipItem(b, 0);
    if after.Err? {
      return Err(after.error);
    }
    if after.value != [] {
      return Err(Extraneous);
    }
    var top := UnwrapTags(b);
    if top.Err? {
      return Err(top.error);
    }
    var doc := top.value;
    var h := ReadHead(doc);
    if !h.HeadOk? {
      return Err(HeadError(h));
    }
    if IsNullHead(h, |doc| - |h.rest|) {
      return Ok(EMPTY);
    }
    if h.major != MAJOR_MAP {
      return Err(NotAMap);
    }
    var s := State(EMPTY, NONE_SEEN, h.rest);
    var left := h.arg;
    while left > 0
      invariant ReadPairs(s, left) == ReadPairs(State(EMPTY, NONE_SEEN, h.rest), h.arg)
    {
      var next := NextPair(s);
      if next.Err? {
        return Err(next.error);
      }
      s, left := next.value, left - 1;
    }
    return Ok(s.record);
  }

  method UnwrapTags(b: Bytes) returns (r: Result<Bytes>)
    ensures r == TopDocument(b)
  {
    hide Strip, ReadHead;
    var doc := b;
    while true
      invariant TopDocument(doc) == TopDocument(b)
      decreases |doc|
    {
      var stripped := StripAndCheckTags(doc);
      if stripped.Err? {
        return stripped;
      }
      var h := ReadHead(stripped.value);
      if !h.HeadOk? {
        return Err(HeadError(h));
      }
      if h.major != MAJOR_TAG {
        return stripped;
      }
      if h.arg == 2 || h.arg == 3 {
        return Err(NotAMap);
      }
      doc := h.rest;
    }
  }

  method NextPair(s: State) returns (r: Result<State>)
    ensures r == ReadPair(s)
  {
    hide Skip, ReadHead, ValidUtf8, ReadField;
    var h := ReadHead(s.rest);
    if !h.HeadOk? {
      return Err(HeadError(h));
    }
    if h.major != MAJOR_UINT || h.arg > 5 {
      var bad := UnknownKey(h);
      if bad.Some? {
        return Err(bad.value);
      }
      var key := SkipItem(s.rest, 1);
      if key.Err? {
        return Err(key.error);
      }
      var value := SkipItem(key.value, 1);
      if value.Err? {
        return Err(value.error);
      }
      return Ok(s.(rest := value.value));
    }
    if s.seen[h.arg] {
      var value := SkipItem(h.rest, 1);
      if value.Err? {
        return Err(value.error);
      }
      return Ok(s.(rest := value.value));
    }
    var field := ReadField(h.arg, h.rest, s.record);
    if field.Err? {
      return Err(field.error);
    }
    return Ok(State(field.value.0, s.seen[h.arg := true], field.value.1));
  }

  // ----- The two passes agree.

  lemma FieldAgrees(k: nat, b: Bytes, r: Reference, rest: Bytes)
    requires Spans(b, 1, rest)
    ensures Agrees(ReadField(k, b, r), rest)
  {
    hide Spans, ReadText, ReadBytes, ReadInt64;
    TextAgrees(b, 1, rest);
    BytesAgree(b, 1, rest);
    Int64Agrees(b, 1, rest);
  }

  lemma KeyShape(b: Bytes, rest: Bytes)
    requires Spans(b, 1, rest)
    ensures ReadHead(b).HeadOk?
    ensures ReadHead(b).major == MAJOR_UINT ==> rest == ReadHead(b).rest
    ensures UnknownKey(ReadHead(b)).Some? ==> !Structural(UnknownKey(ReadHead(b)).value)
  {
    hide ReadHead, SkipTags, SkipMany, ValidUtf8;
  }

  /** A pair of items that the first pass accepted is read to its end. */
  lemma PairAgrees(s: State, value: Bytes, rest: Bytes)
    requires Spans(s.rest, 1, value) && Spans(value, 1, rest)
    ensures ReadPair(s).Ok? ==> ReadPair(s).value.rest == rest
    ensures ReadPair(s).Err? ==> !Structural(ReadPair(s).error)
  {
    hide ReadHead, Skip, UnknownKey, ReadField;
    KeyShape(s.rest, value);
    var h := ReadHead(s.rest);
    if h.major == MAJOR_UINT && h.arg <= 5 {
      FieldAgrees(h.arg, h.rest, s.record, rest);
    }
  }

  lemma {:induction false} PairsAgree(s: State, count: nat, rest: Bytes)
    requires SkipMany(s.rest, 1, 2 * count) == Ok(rest)
    ensures Agrees(ReadPairs(s, count), rest)
    decreases |s.rest|
  {
    hide ReadPair, Skip;
    if count > 0 {
      var value := Skip(s.rest, 1).value;
      assert SkipMany(value, 1, 2 * count - 1) == Ok(rest);
      var next := Skip(value, 1).value;
      PairAgrees(s, value, next);
      if ReadPair(s).Ok? {
        PairsAgree(ReadPair(s).value, count - 1, rest);
      }
    }
  }

  lemma {:induction false} TopAgrees(b: Bytes, rest: Bytes)
    requires Spans(b, 0, rest)
    ensures TopDocument(b).Ok? ==> Spans(TopDocument(b).value, 0, rest)
    ensures TopDocument(b).Err? ==> !Structural(TopDocument(b).error)
    decreases |b|
  {
    hide Spans, Strip, ReadHead;
    StripAgrees(b, 0, rest);
    if Strip(b).Ok? {
      var doc := Strip(b).value;
      SpansHead(doc, 0, rest);
      if ReadHead(doc).major == MAJOR_TAG {
        TopAgrees(ReadHead(doc).rest, rest);
      }
    }
  }

  /** A document that the first pass accepts is never found malformed by the second, which reads it
      to the very end. */
  lemma TwoPassAgreement(b: Bytes)
    requires Skip(b, 0) == Ok([])
    ensures Agrees(SecondPass(b), [])
  {
    hide ReadPairs, ReadHead, TopDocument, SkipTags;
    TopAgrees(b, []);
    if TopDocument(b).Ok? {
      var doc := TopDocument(b).value;
      SpansHead(doc, 0, []);
      var h := ReadHead(doc);
      if h.major == MAJOR_MAP {
        PairsAgree(State(EMPTY, NONE_SEEN, h.rest), h.arg, []);
      }
    }
  }

  // ----- The round trip.

  lemma HeadMajor(major: Major, n: u64, z: Bytes)
    ensures ReadHead(Head(major, n) + z) == HeadOk(major, n, z)
    ensures major != MAJOR_TAG ==> Strip(Head(major, n) + z) == Ok(Head(major, n) + z)
  {
    hide ReadHead, Head;
    HeadReads(major, n, z);
    MajorRead(Head(major, n) + z);
  }

  lemma StringSkips(major: Major, s: Bytes, z: Bytes, depth: nat)
    requires |s| < TWO64 && (major == MAJOR_BSTR || major == MAJOR_TSTR)
    ensures Skip(StringItem(major, s) + z, depth) == Ok(z)
  {
    hide ReadHead, Head;
    assert StringItem(major, s) + z == Head(major, |s|) + (s + z);
    HeadMajor(major, |s|, s + z);
    assert (s + z)[|s|..] == z;
  }

  lemma IntSkips(n: u64, major: Major, z: Bytes, depth: nat)
    requires major == MAJOR_UINT || major == MAJOR_NEGINT
    ensures Skip(Head(major, n) + z, depth) == Ok(z)
  {
    hide ReadHead, Head;
    HeadMajor(major, n, z);
  }

  lemma TextReads(s: Bytes, z: Bytes)
    requires |s| < TWO64 && ValidUtf8(s)
    ensures ReadText(StringItem(MAJOR_TSTR, s) + z) == Ok((s, z))
  {
    hide ReadHead, Head, ValidUtf8, Strip;
    assert StringItem(MAJOR_TSTR, s) + z == Head(MAJOR_TSTR, |s|) + (s + z);
    HeadMajor(MAJOR_TSTR, |s|, s + z);
    assert (s + z)[|s|..] == z && (s + z)[..|s|] == s;
  }

  lemma BytesRead(s: Bytes, z: Bytes)
    requires |s| < TWO64
    ensures ReadBytes(StringItem(MAJOR_BSTR, s) + z) == Ok((s, z))
  {
    hide ReadHead, Head, Strip;
    assert StringItem(MAJOR_BSTR, s) + z == Head(MAJOR_BSTR, |s|) + (s + z);
    HeadMajor(MAJOR_BSTR, |s|, s + z);
    assert (s + z)[|s|..] == z && (s + z)[..|s|] == s;
  }

  lemma Int64Reads(v: i64, z: Bytes)
    ensures ReadInt64(IntItem(v) + z) == Ok((v, z))
    ensures Skip(IntItem(v) + z, 1) == Ok(z)
  {
    hide ReadHead, Head, Strip, Skip;
    var x: int := v;
    if x >= 0 {
      HeadMajor(MAJOR_UINT, x, z);
      IntSkips(x, MAJOR_UINT, z, 1);
    } else {
      HeadMajor(MAJOR_NEGINT, -1 - x, z);
      IntSkips(-1 - x, MAJOR_NEGINT, z, 1);
    }
  }

  /** A pair with a fresh key is skipped by the first pass and read by the second. */
  lemma PairReads(k: u64, item: Bytes, z: Bytes, s: State, count: nat, record: Reference)
    requires k <= 5 && !s.seen[k] && s.rest == Pair(k, item) + z && count > 0
    requires Skip(item + z, 1) == Ok(z)
    requires ReadField(k, item + z, s.record) == Ok((record, z))
    ensures SkipMany(Pair(k, item) + z, 1, 2 * count) == SkipMany(z, 1, 2 * (count - 1))
    ensures ReadPairs(s, count) == ReadPairs(State(record, s.seen[k := true], z), count - 1)
  {
    hide ReadHead, Head, Skip, ReadField;
    assert Pair(k, item) + z == Head(MAJOR_UINT, k) + (item + z);
    HeadMajor(MAJOR_UINT, k, item + z);
    IntSkips(k, MAJOR_UINT, item + z, 1);
    assert SkipMany(item + z, 1, 2 * count - 1) == SkipMany(z, 1, 2 * count - 2);
  }

  /** An optional pair: either it is there, or it is not and the field stays empty. */
  lemma OptionalReads(k: u64, v: Bytes, z: Bytes, s: State, count: nat, record: Reference)
    requires k == 4 || k == 5
    requires |v| < TWO64 && !s.seen[k] && s.rest == BytesPair(k, v) + z
    requires if k == 4 then s.record.signature == [] else s.record.publicKey == []
    requires record == if k == 4 then s.record.(signature := v) else s.record.(publicKey := v)
    requires v != [] ==> count > 0
    ensures var after := if v == [] then count else count - 1;
            var seen := if v == [] then s.seen else s.seen[k := true];
            && SkipMany(s.rest, 1, 2 * count) == SkipMany(z, 1, 2 * after)
            && ReadPairs(s, count) == ReadPairs(State(record, seen, z), after)
  {
    hide SkipMany, ReadPairs, StringItem, Skip, ReadBytes;
    if v == [] {
      assert s.rest == z;
      assert s == State(record, s.seen, z);
    } else {
      StringSkips(MAJOR_BSTR, v, z, 1);
      BytesRead(v, z);
      PairReads(k, StringItem(MAJOR_BSTR, v), z, s, count, record);
    }
  }

  /** The mandatory fields. */
  lemma MandatoryReads(r: Reference, z: Bytes, count: nat)
    requires Valid(r) && Texts(r) && count >= 4
    ensures var start := Pair(0, StringItem(MAJOR_TSTR, r.name)) + (Pair(1, StringItem(MAJOR_BSTR, r.key))
                         + (Pair(2, StringItem(MAJOR_TSTR, r.user)) + (Pair(3, IntItem(r.createdAt)) + z)));
            && SkipMany(start, 1, 2 * count) == SkipMany(z, 1, 2 * (count - 4))
            && ReadPairs(State(EMPTY, NONE_SEEN, start), count)
            == ReadPairs(State(r.(signature := [], publicKey := []), [true, true, true, true, false, false], z), count - 4)
  {
    hide SkipMany, ReadPairs, StringItem, Skip, ReadBytes, ReadText, ReadInt64, IntItem, Pair, ValidUtf8;
    var z3 := Pair(3, IntItem(r.createdAt)) + z;
    var z2 := Pair(2, StringItem(MAJOR_TSTR, r.user)) + z3;
    var z1 := Pair(1, StringItem(MAJOR_BSTR, r.key)) + z2;
    var z0 := Pair(0, StringItem(MAJOR_TSTR, r.name)) + z1;
    var r1 := EMPTY.(name := r.name);
    var r2 := r1.(key := r.key);
    var r3 := r2.(user := r.user);
    StringSkips(MAJOR_TSTR, r.name, z1, 1);
    TextReads(r.name, z1);
    PairReads(0, StringItem(MAJOR_TSTR, r.name), z1, State(EMPTY, NONE_SEEN, z0), count, r1);
    StringSkips(MAJOR_BSTR, r.key, z2, 1);
    BytesRead(r.key, z2);
    PairReads(1, StringItem(MAJOR_BSTR, r.key), z2, State(r1, NONE_SEEN[0 := true], z1), count - 1, r2);
    StringSkips(MAJOR_TSTR, r.user, z3, 1);
    TextReads(r.user, z3);
    PairReads(2, StringItem(MAJOR_TSTR, r.user), z3, State(r2, NONE_SEEN[0 := true][1 := true], z2), count - 2, r3);
    Int64Reads(r.createdAt, z);
    PairReads(3, IntItem(r.createdAt), z, State(r3, NONE_SEEN[0 := true][1 := true][2 := true], z3), count - 3,
              r3.(createdAt := r.createdAt));
    assert NONE_SEEN[0 := true][1 := true][2 := true][3 := true] == [true, true, true, true, false, false];
  }

  lemma PairsRead(r: Reference)
    requires Valid(r) && Texts(r)
    ensures SkipMany(Pairs(r), 1, 2 * PairCount(r)) == Ok([])
    ensures ReadPairs(State(EMPTY, NONE_SEEN, Pairs(r)), PairCount(r)) == Ok((r, []))
  {
    hide Pair, StringItem, IntItem, ValidUtf8, ReadPair, Skip, BytesPair;
    var s5, s4 := BytesPair(5, r.publicKey), BytesPair(4, r.signature) + BytesPair(5, r.publicKey);
    MandatoryReads(r, s4, PairCount(r));
    var base, seen := r.(signature := [], publicKey := []), [true, true, true, true, false, false];
    var signed := r.(publicKey := []);
    OptionalReads(4, r.signature, s5, State(base, seen, s4), PairCount(r) - 4, signed);
    var left := if r.publicKey == [] then 0 else 1;
    assert s5 + [] == s5;
    OptionalReads(5, r.publicKey, [], State(signed, if r.signature == [] then seen else seen[4 := true], s5), left, r);
  }

  /** The encoding of a valid record passes the first pass, and the second reads the record back. */
  lemma UnmarshalEncoding(r: Reference)
    requires Valid(r) && Texts(r)
    ensures Unmarshal(Encoding(r)) == Ok(r)
  {
    hide Pairs, ReadHead, Head, ReadPairs, SkipMany, Strip, ValidUtf8;
    HeadMajor(MAJOR_MAP, PairCount(r), Pairs(r));
    PairsRead(r);
  }

  datatype DecodeResult = Decoded(record: Reference) | Undecodable(error: DecodeError) | Invalid | NotCanonical

  /** `Reference::encode`. */
  method Encode(r: Reference) returns (b: Option<Bytes>)
    ensures b == if Valid(r) then Some(Encoding(r)) else None
  {
    if !Valid(r) {
      return None;
    }
    var e := EncodeUnchecked(r);
    return Some(e);
  }

  /** What `Reference::decode` gives. */
  function DecodeOf(b: Bytes): DecodeResult {
    match Unmarshal(b)
    case Err(e) => Undecodable(e)
    case Ok(r) => if !Valid(r) then Invalid else if Encoding(r) != b then NotCanonical else Decoded(r)
  }

  /** `Reference::decode`. */
  method Decode(b: Bytes) returns (d: DecodeResult)
    ensures d == DecodeOf(b)
  {
    hide Unmarshal, Valid, Encoding;
    var u := UnmarshalBytes(b);
    if u.Err? {
      return Undecodable(u.error);
    }
    if !Valid(u.value) {
      return Invalid;
    }
    var e := EncodeUnchecked(u.value);
    if e != b {
      return NotCanonical;
    }
    return Decoded(u.value);
  }

  // ----- Strings that were decoded are strings.

  lemma {:induction false} TextIsUtf8(b: Bytes)
    ensures ReadText(b).Ok? ==> ValidUtf8(ReadText(b).value.0)
    decreases |b|
  {
    hide ReadHead, Strip;
    if Strip(b).Ok? {
      var h := ReadHead(Strip(b).value);
      if h.HeadOk? && h.major == MAJOR_TAG {
        TextIsUtf8(h.rest);
      }
    }
  }

  lemma {:induction false} PairsTexts(s: State, count: nat)
    requires Texts(s.record)
    ensures ReadPairs(s, count).Ok? ==> Texts(ReadPairs(s, count).value.0)
    decreases |s.rest|
  {
    hide ReadHead, Skip, ReadText, ReadBytes, ReadInt64, UnknownKey, ValidUtf8;
    if count > 0 && ReadPair(s).Ok? {
      var h := ReadHead(s.rest);
      TextIsUtf8(h.rest);
      PairsTexts(ReadPair(s).value, count - 1);
    }
  }

  lemma UnmarshalTexts(b: Bytes)
    ensures Unmarshal(b).Ok? ==> Texts(Unmarshal(b).value)
  {
    hide Skip, ReadHead, TopDocument, ReadPairs;
    if TopDocument(b).Ok? {
      var h := ReadHead(TopDocument(b).value);
      if h.HeadOk? {
        PairsTexts(State(EMPTY, NONE_SEEN, h.rest), h.arg);
      }
    }
  }

  /** A byte string decodes to a record exactly when it is the canonical encoding of that record,
      and the record is valid. */
  lemma DecodesExactly(b: Bytes, r: Reference)
    ensures DecodeOf(b) == Decoded(r) <==> Valid(r) && Texts(r) && b == Encoding(r)
  {
    hide Unmarshal, Valid, Encoding, ValidUtf8;
    if Valid(r) && Texts(r) {
      UnmarshalEncoding(r);
    }
    UnmarshalTexts(b);
  }

  /** Two valid records have different encodings. */
  lemma EncodingInjective(r: Reference, s: Reference)
    requires Valid(r) && Texts(r) && Valid(s) && Texts(s) && Encoding(r) == Encoding(s)
    ensures r == s
  {
    UnmarshalEncoding(r);
    UnmarshalEncoding(s);
  }
}
