/** The second pass of the reference decoder: reading fields, which consume what the first pass
    skipped. */
module ReferenceFields {
  import opened Bits
  import opened Cbor
  import opened Endian
  import opened ReferenceSkip
  import opened Utf8

  const TAG_SELF_DESCRIBED: nat := 55799
  const MAX_INT64: nat := 0x7FFF_FFFF_FFFF_FFFF

  predicate IsNullHead(h: HeadResult, length: nat) {
    h.HeadOk? && h.major == MAJOR_SIMPLE && length == 1 && (h.arg == 22 || h.arg == 23)
  }

  // ----- Tags in front of a value.

  /** `peek_tag`. */
  function PeekTag(b: Bytes): (r: Option<(u64, Bytes)>)
    ensures r.Some? ==> |r.value.1| < |b| && ReadHead(b) == HeadOk(MAJOR_TAG, r.value.0, r.value.1)
  {
    if |b| == 0 || MajorOf(b[0]) != MAJOR_TAG || !ReadHead(b).HeadOk? then None
    else
      MajorRead(b);
      Some((ReadHead(b).arg, ReadHead(b).rest))
  }

  function StripSelfDescribed(b: Bytes): (r: Bytes)
    ensures |r| <= |b|
    decreases |b|
  {
    var tag := PeekTag(b);
    if tag.Some? && tag.value.0 == TAG_SELF_DESCRIBED then StripSelfDescribed(tag.value.1) else b
  }

  /** A built-in tag has content of the right type. */
  predicate TagContentOk(tag: u64, content: u8) {
    var got := MajorOf(content);
    if tag == 0 then got == MAJOR_TSTR
    else if tag == 1 then got == MAJOR_UINT || got == MAJOR_NEGINT || 0xF9 <= content <= 0xFB
    else if tag == 2 || tag == 3 then got == MAJOR_BSTR
    else true
  }

  function CheckTags(b: Bytes): Option<DecodeError>
    decreases |b|
  {
    var tag := PeekTag(b);
    if tag.None? then None
    else if tag.value.1 == [] then Some(UnexpectedEof)
    else if !TagContentOk(tag.value.0, tag.value.1[0]) then Some(BadTagContent)
    else CheckTags(tag.value.1)
  }

  /** What `strip_and_check_tags` gives. */
  function Strip(b: Bytes): (r: Result<Bytes>)
    ensures r.Ok? ==> |r.value| <= |b|
  {
    var s := StripSelfDescribed(b);
    match CheckTags(s)
    case Some(e) => Err(e)
    case None => Ok(s)
  }

  /** `strip_and_check_tags`. */
  method StripAndCheckTags(bytes: Bytes) returns (r: Result<Bytes>)
    ensures r == Strip(bytes)
  {
    hide PeekTag;
    var b := bytes;
    var tag := PeekTag(b);
    while tag.Some? && tag.value.0 == TAG_SELF_DESCRIBED
      invariant tag == PeekTag(b) && StripSelfDescribed(b) == StripSelfDescribed(bytes)
      decreases |b|
    {
      b := tag.value.1;
      tag := PeekTag(b);
    }
    var cur := b;
    tag := PeekTag(cur);
    while tag.Some?
      invariant tag == PeekTag(cur) && CheckTags(cur) == CheckTags(b)
      decreases |cur|
    {
      var rest := tag.value.1;
      if rest == [] {
        return Err(UnexpectedEof);
      }
      if !TagContentOk(tag.value.0, rest[0]) {
        return Err(BadTagContent);
      }
      cur := rest;
      tag := PeekTag(cur);
    }
    return Ok(b);
  }

  // ----- Big numbers.

  /** `read_bignum_content`. */
  function BignumContent(b: Bytes): (r: Result<(Bytes, Bytes)>)
    ensures r.Ok? ==> |r.value.1| < |b|
  {
    var h := ReadHead(b);
    if !h.HeadOk? then Err(HeadError(h))
    else if h.major != MAJOR_BSTR then Err(BadTagContent)
    else if |h.rest| < h.arg then Err(UnexpectedEof)
    else Ok((h.rest[..h.arg], h.rest[h.arg..]))
  }

  /** The number that the bytes spell, if it has at most 64 bits. */
  function Magnitude(content: Bytes): Option<u64> {
    if FromBigEndian(content) < TWO64 then Some(FromBigEndian(content)) else None
  }

  lemma {:induction false} LeadingZeros(content: Bytes, k: nat)
    requires k <= |content| && forall i :: 0 <= i < k ==> content[i] == 0
    ensures FromBigEndian(content) == FromBigEndian(content[k..])
    decreases |content|
  {
    if k == |content| {
      AllZero(content);
    } else {
      var t := content[..|content| - 1];
      LeadingZeros(t, k);
      assert content[k..][..|content| - k - 1] == t[k..];
    }
  }

  lemma {:induction false} AllZero(content: Bytes)
    requires forall i :: 0 <= i < |content| ==> content[i] == 0
    ensures FromBigEndian(content) == 0
  {
    if |content| > 0 {
      AllZero(content[..|content| - 1]);
    }
  }

  lemma {:induction false} FirstDigit(digits: Bytes)
    requires |digits| > 0 && digits[0] > 0
    ensures FromBigEndian(digits) >= Pow256(|digits| - 1)
  {
    if |digits| > 1 {
      FirstDigit(digits[..|digits| - 1]);
    }
  }

  lemma {:induction false} Pow256Grows(j: nat, k: nat)
    requires j <= k
    ensures Pow256(j) <= Pow256(k)
  {
    if j < k {
      Pow256Grows(j, k - 1);
    }
  }

  /** `bignum_magnitude`: leading zeros do not count towards the eight bytes. */
  method BignumMagnitude(content: Bytes) returns (r: Option<u64>)
    ensures r == Magnitude(content)
  {
    hide FromBigEndian, Pow256;
    var first := 0;
    while first < |content| && content[first] == 0
      invariant first <= |content| && forall i :: 0 <= i < first ==> content[i] == 0
    {
      first := first + 1;
    }
    LeadingZeros(content, first);
    Pow256Values();
    var digits := content[first..];
    if digits == [] {
      AllZero(digits);
      return Some(0);
    }
    if |digits| > 8 {
      FirstDigit(digits);
      Pow256Grows(8, |digits| - 1);
      return None;
    }
    r := Accumulate(digits);
  }

  method Accumulate(digits: Bytes) returns (r: Option<u64>)
    requires |digits| <= 8
    ensures r == Some(FromBigEndian(digits)) && FromBigEndian(digits) < TWO64
  {
    var v: nat := 0;
    for i := 0 to |digits|
      invariant v == FromBigEndian(digits[..i])
    {
      assert digits[..i + 1][..i] == digits[..i];
      v := v * 256 + digits[i];
    }
    assert digits[..|digits|] == digits;
    FromBigEndianBound(digits);
    Pow256Small(|digits|);
    return Some(v);
  }

  // ----- Fields.

  /** `read_tstr_field`. */
  function ReadText(bytes: Bytes): (r: Result<(Bytes, Bytes)>)
    ensures r.Ok? ==> |r.value.1| < |bytes|
    decreases |bytes|
  {
    match Strip(bytes)
    case Err(e) => Err(e)
    case Ok(b) =>
      var h := ReadHead(b);
      if !h.HeadOk? then Err(HeadError(h))
      else if h.major == MAJOR_TAG then
        if h.arg == 2 || h.arg == 3 then Err(WrongFieldType) else ReadText(h.rest)
      else if IsNullHead(h, |b| - |h.rest|) then Ok(([], h.rest))
      else if h.major != MAJOR_TSTR then Err(WrongFieldType)
      else if |h.rest| < h.arg then Err(UnexpectedEof)
      else if !ValidUtf8(h.rest[..h.arg]) then Err(InvalidUtf8)
      else Ok((h.rest[..h.arg], h.rest[h.arg..]))
  }

  /** `read_byte_elem`. */
  function ReadByteElem(bytes: Bytes): (r: Result<(u8, Bytes)>)
    ensures r.Ok? ==> |r.value.1| < |bytes|
    decreases |bytes|
  {
    match Strip(bytes)
    case Err(e) => Err(e)
    case Ok(b) =>
      var h := ReadHead(b);
      if !h.HeadOk? then Err(HeadError(h))
      else if h.major == MAJOR_UINT then
        if h.arg > 255 then Err(ByteElemOverflow) else Ok((h.arg, h.rest))
      else if h.major == MAJOR_TAG then
        if h.arg == 2 then
          match BignumContent(h.rest)
          case Err(e) => Err(e)
          case Ok((content, rest)) =>
            if Magnitude(content).Some? && Magnitude(content).value <= 255 then Ok((Magnitude(content).value, rest))
            else Err(ByteElemOverflow)
        else if h.arg == 3 then
          match BignumContent(h.rest)
          case Err(e) => Err(e)
          case Ok((content, _)) =>
            if Magnitude(content).Some? && Magnitude(content).value <= MAX_INT64 then Err(ByteElemType)
            else Err(ByteElemOverflow)
        else ReadByteElem(h.rest)
      else if h.major == MAJOR_SIMPLE then
        if |b| - |h.rest| == 1 then
          if h.arg == 20 || h.arg == 21 then Err(ByteElemType)
          else if h.arg == 22 || h.arg == 23 then Ok((0, h.rest))
          else Ok((h.arg % 256, h.rest))
        else if |b| - |h.rest| == 2 then Ok((h.arg % 256, h.rest))
        else Err(ByteElemType)
      else Err(ByteElemType)
  }

  /** The elements of an array that fills a byte string. */
  function ReadByteElems(b: Bytes, count: nat): (r: Result<(Bytes, Bytes)>)
    ensures r.Ok? ==> |r.value.1| <= |b|
    decreases |b|
  {
    if count == 0 then Ok(([], b))
    else
      match ReadByteElem(b)
      case Err(e) => Err(e)
      case Ok((x, rest)) =>
        match ReadByteElems(rest, count - 1)
        case Err(e) => Err(e)
        case Ok((xs, after)) => Ok(([x] + xs, after))
  }

  /** The loop of `read_bstr_field` over the elements of an array. */
  method FillBytes(b: Bytes, count: nat) returns (r: Result<(Bytes, Bytes)>)
    ensures r == ReadByteElems(b, count)
  {
    hide ReadByteElem;
    var out, rest, left := [], b, count;
    assert ReadByteElems(b, count).Ok? ==> out + ReadByteElems(b, count).value.0 == ReadByteElems(b, count).value.0;
    while left > 0
      invariant ReadByteElems(b, count) == Prefixed(out, ReadByteElems(rest, left))
    {
      var elem := ReadByteElem(rest);
      if elem.Err? {
        return Err(elem.error);
      }
      PrefixedOne(out, elem.value.0, ReadByteElems(elem.value.1, left - 1));
      out, rest, left := out + [elem.value.0], elem.value.1, left - 1;
    }
    assert out + [] == out;
    return Ok((out, rest));
  }

  function Prefixed(out: Bytes, r: Result<(Bytes, Bytes)>): Result<(Bytes, Bytes)> {
    match r
    case Err(e) => Err(e)
    case Ok((xs, rest)) => Ok((out + xs, rest))
  }

  lemma PrefixedOne(out: Bytes, x: u8, r: Result<(Bytes, Bytes)>)
    ensures Prefixed(out, Prefixed([x], r)) == Prefixed(out + [x], r)
  {
    assert r.Ok? ==> out + ([x] + r.value.0) == out + [x] + r.value.0;
  }

  /** `read_bstr_field`. */
  function ReadBytes(bytes: Bytes): (r: Result<(Bytes, Bytes)>)
    ensures r.Ok? ==> |r.value.1| < |bytes|
    decreases |bytes|
  {
    match Strip(bytes)
    case Err(e) => Err(e)
    case Ok(b) =>
      var h := ReadHead(b);
      if !h.HeadOk? then Err(HeadError(h))
      else if h.major == MAJOR_TAG then
        if h.arg == 2 || h.arg == 3 then BignumContent(h.rest) else ReadBytes(h.rest)
      else if IsNullHead(h, |b| - |h.rest|) then Ok(([], h.rest))
      else if h.major == MAJOR_BSTR then
        if |h.rest| < h.arg then Err(UnexpectedEof) else Ok((h.rest[..h.arg], h.rest[h.arg..]))
      else if h.major == MAJOR_ARRAY then ReadByteElems(h.rest, h.arg)
      else Err(WrongFieldType)
  }

  /** `read_int64_field`. */
  function ReadInt64(bytes: Bytes): (r: Result<(i64, Bytes)>)
    ensures r.Ok? ==> |r.value.1| < |bytes|
    decreases |bytes|
  {
    match Strip(bytes)
    case Err(e) => Err(e)
    case Ok(b) =>
      var h := ReadHead(b);
      if !h.HeadOk? then Err(HeadError(h))
      else if h.major == MAJOR_UINT || h.major == MAJOR_NEGINT then
        if h.arg > MAX_INT64 then Err(IntOverflow) else Ok((Signed(h.arg, h.major == MAJOR_NEGINT), h.rest))
      else if h.major == MAJOR_TAG then
        if h.arg == 2 || h.arg == 3 then
          match BignumContent(h.rest)
          case Err(e) => Err(e)
          case Ok((content, rest)) =>
            if Magnitude(content).Some? && Magnitude(content).value <= MAX_INT64 then
              Ok((Signed(Magnitude(content).value, h.arg == 3), rest))
            else Err(BignumOverflow)
        else ReadInt64(h.rest)
      else if h.major == MAJOR_SIMPLE then
        if |b| - |h.rest| == 1 then
          if h.arg == 20 || h.arg == 21 then Err(WrongFieldType)
          else if h.arg == 22 || h.arg == 23 then Ok((0, h.rest))
          else Ok((Small(h.arg), h.rest))
        else if |b| - |h.rest| == 2 then Ok((Small(h.arg), h.rest))
        else Err(WrongFieldType)
      else Err(WrongFieldType)
  }

  function Signed(n: nat, negative: bool): i64
    requires n <= MAX_INT64
  {
    var x: int := n;
    if negative then -1 - x else x
  }

  /** The argument of a head of at most two bytes. */
  function Small(n: u64): i64 {
    n % 256
  }

  // ----- The two passes agree.

  /** The item at the start of `b` is well-formed and ends where `rest` begins. */
  predicate Spans(b: Bytes, depth: nat, rest: Bytes) {
    Skip(b, depth) == Ok(rest)
  }

  /** A reader of an item that the first pass accepted ends where that pass ended, or fails for a
      reason other than the shape of the bytes. */
  predicate Agrees<T>(r: Result<(T, Bytes)>, rest: Bytes) {
    (r.Ok? ==> r.value.1 == rest) && (r.Err? ==> !Structural(r.error))
  }

  lemma SpansHead(b: Bytes, depth: nat, rest: Bytes)
    requires Spans(b, depth, rest)
    ensures b != [] && ReadHead(b).HeadOk? && ReadHead(b).major == MajorOf(b[0])
    ensures ReadHead(b).major == MAJOR_TAG ==> Spans(ReadHead(b).rest, depth, rest)
    ensures ReadHead(b).major == MAJOR_TAG ==> PeekTag(b) == Some((ReadHead(b).arg, ReadHead(b).rest))
    ensures ReadHead(b).major != MAJOR_TAG ==> PeekTag(b) == None
  {
    hide ReadHead, SkipTags, SkipMany;
    MajorRead(b);
    if ReadHead(b).major == MAJOR_TAG {
      Untag(b, depth);
    }
  }

  lemma {:induction false} SelfDescribedSpans(b: Bytes, depth: nat, rest: Bytes)
    requires Spans(b, depth, rest)
    ensures Spans(StripSelfDescribed(b), depth, rest)
    decreases |b|
  {
    hide Spans, PeekTag, ReadHead;
    SpansHead(b, depth, rest);
    if PeekTag(b).Some? && PeekTag(b).value.0 == TAG_SELF_DESCRIBED {
      SelfDescribedSpans(PeekTag(b).value.1, depth, rest);
    }
  }

  lemma {:induction false} CheckTagsShape(b: Bytes, depth: nat, rest: Bytes)
    requires Spans(b, depth, rest)
    ensures CheckTags(b).Some? ==> !Structural(CheckTags(b).value)
    decreases |b|
  {
    hide Spans, PeekTag, ReadHead, TagContentOk;
    SpansHead(b, depth, rest);
    if PeekTag(b).Some? {
      SpansHead(PeekTag(b).value.1, depth, rest);
      CheckTagsShape(PeekTag(b).value.1, depth, rest);
    }
  }

  /** Stripping tags keeps the extent of the item, and fails only over the content of a tag. */
  lemma StripAgrees(b: Bytes, depth: nat, rest: Bytes)
    requires Spans(b, depth, rest)
    ensures Strip(b).Ok? ==> Spans(Strip(b).value, depth, rest)
    ensures Strip(b).Err? ==> !Structural(Strip(b).error)
  {
    SelfDescribedSpans(b, depth, rest);
    CheckTagsShape(StripSelfDescribed(b), depth, rest);
  }

  lemma BignumAgrees(b: Bytes, depth: nat, rest: Bytes)
    requires Spans(b, depth, rest)
    ensures Agrees(BignumContent(b), rest)
  {
    hide ReadHead, SkipTags, SkipMany;
  }

  lemma {:induction false} TextAgrees(b: Bytes, depth: nat, rest: Bytes)
    requires Spans(b, depth, rest)
    ensures Agrees(ReadText(b), rest)
    decreases |b|
  {
    hide ReadHead, SkipTags, SkipMany, ValidUtf8, Strip;
    StripAgrees(b, depth, rest);
    if Strip(b).Ok? {
      var s := Strip(b).value;
      SpansHead(s, depth, rest);
      if ReadHead(s).major == MAJOR_TAG {
        TextAgrees(ReadHead(s).rest, depth, rest);
      }
    }
  }

  lemma {:induction false} ByteElemAgrees(b: Bytes, depth: nat, rest: Bytes)
    requires Spans(b, depth, rest)
    ensures Agrees(ReadByteElem(b), rest)
    decreases |b|
  {
    hide ReadHead, SkipTags, SkipMany, Strip, Magnitude, BignumContent;
    StripAgrees(b, depth, rest);
    if Strip(b).Ok? {
      var s := Strip(b).value;
      SpansHead(s, depth, rest);
      if ReadHead(s).major == MAJOR_TAG {
        BignumAgrees(ReadHead(s).rest, depth, rest);
        ByteElemAgrees(ReadHead(s).rest, depth, rest);
      }
    }
  }

  lemma {:induction false} ByteElemsAgree(b: Bytes, depth: nat, count: nat, rest: Bytes)
    requires SkipMany(b, depth, count) == Ok(rest)
    ensures Agrees(ReadByteElems(b, count), rest)
    decreases |b|
  {
    hide ReadByteElem, Skip;
    if count > 0 {
      var one := Skip(b, depth).value;
      ByteElemAgrees(b, depth, one);
      if ReadByteElem(b).Ok? {
        ByteElemsAgree(one, depth, count - 1, rest);
      }
    }
  }

  lemma {:induction false} BytesAgree(b: Bytes, depth: nat, rest: Bytes)
    requires Spans(b, depth, rest)
    ensures Agrees(ReadBytes(b), rest)
    decreases |b|
  {
    hide ReadHead, SkipTags, SkipMany, Strip, BignumContent, ReadByteElems;
    StripAgrees(b, depth, rest);
    if Strip(b).Ok? {
      var s := Strip(b).value;
      SpansHead(s, depth, rest);
      var h := ReadHead(s);
      if h.major == MAJOR_TAG {
        BignumAgrees(h.rest, depth, rest);
        BytesAgree(h.rest, depth, rest);
      } else if h.major == MAJOR_ARRAY {
        ByteElemsAgree(h.rest, depth + 1, h.arg, rest);
      }
    }
  }

  lemma {:induction false} Int64Agrees(b: Bytes, depth: nat, rest: Bytes)
    requires Spans(b, depth, rest)
    ensures Agrees(ReadInt64(b), rest)
    decreases |b|
  {
    hide ReadHead, SkipTags, SkipMany, Strip, BignumContent, Magnitude;
    StripAgrees(b, depth, rest);
    if Strip(b).Ok? {
      var s := Strip(b).value;
      SpansHead(s, depth, rest);
      if ReadHead(s).major == MAJOR_TAG {
        BignumAgrees(ReadHead(s).rest, depth, rest);
        Int64Agrees(ReadHead(s).rest, depth, rest);
      }
    }
  }
}
