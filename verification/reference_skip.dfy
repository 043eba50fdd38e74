/** The first pass of the reference decoder: skipping well-formed items. */
module ReferenceSkip {
  import opened Bits
  import opened Cbor
  import opened Endian

  const MAX_NESTED_LEVELS: nat := 32

  datatype DecodeError =
    | UnexpectedEof | BadHead | MaxNestedLevels | InvalidSimpleValue
    | Extraneous | NotAMap | WrongFieldType | InvalidUtf8 | IntOverflow
    | BadMapKeyType | IntKeyOverflow | BadTagContent | BignumOverflow | ByteElemType | ByteElemOverflow

  /** Errors about the shape of the bytes, which only the first pass should report. */
  predicate Structural(e: DecodeError) {
    e == UnexpectedEof || e == BadHead || e == MaxNestedLevels || e == InvalidSimpleValue
  }

  datatype Result<+T> = Ok(value: T) | Err(error: DecodeError)

  function HeadError(h: HeadResult): DecodeError
    requires !h.HeadOk?
  {
    if h.Eof? then UnexpectedEof else BadHead
  }

  function MajorOf(b: u8): Major {
    var x: int := b;
    x / 32
  }

  /** A chain of tag heads: what follows it, and the nesting level there. */
  function SkipTags(b: Bytes, depth: nat): (r: Result<(Bytes, nat)>)
    ensures r.Ok? ==> |r.value.0| <= |b| && r.value.1 >= depth
    decreases |b|
  {
    if |b| == 0 then Err(UnexpectedEof)
    else if MajorOf(b[0]) != MAJOR_TAG then Ok((b, depth))
    else
      var h := ReadHead(b);
      if !h.HeadOk? then Err(HeadError(h))
      else if depth + 1 > MAX_NESTED_LEVELS then Err(MaxNestedLevels)
      else SkipTags(h.rest, depth + 1)
  }

  /** What follows the item at the start of `b`, if it is well-formed. */
  function Skip(b: Bytes, depth: nat): (r: Result<Bytes>)
    ensures r.Ok? ==> |r.value| < |b|
    decreases |b|, 1
  {
    var h := ReadHead(b);
    if !h.HeadOk? then Err(HeadError(h))
    else if h.major == MAJOR_BSTR || h.major == MAJOR_TSTR then
      if |h.rest| < h.arg then Err(UnexpectedEof) else Ok(h.rest[h.arg..])
    else if h.major == MAJOR_ARRAY || h.major == MAJOR_MAP then
      if depth + 1 > MAX_NESTED_LEVELS then Err(MaxNestedLevels)
      else SkipMany(h.rest, depth + 1, if h.major == MAJOR_MAP then 2 * h.arg else h.arg)
    else if h.major == MAJOR_TAG then
      match SkipTags(h.rest, depth)
      case Err(e) => Err(e)
      case Ok((rest, d)) => Skip(rest, d)
    else if h.major == MAJOR_SIMPLE && |b| - |h.rest| == 2 && h.arg < 32 then Err(InvalidSimpleValue)
    else Ok(h.rest)
  }

  function SkipMany(b: Bytes, depth: nat, count: nat): (r: Result<Bytes>)
    ensures r.Ok? ==> |r.value| <= |b|
    decreases |b|, 2
  {
    if count == 0 then Ok(b)
    else
      match Skip(b, depth)
      case Err(e) => Err(e)
      case Ok(rest) => SkipMany(rest, depth, count - 1)
  }

  /** `skip_item`. */
  method SkipItem(b: Bytes, depth: nat) returns (r: Result<Bytes>)
    ensures r == Skip(b, depth)
    decreases |b|
  {
    hide ReadHead, SkipTags;
    var h := ReadHead(b);
    if !h.HeadOk? {
      return Err(HeadError(h));
    }
    if h.major == MAJOR_BSTR || h.major == MAJOR_TSTR {
      if |h.rest| < h.arg {
        return Err(UnexpectedEof);
      }
      return Ok(h.rest[h.arg..]);
    } else if h.major == MAJOR_ARRAY || h.major == MAJOR_MAP {
      if depth + 1 > MAX_NESTED_LEVELS {
        return Err(MaxNestedLevels);
      }
      var items := if h.major == MAJOR_MAP then 2 else 1;
      var left: nat := items * h.arg;
      var rest := h.rest;
      while left > 0
        invariant |rest| < |b|
        invariant SkipMany(rest, depth + 1, left) == SkipMany(h.rest, depth + 1, items * h.arg)
      {
        var one := SkipItem(rest, depth + 1);
        if one.Err? {
          return one;
        }
        rest, left := one.value, left - 1;
      }
      return Ok(rest);
    } else if h.major == MAJOR_TAG {
      var tags := SkipTagChain(h.rest, depth);
      if tags.Err? {
        return Err(tags.error);
      }
      r := SkipItem(tags.value.0, tags.value.1);
    } else {
      if h.major == MAJOR_SIMPLE && |b| - |h.rest| == 2 && h.arg < 32 {
        return Err(InvalidSimpleValue);
      }
      return Ok(h.rest);
    }
  }

  method SkipTagChain(b: Bytes, level: nat) returns (r: Result<(Bytes, nat)>)
    ensures r == SkipTags(b, level)
  {
    hide ReadHead;
    var rest, depth: nat := b, level;
    while true
      invariant SkipTags(rest, depth) == SkipTags(b, level)
      decreases |rest|
    {
      if |rest| == 0 {
        return Err(UnexpectedEof);
      }
      if MajorOf(rest[0]) != MAJOR_TAG {
        return Ok((rest, depth));
      }
      var h := ReadHead(rest);
      if !h.HeadOk? {
        return Err(HeadError(h));
      }
      rest, depth := h.rest, depth + 1;
      if depth > MAX_NESTED_LEVELS {
        return Err(MaxNestedLevels);
      }
    }
  }

  // ----- Fewer levels around an item never make it fail.

  lemma {:induction false} TagsShallower(b: Bytes, depth: nat, shallow: nat)
    requires shallow <= depth && SkipTags(b, depth).Ok?
    ensures SkipTags(b, shallow).Ok?
    ensures SkipTags(b, shallow).value.0 == SkipTags(b, depth).value.0
    ensures SkipTags(b, shallow).value.1 + (depth - shallow) == SkipTags(b, depth).value.1
    decreases |b|
  {
    hide ReadHead;
    if MajorOf(b[0]) == MAJOR_TAG {
      TagsShallower(ReadHead(b).rest, depth + 1, shallow + 1);
    }
  }

  lemma {:induction false} SkipShallower(b: Bytes, depth: nat, shallow: nat)
    requires shallow <= depth && Skip(b, depth).Ok?
    ensures Skip(b, shallow) == Skip(b, depth)
    decreases |b|, 1
  {
    hide ReadHead, SkipTags;
    var h := ReadHead(b);
    if h.major == MAJOR_ARRAY || h.major == MAJOR_MAP {
      ManyShallower(h.rest, depth + 1, shallow + 1, if h.major == MAJOR_MAP then 2 * h.arg else h.arg);
    } else if h.major == MAJOR_TAG {
      TagsShallower(h.rest, depth, shallow);
      var tags := SkipTags(h.rest, depth).value;
      SkipShallower(tags.0, tags.1, SkipTags(h.rest, shallow).value.1);
    }
  }

  lemma {:induction false} ManyShallower(b: Bytes, depth: nat, shallow: nat, count: nat)
    requires shallow <= depth && SkipMany(b, depth, count).Ok?
    ensures SkipMany(b, shallow, count) == SkipMany(b, depth, count)
    decreases |b|, 2
  {
    if count > 0 {
      SkipShallower(b, depth, shallow);
      ManyShallower(Skip(b, depth).value, depth, shallow, count - 1);
    }
  }

  lemma MajorRead(b: Bytes)
    requires ReadHead(b).HeadOk?
    ensures |b| > 0 && ReadHead(b).major == MajorOf(b[0])
  {
  }

  /** Taking a tag off an item leaves an item of the same extent. */
  lemma Untag(b: Bytes, depth: nat)
    requires Skip(b, depth).Ok? && ReadHead(b).major == MAJOR_TAG
    ensures Skip(ReadHead(b).rest, depth) == Skip(b, depth)
  {
    hide ReadHead;
    var rest := ReadHead(b).rest;
    var tags := SkipTags(rest, depth).value;
    if MajorOf(rest[0]) == MAJOR_TAG {
      MajorRead(rest);
      var inner := ReadHead(rest).rest;
      assert SkipTags(rest, depth) == SkipTags(inner, depth + 1);
      TagsShallower(inner, depth + 1, depth);
      SkipShallower(tags.0, tags.1, SkipTags(inner, depth).value.1);
    }
  }
}
