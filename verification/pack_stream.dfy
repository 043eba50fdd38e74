/** The writer and the reader of pack streams as the state machines they are. */
module PackStream {
  import opened Buffers
  import opened Endian
  import opened Pack

  datatype AddResult = Added | Refused(reason: EncodeResult)

  /** `Writer`: the magic goes out before the first record, or before the end marker if there is none. */
  class Writer {
    var out: Bytes
    var wroteHeader: bool
    var compression: Compression

    constructor (c: Compression)
      ensures out == [] && !wroteHeader && compression == c
    {
      out, wroteHeader, compression := [], false, c;
    }

    /** What has been written, counting a magic that is still owed. */
    function Written(): Bytes
      reads this
    {
      if wroteHeader then out else out + MAGIC
    }

    method EnsureHeader()
      modifies this
      ensures wroteHeader && out == old(Written()) && compression == old(compression)
    {
      if wroteHeader {
        return;
      }
      out := out + MAGIC;
      wroteHeader := true;
    }

    /** `add`. */
    method Add(cd: Codecs, key: Bytes, data: Bytes) returns (r: AddResult)
      requires |key| == 32
      modifies this
      ensures wroteHeader && compression == old(compression)
      ensures r.Added? <==> ValidCompression(compression) && |data| <= MAX_PAYLOAD
      ensures out == old(Written()) + if r.Added? then Encoded(cd, key, data, compression) else []
    {
      hide Encoded;
      EnsureHeader();
      assert out + [] == out;
      var rec := EncodeRecord(cd, key, data, compression);
      if !rec.Record? {
        return Refused(rec);
      }
      out := out + rec.bytes;
      return Added;
    }

    /** `add_record`. */
    method AddRecord(rec: Bytes)
      modifies this
      ensures wroteHeader && compression == old(compression) && out == old(Written()) + rec
    {
      EnsureHeader();
      out := out + rec;
    }

    /** `finish`. */
    method Finish()
      modifies this
      ensures wroteHeader && out == old(Written()) + [TAG_END]
    {
      EnsureHeader();
      out := out + [TAG_END];
    }
  }

  datatype ReaderState = AtMagic | AtRecords | Finished

  datatype Stepped = Nothing | Got(obj: Object) | Failed

  /** What the reader finds next. */
  function NextOf(cd: Codecs, state: ReaderState, s: Bytes): One {
    match state
    case Finished => EndMark
    case AtRecords => ReadOne(cd, s)
    case AtMagic => if |s| < 8 || s[..8] != MAGIC then Malformed else ReadOne(cd, s[8..])
  }

  /** Everything that is still to come. */
  function Pending(cd: Codecs, state: ReaderState, s: Bytes): Yield {
    match state
    case Finished => Yield([], true)
    case AtRecords => ReadRecords(cd, s)
    case AtMagic => ReadStream(cd, s)
  }

  /** `Reader`: an error or the end marker finishes it for good. */
  class Reader {
    const src: Source
    var state: ReaderState

    constructor (s: Source)
      ensures src == s && state == AtMagic
    {
      src, state := s, AtMagic;
    }

    /** `read_full`: all of `n` bytes, or a failure. */
    method ReadFull(n: nat) returns (ok: bool, bytes: Bytes)
      modifies src
      ensures ok == (|old(src.rest)| >= n)
      ensures ok ==> bytes == old(src.rest)[..n] && src.rest == old(src.rest)[n..]
    {
      bytes := [];
      while |bytes| < n
        invariant |bytes| <= n && bytes + src.rest == old(src.rest)
        decreases n - |bytes|
      {
        var chunk := src.Read(n - |bytes|);
        if chunk == [] {
          return false, [];
        }
        bytes := bytes + chunk;
      }
      ok := true;
    }

    /** `next_object`: the record is read in pieces, then checked as a whole. */
    method NextObject(cd: Codecs) returns (one: One)
      requires state != Finished
      modifies this, src
      ensures one == NextOf(cd, old(state), old(src.rest))
      ensures one.Item? ==> src.rest == one.rest && state == AtRecords
    {
      hide ReadOne;
      if state == AtMagic {
        var good, magic := ReadFull(8);
        if !good || magic != MAGIC {
          return Malformed;
        }
        state := AtRecords;
      }
      one := NextRecord(cd);
    }

    method NextRecord(cd: Codecs) returns (one: One)
      modifies src
      ensures one == ReadOne(cd, old(src.rest))
      ensures one.Item? ==> src.rest == one.rest
    {
      hide ParseRecord, DecodePayload, U32;
      ghost var s := src.rest;
      var good, tag := ReadFull(1);
      if !good {
        return Malformed;
      }
      assert tag[0] == s[0];
      if tag[0] == TAG_END {
        return EndMark;
      }
      if tag[0] != TAG_CHUNK {
        return Malformed;
      }
      var header;
      good, header := ReadFull(REC_HEADER_SIZE - 1);
      if !good {
        return Malformed;
      }
      header := tag + header;
      assert header == s[..46] && src.rest == s[46..] by { TwoPieces(s, 1, 46); }
      assert header[38..42] == s[38..42];
      var slen := U32(header[38..42]);
      if slen > MAX_PAYLOAD {
        return Malformed;
      }
      var payload;
      good, payload := ReadFull(slen);
      if !good {
        return Malformed;
      }
      var full := header + payload;
      assert full == s[..46 + slen] && src.rest == s[46 + slen..] by { TwoPieces(s, 46, 46 + slen); }
      var rec := ParseRecord(cd, full);
      if rec.None? {
        return Malformed;
      }
      var data := DecodePayload(cd, rec.value.flags, rec.value.ulen, full[REC_HEADER_SIZE..]);
      if data.None? {
        return Malformed;
      }
      return Item(Object(rec.value.key, data.value), src.rest);
    }

    /** `step`: one item of the iterator. */
    method Step(cd: Codecs) returns (r: Stepped)
      modifies this, src
      ensures old(state) == Finished ==> r == Nothing && state == Finished
      ensures r == Nothing || r == Failed ==> state == Finished
      ensures r.Got? ==> state == AtRecords && |src.rest| < |old(src.rest)|
      ensures var before, after := Pending(cd, old(state), old(src.rest)), Pending(cd, state, src.rest);
              match r
              case Nothing => before == Yield([], true)
              case Failed => before == Yield([], false)
              case Got(obj) => before == Yield([obj] + after.objects, after.clean)
    {
      hide ReadOne;
      if state == Finished {
        return Nothing;
      }
      var one := NextObject(cd);
      match one
      case Item(obj, _) =>
        return Got(obj);
      case EndMark =>
        state := Finished;
        return Nothing;
      case Malformed =>
        state := Finished;
        return Failed;
    }
  }

  lemma TwoPieces(s: Bytes, i: nat, j: nat)
    requires i <= j <= |s|
    ensures s[..i] + s[i..][..j - i] == s[..j] && s[i..][j - i..] == s[j..]
  {
  }

  /** Runs the iterator to its end: the objects, and how many errors came. */
  method Drain(cd: Codecs, bytes: Bytes) returns (objects: seq<Object>, errors: nat)
    ensures var y := ReadStream(cd, bytes);
            objects == y.objects && errors == if y.clean then 0 else 1
  {
    hide ReadStream, ReadRecords;
    var src := new Source(bytes);
    var reader := new Reader(src);
    objects, errors := [], 0;
    ghost var all := ReadStream(cd, bytes);
    assert [] + all.objects == all.objects;
    var more := true;
    while more
      invariant fresh(reader) && fresh(reader.src)
      invariant errors <= 1 && (errors == 1 ==> reader.state == Finished) && (!more ==> reader.state == Finished)
      invariant objects + Pending(cd, reader.state, reader.src.rest).objects == all.objects
      invariant (errors == 0 && Pending(cd, reader.state, reader.src.rest).clean) == all.clean
      decreases more, reader.state != Finished, |reader.src.rest|
    {
      ghost var before := Pending(cd, reader.state, reader.src.rest);
      var r := reader.Step(cd);
      match r
      case Nothing =>
        more := false;
      case Failed =>
        errors := errors + 1;
        assert objects + [] == objects;
      case Got(obj) =>
        assert objects + before.objects == objects + [obj] + Pending(cd, reader.state, reader.src.rest).objects;
        objects := objects + [obj];
    }
    assert objects + [] == objects;
  }

  /** Writes entries, each record encoded with its own compression. */
  method WritePack(cd: Codecs, es: seq<Entry>) returns (bytes: Bytes)
    requires AllWritable(es)
    ensures bytes == Stream(cd, es)
  {
    hide Records, Encoded;
    var w := new Writer(NoCompression);
    NoRecords(cd);
    assert w.Written() == MAGIC + Records(cd, es[..0]);
    for i := 0 to |es|
      invariant fresh(w) && w.Written() == MAGIC + Records(cd, es[..i])
    {
      var rec := EncodeRecord(cd, es[i].obj.key, es[i].obj.data, es[i].compression);
      w.AddRecord(rec.bytes);
      RecordsSnoc(cd, es[..i], es[i]);
      assert es[..i + 1] == es[..i] + [es[i]];
      assert MAGIC + Records(cd, es[..i]) + rec.bytes == MAGIC + (Records(cd, es[..i]) + rec.bytes);
    }
    assert es[..|es|] == es;
    w.Finish();
    assert MAGIC + Records(cd, es) + [TAG_END] == MAGIC + (Records(cd, es) + [TAG_END]);
    return w.out;
  }

  lemma NoRecords(cd: Codecs)
    ensures Records(cd, []) == []
  {
  }

  lemma {:induction false} RecordsSnoc(cd: Codecs, es: seq<Entry>, e: Entry)
    ensures Records(cd, es + [e]) == Records(cd, es) + EntryBytes(cd, e)
    decreases |es|
  {
    hide EntryBytes;
    var all := es + [e];
    if |es| == 0 {
      assert all[1..] == [];
    } else {
      assert all[0] == es[0] && all[1..] == es[1..] + [e];
      RecordsSnoc(cd, es[1..], e);
    }
  }

  /** Writing entries and reading the first `n` bytes of the result: all objects and no error when
      nothing is missing, otherwise those whose records are whole and exactly one error. */
  method Deliver(cd: Codecs, es: seq<Entry>, n: nat) returns (objects: seq<Object>, errors: nat)
    requires AllWritable(es) && Lossless(cd)
    ensures n >= |Stream(cd, es)| ==> objects == Objects(es) && errors == 0
    ensures n < |Stream(cd, es)| ==> objects == Objects(es[..WholeBefore(cd, es, n)]) && errors == 1
  {
    hide AllWritable, Lossless, ReadStream, Stream, WholeBefore;
    var bytes := WritePack(cd, es);
    if n < |bytes| {
      Truncated(cd, es, n);
      objects, errors := Drain(cd, bytes[..n]);
    } else {
      RoundTrip(cd, es);
      objects, errors := Drain(cd, bytes);
    }
  }
}
