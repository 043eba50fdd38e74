/** The tar reader: entries with their extended headers folded in, and their bodies. */
module TarReading {
  import opened Bits
  import opened Buffers
  import opened Decimal
  import opened Endian
  import opened PaxText
  import opened TarBlock
  import opened TarFormats
  import opened TarHeader
  import opened TarParse
  import opened TarWriting

  // ----- Folding records into a header.

  function MergedText(m: Records, key: Bytes, s: Bytes): Bytes {
    if key in m && m[key] != [] then m[key] else s
  }

  function MergedInt(m: Records, key: Bytes, x: i64): Option<i64> {
    if key in m && m[key] != [] then ParseInt(m[key]) else Some(x)
  }

  function MergedTime(m: Records, key: Bytes, t: Option<Time>): Option<Option<Time>> {
    if key in m && m[key] != [] then
      match TimeOf(m[key]) case None => None case Some(u) => Some(Some(u))
    else Some(t)
  }

  predicate Mergeable(h: Header, m: Records) {
    && MergedInt(m, UID, h.uid).Some? && MergedInt(m, GID, h.gid).Some? && MergedInt(m, SIZE, h.size).Some?
    && MergedTime(m, ATIME, h.accessTime).Some? && MergedTime(m, MTIME, h.modTime).Some?
    && MergedTime(m, CTIME, h.changeTime).Some?
  }

  /** The header with every record that is not empty in place of its field. */
  function Merged(h: Header, m: Records): Header
    requires Mergeable(h, m)
  {
    h.(name := MergedText(m, PATH, h.name), linkname := MergedText(m, LINKPATH, h.linkname),
       uname := MergedText(m, UNAME, h.uname), gname := MergedText(m, GNAME, h.gname),
       uid := MergedInt(m, UID, h.uid).value, gid := MergedInt(m, GID, h.gid).value,
       size := MergedInt(m, SIZE, h.size).value,
       accessTime := MergedTime(m, ATIME, h.accessTime).value, modTime := MergedTime(m, MTIME, h.modTime).value,
       changeTime := MergedTime(m, CTIME, h.changeTime).value)
  }

  /** One record of `merge_pax`. */
  method MergeOne(h: Header, k: Bytes, v: Bytes) returns (r: Option<Header>)
    ensures r.Some? == Mergeable(h, map[k := v])
    ensures r.Some? ==> r.value == Merged(h, map[k := v])
  {
    hide ParseInt, TimeOf;
    if v == [] {
      return Some(h);
    }
    if k == PATH {
      return Some(h.(name := v));
    } else if k == LINKPATH {
      return Some(h.(linkname := v));
    } else if k == UNAME {
      return Some(h.(uname := v));
    } else if k == GNAME {
      return Some(h.(gname := v));
    } else if k == UID || k == GID || k == SIZE {
      var n := ParseInt(v);
      if n.None? {
        return None;
      }
      return Some(if k == UID then h.(uid := n.value) else if k == GID then h.(gid := n.value) else h.(size := n.value));
    } else if k == ATIME || k == MTIME || k == CTIME {
      var t := ParsePaxTime(v);
      if t.None? {
        return None;
      }
      return Some(if k == ATIME then h.(accessTime := t) else if k == MTIME then h.(modTime := t) else h.(changeTime := t));
    }
    return Some(h);
  }

  /** Folding in one more record after those already folded in. */
  lemma MergeStep(h: Header, done: Records, k: Bytes, v: Bytes)
    requires k !in done && Mergeable(h, done)
    ensures Mergeable(h, done[k := v]) <==> Mergeable(Merged(h, done), map[k := v])
    ensures Mergeable(h, done[k := v]) ==> Merged(h, done[k := v]) == Merged(Merged(h, done), map[k := v])
  {
    hide MergedText, MergedInt, MergedTime;
    TextStep(done, k, v, PATH, h.name);
    TextStep(done, k, v, LINKPATH, h.linkname);
    TextStep(done, k, v, UNAME, h.uname);
    TextStep(done, k, v, GNAME, h.gname);
    IntStep(done, k, v, UID, h.uid);
    IntStep(done, k, v, GID, h.gid);
    IntStep(done, k, v, SIZE, h.size);
    TimeStep(done, k, v, ATIME, h.accessTime);
    TimeStep(done, k, v, MTIME, h.modTime);
    TimeStep(done, k, v, CTIME, h.changeTime);
  }

  lemma TextStep(done: Records, k: Bytes, v: Bytes, key: Bytes, s: Bytes)
    requires k !in done
    ensures MergedText(done[k := v], key, s) == MergedText(map[k := v], key, MergedText(done, key, s))
  {
  }

  lemma IntStep(done: Records, k: Bytes, v: Bytes, key: Bytes, x: i64)
    requires k !in done && MergedInt(done, key, x).Some?
    ensures MergedInt(done[k := v], key, x) == MergedInt(map[k := v], key, MergedInt(done, key, x).value)
  {
  }

  lemma TimeStep(done: Records, k: Bytes, v: Bytes, key: Bytes, t: Option<Time>)
    requires k !in done && MergedTime(done, key, t).Some?
    ensures MergedTime(done[k := v], key, t) == MergedTime(map[k := v], key, MergedTime(done, key, t).value)
  {
  }

  lemma MergeFails(h: Header, done: Records, m: Records)
    requires forall k :: k in done ==> k in m && m[k] == done[k]
    requires !Mergeable(h, done)
    ensures !Mergeable(h, m)
  {
    hide ParseInt, TimeOf;
  }

  /** `merge_pax`. */
  method MergePax(hdr: Header, m: Records) returns (r: Option<Header>)
    ensures r.Some? == Mergeable(hdr, m)
    ensures r.Some? ==> r.value == Merged(hdr, m).(paxRecords := m)
  {
    hide Mergeable, Merged;
    var h := hdr;
    ghost var done: Records := map[];
    NothingMerged(hdr);
    var todo := m.Keys;
    while todo != {}
      invariant todo <= m.Keys && done.Keys == m.Keys - todo
      invariant forall k :: k in done ==> k in m && m[k] == done[k]
      invariant Mergeable(hdr, done) && h == Merged(hdr, done)
      decreases |todo|
    {
      var k :| k in todo;
      MergeStep(hdr, done, k, m[k]);
      var next := MergeOne(h, k, m[k]);
      done := done[k := m[k]];
      if next.None? {
        MergeFails(hdr, done, m);
        return None;
      }
      h := next.value;
      todo := todo - {k};
    }
    assert done == m;
    return Some(h.(paxRecords := m));
  }

  lemma NothingMerged(h: Header)
    ensures Mergeable(h, map[]) && Merged(h, map[]) == h
  {
  }

  // ----- The next entry of a stream.

  /** What can be wrong with a stream: a malformed header or record, a special file over the cap, or
      an end in the middle of something. */
  datatype ReadError = BadHeader | FieldTooLong | UnexpectedEof

  datatype Next = End | Bad(error: ReadError) | Entry(hdr: Header, rest: Bytes, remaining: nat, pad: nat)

  predicate SizeOk(h: Header) {
    HeaderOnly(h.typeflag) || h.size >= 0
  }

  /** Legacy archives mark directories by a trailing slash. */
  function Promoted(h: Header): Header {
    if h.typeflag != TYPE_REG_A then h
    else h.(typeflag := if EndsWithSlash(h.name) then TYPE_DIR else TYPE_REG)
  }

  /** What a header block announces, given the records that came before it. */
  function MainEntry(h: Header, rest: Bytes, records: Option<Records>): (e: Next)
    ensures e.Entry? ==> e.rest == rest
  {
    if records.Some? && !Mergeable(h, records.value) then Bad(BadHeader)
    else
      var h1 := if records.Some? then Merged(h, records.value).(paxRecords := records.value) else h;
      var h2 := Promoted(h1);
      if !SizeOk(h2) then Bad(BadHeader) else Entry(h2, rest, BodySize(h2), Padding(BodySize(h2)))
  }

  /** Only a global header's name, type and records are passed on. */
  function GlobalEntry(h: Header, m: Records, rest: Bytes, pad: nat): (e: Next)
    ensures e.Entry? ==> e.rest == rest && e.remaining == 0 && e.pad == pad
  {
    if !Mergeable(h, m) then Bad(BadHeader)
    else
      Entry(Header(h.typeflag, Merged(h, m).name, [], 0, 0, 0, 0, [], [], None, None, None, 0, 0, m, NO_FORMATS),
            rest, 0, pad)
  }

  predicate IsSpecial(flag: u8) {
    flag == TYPE_XHEADER || flag == TYPE_XGLOBAL_HEADER
  }

  datatype Step = Done | AtEnd | Broken(error: ReadError)

  /** What stands at a block boundary: a header, the end of the archive, or neither. */
  function StepAt(s: Bytes): (step: Step)
    ensures step == Done ==> |s| >= 512 && HeaderOf(s[..512]).Some? && SizeOk(HeaderOf(s[..512]).value)
  {
    if |s| == 0 then AtEnd
    else if |s| < 512 then Broken(UnexpectedEof)
    else if s[..512] == Zeros(512) then
      if |s| == 512 then AtEnd
      else if |s| < 1024 then Broken(UnexpectedEof)
      else if s[512..1024] != Zeros(512) then Broken(BadHeader)
      else AtEnd
    else if HeaderOf(s[..512]).None? || !SizeOk(HeaderOf(s[..512]).value) then Broken(BadHeader)
    else Done
  }

  /** What is wrong with a body of `n` bytes under a cap, if `available` bytes are there: more than
      the cap is noticed before the end of the stream. */
  function WholeError(available: nat, n: nat, cap: nat): Option<ReadError> {
    if n > cap && available > cap then Some(FieldTooLong)
    else if available < n then Some(UnexpectedEof)
    else None
  }

  /** The entry at a block boundary: an extended header applies to the block after it. */
  function NextAt(s: Bytes, records: Option<Records>): (r: Next)
    ensures r.Entry? ==> |r.rest| < |s|
    decreases |s|
  {
    match StepAt(s)
    case AtEnd => End
    case Broken(error) => Bad(error)
    case Done =>
      var h, rest := HeaderOf(s[..512]).value, s[512..];
      if !IsSpecial(h.typeflag) then MainEntry(h, rest, records)
      else
        var n := BodySize(h);
        var wrong := WholeError(|rest|, n, MAX_SPECIAL_FILE_SIZE);
        if wrong.Some? then Bad(wrong.value)
        else
          var m := RecordsFrom(map[], rest[..n]);
          if m.None? then Bad(BadHeader)
          else if h.typeflag == TYPE_XGLOBAL_HEADER then GlobalEntry(h, m.value, rest[n..], Padding(n))
          else if |rest| - n < Padding(n) then End
          else NextAt(rest[n + Padding(n)..], m)
  }

  /** The next entry, given records already read, once what is left of the current entry has been
      skipped. */
  function At(rest: Bytes, remaining: nat, pad: nat, records: Option<Records>): Next {
    if |rest| < remaining then Bad(UnexpectedEof)
    else if |rest| - remaining < pad then End
    else NextAt(rest[remaining + pad..], records)
  }

  // ----- The reader.

  /** `TarReader`. */
  class TarReader {
    const src: Source
    var pad: nat
    var remaining: nat

    constructor (s: Source)
      ensures src == s && pad == 0 && remaining == 0
    {
      src, pad, remaining := s, 0, 0;
    }

    /** `read_block`: a whole block, nothing at the end, an error in between. */
    method ReadBlock() returns (step: Step, blk: Bytes)
      modifies src
      ensures step == (if old(src.rest) == [] then AtEnd
                       else if |old(src.rest)| < 512 then Broken(UnexpectedEof) else Done)
      ensures step == Done ==> blk == old(src.rest)[..512] && src.rest == old(src.rest)[512..]
    {
      blk := [];
      while |blk| < 512
        invariant |blk| <= 512 && blk + src.rest == old(src.rest)
        decreases 512 - |blk|
      {
        var chunk := src.Read(512 - |blk|);
        if chunk == [] {
          return if blk == [] then AtEnd else Broken(UnexpectedEof), blk;
        }
        blk := blk + chunk;
      }
      step := Done;
    }

    /** `discard_current`. */
    method DiscardCurrent() returns (ok: bool)
      modifies this, src
      ensures pad == old(pad)
      ensures ok == (|old(src.rest)| >= old(remaining))
      ensures ok ==> remaining == 0 && src.rest == old(src.rest)[old(remaining)..]
    {
      ghost var skipped: nat := 0;
      while remaining > 0
        invariant skipped <= |old(src.rest)| && src.rest == old(src.rest)[skipped..]
        invariant remaining == old(remaining) - skipped && pad == old(pad)
        decreases remaining
      {
        var chunk := src.Read(if remaining < 4096 then remaining else 4096);
        if chunk == [] {
          return false;
        }
        skipped := skipped + |chunk|;
        remaining := remaining - |chunk|;
      }
      ok := true;
    }

    /** `skip_padding`: a stream that ends inside the padding ends the archive. */
    method SkipPadding() returns (ended: bool)
      modifies this, src
      ensures remaining == old(remaining) && pad == 0
      ensures ended == (|old(src.rest)| < old(pad))
      ensures !ended ==> src.rest == old(src.rest)[old(pad)..]
    {
      var left: nat := pad;
      pad := 0;
      ghost var skipped: nat := 0;
      while left > 0
        invariant skipped <= |old(src.rest)| && src.rest == old(src.rest)[skipped..]
        invariant left == old(pad) - skipped && remaining == old(remaining) && pad == 0
        decreases left
      {
        var chunk := src.Read(left);
        if chunk == [] {
          return true;
        }
        skipped := skipped + |chunk|;
        left := left - |chunk|;
      }
      ended := false;
    }

    /** `read`: bytes of the current body. */
    method Read(max: nat) returns (ok: bool, chunk: Bytes)
      modifies this, src
      ensures pad == old(pad)
      ensures ok == (max == 0 || old(remaining) == 0 || old(src.rest) != [])
      ensures ok ==> old(src.rest) == chunk + src.rest && |chunk| <= max && |chunk| <= old(remaining)
      ensures ok ==> remaining == old(remaining) - |chunk|
      ensures ok ==> (chunk == [] <==> max == 0 || old(remaining) == 0)
    {
      if max == 0 || remaining == 0 {
        return true, [];
      }
      chunk := src.Read(if remaining < max then remaining else max);
      if chunk == [] {
        return false, [];
      }
      remaining := remaining - |chunk|;
      ok := true;
    }

    /** Reading a body to its end, up to `cap` bytes; `read_special_file` for the cap it sets. */
    method ReadWhole(cap: nat) returns (error: Option<ReadError>, data: Bytes)
      modifies this, src
      ensures pad == old(pad)
      ensures error == WholeError(|old(src.rest)|, old(remaining), cap)
      ensures error.None? ==> data == old(src.rest)[..old(remaining)] && src.rest == old(src.rest)[old(remaining)..]
      ensures error.None? ==> remaining == 0
    {
      data := [];
      while true
        invariant data + src.rest == old(src.rest) && pad == old(pad)
        invariant remaining == old(remaining) - |data| && |data| <= cap
        decreases remaining
      {
        var good, chunk := Read(4096);
        if !good {
          return Some(UnexpectedEof), [];
        }
        if chunk == [] {
          return None, data;
        }
        data := data + chunk;
        if |data| > cap {
          return Some(FieldTooLong), [];
        }
      }
    }

    /** `read_header` and `handle_regular_file`: the header block at the current position. */
    method ReadHeader() returns (step: Step, h: Header)
      modifies this, src
      ensures step == StepAt(old(src.rest))
      ensures step == Done ==> h == HeaderOf(old(src.rest)[..512]).value && src.rest == old(src.rest)[512..]
      ensures step == Done ==> remaining == BodySize(h) && pad == Padding(remaining)
    {
      hide HeaderOf, Padding, SizeOk;
      ghost var s := src.rest;
      h := Header(0, [], [], 0, 0, 0, 0, [], [], None, None, None, 0, 0, map[], NO_FORMATS);
      var blk;
      step, blk := ReadBlock();
      if step != Done {
        return;
      }
      if blk == Zeros(512) {
        step, blk := ReadBlock();
        if step == Done {
          assert s[512..][..512] == s[512..1024];
          step := if blk == Zeros(512) then AtEnd else Broken(BadHeader);
        }
        return;
      }
      var r := ParseHeader(blk);
      if r.None? {
        return Broken(BadHeader), h;
      }
      var ok := HandleRegularFile(r.value);
      return if ok then Done else Broken(BadHeader), r.value;
    }

    /** `handle_regular_file`. */
    method HandleRegularFile(h: Header) returns (ok: bool)
      modifies this
      ensures ok == SizeOk(h)
      ensures ok ==> remaining == BodySize(h) && pad == Padding(remaining)
    {
      var nb := h.size;
      if HeaderOnly(h.typeflag) {
        nb := 0;
      }
      if nb < 0 {
        return false;
      }
      remaining := nb;
      pad := Padding(remaining);
      ok := true;
    }

    /** The end of `next` for an ordinary header. */
    method FinishEntry(hdr: Header, records: Option<Records>) returns (next: Next)
      modifies this
      ensures var e := MainEntry(hdr, src.rest, records);
              next == e && (e.Entry? ==> remaining == e.remaining && pad == e.pad)
    {
      hide Mergeable, Merged, Padding;
      var h := hdr;
      if records.Some? {
        var merged := MergePax(h, records.value);
        if merged.None? {
          return Bad(BadHeader);
        }
        h := merged.value;
      }
      if h.typeflag == TYPE_REG_A {
        h := h.(typeflag := if EndsWithSlash(h.name) then TYPE_DIR else TYPE_REG);
      }
      var ok := HandleRegularFile(h);
      return if ok then Entry(h, src.rest, remaining, pad) else Bad(BadHeader);
    }

    /** `next`: skips what is left of the current entry, then reads extended headers until the
        header they apply to. */
    method Next() returns (next: Next)
      modifies this, src
      ensures next == At(old(src.rest), old(remaining), old(pad), None)
      ensures next.Entry? ==> src.rest == next.rest && remaining == next.remaining && pad == next.pad
    {
      hide HeaderOf, Padding, SizeOk, MainEntry, GlobalEntry, NextAt, StepAt, RecordsFrom;
      ghost var s, n, p := src.rest, remaining, pad;
      var records: Option<Records> := None;
      ghost var at := At(s, n, p, None);
      while true
        invariant At(src.rest, remaining, pad, records) == at
        decreases |src.rest|
      {
        var ok := DiscardCurrent();
        if !ok {
          return Bad(UnexpectedEof);
        }
        var ended := SkipPadding();
        if ended {
          return End;
        }
        ghost var here := src.rest;
        NextUnfold(here, records);
        var step, h := ReadHeader();
        if step == AtEnd {
          return End;
        } else if step.Broken? {
          return Bad(step.error);
        }
        if !IsSpecial(h.typeflag) {
          next := FinishEntry(h, records);
          return;
        }
        var wrong, data := ReadWhole(MAX_SPECIAL_FILE_SIZE);
        if wrong.Some? {
          return Bad(wrong.value);
        }
        var m := ParsePax(data);
        if m.None? {
          return Bad(BadHeader);
        }
        if h.typeflag == TYPE_XGLOBAL_HEADER {
          next := FinishGlobal(h, m.value);
          return;
        }
        records := m;
      }
    }

    method FinishGlobal(h: Header, m: Records) returns (next: Next)
      ensures next == GlobalEntry(h, m, src.rest, pad)
    {
      hide Mergeable, Merged;
      var merged := MergePax(h, m);
      if merged.None? {
        return Bad(BadHeader);
      }
      return Entry(Header(h.typeflag, merged.value.name, [], 0, 0, 0, 0, [], [], None, None, None, 0, 0, m, NO_FORMATS),
                   src.rest, 0, pad);
    }
  }

  /** One round of `next`. */
  lemma NextUnfold(s: Bytes, records: Option<Records>)
    ensures StepAt(s) == AtEnd ==> NextAt(s, records) == End
    ensures StepAt(s).Broken? ==> NextAt(s, records) == Bad(StepAt(s).error)
    ensures StepAt(s) == Done ==>
              var h, rest := HeaderOf(s[..512]).value, s[512..];
              var n := BodySize(h);
              var wrong := WholeError(|rest|, n, MAX_SPECIAL_FILE_SIZE);
              && (!IsSpecial(h.typeflag) ==> NextAt(s, records) == MainEntry(h, rest, records))
              && (IsSpecial(h.typeflag) && wrong.Some? ==> NextAt(s, records) == Bad(wrong.value))
              && (IsSpecial(h.typeflag) && wrong.None? ==>
                    NextAt(s, records) == AfterSpecial(h, rest[..n], rest[n..]))
  {
    hide HeaderOf, Padding, MainEntry, GlobalEntry, RecordsFrom, StepAt;
    if StepAt(s) == Done {
      var h, rest := HeaderOf(s[..512]).value, s[512..];
      var n := BodySize(h);
      if n + Padding(n) <= |rest| {
        assert rest[n..][0 + Padding(n)..] == rest[n + Padding(n)..];
      }
    }
  }

  /** What follows the data of a special file. */
  function AfterSpecial(h: Header, data: Bytes, rest: Bytes): Next
    requires SizeOk(h)
  {
    var m := RecordsFrom(map[], data);
    if m.None? then Bad(BadHeader)
    else if h.typeflag == TYPE_XGLOBAL_HEADER then GlobalEntry(h, m.value, rest, Padding(BodySize(h)))
    else At(rest, 0, Padding(BodySize(h)), m)
  }
}
