/** Shell patterns as the ignore files use them: `*`, `?`, classes and escapes, on bytes. The
    matcher splits the pattern at stars and commits to the leftmost match of every chunk. */
module Glob {
  import opened Bits
  import opened Endian
  import opened Utf8

  const SEPARATOR: u8 := 0x2F
  const STAR: u8 := 0x2A
  const QUESTION: u8 := 0x3F
  const OPEN: u8 := 0x5B
  const CLOSE: u8 := 0x5D
  const CARET: u8 := 0x5E
  const DASH: u8 := 0x2D
  const BACKSLASH: u8 := 0x5C

  datatype Range = Range(lo: int, hi: int)

  /** The pieces of a pattern. */
  datatype Tok = Star | Lit(b: u8) | AnyChar | Class(negated: bool, ranges: seq<Range>)

  /** `get_esc`: a possibly escaped class character and the rest, which must not be empty. */
  function GetEsc(chunk: Bytes): (r: Option<(int, Bytes)>)
    ensures r.Some? ==> 0 < |r.value.1| < |chunk|
  {
    if |chunk| == 0 || chunk[0] == DASH || chunk[0] == CLOSE then None
    else
      var c := if chunk[0] == BACKSLASH then chunk[1..] else chunk;
      if |c| == 0 then None
      else
        var (r, n) := DecodeRune(c);
        if r == RUNE_ERROR && n == 1 then None
        else if |c[n..]| == 0 then None
        else Some((r, c[n..]))
  }

  /** One `lo` or `lo-hi` range of a class. */
  function GetRange(chunk: Bytes): (r: Option<(Range, Bytes)>)
    ensures r.Some? ==> 0 < |r.value.1| < |chunk|
  {
    match GetEsc(chunk)
    case None => None
    case Some((lo, rest)) =>
      if rest[0] != DASH then Some((Range(lo, lo), rest))
      else
        match GetEsc(rest[1..])
        case None => None
        case Some((hi, after)) => Some((Range(lo, hi), after))
  }

  /** The ranges of a class up to its closing bracket; a bracket in first place does not close. */
  function ParseRanges(chunk: Bytes, first: bool): (r: Option<(seq<Range>, Bytes)>)
    ensures r.Some? ==> |r.value.1| < |chunk|
    decreases |chunk|
  {
    if |chunk| > 0 && chunk[0] == CLOSE && !first then Some(([], chunk[1..]))
    else
      match GetRange(chunk)
      case None => None
      case Some((range, rest)) =>
        match ParseRanges(rest, false)
        case None => None
        case Some((ranges, after)) => Some(([range] + ranges, after))
  }

  /** What follows an opening bracket. */
  function ParseClass(chunk: Bytes): (r: Option<(Tok, Bytes)>)
    ensures r.Some? ==> |r.value.1| < |chunk| && r.value.0.Class?
  {
    var negated := |chunk| > 0 && chunk[0] == CARET;
    match ParseRanges(if negated then chunk[1..] else chunk, true)
    case None => None
    case Some((ranges, rest)) => Some((Class(negated, ranges), rest))
  }

  /** The first piece of a pattern; with `stars` off an asterisk is an ordinary byte. */
  function ParseTok(p: Bytes, stars: bool): (r: Option<(Tok, Bytes)>)
    requires |p| > 0
    ensures r.Some? ==> |r.value.1| < |p|
    ensures r.Some? && r.value.0.Star? ==> stars
  {
    if p[0] == OPEN then ParseClass(p[1..])
    else if p[0] == QUESTION then Some((AnyChar, p[1..]))
    else if p[0] == STAR && stars then Some((Star, p[1..]))
    else if p[0] == BACKSLASH then if |p| == 1 then None else Some((Lit(p[1]), p[2..]))
    else Some((Lit(p[0]), p[1..]))
  }

  /** The pieces of a pattern, or nothing if it is malformed. */
  function Parse(p: Bytes, stars: bool): (r: Option<seq<Tok>>)
    decreases |p|
  {
    if |p| == 0 then Some([])
    else
      match ParseTok(p, stars)
      case None => None
      case Some((tok, rest)) =>
        match Parse(rest, stars)
        case None => None
        case Some(toks) => Some([tok] + toks)
  }

  predicate InRanges(ranges: seq<Range>, r: int)
  {
    exists i :: 0 <= i < |ranges| && ranges[i].lo <= r <= ranges[i].hi
  }

  /** Does one piece other than a star match at the start of `s`? */
  predicate TokMatches(tok: Tok, s: Bytes)
    requires |s| > 0
  {
    match tok
    case Lit(b) => s[0] == b
    case AnyChar => s[0] != SEPARATOR
    case Class(negated, ranges) => InRanges(ranges, DecodeRune(s).0) != negated
    case Star => false
  }

  function TokWidth(tok: Tok, s: Bytes): (n: nat)
    requires |s| > 0
    ensures 1 <= n <= |s|
  {
    if tok.AnyChar? || tok.Class? then DecodeRune(s).1 else 1
  }

  predicate NoSlash(s: Bytes) {
    SEPARATOR !in s
  }

  /** The declarative meaning: every star stands for some stretch without a separator, and the
      pieces then match the whole name in turn. */
  ghost predicate Means(toks: seq<Tok>, name: Bytes)
    decreases |toks|
  {
    if |toks| == 0 then |name| == 0
    else if toks[0].Star? then
      exists k: nat :: k <= |name| && NoSlash(name[..k]) && Means(toks[1..], name[k..])
    else
      |name| > 0 && TokMatches(toks[0], name) && Means(toks[1..], name[TokWidth(toks[0], name)..])
  }

  /** Matching star-free pieces against the start of `s`, leaving the remainder. */
  function PrefixMatch(toks: seq<Tok>, s: Bytes): (r: Option<Bytes>)
    decreases |toks|
  {
    if |toks| == 0 then Some(s)
    else if |s| == 0 || !TokMatches(toks[0], s) then None
    else PrefixMatch(toks[1..], s[TokWidth(toks[0], s)..])
  }

  // ----- Scanning for the next chunk.

  function LeadingStars(p: Bytes): (n: nat)
    ensures n <= |p| && (forall i :: 0 <= i < n ==> p[i] == STAR) && (n < |p| ==> p[n] != STAR)
  {
    if |p| > 0 && p[0] == STAR then 1 + LeadingStars(p[1..]) else 0
  }

  /** Where the chunk at the start of `p` ends: at the first asterisk that is neither escaped nor
      inside brackets. */
  function ScanEnd(p: Bytes, inRange: bool): (n: nat)
    ensures n <= |p|
    decreases |p|
  {
    if |p| == 0 then 0
    else if p[0] == BACKSLASH && |p| > 1 then 2 + ScanEnd(p[2..], inRange)
    else if p[0] == OPEN then 1 + ScanEnd(p[1..], true)
    else if p[0] == CLOSE then 1 + ScanEnd(p[1..], false)
    else if p[0] == STAR && !inRange then 0
    else 1 + ScanEnd(p[1..], inRange)
  }

  method SkipStars(pattern: Bytes) returns (star: bool, p: Bytes)
    ensures p == pattern[LeadingStars(pattern)..] && star == (LeadingStars(pattern) > 0)
  {
    star := false;
    p := pattern;
    ghost var skipped: nat := 0;
    while |p| > 0 && p[0] == STAR
      invariant skipped <= |pattern| && p == pattern[skipped..] && star == (skipped > 0)
      invariant LeadingStars(pattern) == skipped + LeadingStars(p)
      decreases |p|
    {
      p := p[1..];
      star := true;
      skipped := skipped + 1;
    }
  }

  /** `scan_chunk`. */
  method ScanChunk(pattern: Bytes) returns (star: bool, chunk: Bytes, rest: Bytes)
    ensures var n := LeadingStars(pattern);
            var e := ScanEnd(pattern[n..], false);
            star == (n > 0) && chunk == pattern[n..][..e] && rest == pattern[n..][e..]
  {
    var p;
    star, p := SkipStars(pattern);
    var inRange := false;
    var i: nat := 0;
    while i < |p|
      invariant i <= |p| && ScanEnd(p, false) == i + ScanEnd(p[i..], inRange)
    {
      if p[i] == BACKSLASH && i + 1 < |p| {
        assert p[i..][2..] == p[i + 2..];
        i := i + 1;
      } else {
        assert p[i..][1..] == p[i + 1..];
        if p[i] == OPEN {
          inRange := true;
        } else if p[i] == CLOSE {
          inRange := false;
        } else if p[i] == STAR && !inRange {
          return star, p[..i], p[i..];
        }
      }
      i := i + 1;
    }
    return star, p, p[|p|..];
  }

  /** Plain bytes are scanned over one by one. */
  lemma {:induction false} ScanOver(p: Bytes, n: nat, inRange: bool)
    requires n <= |p| && forall i :: 0 <= i < n ==> p[i] >= 0x80
    ensures ScanEnd(p, inRange) == n + ScanEnd(p[n..], inRange)
  {
    if n > 0 {
      ScanOver(p[1..], n - 1, inRange);
      assert p[1..][n - 1..] == p[n..];
    } else {
      assert p[0..] == p;
    }
  }

  /** A class character is scanned over without leaving the brackets. */
  lemma ScanEsc(chunk: Bytes)
    requires GetEsc(chunk).Some?
    ensures var rest := GetEsc(chunk).value.1;
            ScanEnd(chunk, true) == |chunk| - |rest| + ScanEnd(rest, true)
  {
    var escaped := chunk[0] == BACKSLASH;
    var c := if escaped then chunk[1..] else chunk;
    var n := DecodeRune(c).1;
    ScanOver(c[1..], n - 1, true);
    assert c[1..][n - 1..] == c[n..];
    if escaped {
      assert chunk[2..] == c[1..];
    }
  }

  lemma ScanRange(chunk: Bytes)
    requires GetRange(chunk).Some?
    ensures var rest := GetRange(chunk).value.1;
            ScanEnd(chunk, true) == |chunk| - |rest| + ScanEnd(rest, true)
  {
    ScanEsc(chunk);
    var rest := GetEsc(chunk).value.1;
    if rest[0] == DASH {
      ScanEsc(rest[1..]);
    }
  }

  lemma {:induction false} ScanRanges(chunk: Bytes, first: bool)
    requires ParseRanges(chunk, first).Some?
    ensures var rest := ParseRanges(chunk, first).value.1;
            ScanEnd(chunk, true) == |chunk| - |rest| + ScanEnd(rest, false)
    decreases |chunk|
  {
    if |chunk| > 0 && chunk[0] == CLOSE && !first {
    } else {
      ScanRange(chunk);
      ScanRanges(GetRange(chunk).value.1, false);
    }
  }

  /** Scanning passes over every piece but a star. */
  lemma ScanTok(p: Bytes)
    requires |p| > 0 && ParseTok(p, true).Some? && !ParseTok(p, true).value.0.Star?
    ensures var rest := ParseTok(p, true).value.1;
            ScanEnd(p, false) == |p| - |rest| + ScanEnd(rest, false)
  {
    if p[0] == OPEN {
      var negated := |p| > 1 && p[1] == CARET;
      ScanRanges(if negated then p[1..][1..] else p[1..], true);
    }
  }

  // ----- Parsing a chunk and parsing it with more pattern behind it.

  lemma RuneJoin(c: Bytes, z: Bytes)
    requires |c| > 0
    requires DecodeRune(c) != (RUNE_ERROR, 1) || (DecodeRune(c + z) != (RUNE_ERROR, 1) && DecodeRune(c + z).1 <= |c|)
    ensures DecodeRune(c + z) == DecodeRune(c)
  {
    var s := c + z;
    assert s[0] == c[0];
    assert |c| > 1 ==> s[1] == c[1];
    assert |c| > 2 ==> s[2] == c[2];
    assert |c| > 3 ==> s[3] == c[3];
  }

  lemma EscJoin(c: Bytes, z: Bytes)
    requires GetEsc(c).Some? || (GetEsc(c + z).Some? && |GetEsc(c + z).value.1| > |z|)
    ensures GetEsc(c).Some?
    ensures GetEsc(c + z) == Some((GetEsc(c).value.0, GetEsc(c).value.1 + z))
  {
    hide DecodeRune;
    assert |c| == 0 ==> c + z == z;
    assert (c + z)[0] == c[0];
    assert (c + z)[1..] == c[1..] + z;
    var d := if c[0] == BACKSLASH then c[1..] else c;
    assert |d| == 0 ==> d + z == z;
    RuneJoin(d, z);
    var n := DecodeRune(d).1;
    assert (d + z)[n..] == d[n..] + z;
  }

  lemma RangeJoin(c: Bytes, z: Bytes)
    requires GetRange(c).Some? || (GetRange(c + z).Some? && |GetRange(c + z).value.1| > |z|)
    ensures GetRange(c).Some?
    ensures GetRange(c + z) == Some((GetRange(c).value.0, GetRange(c).value.1 + z))
  {
    hide GetEsc;
    EscJoin(c, z);
    var rest := GetEsc(c).value.1;
    assert (rest + z)[0] == rest[0];
    if rest[0] == DASH {
      assert (rest + z)[1..] == rest[1..] + z;
      EscJoin(rest[1..], z);
    }
  }

  lemma {:induction false} RangesJoin(c: Bytes, z: Bytes, first: bool)
    requires || ParseRanges(c, first).Some?
             || (ParseRanges(c + z, first).Some? && |ParseRanges(c + z, first).value.1| >= |z|)
    ensures ParseRanges(c, first).Some?
    ensures ParseRanges(c + z, first)
         == Some((ParseRanges(c, first).value.0, ParseRanges(c, first).value.1 + z))
    decreases |c|
  {
    hide GetRange;
    assert |c| == 0 ==> c + z == z;
    assert (c + z)[0] == c[0];
    if c[0] == CLOSE && !first {
      assert (c + z)[1..] == c[1..] + z;
    } else {
      RangeJoin(c, z);
      RangesJoin(GetRange(c).value.1, z, false);
    }
  }

  lemma ClassJoin(c: Bytes, z: Bytes)
    requires ParseClass(c).Some? || (ParseClass(c + z).Some? && |ParseClass(c + z).value.1| >= |z|)
    ensures ParseClass(c).Some?
    ensures ParseClass(c + z) == Some((ParseClass(c).value.0, ParseClass(c).value.1 + z))
  {
    hide ParseRanges;
    assert |c| == 0 ==> c + z == z;
    assert (c + z)[0] == c[0];
    assert (c + z)[1..] == c[1..] + z;
    RangesJoin(if c[0] == CARET then c[1..] else c, z, true);
  }

  /** A piece read from a chunk is the piece read from the whole pattern, provided it does not
      reach past the chunk's end. */
  lemma TokJoin(c: Bytes, z: Bytes)
    requires |c| > 0 && c[0] != STAR
    requires || ParseTok(c, false).Some?
             || (ParseTok(c + z, true).Some? && |ParseTok(c + z, true).value.1| >= |z|)
    ensures ParseTok(c, false).Some?
    ensures ParseTok(c + z, true) == Some((ParseTok(c, false).value.0, ParseTok(c, false).value.1 + z))
  {
    hide ParseClass;
    assert (c + z)[0] == c[0];
    assert (c + z)[1..] == c[1..] + z;
    if c[0] == OPEN {
      ClassJoin(c[1..], z);
    } else if c[0] == BACKSLASH && |c| > 1 {
      assert (c + z)[1] == c[1];
      assert (c + z)[2..] == c[2..] + z;
    }
  }

  function Append(a: Option<seq<Tok>>, b: Option<seq<Tok>>): Option<seq<Tok>> {
    if a.None? || b.None? then None else Some(a.value + b.value)
  }

  /** Where the first piece of a chunk ends, the rest of the chunk begins. */
  lemma ChunkStep(p: Bytes, e: nat)
    requires 0 < e == ScanEnd(p, false) && (ParseTok(p, true).Some? || ParseTok(p[..e], false).Some?)
    ensures ParseTok(p, true).Some? && ParseTok(p[..e], false).Some?
    ensures ParseTok(p, true).value.0 == ParseTok(p[..e], false).value.0
    ensures var rest := ParseTok(p, true).value.1;
            var f := ScanEnd(rest, false);
            rest[..f] == ParseTok(p[..e], false).value.1 && rest[f..] == p[e..]
  {
    hide ParseClass;
    var c, z := p[..e], p[e..];
    assert c + z == p;
    assert c[0] == p[0] != STAR;
    if ParseTok(p, true).Some? {
      ScanTok(p);
    }
    TokJoin(c, z);
    ScanTok(p);
  }

  /** The pieces of a pattern are those of its first chunk followed by those of the rest; in
      particular the pattern is well-formed exactly when both are. */
  lemma {:induction false} ParseChunk(p: Bytes)
    ensures var e := ScanEnd(p, false);
            Parse(p, true) == Append(Parse(p[..e], false), Parse(p[e..], true))
    decreases |p|
  {
    hide ParseTok, ScanEnd;
    var e := ScanEnd(p, false);
    if e == 0 {
      assert p[..e] == [] && p[e..] == p;
      assert Parse(p, true).Some? ==> [] + Parse(p, true).value == Parse(p, true).value;
    } else if ParseTok(p, true).Some? || ParseTok(p[..e], false).Some? {
      ChunkStep(p, e);
      var (tok, rest) := ParseTok(p, true).value;
      ParseChunk(rest);
      var c, r := Parse(ParseTok(p[..e], false).value.1, false), Parse(p[e..], true);
      assert c.Some? && r.Some? ==> [tok] + (c.value + r.value) == [tok] + c.value + r.value;
    }
  }

  // ----- Matching one chunk.

  lemma InRangesCons(range: Range, ranges: seq<Range>, r: int)
    ensures InRanges([range] + ranges, r) <==> range.lo <= r <= range.hi || InRanges(ranges, r)
  {
    var all := [range] + ranges;
    if range.lo <= r <= range.hi {
      assert all[0] == range;
    }
    if InRanges(ranges, r) {
      var i :| 0 <= i < |ranges| && ranges[i].lo <= r <= ranges[i].hi;
      assert all[i + 1] == ranges[i];
    }
  }

  /** What the class loop has established after reading some ranges: the rest decides as the
      whole does, up to what already matched. */
  ghost predicate RangesSoFar(start: Bytes, r: int, chunk: Bytes, first: bool, matched: bool) {
    var all, left := ParseRanges(start, true), ParseRanges(chunk, first);
    && (left.Some? <==> all.Some?)
    && (left.Some? ==> all.value.1 == left.value.1)
    && (left.Some? ==> (InRanges(all.value.0, r) <==> matched || InRanges(left.value.0, r)))
  }

  lemma NextRange(start: Bytes, r: int, chunk: Bytes, first: bool, matched: bool)
    requires RangesSoFar(start, r, chunk, first, matched)
    requires !(|chunk| > 0 && chunk[0] == CLOSE && !first)
    ensures GetRange(chunk).None? ==> ParseRanges(start, true).None?
    ensures GetRange(chunk).Some? ==>
              var (range, rest) := GetRange(chunk).value;
              RangesSoFar(start, r, rest, false, matched || range.lo <= r <= range.hi)
  {
    hide GetRange, InRanges;
    if GetRange(chunk).Some? {
      var (range, rest) := GetRange(chunk).value;
      if ParseRanges(rest, false).Some? {
        InRangesCons(range, ParseRanges(rest, false).value.0, r);
      }
    }
  }

  /** The class loop of `match_chunk`: is `r` in one of the ranges up to the closing bracket? */
  method MatchRanges(start: Bytes, r: int) returns (ok: bool, matched: bool, chunk: Bytes)
    ensures ok == ParseRanges(start, true).Some?
    ensures ok ==> matched == InRanges(ParseRanges(start, true).value.0, r)
    ensures ok ==> chunk == ParseRanges(start, true).value.1
  {
    hide GetEsc;
    chunk, matched := start, false;
    var nrange: nat := 0;
    while !(|chunk| > 0 && chunk[0] == CLOSE && nrange > 0)
      invariant RangesSoFar(start, r, chunk, nrange == 0, matched)
      decreases |chunk|
    {
      NextRange(start, r, chunk, nrange == 0, matched);
      var e := GetEsc(chunk);
      if e.None? {
        return false, false, chunk;
      }
      var (lo, rest) := e.value;
      var hi := lo;
      if rest[0] == DASH {
        var f := GetEsc(rest[1..]);
        if f.None? {
          return false, false, chunk;
        }
        hi, rest := f.value.0, f.value.1;
      }
      chunk := rest;
      matched := matched || lo <= r <= hi;
      nrange := nrange + 1;
    }
    return true, matched, chunk[1..];
  }

  datatype Outcome = BadPattern | Rest(s: Option<Bytes>)

  /** What matching the rest of a chunk will give. */
  function Pending(chunk: Bytes, s: Bytes, failed: bool): Outcome {
    match Parse(chunk, false)
    case None => BadPattern
    case Some(toks) => Rest(if failed then None else PrefixMatch(toks, s))
  }

  lemma PendingStep(chunk: Bytes, s: Bytes, failed: bool)
    requires |chunk| > 0 && ParseTok(chunk, false).Some?
    ensures var (tok, rest) := ParseTok(chunk, false).value;
            Pending(chunk, s, failed) ==
              if failed || |s| == 0 then Pending(rest, s, true)
              else Pending(rest, s[TokWidth(tok, s)..], !TokMatches(tok, s))
  {
    hide ParseTok, TokMatches, TokWidth;
  }

  lemma PendingEnds(chunk: Bytes, s: Bytes, failed: bool)
    ensures |chunk| == 0 ==> Pending(chunk, s, failed) == Rest(if failed then None else Some(s))
    ensures |chunk| > 0 && ParseTok(chunk, false).None? ==> Pending(chunk, s, failed) == BadPattern
    ensures failed ==> Pending(chunk, s, failed) == Pending(chunk, [], true)
  {
    hide ParseTok;
  }

  /** `match_chunk`: the rest of `s` after the pieces of the chunk matched its start, or nothing if
      they do not; a malformed chunk is reported whatever `s` is. */
  method MatchChunk(pattern: Bytes, name: Bytes) returns (result: Outcome)
    ensures result == Pending(pattern, name, false)
  {
    hide DecodeRune, ParseRanges, InRanges, Pending;
    var chunk, s, failed := pattern, name, false;
    while |chunk| > 0
      invariant Pending(chunk, s, failed) == Pending(pattern, name, false)
      decreases |chunk|
    {
      PendingEnds(chunk, s, failed);
      if ParseTok(chunk, false).Some? {
        PendingStep(chunk, s, failed);
        PendingEnds(ParseTok(chunk, false).value.1, s, true);
      }
      failed := failed || |s| == 0;
      if chunk[0] == OPEN {
        var r := 0;
        var s' := s;
        if !failed {
          var (rune, n) := DecodeRune(s);
          r, s' := rune, s[n..];
        }
        chunk := chunk[1..];
        var negated := false;
        if |chunk| > 0 && chunk[0] == CARET {
          negated := true;
          chunk := chunk[1..];
        }
        var ok, matched, rest := MatchRanges(chunk, r);
        if !ok {
          return BadPattern;
        }
        PendingEnds(rest, s', true);
        chunk, s, failed := rest, s', failed || matched == negated;
      } else if chunk[0] == QUESTION {
        if !failed {
          failed := s[0] == SEPARATOR;
          s := s[DecodeRune(s).1..];
        }
        chunk := chunk[1..];
      } else {
        var lit := chunk[0];
        if chunk[0] == BACKSLASH {
          chunk := chunk[1..];
          if |chunk| == 0 {
            return BadPattern;
          }
          lit := chunk[0];
        }
        if !failed {
          failed := lit != s[0];
          s := s[1..];
        }
        chunk := chunk[1..];
      }
    }
    PendingEnds(chunk, s, failed);
    return Rest(if failed then None else Some(s));
  }

  // ----- Runs of stars, and stretches between them.

  function Stars(n: nat): (toks: seq<Tok>)
    ensures |toks| == n
  {
    seq(n, _ => Star)
  }

  predicate StarFree(toks: seq<Tok>) {
    forall i :: 0 <= i < |toks| ==> !toks[i].Star?
  }

  lemma {:induction false} ParseStars(p: Bytes, n: nat)
    requires n <= |p| && forall i :: 0 <= i < n ==> p[i] == STAR
    ensures Parse(p, true) == Append(Some(Stars(n)), Parse(p[n..], true))
  {
    var q := Parse(p[n..], true);
    if n == 0 {
      assert p[n..] == p && (q.Some? ==> Stars(0) + q.value == q.value);
    } else {
      ParseStars(p[1..], n - 1);
      assert p[1..][n - 1..] == p[n..];
      assert q.Some? ==> [Star] + (Stars(n - 1) + q.value) == Stars(n) + q.value;
    }
  }

  lemma {:induction false} ParseStarFree(p: Bytes)
    ensures Parse(p, false).Some? ==> StarFree(Parse(p, false).value)
    decreases |p|
  {
    hide ParseTok;
    if |p| > 0 && ParseTok(p, false).Some? {
      ParseStarFree(ParseTok(p, false).value.1);
    }
  }

  /** A stretch of `k` bytes for the star in front of `toks`. */
  ghost predicate Stretch(toks: seq<Tok>, name: Bytes, k: nat) {
    k <= |name| && NoSlash(name[..k]) && Means(toks, name[k..])
  }

  /** A run of stars means what one star means. */
  lemma {:induction false} MeansStars(n: nat, toks: seq<Tok>, name: Bytes)
    ensures n == 0 ==> Stars(n) + toks == toks
    ensures n > 0 ==> (Means(Stars(n) + toks, name) <==> exists k: nat :: Stretch(toks, name, k))
  {
    if n == 0 {
    } else {
      var all := Stars(n) + toks;
      assert all[1..] == Stars(n - 1) + toks;
      if Means(all, name) {
        var k: nat :| k <= |name| && NoSlash(name[..k]) && Means(all[1..], name[k..]);
        MeansStars(n - 1, toks, name[k..]);
        if n > 1 {
          var j: nat :| Stretch(toks, name[k..], j);
          JoinStretch(toks, name, k, j);
        } else {
          assert Stretch(toks, name, k);
        }
      }
      if k: nat :| Stretch(toks, name, k) {
        MeansStars(n - 1, toks, name[k..]);
        if n > 1 {
          assert name[k..][0..] == name[k..];
          assert Stretch(toks, name[k..], 0);
        }
        assert Means(all[1..], name[k..]);
      }
    }
  }

  lemma JoinStretch(toks: seq<Tok>, name: Bytes, k: nat, j: nat)
    requires k <= |name| && NoSlash(name[..k]) && Stretch(toks, name[k..], j)
    ensures Stretch(toks, name, k + j)
  {
    assert name[k..][j..] == name[k + j..];
    assert name[..k + j] == name[..k] + name[k..][..j];
  }

  /** Star-free pieces match a prefix, and what follows matches the rest. */
  lemma {:induction false} MeansPrefix(c: seq<Tok>, r: seq<Tok>, name: Bytes)
    requires StarFree(c)
    ensures Means(c + r, name) <==> PrefixMatch(c, name).Some? && Means(r, PrefixMatch(c, name).value)
    decreases |c|
  {
    if |c| == 0 {
      assert c + r == r;
    } else {
      assert (c + r)[0] == c[0] && (c + r)[1..] == c[1..] + r;
      if |name| > 0 && TokMatches(c[0], name) {
        MeansPrefix(c[1..], r, name[TokWidth(c[0], name)..]);
      }
    }
  }

  // ----- When the leftmost match of a chunk is as good as any.

  /** No offset of the name decodes to a character of three bytes or more. */
  predicate Narrow(s: Bytes) {
    forall i :: 0 <= i < |s| ==> DecodeRune(s[i..]).1 <= 2
  }

  /** No separator follows another byte: those there are stand in front. */
  predicate SlashesLead(s: Bytes) {
    forall i :: 0 < i < |s| && s[i] == SEPARATOR ==> s[i - 1] == SEPARATOR
  }

  predicate ShunsSlash(tok: Tok) {
    tok.Class? ==> InRanges(tok.ranges, SEPARATOR) == tok.negated
  }

  /** Narrow names, with separators in front only or under a pattern whose classes do not match
      one. */
  predicate Tame(toks: seq<Tok>, name: Bytes) {
    && Narrow(name)
    && (SlashesLead(name) || forall tok :: tok in toks ==> ShunsSlash(tok))
  }

  lemma TameFrom(all: seq<Tok>, toks: seq<Tok>, name: Bytes, k: nat)
    requires Tame(all, name) && k <= |name| && forall tok :: tok in toks ==> tok in all
    ensures Tame(toks, name[k..])
  {
    hide DecodeRune, ShunsSlash;
    forall i | 0 <= i < |name| - k ensures DecodeRune(name[k..][i..]).1 <= 2 {
      assert name[k..][i..] == name[k + i..];
    }
  }

  /** A match of star-free pieces leaves a suffix. */
  lemma {:induction false} PrefixLeaves(c: seq<Tok>, s: Bytes)
    requires PrefixMatch(c, s).Some?
    ensures var t := PrefixMatch(c, s).value; |t| <= |s| && t == s[|s| - |t|..]
    decreases |c|
  {
    hide TokMatches, TokWidth;
    if |c| > 0 {
      var w := TokWidth(c[0], s);
      PrefixLeaves(c[1..], s[w..]);
    }
  }

  lemma MatchingSlash(tok: Tok, s: Bytes)
    requires |s| > 0 && s[0] == SEPARATOR && TokMatches(tok, s) && ShunsSlash(tok)
    ensures tok == Lit(SEPARATOR)
  {
  }

  /** One piece taken at two offsets of a narrow name: the order of the offsets is kept, and unless
      they meet, no separator is taken at the later one. */
  lemma TakenInOrder(tok: Tok, s: Bytes, i: nat, j: nat)
    requires i < j < |s| && NoSlash(s[..j]) && Tame([tok], s)
    requires TokMatches(tok, s[i..]) && TokMatches(tok, s[j..])
    ensures var a, b := i + TokWidth(tok, s[i..]), j + TokWidth(tok, s[j..]);
            a <= b <= |s| && NoSlash(s[..b])
  {
    var t, u := s[i..], s[j..];
    var b := j + TokWidth(tok, u);
    assert s[..j][i] == s[i] == t[0] != SEPARATOR;
    assert [tok][0] == tok;
    forall m | 0 <= m < b ensures s[..b][m] != SEPARATOR {
      if m < j {
        assert s[..j][m] == s[m];
      } else if m > j {
        assert s[m] == u[m - j] >= 0x80;
      } else if s[j] == SEPARATOR {
        assert s[..j][j - 1] == s[j - 1];
        MatchingSlash(tok, u);
      }
    }
  }

  lemma PrefixStep(c: seq<Tok>, s: Bytes, i: nat)
    requires |c| > 0 && i <= |s| && PrefixMatch(c, s[i..]).Some?
    ensures i < |s| && TokMatches(c[0], s[i..]) && i + TokWidth(c[0], s[i..]) <= |s|
    ensures PrefixMatch(c, s[i..]) == PrefixMatch(c[1..], s[i + TokWidth(c[0], s[i..])..])
  {
    hide TokMatches, TokWidth;
    assert s[i..][TokWidth(c[0], s[i..])..] == s[i + TokWidth(c[0], s[i..])..];
  }

  /** Two matches of the same pieces end in the order in which they start, with no separator
      between the ends. */
  lemma {:induction false} EndsInOrder(c: seq<Tok>, s: Bytes, i: nat, j: nat) returns (a: nat, b: nat)
    requires i <= j <= |s| && NoSlash(s[..j]) && Tame(c, s)
    requires PrefixMatch(c, s[i..]).Some? && PrefixMatch(c, s[j..]).Some?
    ensures a <= b <= |s| && NoSlash(s[a..b])
    ensures PrefixMatch(c, s[i..]).value == s[a..] && PrefixMatch(c, s[j..]).value == s[b..]
    decreases |c|
  {
    hide TokMatches, TokWidth, Tame, PrefixMatch;
    if |c| == 0 {
      a, b := i, j;
      NoPieces(s[i..]);
      NoPieces(s[j..]);
      assert forall m :: 0 <= m < b - a ==> s[a..b][m] == s[..j][a + m];
    } else if i == j {
      a := SameEnd(c, s, i);
      b := a;
    } else {
      PrefixStep(c, s, i);
      PrefixStep(c, s, j);
      var v, w := TokWidth(c[0], s[i..]), TokWidth(c[0], s[j..]);
      assert s[0..] == s;
      TameFrom(c, [c[0]], s, 0);
      TameFrom(c, c[1..], s, 0);
      TakenInOrder(c[0], s, i, j);
      a, b := EndsInOrder(c[1..], s, i + v, j + w);
    }
  }

  lemma NoPieces(s: Bytes)
    ensures PrefixMatch([], s) == Some(s)
  {
  }

  lemma SameEnd(c: seq<Tok>, s: Bytes, i: nat) returns (a: nat)
    requires i <= |s| && PrefixMatch(c, s[i..]).Some?
    ensures i <= a <= |s| && PrefixMatch(c, s[i..]).value == s[a..]
  {
    hide PrefixMatch;
    PrefixLeaves(c, s[i..]);
    a := |s| - |PrefixMatch(c, s[i..]).value|;
    assert s[i..][a - i..] == s[a..];
  }

  /** The leftmost place where a chunk matches leaves the star after it at least as much room. */
  lemma LeftmostSuffices(c: seq<Tok>, r: seq<Tok>, s: Bytes, i: nat, j: nat)
    requires i <= j <= |s| && NoSlash(s[..j]) && Tame(c, s)
    requires |r| > 0 && r[0].Star?
    requires PrefixMatch(c, s[i..]).Some? && PrefixMatch(c, s[j..]).Some?
    requires Means(r, PrefixMatch(c, s[j..]).value)
    ensures Means(r, PrefixMatch(c, s[i..]).value)
  {
    hide PrefixMatch, Tame;
    var a, b := EndsInOrder(c, s, i, j);
    var k: nat :| k <= |s[b..]| && NoSlash(s[b..][..k]) && Means(r[1..], s[b..][k..]);
    assert s[a..][b - a + k..] == s[b..][k..];
    assert s[a..][..b - a + k] == s[a..b] + s[b..][..k];
  }

  // ----- The whole matcher.

  datatype Verdict = Malformed | Verdict(matched: bool)

  ghost predicate Holds(p: Bytes, name: Bytes) {
    Parse(p, true).Some? && Means(Parse(p, true).value, name)
  }

  ghost predicate Judged(p: Bytes, name: Bytes) {
    Parse(p, true).Some? && Tame(Parse(p, true).value, name)
  }

  /** The pattern splits into `n` stars, `chunk` and `rest`, as a round of the matcher splits it. */
  predicate Split(p: Bytes, n: nat, chunk: Bytes, rest: Bytes) {
    && n == LeadingStars(p)
    && var e := ScanEnd(p[n..], false);
       chunk == p[n..][..e] && rest == p[n..][e..]
  }

  /** The pieces of a pattern as one round sees them: stars, then a chunk, then the rest. */
  lemma RoundParse(p: Bytes, n: nat, chunk: Bytes, rest: Bytes)
    requires Split(p, n, chunk, rest)
    ensures Parse(p, true) == Append(Some(Stars(n)), Append(Parse(chunk, false), Parse(rest, true)))
    ensures Parse(chunk, false).Some? ==> StarFree(Parse(chunk, false).value)
    ensures Parse(rest, true).Some? && |rest| > 0 ==> |Parse(rest, true).value| > 0 && Parse(rest, true).value[0].Star?
    ensures n > 0 && chunk == [] ==> rest == []
    ensures |p| > 0 ==> |rest| < |p|
  {
    hide ScanEnd, LeadingStars;
    ParseStars(p, n);
    ParseChunk(p[n..]);
    ParseStarFree(chunk);
    ScanStops(p[n..], false);
  }

  lemma {:induction false} ScanStops(p: Bytes, inRange: bool)
    ensures var e := ScanEnd(p, inRange); e < |p| ==> p[e] == STAR
    ensures |p| > 0 && p[0] != STAR ==> ScanEnd(p, inRange) > 0
    decreases |p|
  {
    if |p| > 0 {
      ScanStops(p[1..], inRange);
      ScanStops(p[1..], true);
      ScanStops(p[1..], false);
      if |p| > 1 {
        ScanStops(p[2..], inRange);
      }
    }
  }

  /** Taking the chunk at offset `k` is a match of the rest behind it. */
  predicate Accepts(chunk: Bytes, rest: Bytes, name: Bytes, k: nat) {
    && k <= |name| && NoSlash(name[..k])
    && Parse(chunk, false).Some?
    && PrefixMatch(Parse(chunk, false).value, name[k..]).Some?
    && (PrefixMatch(Parse(chunk, false).value, name[k..]).value == [] || rest != [])
  }

  /** The declarative reading of one round: the chunk at offset `k`, then the rest. */
  ghost predicate Taken(c: seq<Tok>, r: seq<Tok>, name: Bytes, k: nat) {
    && k <= |name| && NoSlash(name[..k])
    && PrefixMatch(c, name[k..]).Some?
    && Means(r, PrefixMatch(c, name[k..]).value)
  }

  lemma RoundMeans(n: nat, c: seq<Tok>, r: seq<Tok>, name: Bytes)
    requires StarFree(c)
    ensures Means(Stars(n) + (c + r), name) ==> exists k: nat :: Taken(c, r, name, k) && (n > 0 || k == 0)
    ensures forall k: nat :: Taken(c, r, name, k) && (n > 0 || k == 0) ==> Means(Stars(n) + (c + r), name)
  {
    hide Means, PrefixMatch;
    MeansStars(n, c + r, name);
    assert name[0..] == name;
    forall k: nat | k <= |name| ensures Stretch(c + r, name, k) <==> Taken(c, r, name, k) {
      MeansPrefix(c, r, name[k..]);
    }
    assert Stretch(c + r, name, 0) <==> Means(c + r, name);
    if Means(Stars(n) + (c + r), name) {
      var k: nat := 0;
      if n > 0 {
        k :| Stretch(c + r, name, k);
      }
      assert Taken(c, r, name, k);
    }
    forall k: nat | Taken(c, r, name, k) && (n > 0 || k == 0) ensures Means(Stars(n) + (c + r), name) {
      assert Stretch(c + r, name, k);
    }
  }

  lemma TakenAccepted(p: Bytes, n: nat, chunk: Bytes, rest: Bytes, name: Bytes, k: nat)
    requires Split(p, n, chunk, rest) && Parse(chunk, false).Some? && Parse(rest, true).Some?
    requires Taken(Parse(chunk, false).value, Parse(rest, true).value, name, k)
    ensures Accepts(chunk, rest, name, k)
  {
  }

  /** Nowhere to take the chunk: no match. */
  lemma NoMatch(p: Bytes, n: nat, chunk: Bytes, rest: Bytes, name: Bytes)
    requires Split(p, n, chunk, rest)
    requires forall k: nat :: n > 0 || k == 0 ==> !Accepts(chunk, rest, name, k)
    ensures !Holds(p, name)
  {
    hide Means, Accepts, LeadingStars, ScanEnd;
    RoundParse(p, n, chunk, rest);
    if Holds(p, name) {
      var c, r := Parse(chunk, false).value, Parse(rest, true).value;
      RoundMeans(n, c, r, name);
      var k: nat :| Taken(c, r, name, k) && (n > 0 || k == 0);
      TakenAccepted(p, n, chunk, rest, name, k);
    }
  }

  /** Taking the chunk at the first possible offset loses nothing: a match of the rest is a match of
      the whole, and a tame whole that matches leaves a tame rest that does. */
  lemma Commit(p: Bytes, n: nat, chunk: Bytes, rest: Bytes, name: Bytes, k: nat)
    requires Split(p, n, chunk, rest) && (n > 0 || k == 0)
    requires Accepts(chunk, rest, name, k)
    requires forall j: nat :: j < k ==> !Accepts(chunk, rest, name, j)
    ensures var t := PrefixMatch(Parse(chunk, false).value, name[k..]).value;
            && (Holds(rest, t) ==> Holds(p, name))
            && (Parse(rest, true).None? <==> Parse(p, true).None?)
            && (Judged(p, name) ==> Judged(rest, t))
            && (Judged(p, name) && Holds(p, name) ==> Holds(rest, t))
  {
    hide Means, LeadingStars, ScanEnd, Tame, PrefixMatch;
    RoundParse(p, n, chunk, rest);
    var c := Parse(chunk, false).value;
    var t := PrefixMatch(c, name[k..]).value;
    if Parse(rest, true).Some? {
      var r := Parse(rest, true).value;
      RoundMeans(n, c, r, name);
      assert Holds(rest, t) ==> Taken(c, r, name, k);
      if Judged(p, name) {
        CommitTame(n, c, r, name, k);
        if Holds(p, name) {
          var j: nat :| Taken(c, r, name, j) && (n > 0 || j == 0);
          TakenAccepted(p, n, chunk, rest, name, j);
          CommitMeans(n, c, r, name, k, j, rest);
        }
      }
    }
  }

  lemma CommitTame(n: nat, c: seq<Tok>, r: seq<Tok>, name: Bytes, k: nat)
    requires k <= |name| && PrefixMatch(c, name[k..]).Some?
    requires Tame(Stars(n) + (c + r), name)
    ensures Tame(r, PrefixMatch(c, name[k..]).value)
  {
    hide Tame, PrefixMatch;
    var a := SameEnd(c, name, k);
    TameFrom(Stars(n) + (c + r), r, name, a);
  }

  lemma CommitMeans(n: nat, c: seq<Tok>, r: seq<Tok>, name: Bytes, k: nat, j: nat, rest: Bytes)
    requires k <= j && Tame(Stars(n) + (c + r), name) && Taken(c, r, name, j)
    requires PrefixMatch(c, name[k..]).Some?
    requires if rest == [] then r == [] && PrefixMatch(c, name[k..]).value == [] else |r| > 0 && r[0].Star?
    ensures Means(r, PrefixMatch(c, name[k..]).value)
  {
    hide Tame, PrefixMatch;
    if rest != [] {
      TameFrom(Stars(n) + (c + r), c, name, 0);
      assert name[0..] == name;
      LeftmostSuffices(c, r, name, k, j);
    }
  }

  lemma NoneBeyond(chunk: Bytes, rest: Bytes, name: Bytes)
    ensures forall j: nat :: j > |name| ==> !Accepts(chunk, rest, name, j)
  {
  }

  /** The first offset from `k` on where the chunk is accepted. */
  function AcceptedFrom(chunk: Bytes, rest: Bytes, name: Bytes, k: nat): (r: Option<nat>)
    requires k <= |name|
    ensures r.Some? ==> k <= r.value && Accepts(chunk, rest, name, r.value)
    ensures r.Some? ==> forall j: nat :: k <= j < r.value ==> !Accepts(chunk, rest, name, j)
    ensures r.None? ==> forall j: nat :: k <= j ==> !Accepts(chunk, rest, name, j)
    decreases |name| - k
  {
    hide Accepts;
    NoneBeyond(chunk, rest, name);
    if Accepts(chunk, rest, name, k) then Some(k)
    else if k == |name| then None
    else AcceptedFrom(chunk, rest, name, k + 1)
  }

  /** Where one round takes its chunk: at the first offset that a star in front of it can reach. */
  function Leftmost(star: bool, chunk: Bytes, rest: Bytes, name: Bytes): (r: Option<nat>)
    ensures r.Some? ==> Accepts(chunk, rest, name, r.value) && (star || r.value == 0)
    ensures r.Some? ==> forall j: nat :: j < r.value ==> !Accepts(chunk, rest, name, j)
    ensures r.None? ==> forall j: nat :: star || j == 0 ==> !Accepts(chunk, rest, name, j)
  {
    if star then AcceptedFrom(chunk, rest, name, 0)
    else if Accepts(chunk, rest, name, 0) then Some(0)
    else None
  }

  lemma LeftmostIs(chunk: Bytes, rest: Bytes, name: Bytes, k: nat)
    requires Accepts(chunk, rest, name, k) && forall j: nat :: j < k ==> !Accepts(chunk, rest, name, j)
    ensures Leftmost(true, chunk, rest, name) == Some(k)
  {
    hide Accepts;
    var at := Leftmost(true, chunk, rest, name);
    assert at.Some? && at.value <= k;
  }

  /** What the matcher answers, round by round. */
  function Greedy(p: Bytes, name: Bytes): (r: Verdict)
    decreases |p|
  {
    if p == [] then Verdict(name == [])
    else
      var n := LeadingStars(p);
      var e := ScanEnd(p[n..], false);
      var chunk, rest := p[n..][..e], p[n..][e..];
      if n > 0 && chunk == [] then Verdict(NoSlash(name))
      else if Parse(chunk, false).None? then Malformed
      else
        var at := Leftmost(n > 0, chunk, rest, name);
        if at.None? then Verdict(false)
        else
          RoundParse(p, n, chunk, rest);
          Greedy(rest, PrefixMatch(Parse(chunk, false).value, name[at.value..]).value)
  }

  /** One round of the specification. */
  lemma GreedyRound(p: Bytes, n: nat, chunk: Bytes, rest: Bytes, name: Bytes)
    requires p != [] && Split(p, n, chunk, rest)
    ensures n > 0 && chunk == [] ==> Greedy(p, name) == Verdict(NoSlash(name))
    ensures !(n > 0 && chunk == []) && Parse(chunk, false).None? ==> Greedy(p, name) == Malformed
    ensures !(n > 0 && chunk == []) && Parse(chunk, false).Some? ==>
              var at := Leftmost(n > 0, chunk, rest, name);
              Greedy(p, name) == if at.None? then Verdict(false)
                                 else Greedy(rest, PrefixMatch(Parse(chunk, false).value, name[at.value..]).value)
  {
    hide Parse, PrefixMatch, Leftmost, LeadingStars, ScanEnd;
  }

  /** Where the chunk is first accepted among the offsets a star can skip to, if anywhere. */
  method SkipSearch(chunk: Bytes, rest: Bytes, name: Bytes) returns (malformed: bool, found: bool, k: nat, t: Bytes)
    requires !Accepts(chunk, rest, name, 0)
    ensures malformed ==> Parse(chunk, false).None?
    ensures !malformed ==> Leftmost(true, chunk, rest, name) == if found then Some(k) else None
    ensures !malformed && found ==> t == PrefixMatch(Parse(chunk, false).value, name[k..]).value
  {
    hide Parse, PrefixMatch;
    var i: nat := 0;
    while i < |name| && name[i] != SEPARATOR
      invariant i <= |name| && NoSlash(name[..i])
      invariant forall j: nat :: j <= i ==> !Accepts(chunk, rest, name, j)
      decreases |name| - i
    {
      assert name[..i + 1] == name[..i] + [name[i]];
      var m := MatchChunk(chunk, name[i + 1..]);
      if m.BadPattern? {
        return true, false, 0, [];
      }
      if m.s.Some? && !(rest == [] && m.s.value != []) {
        assert Accepts(chunk, rest, name, i + 1);
        LeftmostIs(chunk, rest, name, i + 1);
        return false, true, i + 1, m.s.value;
      }
      i := i + 1;
    }
    forall j: nat | j > i ensures !Accepts(chunk, rest, name, j) {
      if i < j <= |name| {
        assert name[..j][i] == SEPARATOR;
      }
    }
    return false, false, 0, [];
  }

  /** `fmatch`: the greedy matcher. A pattern reported as malformed is malformed; a reported match is
      a match; and on tame names a reported failure means that no choice of stretches for the stars
      makes the pattern match. */
  method FMatch(pattern: Bytes, name: Bytes) returns (r: Verdict)
    ensures r == Greedy(pattern, name)
    ensures r.Malformed? ==> Parse(pattern, true).None?
    ensures r == Verdict(true) ==> Holds(pattern, name)
    ensures Judged(pattern, name) ==> r == Verdict(Holds(pattern, name))
  {
    hide Parse, PrefixMatch, Means, Tame, LeadingStars, ScanEnd, Greedy;
    GreedySound(pattern, name);
    GreedyComplete(pattern, name);
    var p, s := pattern, name;
    while p != []
      invariant Greedy(p, s) == Greedy(pattern, name)
      decreases |p|
    {
      var star, chunk, rest := ScanChunk(p);
      ghost var n := LeadingStars(p);
      RoundParse(p, n, chunk, rest);
      GreedyRound(p, n, chunk, rest, s);
      if star && chunk == [] {
        return Verdict(SEPARATOR !in s);
      }
      var m := MatchChunk(chunk, s);
      if m.BadPattern? {
        return Malformed;
      }
      assert s[0..] == s && s[..0] == [];
      if m.s.Some? && (m.s.value == [] || rest != []) {
        p, s := rest, m.s.value;
      } else if star {
        var malformed, found, k, t := SkipSearch(chunk, rest, s);
        if malformed {
          return Malformed;
        }
        if !found {
          return Verdict(false);
        }
        p, s := rest, t;
      } else {
        return Verdict(false);
      }
    }
    GreedyEmpty(s);
    return Verdict(s == []);
  }

  lemma GreedyEmpty(name: Bytes)
    ensures Greedy([], name) == Verdict(name == [])
    ensures Holds([], name) <==> name == []
  {
  }

  /** What the matcher reports is right, whatever the name: a match is a match, and what it calls
      malformed is. */
  lemma {:induction false} GreedySound(p: Bytes, name: Bytes)
    ensures Greedy(p, name) == Verdict(true) ==> Holds(p, name)
    ensures Greedy(p, name) == Malformed ==> Parse(p, true).None?
    decreases |p|
  {
    hide Parse, PrefixMatch, Means, LeadingStars, ScanEnd, Greedy, Leftmost;
    if p == [] {
      GreedyEmpty(name);
    } else {
      var n, chunk, rest := RoundOf(p);
      RoundParse(p, n, chunk, rest);
      GreedyRound(p, n, chunk, rest, name);
      if n > 0 && chunk == [] {
        TrailingStar(p, n, name);
      } else if Parse(chunk, false).Some? {
        var at := Leftmost(n > 0, chunk, rest, name);
        if at.Some? {
          Commit(p, n, chunk, rest, name, at.value);
          GreedySound(rest, PrefixMatch(Parse(chunk, false).value, name[at.value..]).value);
        }
      }
    }
  }

  /** On tame names the matcher misses no match. */
  lemma {:induction false} GreedyComplete(p: Bytes, name: Bytes)
    ensures Judged(p, name) ==> Greedy(p, name) == Verdict(Holds(p, name))
    decreases |p|
  {
    hide Parse, PrefixMatch, Means, LeadingStars, ScanEnd, Greedy, Leftmost, Tame;
    if Judged(p, name) {
      if p == [] {
        GreedyEmpty(name);
      } else {
        var n, chunk, rest := RoundOf(p);
        RoundParse(p, n, chunk, rest);
        GreedyRound(p, n, chunk, rest, name);
        if n > 0 && chunk == [] {
          TrailingStar(p, n, name);
        } else {
          var at := Leftmost(n > 0, chunk, rest, name);
          if at.None? {
            NoMatch(p, n, chunk, rest, name);
          } else {
            Commit(p, n, chunk, rest, name, at.value);
            GreedyComplete(rest, PrefixMatch(Parse(chunk, false).value, name[at.value..]).value);
          }
        }
      }
    }
  }

  /** How a round splits the pattern. */
  lemma RoundOf(p: Bytes) returns (n: nat, chunk: Bytes, rest: Bytes)
    ensures Split(p, n, chunk, rest)
  {
    n := LeadingStars(p);
    var e := ScanEnd(p[n..], false);
    chunk, rest := p[n..][..e], p[n..][e..];
  }

  lemma TrailingStar(p: Bytes, n: nat, name: Bytes)
    requires Split(p, n, [], []) && n > 0
    ensures Parse(p, true).Some?
    ensures Holds(p, name) <==> NoSlash(name)
  {
    hide Means, PrefixMatch, ScanEnd, LeadingStars, ParseTok;
    RoundParse(p, n, [], []);
    var none: seq<Tok> := [];
    assert none + none == none;
    assert Parse([], false) == Parse([], true) == Some(none);
    RoundMeans(n, none, none, name);
    assert name[..|name|] == name;
    forall k: nat ensures Taken(none, none, name, k) <==> k == |name| && NoSlash(name) {
      TakenAtEnd(name, k);
    }
    assert Taken(none, none, name, |name|) <==> NoSlash(name);
  }

  lemma TakenAtEnd(name: Bytes, k: nat)
    ensures Taken([], [], name, k) <==> k == |name| && NoSlash(name)
  {
    assert name[..|name|] == name;
  }

  // ----- The exact condition: a wide character defeats the leftmost commitment.

  /** The pattern that stands for the bytes of `s` and nothing else. */
  function Escaped(s: Bytes): (p: Bytes)
    ensures |p| == 2 * |s|
  {
    if s == [] then [] else [BACKSLASH, s[0]] + Escaped(s[1..])
  }

  function Lits(s: Bytes): (toks: seq<Tok>)
    ensures |toks| == |s| && StarFree(toks)
  {
    if s == [] then [] else [Lit(s[0])] + Lits(s[1..])
  }

  lemma ParseEscapedByte(b: u8, z: Bytes, stars: bool)
    ensures Parse([BACKSLASH, b] + z, stars) == Append(Some([Lit(b)]), Parse(z, stars))
  {
    hide ParseClass;
    assert ([BACKSLASH, b] + z)[2..] == z;
  }

  lemma {:induction false} ParseEscaped(s: Bytes, z: Bytes, stars: bool)
    ensures Parse(Escaped(s) + z, stars) == Append(Some(Lits(s)), Parse(z, stars))
  {
    hide Parse;
    var q := Parse(z, stars);
    if s == [] {
      assert Escaped(s) + z == z && (q.Some? ==> Lits(s) + q.value == q.value);
    } else {
      ParseEscaped(s[1..], z, stars);
      ParseEscapedByte(s[0], Escaped(s[1..]) + z, stars);
      assert Escaped(s) + z == [BACKSLASH, s[0]] + (Escaped(s[1..]) + z);
      assert q.Some? ==> [Lit(s[0])] + (Lits(s[1..]) + q.value) == Lits(s) + q.value;
    }
  }

  lemma {:induction false} ScanEscaped(s: Bytes, z: Bytes)
    ensures ScanEnd(Escaped(s) + z, false) == |Escaped(s)| + ScanEnd(z, false)
  {
    hide ScanEnd;
    if s == [] {
      assert Escaped(s) + z == z;
    } else {
      ScanEscaped(s[1..], z);
      ScanEscapedByte(s[0], Escaped(s[1..]) + z);
      assert Escaped(s) + z == [BACKSLASH, s[0]] + (Escaped(s[1..]) + z);
    }
  }

  lemma ScanEscapedByte(b: u8, z: Bytes)
    ensures ScanEnd([BACKSLASH, b] + z, false) == 2 + ScanEnd(z, false)
  {
    assert ([BACKSLASH, b] + z)[2..] == z;
  }

  /** The bytes of `s` match where they stand, and nowhere with fewer bytes left. */
  lemma {:induction false} LitsMatch(s: Bytes, t: Bytes)
    ensures PrefixMatch(Lits(s), s + t) == Some(t)
    ensures |t| < |s| ==> PrefixMatch(Lits(s), t).None?
  {
    if s == [] {
      assert s + t == t;
    } else {
      assert (s + t)[1..] == s[1..] + t;
      LitsMatch(s[1..], t);
      if t != [] {
        LitsMatch(s[1..], t[1..]);
      }
    }
  }

  /** Literal bytes in front of a star are taken where they stand. */
  lemma LiteralRound(pre: Bytes, rest: Bytes, s: Bytes)
    requires pre != [] && rest != [] && rest[0] == STAR
    ensures Greedy(Escaped(pre) + rest, pre + s) == Greedy(rest, s)
  {
    hide Greedy, Means, PrefixMatch, ScanEnd;
    var p, chunk, name := Escaped(pre) + rest, Escaped(pre), pre + s;
    ScanEscaped(pre, rest);
    StopAtStar(rest);
    assert p[0] == BACKSLASH && p[0..] == p;
    assert p[..|chunk|] == chunk && p[|chunk|..] == rest;
    assert Split(p, 0, chunk, rest);
    ParseLiteral(pre);
    LitsMatch(pre, s);
    assert name[0..] == name && name[..0] == [];
    assert Accepts(chunk, rest, name, 0);
    GreedyRound(p, 0, chunk, rest, name);
  }

  lemma StopAtStar(rest: Bytes)
    requires rest != [] && rest[0] == STAR
    ensures ScanEnd(rest, false) == 0
  {
  }

  lemma ParseLiteral(s: Bytes)
    ensures Parse(Escaped(s), false) == Some(Lits(s))
  {
    ParseEscaped(s, [], false);
    assert Escaped(s) + [] == Escaped(s) && Lits(s) + [] == Lits(s);
  }

  /** A star, a chunk and the rest make one round. */
  lemma StarSplit(p: Bytes, chunk: Bytes, rest: Bytes)
    requires p == [STAR] + (chunk + rest) && chunk != [] && chunk[0] != STAR
    requires ScanEnd(chunk + rest, false) == |chunk|
    ensures Split(p, 1, chunk, rest)
  {
    hide ScanEnd;
    assert p[1..] == chunk + rest && p[1..][0] == chunk[0];
    assert (chunk + rest)[..|chunk|] == chunk && (chunk + rest)[|chunk|..] == rest;
  }

  function AnyChars(n: nat): (toks: seq<Tok>)
    ensures |toks| == n
  {
    if n == 0 then [] else [AnyChar] + AnyChars(n - 1)
  }

  predicate Questions(chunk: Bytes) {
    forall i :: 0 <= i < |chunk| ==> chunk[i] == QUESTION
  }

  /** Question marks are scanned over and parsed one by one. */
  lemma {:induction false} ScanQuestions(chunk: Bytes, rest: Bytes)
    requires Questions(chunk) && (rest != [] ==> rest[0] == STAR)
    ensures ScanEnd(chunk + rest, false) == |chunk|
  {
    if chunk == [] {
      assert chunk + rest == rest;
    } else {
      ScanQuestions(chunk[1..], rest);
      assert (chunk + rest)[1..] == chunk[1..] + rest;
    }
  }

  lemma {:induction false} ParseQuestions(chunk: Bytes)
    requires Questions(chunk)
    ensures Parse(chunk, false) == Some(AnyChars(|chunk|))
  {
    hide ParseClass;
    if chunk != [] {
      ParseQuestions(chunk[1..]);
    }
  }

  /** A question mark between stars takes the first character, however wide. */
  lemma QuestionRound(rest: Bytes, s: Bytes)
    requires rest != [] && rest[0] == STAR && s != [] && s[0] != SEPARATOR
    ensures Greedy([STAR, QUESTION] + rest, s) == Greedy(rest, s[DecodeRune(s).1..])
  {
    hide Greedy, Means, Parse, ScanEnd, DecodeRune;
    var p: Bytes, chunk: Bytes := [STAR, QUESTION] + rest, [QUESTION];
    ScanQuestions(chunk, rest);
    ParseQuestions(chunk);
    StarSplit(p, chunk, rest);
    assert AnyChars(1) == [AnyChar] && [AnyChar][1..] == [];
    assert s[0..] == s && s[..0] == [];
    assert PrefixMatch([AnyChar], s) == Some(s[DecodeRune(s).1..]);
    assert Accepts(chunk, rest, s, 0);
    LeftmostIs(chunk, rest, s, 0);
    GreedyRound(p, 1, chunk, rest, s);
  }

  /** More literal bytes than the name has left are found nowhere. */
  lemma TooLongRound(l: Bytes, s: Bytes)
    requires |s| < |l|
    ensures Greedy([STAR] + Escaped(l), s) == Verdict(false)
  {
    hide Greedy, Means, PrefixMatch, Parse, ScanEnd;
    var p, chunk := [STAR] + Escaped(l), Escaped(l);
    ScanEscaped(l, []);
    NothingToScan();
    assert chunk + [] == chunk;
    StarSplit(p, chunk, []);
    ParseLiteral(l);
    forall k: nat ensures !Accepts(chunk, [], s, k) {
      if k <= |s| {
        LitsMatch(l, s[k..]);
      }
    }
    GreedyRound(p, 1, chunk, [], s);
  }

  lemma NothingToScan()
    ensures ScanEnd([], false) == 0
  {
  }

  /** The second byte of a wide character starts no character of its own. */
  lemma InsideWide(s: Bytes)
    requires DecodeRune(s).1 >= 3
    ensures |s| >= 3 && s[0] != SEPARATOR && s[1] != SEPARATOR && DecodeRune(s[1..]).1 == 1
  {
    assert s[1..][0] == s[1];
  }

  /** For a wide character at offset `i`: the bytes before it, one character between stars, and the
      bytes from the character's third on. */
  function Defeating(name: Bytes, i: nat): (p: Bytes)
    requires i + 2 <= |name|
  {
    Escaped(name[..i]) + ([STAR, QUESTION, STAR] + Escaped(name[i + 2..]))
  }

  lemma Regroup(l: Bytes)
    ensures [STAR, QUESTION, STAR] + l == [STAR, QUESTION] + ([STAR] + l)
  {
  }

  /** One character between stars leaves too little for the literal bytes. */
  lemma MissedBetween(l: Bytes, s: Bytes)
    requires s != [] && s[0] != SEPARATOR && |s| < DecodeRune(s).1 + |l|
    ensures Greedy([STAR, QUESTION, STAR] + Escaped(l), s) == Verdict(false)
  {
    hide Greedy, DecodeRune, Escaped;
    Regroup(Escaped(l));
    QuestionRound([STAR] + Escaped(l), s);
    TooLongRound(l, s[DecodeRune(s).1..]);
  }

  lemma MissedBehind(pre: Bytes, l: Bytes, s: Bytes)
    requires s != [] && s[0] != SEPARATOR && |s| < DecodeRune(s).1 + |l|
    ensures Greedy(Escaped(pre) + ([STAR, QUESTION, STAR] + Escaped(l)), pre + s) == Verdict(false)
  {
    hide Greedy, DecodeRune;
    MissedBetween(l, s);
    var rest := [STAR, QUESTION, STAR] + Escaped(l);
    if pre == [] {
      assert Escaped(pre) + rest == rest && pre + s == s;
    } else {
      LiteralRound(pre, rest, s);
    }
  }

  lemma DefeatingMissed(name: Bytes, i: nat)
    requires i < |name| && DecodeRune(name[i..]).1 >= 3
    ensures i + 2 <= |name| && Greedy(Defeating(name, i), name) == Verdict(false)
  {
    hide Greedy, DecodeRune, Escaped;
    var pre, s := name[..i], name[i..];
    InsideWide(s);
    MissedBehind(pre, name[i + 2..], s);
    assert pre + s == name;
  }

  lemma DefeatingParses(name: Bytes, i: nat)
    requires i + 2 <= |name|
    ensures Parse(Defeating(name, i), true)
         == Some(Lits(name[..i]) + ([Star, AnyChar, Star] + Lits(name[i + 2..])))
  {
    hide Parse, Escaped, Lits;
    var l := name[i + 2..];
    var p := [STAR, QUESTION, STAR] + Escaped(l);
    ParseEscaped(name[..i], p, true);
    ParseEscaped(l, [], true);
    assert Escaped(l) + [] == Escaped(l) && Lits(l) + [] == Lits(l);
    NothingToParse(true);
    BetweenStars(Escaped(l));
  }

  lemma NothingToParse(stars: bool)
    ensures Parse([], stars) == Some([])
  {
  }

  lemma ParseOne(b: u8, tok: Tok, l: Bytes)
    requires (b == STAR && tok == Star) || (b == QUESTION && tok == AnyChar)
    ensures Parse([b] + l, true) == Append(Some([tok]), Parse(l, true))
  {
    assert ([b] + l)[1..] == l;
  }

  lemma BetweenStars(l: Bytes)
    ensures Parse([STAR, QUESTION, STAR] + l, true) == Append(Some([Star, AnyChar, Star]), Parse(l, true))
  {
    hide Parse;
    var a := [STAR] + l;
    var b := [QUESTION] + a;
    ParseOne(STAR, Star, l);
    ParseOne(QUESTION, AnyChar, a);
    ParseOne(STAR, Star, b);
    assert [STAR, QUESTION, STAR] + l == [STAR] + b;
    var q := Parse(l, true);
    assert q.Some? ==> [Star] + ([AnyChar] + ([Star] + q.value)) == [Star, AnyChar, Star] + q.value;
  }

  /** One character between stars can be a single byte inside a wide one. */
  lemma BetweenStarsMeans(toks: seq<Tok>, s: Bytes)
    requires DecodeRune(s).1 >= 3 && Means(toks, s[2..])
    ensures Means([Star, AnyChar, Star] + toks, s)
  {
    InsideWide(s);
    hide DecodeRune;
    var x := [Star, AnyChar, Star] + toks;
    var y, z := x[1..], x[1..][1..];
    assert z[1..] == toks && z[0] == Star && y[0] == AnyChar;
    var t := s[1..][1..];
    assert t == s[2..] && t[0..] == t && t[..0] == [];
    assert Means(z[1..], t[0..]);
    assert Means(z, t);
    assert Means(y, s[1..]);
    assert s[..1] == [s[0]];
  }

  lemma DefeatingMeans(name: Bytes, i: nat)
    requires i < |name| && DecodeRune(name[i..]).1 >= 3
    ensures i + 2 <= |name| && Means(Lits(name[..i]) + ([Star, AnyChar, Star] + Lits(name[i + 2..])), name)
  {
    hide DecodeRune, Means, PrefixMatch, Lits;
    var pre, s := name[..i], name[i..];
    InsideWide(s);
    var l := name[i + 2..];
    assert s[2..] == l && pre + s == name;
    LitsMean(l);
    BetweenStarsMeans(Lits(l), s);
    LitsMatch(pre, s);
    MeansPrefix(Lits(pre), [Star, AnyChar, Star] + Lits(l), name);
  }

  lemma NothingMeans()
    ensures Means([], [])
  {
  }

  /** A class that matches every character but one. */
  function AllBut(c: u8): Bytes {
    [OPEN, CARET, c, CLOSE]
  }

  function ClassBut(c: u8): Tok {
    Class(true, [Range(c, c)])
  }

  lemma ParseAllBut(c: u8, rest: Bytes, stars: bool)
    requires 0x61 <= c <= 0x7A
    ensures Parse(AllBut(c) + rest, stars) == Append(Some([ClassBut(c)]), Parse(rest, stars))
  {
    var p := AllBut(c) + rest;
    var q := [c, CLOSE] + rest;
    assert p[1..] == [CARET] + q && p[1..][1..] == q;
    RangesBut(c, rest);
    hide ParseRanges;
    assert ParseClass(p[1..]) == Some((ClassBut(c), rest));
  }

  lemma RangesBut(c: u8, rest: Bytes)
    requires 0x61 <= c <= 0x7A
    ensures ParseRanges([c, CLOSE] + rest, true) == Some(([Range(c, c)], rest))
  {
    var q := [c, CLOSE] + rest;
    var after := q[1..];
    assert DecodeRune(q) == (c, 1);
    hide DecodeRune;
    assert GetRange(q) == Some((Range(c, c), after));
    hide GetRange;
    assert after[0] == CLOSE && after[1..] == rest;
    var none: seq<Range> := [];
    assert ParseRanges(after, false) == Some((none, rest));
    assert [Range(c, c)] + none == [Range(c, c)];
  }

  lemma ScanAllBut(c: u8, rest: Bytes)
    requires 0x61 <= c <= 0x7A && rest != [] && rest[0] == STAR
    ensures ScanEnd(AllBut(c) + rest, false) == 4
  {
    StopAtStar(rest);
    var p := AllBut(c) + rest;
    assert p[3..][1..] == rest && p[2..][1..] == p[3..] && p[1..][1..] == p[2..];
    assert ScanEnd(p[3..], true) == 1;
    assert ScanEnd(p[2..], true) == 2;
    assert ScanEnd(p[1..], true) == 3;
  }

  lemma MatchAllBut(c: u8, s: Bytes)
    requires s != [] && (s[0] < 0x80 || (|s| > 1 ==> s[1] < 0x80)) && s[0] != c < 0x80
    ensures DecodeRune(s).1 == 1 && TokMatches(ClassBut(c), s) && PrefixMatch([ClassBut(c)], s) == Some(s[1..])
  {
    assert DecodeRune(s).0 != c;
    hide DecodeRune;
    assert [ClassBut(c)][1..] == [];
  }

  /** Such a class between stars takes a byte in front of a separator. */
  lemma ClassRound(c: u8, rest: Bytes, s: Bytes)
    requires 0x61 <= c <= 0x7A && rest != [] && rest[0] == STAR
    requires |s| > 1 && s[0] != c && s[1] == SEPARATOR
    ensures Greedy([STAR] + (AllBut(c) + rest), s) == Greedy(rest, s[1..])
  {
    hide Greedy, Means, Parse, ScanEnd, DecodeRune, PrefixMatch;
    var p, chunk := [STAR] + (AllBut(c) + rest), AllBut(c);
    ScanAllBut(c, rest);
    ParseAllBut(c, [], false);
    NothingToParse(false);
    assert chunk + [] == chunk && [ClassBut(c)] + [] == [ClassBut(c)];
    StarSplit(p, chunk, rest);
    MatchAllBut(c, s);
    assert s[0..] == s && s[..0] == [];
    assert Accepts(chunk, rest, s, 0);
    LeftmostIs(chunk, rest, s, 0);
    GreedyRound(p, 1, chunk, rest, s);
  }

  /** A star cannot skip a separator to reach the bytes behind it. */
  lemma BlockedRound(t: Bytes)
    ensures Greedy([STAR] + Escaped(t), [SEPARATOR] + t) == Verdict(false)
  {
    hide Greedy, Means, Parse, ScanEnd, PrefixMatch;
    var p, chunk, s := [STAR] + Escaped(t), Escaped(t), [SEPARATOR] + t;
    if t == [] {
      OneStar(p, s);
    } else {
      ScanEscaped(t, []);
      NothingToScan();
      assert chunk + [] == chunk;
      StarSplit(p, chunk, []);
      ParseLiteral(t);
      forall k: nat ensures !Accepts(chunk, [], s, k) {
        if k == 0 {
          assert s[0..] == s;
          LitsLeave(t, s);
        } else if k <= |s| {
          assert s[..k][0] == SEPARATOR;
        }
      }
      GreedyRound(p, 1, chunk, [], s);
    }
  }

  lemma OneStar(p: Bytes, name: Bytes)
    requires p == [STAR]
    ensures Greedy(p, name) == Verdict(NoSlash(name))
  {
    hide Greedy, Parse, ScanEnd;
    NothingToScan();
    assert p[1..] == [];
    assert Split(p, 1, [], []);
    GreedyRound(p, 1, [], [], name);
  }

  /** Literal bytes take as many as they are. */
  lemma {:induction false} LitsLeave(t: Bytes, s: Bytes)
    ensures PrefixMatch(Lits(t), s).Some? ==> |PrefixMatch(Lits(t), s).value| + |t| == |s|
  {
    if t != [] && s != [] {
      LitsLeave(t[1..], s[1..]);
    }
  }

  /** For a separator behind another byte at offset `i`: the bytes before the two, a class that
      matches both, between stars, and the bytes behind the separator. */
  function SlashDefeating(name: Bytes, i: nat): (p: Bytes)
    requires 0 < i < |name|
  {
    Escaped(name[..i - 1]) + ([STAR] + (AllBut(Other(name[i - 1])) + ([STAR] + Escaped(name[i + 1..]))))
  }

  /** A letter different from `b`. */
  function Other(b: u8): (c: u8)
    ensures c != b && 0x61 <= c <= 0x7A
  {
    if b == 0x61 then 0x62 else 0x61
  }

  lemma SlashDefeatingMissed(name: Bytes, i: nat)
    requires 0 < i < |name| && name[i] == SEPARATOR
    ensures Greedy(SlashDefeating(name, i), name) == Verdict(false)
  {
    hide Greedy;
    var pre, s, t := name[..i - 1], name[i - 1..], name[i + 1..];
    var last := [STAR] + Escaped(t);
    var rest := [STAR] + (AllBut(Other(s[0])) + last);
    assert pre + s == name && s[1..] == [SEPARATOR] + t;
    ClassRound(Other(s[0]), last, s);
    BlockedRound(t);
    if pre == [] {
      assert Escaped(pre) + rest == rest && s == name;
    } else {
      hide Escaped;
      LiteralRound(pre, rest, s);
    }
  }

  lemma SlashDefeatingHolds(name: Bytes, i: nat)
    requires 0 < i < |name| && name[i] == SEPARATOR && name[i - 1] != SEPARATOR
    ensures Holds(SlashDefeating(name, i), name)
  {
    hide Parse, Means, PrefixMatch, Escaped, Lits;
    var pre, s, t := name[..i - 1], name[i - 1..], name[i + 1..];
    var c := Other(s[0]);
    var rest := [STAR] + (AllBut(c) + ([STAR] + Escaped(t)));
    SlashParses(c, t);
    ParseEscaped(pre, rest, true);
    var toks := [Star] + ([ClassBut(c)] + ([Star] + Lits(t)));
    assert pre + s == name && s[1..] == [SEPARATOR] + t;
    SlashMeans(c, t, s);
    LitsMatch(pre, s);
    MeansPrefix(Lits(pre), toks, name);
  }

  lemma SlashParses(c: u8, t: Bytes)
    requires 0x61 <= c <= 0x7A
    ensures Parse([STAR] + (AllBut(c) + ([STAR] + Escaped(t))), true)
         == Some([Star] + ([ClassBut(c)] + ([Star] + Lits(t))))
  {
    hide Parse, Escaped, Lits;
    var last := [STAR] + Escaped(t);
    ParseEscaped(t, [], true);
    NothingToParse(true);
    assert Escaped(t) + [] == Escaped(t) && Lits(t) + [] == Lits(t);
    ParseOne(STAR, Star, Escaped(t));
    ParseAllBut(c, last, true);
    ParseOne(STAR, Star, AllBut(c) + last);
  }

  lemma SlashMeans(c: u8, t: Bytes, s: Bytes)
    requires 0x61 <= c <= 0x7A && |s| > 1 && s[0] != SEPARATOR && s[1..] == [SEPARATOR] + t
    ensures Means([Star] + ([ClassBut(c)] + ([Star] + Lits(t))), s)
  {
    hide DecodeRune, PrefixMatch, Lits;
    var z := [Star] + Lits(t);
    var y := [ClassBut(c)] + z;
    var x := [Star] + y;
    assert z[1..] == Lits(t) && y[1..] == z && x[1..] == y;
    LitsMean(t);
    assert t[0..] == t && t[..0] == [];
    assert Means(z[1..], t[0..]);
    assert Means(z, t);
    MatchAllBut(c, s[1..]);
    assert s[1..][1..] == t;
    assert Means(y, s[1..]);
    assert s[..1] == [s[0]];
  }

  lemma LitsMean(t: Bytes)
    ensures Means(Lits(t), t)
  {
    hide Means, PrefixMatch, Lits;
    LitsMatch(t, []);
    assert t + [] == t && Lits(t) + [] == Lits(t);
    MeansPrefix(Lits(t), [], t);
    NothingMeans();
  }

  /** The matcher decides the declarative meaning of every well-formed pattern on a name exactly if
      no offset of the name decodes to three bytes or more and its separators, if any, stand in
      front. */
  lemma GreedyExact(name: Bytes)
    ensures Narrow(name) && SlashesLead(name) <==>
              forall p: Bytes :: Parse(p, true).Some? ==> Greedy(p, name) == Verdict(Holds(p, name))
  {
    hide DecodeRune, Parse, Means, Greedy;
    if !Narrow(name) {
      var i :| 0 <= i < |name| && DecodeRune(name[i..]).1 > 2;
      DefeatingMissed(name, i);
      DefeatingParses(name, i);
      DefeatingMeans(name, i);
      assert Holds(Defeating(name, i), name);
    } else if !SlashesLead(name) {
      var i :| 0 < i < |name| && name[i] == SEPARATOR && name[i - 1] != SEPARATOR;
      SlashDefeatingMissed(name, i);
      SlashDefeatingHolds(name, i);
    } else {
      forall p: Bytes | Parse(p, true).Some? ensures Greedy(p, name) == Verdict(Holds(p, name)) {
        GreedyComplete(p, name);
      }
    }
  }

  /** `*??*x` on the euro sign and `x`: the leftmost match of `??` takes the whole name, although
      three single bytes and `x` are there to be taken. Pattern and name are valid UTF-8. */
  lemma WideCharacter()
    ensures var p: Bytes, name: Bytes := [STAR, QUESTION, QUESTION, STAR, 0x78], [0xE2, 0x82, 0xAC, 0x78];
            ValidUtf8(p) && ValidUtf8(name) && Greedy(p, name) == Verdict(false) && Holds(p, name)
  {
    hide Greedy, Holds, ValidUtf8;
    EuroValid();
    EuroMissed();
    EuroHolds([0x78]);
    assert [STAR, QUESTION, QUESTION, STAR] + [0x78] == [STAR, QUESTION, QUESTION, STAR, 0x78];
  }

  lemma EuroRunes()
    ensures var name: Bytes := [0xE2, 0x82, 0xAC, 0x78];
            && DecodeRune(name) == (0x20AC, 3) && DecodeRune(name[1..]).1 == 1 && DecodeRune(name[2..]).1 == 1
            && DecodeRune(name[3..]) == (0x78, 1)
  {
  }

  lemma EuroValid()
    ensures ValidUtf8([STAR, QUESTION, QUESTION, STAR, 0x78]) && ValidUtf8([0xE2, 0x82, 0xAC, 0x78])
  {
    hide DecodeRune;
    var name: Bytes := [0xE2, 0x82, 0xAC, 0x78];
    EuroRunes();
    assert name[3..][1..] == [];
    assert ValidUtf8(name[3..]);
    AsciiValid([STAR, QUESTION, QUESTION, STAR, 0x78]);
  }

  lemma {:induction false} AsciiValid(s: Bytes)
    requires forall i :: 0 <= i < |s| ==> s[i] < 0x80
    ensures ValidUtf8(s)
  {
    if s != [] {
      AsciiValid(s[1..]);
    }
  }

  lemma EuroMissed()
    ensures Greedy([STAR, QUESTION, QUESTION, STAR, 0x78], [0xE2, 0x82, 0xAC, 0x78]) == Verdict(false)
  {
    hide Greedy, Means, Parse, ScanEnd, DecodeRune;
    var p: Bytes, name: Bytes := [STAR, QUESTION, QUESTION, STAR, 0x78], [0xE2, 0x82, 0xAC, 0x78];
    var chunk: Bytes, rest: Bytes := [QUESTION, QUESTION], [STAR, 0x78];
    ScanQuestions(chunk, rest);
    ParseQuestions(chunk);
    StarSplit(p, chunk, rest);
    EuroRunes();
    assert AnyChars(2) == [AnyChar, AnyChar] && [AnyChar, AnyChar][1..] == [AnyChar] && [AnyChar][1..] == [];
    assert name[3..][1..] == [];
    assert PrefixMatch([AnyChar], name[3..]) == Some([]);
    assert PrefixMatch([AnyChar, AnyChar], name) == Some([]);
    assert name[0..] == name && name[..0] == [];
    assert Accepts(chunk, rest, name, 0);
    LeftmostIs(chunk, rest, name, 0);
    GreedyRound(p, 1, chunk, rest, name);
    LetterMissed();
  }

  lemma LetterMissed()
    ensures Greedy([STAR, 0x78], []) == Verdict(false)
  {
    hide Greedy, Parse, ScanEnd;
    var p: Bytes, chunk: Bytes := [STAR, 0x78], [0x78];
    PlainLetter(chunk, false);
    ScanLetter(chunk);
    assert chunk + [] == chunk;
    StarSplit(p, chunk, []);
    GreedyRound(p, 1, chunk, [], []);
  }

  lemma EuroHolds(x: Bytes)
    requires x == [0x78]
    ensures Holds([STAR, QUESTION, QUESTION, STAR] + x, [0xE2, 0x82, 0xAC, 0x78])
  {
    hide Means, Parse;
    TwoBetweenStars(x);
    PlainLetter(x, true);
    assert [Star, AnyChar, AnyChar, Star] + [Lit(0x78)] == [Star, AnyChar, AnyChar, Star, Lit(0x78)];
    EuroMeans([0xE2, 0x82, 0xAC, 0x78]);
  }

  lemma EuroMeans(name: Bytes)
    requires name == [0xE2, 0x82, 0xAC, 0x78]
    ensures Means([Star, AnyChar, AnyChar, Star, Lit(0x78)], name)
  {
    hide Means, PrefixMatch, DecodeRune;
    var c, r := [AnyChar, AnyChar], [Star, Lit(0x78)];
    EuroInside(name);
    LetterMeans();
    assert NoSlash(name[..1]);
    assert Taken(c, r, name, 1);
    assert Stars(1) + (c + r) == [Star, AnyChar, AnyChar, Star, Lit(0x78)];
    RoundMeans(1, c, r, name);
  }

  lemma TwoBetweenStars(l: Bytes)
    ensures Parse([STAR, QUESTION, QUESTION, STAR] + l, true)
         == Append(Some([Star, AnyChar, AnyChar, Star]), Parse(l, true))
  {
    hide Parse;
    var a := [STAR] + l;
    var b := [QUESTION] + a;
    var c := [QUESTION] + b;
    ParseOne(STAR, Star, l);
    ParseOne(QUESTION, AnyChar, a);
    ParseOne(QUESTION, AnyChar, b);
    ParseOne(STAR, Star, c);
    assert [STAR, QUESTION, QUESTION, STAR] + l == [STAR] + c;
    var q := Parse(l, true);
    assert q.Some? ==>
        [Star] + ([AnyChar] + ([AnyChar] + ([Star] + q.value))) == [Star, AnyChar, AnyChar, Star] + q.value;
  }

  /** A letter stands for itself. */
  lemma PlainLetter(p: Bytes, stars: bool)
    requires |p| == 1 && 0x61 <= p[0] <= 0x7A
    ensures Parse(p, stars) == Some([Lit(p[0])])
  {
    assert ParseTok(p, stars) == Some((Lit(p[0]), p[1..]));
    hide ParseTok;
    var none := Parse(p[1..], stars);
    assert none == Some([]) && [Lit(p[0])] + none.value == [Lit(p[0])];
  }

  lemma ScanLetter(p: Bytes)
    requires |p| == 1 && 0x61 <= p[0] <= 0x7A
    ensures ScanEnd(p, false) == 1
  {
  }

  lemma EuroInside(name: Bytes)
    requires name == [0xE2, 0x82, 0xAC, 0x78]
    ensures PrefixMatch([AnyChar, AnyChar], name[1..]) == Some([0x78])
  {
    hide DecodeRune;
    EuroRunes();
    var c := [AnyChar, AnyChar];
    assert c[1..] == [AnyChar] && c[1..][1..] == [];
    assert name[1..][1..] == name[2..] && name[2..][1..] == [0x78];
    assert PrefixMatch(c[1..], name[2..]) == Some([0x78]);
  }

  lemma LetterMeans()
    ensures Means([Star, Lit(0x78)], [0x78])
  {
    var toks, name: Bytes := [Star, Lit(0x78)], [0x78];
    assert toks[1..] == [Lit(0x78)] && toks[1..][1..] == [] && name[1..] == [];
    assert name[0..] == name && name[..0] == [];
    assert Means(toks[1..], name[0..]);
  }

  // ----- Malformed patterns.

  /** A malformed pattern never matches, and if its first chunk is malformed this is reported
      whatever the name is. */
  lemma MalformedPattern(p: Bytes, name: Bytes)
    requires Parse(p, true).None?
    ensures Greedy(p, name) != Verdict(true)
    ensures Parse(p[LeadingStars(p)..][..ScanEnd(p[LeadingStars(p)..], false)], false).None? ==>
              Greedy(p, name) == Malformed
  {
    GreedySound(p, name);
  }

  /** A name that fails before the malformed chunk hides it, as `b` does for `a*[`. */
  lemma MalformedUnseen(b: u8, rest: Bytes, name: Bytes)
    requires rest != [] && rest[0] == STAR && Parse(rest, true).None?
    requires name == [] || name[0] != b
    ensures Parse(Escaped([b]) + rest, true).None? && Greedy(Escaped([b]) + rest, name) == Verdict(false)
  {
    hide Greedy, Means, Parse, ScanEnd;
    var p, chunk := Escaped([b]) + rest, Escaped([b]);
    ScanEscaped([b], rest);
    StopAtStar(rest);
    ParseEscaped([b], rest, true);
    ParseLiteral([b]);
    assert p[0] == BACKSLASH && p[0..] == p;
    assert p[..|chunk|] == chunk && p[|chunk|..] == rest;
    assert Split(p, 0, chunk, rest);
    assert name[0..] == name && Lits([b])[0] == Lit(b);
    assert !Accepts(chunk, rest, name, 0);
    GreedyRound(p, 0, chunk, rest, name);
  }
}
