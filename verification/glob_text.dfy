/** Patterns as text: every list of pieces can be written down, and the text means those pieces. */
module GlobText {
  import opened Bits
  import opened Endian
  import opened Utf8
  import opened Glob

  /** A class character, escaped. */
  function Esc(r: int): Bytes
    requires IsScalar(r)
  {
    [BACKSLASH] + EncodeRune(r)
  }

  predicate Spelled(range: Range) {
    IsScalar(range.lo) && IsScalar(range.hi)
  }

  function RangeText(range: Range): Bytes
    requires Spelled(range)
  {
    Esc(range.lo) + [DASH] + Esc(range.hi)
  }

  predicate AllSpelled(ranges: seq<Range>) {
    forall i :: 0 <= i < |ranges| ==> Spelled(ranges[i])
  }

  function RangesText(ranges: seq<Range>): Bytes
    requires AllSpelled(ranges)
  {
    if |ranges| == 0 then [] else RangeText(ranges[0]) + RangesText(ranges[1..])
  }

  /** A piece that can be written: a class has at least one range, between code points. */
  predicate Written(tok: Tok) {
    tok.Class? ==> tok.ranges != [] && AllSpelled(tok.ranges)
  }

  function TokText(tok: Tok): (b: Bytes)
    requires Written(tok)
    ensures b != []
  {
    match tok
    case Star => [STAR]
    case AnyChar => [QUESTION]
    case Lit(b) => [BACKSLASH, b]
    case Class(negated, ranges) => [OPEN] + (if negated then [CARET] else []) + RangesText(ranges) + [CLOSE]
  }

  predicate AllWritten(toks: seq<Tok>) {
    forall i :: 0 <= i < |toks| ==> Written(toks[i])
  }

  function PatternText(toks: seq<Tok>): Bytes
    requires AllWritten(toks)
  {
    if |toks| == 0 then [] else TokText(toks[0]) + PatternText(toks[1..])
  }

  // ----- The text parses to the pieces.

  lemma EscReads(r: int, z: Bytes)
    requires IsScalar(r) && z != []
    ensures GetEsc(Esc(r) + z) == Some((r, z))
  {
    hide DecodeRune, EncodeRune;
    var c := Esc(r) + z;
    assert c[1..] == EncodeRune(r) + z;
    RuneReads(r, z);
    RuneWidth(r);
    assert (EncodeRune(r) + z)[|EncodeRune(r)|..] == z;
  }

  lemma RuneWidth(r: int)
    requires IsScalar(r)
    ensures r == RUNE_ERROR ==> |EncodeRune(r)| == 3
  {
  }

  lemma RangeReads(range: Range, z: Bytes)
    requires Spelled(range) && z != []
    ensures GetRange(RangeText(range) + z) == Some((range, z))
  {
    hide GetEsc, Esc;
    var after := [DASH] + (Esc(range.hi) + z);
    assert RangeText(range) + z == Esc(range.lo) + after;
    EscReads(range.lo, after);
    assert after[1..] == Esc(range.hi) + z;
    EscReads(range.hi, z);
  }

  lemma {:induction false} RangesRead(ranges: seq<Range>, z: Bytes, first: bool)
    requires AllSpelled(ranges) && (first ==> ranges != [])
    ensures ParseRanges(RangesText(ranges) + ([CLOSE] + z), first) == Some((ranges, z))
    decreases |ranges|
  {
    hide GetRange, RangeText;
    var b := RangesText(ranges) + ([CLOSE] + z);
    if ranges == [] {
      assert b == [CLOSE] + z && b[1..] == z;
    } else {
      var rest := RangesText(ranges[1..]) + ([CLOSE] + z);
      assert b == RangeText(ranges[0]) + rest;
      RangeReads(ranges[0], rest);
      RangeStarts(ranges[0]);
      RangesRead(ranges[1..], z, false);
      assert [ranges[0]] + ranges[1..] == ranges;
    }
  }

  lemma RangeStarts(range: Range)
    requires Spelled(range)
    ensures RangeText(range) != [] && RangeText(range)[0] == BACKSLASH
  {
  }

  lemma ClassReads(negated: bool, ranges: seq<Range>, z: Bytes)
    requires ranges != [] && AllSpelled(ranges)
    ensures ParseClass((if negated then [CARET] else []) + RangesText(ranges) + [CLOSE] + z)
         == Some((Class(negated, ranges), z))
  {
    hide ParseRanges, RangeText;
    var body := RangesText(ranges) + ([CLOSE] + z);
    var b: Bytes := (if negated then [CARET] else []) + RangesText(ranges) + [CLOSE] + z;
    assert b == (if negated then [CARET] else []) + body;
    RangeStarts(ranges[0]);
    assert body[0] == BACKSLASH;
    if negated {
      assert b[1..] == body;
    } else {
      assert b == body;
    }
    RangesRead(ranges, z, true);
  }

  lemma TokReads(tok: Tok, z: Bytes)
    requires Written(tok)
    ensures ParseTok(TokText(tok) + z, true) == Some((tok, z))
  {
    hide ParseClass, RangesText;
    var b := TokText(tok) + z;
    match tok
    case Star => assert b[1..] == z;
    case AnyChar => assert b[1..] == z;
    case Lit(c) => assert b[2..] == z;
    case Class(negated, ranges) =>
      var body := (if negated then [CARET] else []) + RangesText(ranges) + [CLOSE] + z;
      assert b == [OPEN] + body;
      assert b[1..] == body;
      ClassReads(negated, ranges, z);
  }

  /** Every list of pieces is what its text parses to. */
  lemma {:induction false} TextParses(toks: seq<Tok>)
    requires AllWritten(toks)
    ensures Parse(PatternText(toks), true) == Some(toks)
  {
    hide ParseTok, TokText;
    if |toks| > 0 {
      TokReads(toks[0], PatternText(toks[1..]));
      TextParses(toks[1..]);
      assert [toks[0]] + toks[1..] == toks;
    }
  }

  /** On a tame name the matcher decides whether the pieces match. */
  lemma TextMatches(toks: seq<Tok>, name: Bytes)
    requires AllWritten(toks) && Tame(toks, name)
    ensures Greedy(PatternText(toks), name) == Verdict(Means(toks, name))
  {
    hide Greedy, Tame, Means, PatternText, Parse;
    TextParses(toks);
    GreedyComplete(PatternText(toks), name);
  }

  // ----- A class between brackets, without escapes.

  /** A byte that means itself in a class. */
  predicate Plain(b: u8) {
    b < 0x80 && b != BACKSLASH && b != CLOSE && b != DASH && b != CARET
  }

  /** `[lo-hi]` or `[^lo-hi]`. */
  function ClassText(negated: bool, lo: u8, hi: u8): Bytes {
    [OPEN] + (if negated then [CARET] else []) + [lo, DASH, hi, CLOSE]
  }

  lemma PlainEsc(b: u8, z: Bytes)
    requires Plain(b) && z != []
    ensures GetEsc([b] + z) == Some((b as int, z))
  {
    var c := [b] + z;
    assert DecodeRune(c) == (b, 1);
    assert c[1..] == z;
  }

  lemma PlainRange(lo: u8, hi: u8)
    requires Plain(lo) && Plain(hi)
    ensures ParseRanges([lo, DASH, hi, CLOSE], true) == Some(([Range(lo, hi)], []))
  {
    hide GetEsc;
    var b: Bytes := [lo, DASH, hi, CLOSE];
    assert b == [lo] + [DASH, hi, CLOSE];
    PlainEsc(lo, [DASH, hi, CLOSE]);
    var after: Bytes := [DASH, hi, CLOSE];
    assert after[1..] == [hi] + [CLOSE];
    PlainEsc(hi, [CLOSE]);
    assert GetRange(b) == Some((Range(lo, hi), [CLOSE]));
    hide GetRange;
    var end: Bytes := [CLOSE];
    assert end[1..] == [];
    assert ParseRanges(end, false) == Some(([], []));
    assert [Range(lo, hi)] + [] == [Range(lo, hi)];
  }

  lemma ClassParses(negated: bool, lo: u8, hi: u8, stars: bool)
    requires Plain(lo) && Plain(hi)
    ensures var p := ClassText(negated, lo, hi);
            ParseTok(p, stars) == Some((Class(negated, [Range(lo, hi)]), []))
  {
    hide ParseRanges;
    var p := ClassText(negated, lo, hi);
    var body: Bytes := [lo, DASH, hi, CLOSE];
    assert p[1..] == (if negated then [CARET] else []) + body;
    if negated {
      assert p[1..][1..] == body;
    } else {
      assert p[1..] == body;
    }
    PlainRange(lo, hi);
  }

  /** A single piece: the matcher answers whether it matches all of the name. */
  lemma OnePiece(p: Bytes, tok: Tok, name: Bytes)
    requires p != [] && p[0] != STAR && !tok.Star?
    requires ParseTok(p, true) == Some((tok, [])) && ParseTok(p, false) == Some((tok, []))
    ensures Greedy(p, name) == Verdict(name != [] && TokMatches(tok, name) && TokWidth(tok, name) == |name|)
  {
    hide Greedy, ParseTok, DecodeRune, TokMatches, TokWidth, ScanEnd;
    ScanTok(p);
    assert ScanEnd(p, false) == |p| by { NothingLeft(); }
    assert p[0..] == p && p[..|p|] == p && p[|p|..] == [];
    assert Split(p, 0, p, []);
    OnlyPiece(p, tok);
    SoleMatch(tok, name);
    assert name[0..] == name && name[..0] == [];
    GreedyRound(p, 0, p, [], name);
    GreedyEmpty([]);
  }

  lemma NothingLeft()
    ensures ScanEnd([], false) == 0
  {
  }

  lemma OnlyPiece(p: Bytes, tok: Tok)
    requires p != [] && ParseTok(p, false) == Some((tok, []))
    ensures Parse(p, false) == Some([tok])
  {
    hide ParseTok;
    var none: seq<Tok> := [];
    assert Parse([], false) == Some(none);
    assert [tok] + none == [tok];
  }

  lemma SoleMatch(tok: Tok, name: Bytes)
    ensures PrefixMatch([tok], name)
         == if name == [] || !TokMatches(tok, name) then None else Some(name[TokWidth(tok, name)..])
  {
    hide TokMatches, TokWidth;
    assert [tok][1..] == [];
  }

  /** A class matches exactly the names of one character inside its range, or outside if negated. */
  lemma ClassMatches(negated: bool, lo: u8, hi: u8, name: Bytes)
    requires Plain(lo) && Plain(hi)
    ensures Greedy(ClassText(negated, lo, hi), name)
         == Verdict(name != [] && DecodeRune(name).1 == |name| && (lo <= DecodeRune(name).0 <= hi) != negated)
  {
    hide Greedy, DecodeRune, ParseTok, ParseRanges;
    var p, tok := ClassText(negated, lo, hi), Class(negated, [Range(lo, hi)]);
    ClassParses(negated, lo, hi, true);
    ClassParses(negated, lo, hi, false);
    OnePiece(p, tok, name);
    if name != [] {
      InOneRange(lo, hi, DecodeRune(name).0);
    }
  }

  lemma InOneRange(lo: int, hi: int, r: int)
    ensures InRanges([Range(lo, hi)], r) <==> lo <= r <= hi
  {
    if lo <= r <= hi {
      assert [Range(lo, hi)][0] == Range(lo, hi);
    }
  }

  /** For a name of one ASCII character: `[lo-hi]` matches exactly from `lo` to `hi`. */
  lemma AsciiClass(negated: bool, lo: u8, hi: u8, b: u8)
    requires Plain(lo) && Plain(hi) && b < 0x80
    ensures Greedy(ClassText(negated, lo, hi), [b]) == Verdict((lo <= b <= hi) != negated)
  {
    hide Greedy;
    ClassMatches(negated, lo, hi, [b]);
  }
}
