/** Strings and numbers in header fields, as they are formatted and as they are parsed. */
module TarFields {
  import opened Bits
  import opened Buffers
  import opened Decimal
  import opened Endian
  import opened PaxText
  import opened TarBlock

  // ----- Strings.

  function TrimSlashes(s: Bytes): (k: nat)
    ensures k <= |s|
  {
    if |s| > 0 && s[|s| - 1] == SLASH then TrimSlashes(s[..|s| - 1]) else |s|
  }

  /** What `format_string` leaves in a field: the string, a NUL if there is room, and what was there
      before; a string that does not fit is cut, and a slash at the cut becomes a NUL. */
  function StringField(old_: Bytes, s: Bytes): (f: Bytes)
    requires |old_| > 0
    ensures |f| == |old_|
  {
    var w := |old_|;
    if |s| < w then s + [NUL] + old_[|s| + 1..]
    else if |s| > w && s[w - 1] == SLASH then
      s[..w][TrimSlashes(s[..w - 1]) := NUL]
    else s[..w]
  }

  /** `parse_string`. */
  function ParseString(b: Bytes): Bytes {
    b[..FirstIndex(b, NUL)]
  }

  lemma StringReads(old_: Bytes, s: Bytes)
    requires |old_| > 0 && |s| <= |old_| && NUL !in s
    ensures ParseString(StringField(old_, s)) == s
  {
    var f := StringField(old_, s);
    if |s| < |old_| {
      FirstIndexIs(f, NUL, |s|);
      assert f[..|s|] == s;
    } else {
      assert f == s;
      assert FirstIndex(s, NUL) == |s|;
    }
  }

  // ----- Octal numbers.

  /** `fits_in_octal`. */
  predicate FitsOctal(n: nat, x: int)
    requires n > 0
  {
    x >= 0 && (n >= 22 || x < Pow(8, n - 1))
  }

  /** The digits of `x`, with leading zeros up to one byte short of the field. */
  function OctalText(w: nat, x: nat): (s: Bytes)
    ensures AllDigits(s, 8) && s != []
  {
    var s := Digits(x, 8);
    if w > |s| + 1 then seq(w - |s| - 1, _ => ZERO) + s else s
  }

  /** What `format_octal` leaves in a field; a number that does not fit is written as zero. */
  function OctalField(old_: Bytes, x: int): (f: Bytes)
    requires |old_| > 0
    ensures |f| == |old_|
  {
    StringField(old_, OctalText(|old_|, if FitsOctal(|old_|, x) then x else 0))
  }

  predicate Blank(c: u8) {
    c == SPACE || c == NUL
  }

  /** Where the text of a field begins after leading blanks. */
  function TextStart(b: Bytes): (i: nat)
    ensures i <= |b| && (i < |b| ==> !Blank(b[i])) && forall j :: 0 <= j < i ==> Blank(b[j])
  {
    if |b| == 0 || !Blank(b[0]) then 0 else 1 + TextStart(b[1..])
  }

  /** Where it ends before trailing blanks. */
  function TextEnd(b: Bytes): (i: nat)
    ensures i <= |b| && (i > 0 ==> !Blank(b[i - 1])) && forall j :: i <= j < |b| ==> Blank(b[j])
  {
    if |b| == 0 || !Blank(b[|b| - 1]) then |b| else TextEnd(b[..|b| - 1])
  }

  /** The value of an octal field, if its text is one: blanks around it are dropped, nothing at all
      is zero, and the unsigned result is reinterpreted as signed. */
  function OctalValue(b: Bytes): Option<i64> {
    if TextStart(b) >= TextEnd(b) then Some(0)
    else
      var s := ParseString(b[TextStart(b)..TextEnd(b)]);
      if s == [] || !AllDigits(s, 8) || Value(s, 8) >= TWO64 then None
      else Some(Wrap64(Value(s, 8)))
  }

  /** Digits followed by blanks read as their value. */
  lemma OctalReads(text: Bytes, blanks: Bytes)
    requires text != [] && AllDigits(text, 8) && Value(text, 8) < 0x8000_0000_0000_0000
    requires forall i :: 0 <= i < |blanks| ==> Blank(blanks[i])
    ensures OctalValue(text + blanks) == Some(Value(text, 8))
  {
    hide Value;
    var b := text + blanks;
    assert !Blank(b[0]) && b[|text| - 1] == text[|text| - 1];
    assert TextStart(b) == 0;
    assert TextEnd(b) == |text| by {
      EndsAt(text, blanks);
    }
    assert b[0..|text|] == text;
    assert FirstIndex(text, NUL) == |text|;
    assert text[..|text|] == text;
  }

  lemma EndsAt(text: Bytes, blanks: Bytes)
    requires text != [] && !Blank(text[|text| - 1])
    requires forall i :: 0 <= i < |blanks| ==> Blank(blanks[i])
    ensures TextEnd(text + blanks) == |text|
  {
    var b := text + blanks;
    var e := TextEnd(b);
    assert b[|text| - 1] == text[|text| - 1];
    assert e >= |text|;
  }

  /** A number that fits is formatted with a NUL behind it and reads back. */
  lemma OctalRoundTrip(old_: Bytes, x: int)
    requires 2 <= |old_| <= 12 && FitsOctal(|old_|, x)
    ensures OctalField(old_, x) == OctalText(|old_|, x) + [NUL]
    ensures OctalValue(OctalField(old_, x)) == Some(x)
    ensures OctalField(old_, x)[0] < 0x80
  {
    hide Digits, Pow, Value;
    var w := |old_|;
    var s, text := Digits(x, 8), OctalText(w, x);
    DigitsAtMost(x, 8, w - 1);
    assert |text| == w - 1;
    assert OctalField(old_, x) == text + [NUL];
    OctalTextValue(w, x);
    assert x < 0x8000_0000_0000_0000 by {
      OctalBound(w, x);
    }
    OctalReads(text, [NUL]);
  }

  lemma OctalTextValue(w: nat, x: nat)
    ensures Value(OctalText(w, x), 8) == x
  {
    var s := Digits(x, 8);
    ValueOfDigits(x, 8);
    if w > |s| + 1 {
      LeadingZeros(seq(w - |s| - 1, _ => ZERO), s, 8);
    }
  }

  lemma OctalBound(w: nat, x: int)
    requires 2 <= w <= 12 && FitsOctal(w, x)
    ensures x < 0x2_0000_0000
  {
    PowMonotone(8, w - 1, 11);
    EightTo11();
  }

  lemma EightTo11()
    ensures Pow(8, 7) == 0x20_0000 && Pow(8, 6) == 0x4_0000 && Pow(8, 11) == 0x2_0000_0000
  {
    assert Pow(8, 3) == 512;
    assert Pow(8, 8) == 0x100_0000;
  }

  lemma ZerosRead(n: nat)
    ensures OctalValue(Zeros(n)) == Some(0) && ParseString(Zeros(n)) == []
  {
    var z := Zeros(n);
    if n > 0 {
      FirstIndexIs(z, NUL, 0);
    }
    assert TextStart(z) == n;
  }

  // ----- Base-256 numbers, which only other writers produce.

  /** The byte at `i`, inverted for a negative number and without the marker bit in first place. */
  function Base256Byte(b: Bytes, i: nat, inverted: bool): u8
    requires i < |b|
  {
    var c := if inverted then 255 - b[i] else b[i];
    if i == 0 then c % 128 else c
  }

  /** The unsigned value of the bytes from `i` on, appended to `x`; none when it overflows. */
  function Base256From(b: Bytes, i: nat, inverted: bool, x: nat): (r: Option<nat>)
    requires i <= |b| && x < TWO64
    ensures r.Some? ==> r.value < TWO64
    decreases |b| - i
  {
    if i == |b| then Some(x)
    else if x >= 0x100_0000_0000_0000 then None
    else
      var y: int := x;
      Base256From(b, i + 1, inverted, y * 256 + Base256Byte(b, i, inverted))
  }

  /** The value of a numeric field. */
  function NumericValue(b: Bytes): Option<i64> {
    if |b| == 0 || b[0] < 0x80 then OctalValue(b)
    else
      var inverted := Low(b[0], 128) >= 64;
      match Base256From(b, 0, inverted, 0)
      case None => None
      case Some(x) =>
        var y: int := x;
        if y >= 0x8000_0000_0000_0000 then None
        else Some(if inverted then -1 - y else y)
  }

  /** `Parser`: numbers are parsed with an error that sticks. */
  class Parser {
    var err: bool

    constructor ()
      ensures !err
    {
      err := false;
    }

    /** `parse_octal`. */
    method ParseOctal(b: Bytes) returns (x: i64)
      modifies this
      ensures err == (old(err) || OctalValue(b).None?)
      ensures OctalValue(b).Some? ==> x == OctalValue(b).value
    {
      var start := FindStart(b);
      var end := FindEnd(b);
      if start >= end {
        return 0;
      }
      var s := ParseString(b[start..end]);
      var ok, n := OctalDigits(s);
      if !ok || s == [] {
        err := true;
        return 0;
      }
      return Wrap64(n);
    }

    /** `parse_numeric`: base 256 when the top bit of the first byte is set, octal otherwise. */
    method ParseNumeric(b: Bytes) returns (x: i64)
      modifies this
      ensures err == (old(err) || NumericValue(b).None?)
      ensures NumericValue(b).Some? ==> x == NumericValue(b).value
    {
      hide Base256Byte;
      if |b| > 0 && b[0] >= 0x80 {
        var inverted := Low(b[0], 128) >= 64;
        var n: nat := 0;
        for i := 0 to |b|
          invariant n < TWO64 && Base256From(b, i, inverted, n) == Base256From(b, 0, inverted, 0)
          invariant err == old(err)
        {
          if n >= 0x100_0000_0000_0000 {
            err := true;
            return 0;
          }
          n := n * 256 + Base256Byte(b, i, inverted);
        }
        if n >= 0x8000_0000_0000_0000 {
          err := true;
          return 0;
        }
        var y: int := n;
        return if inverted then -1 - y else y;
      }
      x := ParseOctal(b);
    }
  }

  method FindStart(b: Bytes) returns (start: nat)
    ensures start == TextStart(b)
  {
    start := 0;
    while start < |b| && Blank(b[start])
      invariant start <= |b| && TextStart(b) == start + TextStart(b[start..])
    {
      assert b[start..][1..] == b[start + 1..];
      start := start + 1;
    }
  }

  method FindEnd(b: Bytes) returns (end: nat)
    ensures end == TextEnd(b)
  {
    end := |b|;
    assert b[..end] == b;
    while end > 0 && Blank(b[end - 1])
      invariant end <= |b| && TextEnd(b) == TextEnd(b[..end])
    {
      assert b[..end][..end - 1] == b[..end - 1];
      end := end - 1;
    }
    assert |b[..end]| == end;
  }

  /** Octal digits with the overflow check of every multiplication by eight. */
  method OctalDigits(s: Bytes) returns (ok: bool, x: nat)
    ensures ok == (AllDigits(s, 8) && Value(s, 8) < TWO64)
    ensures ok ==> x == Value(s, 8)
  {
    x := 0;
    for i := 0 to |s|
      invariant AllDigits(s[..i], 8) && x == Value(s[..i], 8) < TWO64
    {
      if !Digit(s[i], 8) {
        return false, 0;
      }
      ValueSnoc(s[..i], s[i], 8);
      assert s[..i + 1] == s[..i] + [s[i]];
      if x * 8 >= TWO64 {
        if AllDigits(s, 8) {
          ValueGrows(s, i + 1);
        }
        return false, 0;
      }
      x := x * 8 + (s[i] - ZERO);
    }
    assert s[..|s|] == s;
    ok := true;
  }

  lemma {:induction false} ValueGrows(s: Bytes, k: nat)
    requires k <= |s| && AllDigits(s, 8)
    ensures Value(s, 8) >= Value(s[..k], 8)
  {
    if k < |s| {
      var t := s[..|s| - 1];
      ValueGrows(t, k);
      assert t[..k] == s[..k];
    } else {
      assert s[..k] == s;
    }
  }

  // ----- Writing fields in place.

  /** `Formatter`: fields are formatted into the block with an error that sticks. */
  class Formatter {
    var fieldTooLong: bool

    constructor ()
      ensures !fieldTooLong
    {
      fieldTooLong := false;
    }

    /** `format_string` on field `i` of the block. */
    method FormatString(blk: array<u8>, i: nat, s: Bytes, ghost parts: Parts)
      requires blk.Length == BLOCK_SIZE && i < FIELDS && Laid(blk[..], parts)
      modifies this, blk
      ensures blk.Length == BLOCK_SIZE && |parts[i]| == Width(i)
      ensures Laid(blk[..], parts[i := StringField(parts[i], s)])
      ensures fieldTooLong == (old(fieldTooLong) || |s| > Width(i))
    {
      hide Offset, Width, StringField;
      var o, w := Offset(i), Width(i);
      ghost var before := blk[..];
      Offsets();
      OffsetsApart(i, FIELDS);
      assert parts[i] == Field(before, i);
      if |s| > w {
        fieldTooLong := true;
      }
      CopyString(blk, o, w, s);
      LaidUpdate(before, parts, i, StringField(before[o..o + w], s), blk[..]);
    }

    /** `format_octal` on field `i` of the block. */
    method FormatOctal(blk: array<u8>, i: nat, x: i64, ghost parts: Parts)
      requires blk.Length == BLOCK_SIZE && i < FIELDS && Laid(blk[..], parts) && 2 <= Width(i) <= 12
      modifies this, blk
      ensures blk.Length == BLOCK_SIZE && |parts[i]| == Width(i)
      ensures Laid(blk[..], parts[i := OctalField(parts[i], x)])
      ensures fieldTooLong == (old(fieldTooLong) || !FitsOctal(Width(i), x))
    {
      hide Offset, Width, Pow, Digits;
      assert |parts[i]| == Width(i) by {
        assert Field(blk[..], i) == parts[i];
      }
      var w := Width(i);
      var y := x;
      if !FitsOctal(w, x) {
        y := 0;
        fieldTooLong := true;
      }
      TextFits(w, y);
      FormatString(blk, i, OctalText(w, y), parts);
    }
  }

  /** The bytes of `format_string`. */
  method CopyString(blk: array<u8>, o: nat, w: nat, s: Bytes)
    requires 0 < w && o + w <= blk.Length
    modifies blk
    ensures blk[..] == old(blk[..o]) + StringField(old(blk[o..o + w]), s) + old(blk[o + w..])
  {
    var b := FillField(blk[o..o + w], s);
    Overwrite(blk, o, b);
  }

  method FillField(field: Bytes, s: Bytes) returns (b: Bytes)
    requires |field| > 0
    ensures b == StringField(field, s)
  {
    hide TrimSlashes;
    var w := |field|;
    var n := if |s| < w then |s| else w;
    b := s[..n] + field[n..];
    if |s| < w {
      b := b[|s| := NUL];
    }
    if |s| > w && b[w - 1] == SLASH {
      var k := CountToSlashes(s[..w - 1]);
      b := b[k := NUL];
    }
  }

  lemma TextFits(w: nat, x: int)
    requires w >= 2 && x >= 0 && (FitsOctal(w, x) || x == 0)
    requires w <= 12
    ensures |OctalText(w, x)| <= w
  {
    hide Digits;
    assert Pow(8, w - 1) > 0;
    DigitsAtMost(x, 8, w - 1);
  }

  method CountToSlashes(s: Bytes) returns (k: nat)
    ensures k == TrimSlashes(s)
  {
    k := |s|;
    assert s[..k] == s;
    while k > 0 && s[k - 1] == SLASH
      invariant k <= |s| && TrimSlashes(s) == TrimSlashes(s[..k])
    {
      assert s[..k][..k - 1] == s[..k - 1];
      k := k - 1;
    }
  }
}
