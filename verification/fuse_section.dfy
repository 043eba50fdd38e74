/** The serialized filter section: header, geometry and fingerprints, all big-endian. */
module FuseSection {
  import opened Bits
  import opened Endian
  import opened FuseGeometry
  import opened BinaryFuse

  const HEADER_SIZE: nat := 29
  const TYPE_BINARY_FUSE16: u8 := 1

  datatype ParseResult = Parsed(filter: Filter) | Corrupt

  function FingerprintBytes(fps: seq<u16>): (b: Bytes)
    ensures |b| == 2 * |fps|
  {
    if |fps| == 0 then [] else ToBigEndian(fps[0], 2) + FingerprintBytes(fps[1..])
  }

  function ParseFingerprints(b: Bytes): (fps: seq<u16>)
    requires |b| % 2 == 0
    ensures 2 * |fps| == |b|
  {
    if |b| == 0 then [] else [U16(b[..2])] + ParseFingerprints(b[2..])
  }

  /** `section_bytes`. */
  function SectionBytes(f: Filter): (b: Bytes)
    ensures |b| == HEADER_SIZE + 2 * |f.fingerprints|
  {
    [TYPE_BINARY_FUSE16] + ToBigEndian(f.seed, 8)
    + ToBigEndian(f.geometry.segmentLength, 4) + ToBigEndian(f.geometry.segmentLengthMask, 4)
    + ToBigEndian(f.geometry.segmentCount, 4) + ToBigEndian(f.geometry.segmentCountLength, 4)
    + ToBigEndian(|f.fingerprints|, 4) + FingerprintBytes(f.fingerprints)
  }

  function ParseGeometry(b: Bytes): Geometry
    requires |b| >= HEADER_SIZE
  {
    Geometry(U32(b[9..13]), U32(b[13..17]), U32(b[17..21]), U32(b[21..25]))
  }

  /** The geometry checks of `parse_section`. */
  predicate GeometryAccepted(g: Geometry, count: u32)
  {
    && g.segmentLength != 0
    && And(g.segmentLength, g.segmentLength - 1) == 0
    && g.segmentLengthMask == g.segmentLength - 1
    && g.segmentCount != 0
    && g.segmentCountLength == g.segmentCount * g.segmentLength
    && count == g.segmentCountLength + 2 * g.segmentLength
  }

  /** `parse_section`. */
  function ParseSection(b: Bytes): (r: ParseResult)
  {
    if |b| < HEADER_SIZE then Corrupt
    else if b[0] != TYPE_BINARY_FUSE16 then Corrupt
    else
      var count := U32(b[25..29]);
      if |b| != HEADER_SIZE + 2 * count then Corrupt
      else
        var g := ParseGeometry(b);
        if !GeometryAccepted(g, count) then Corrupt
        else
          TailEven(b, count);
          Parsed(Filter(U64(b[1..9]), g, ParseFingerprints(b[HEADER_SIZE..])))
  }

  lemma TailEven(b: Bytes, count: nat)
    requires |b| == HEADER_SIZE + 2 * count
    ensures |b[HEADER_SIZE..]| % 2 == 0
  {
  }

  lemma {:induction false} FingerprintsRoundTrip(fps: seq<u16>)
    ensures ParseFingerprints(FingerprintBytes(fps)) == fps
  {
    if |fps| > 0 {
      FingerprintsRoundTrip(fps[1..]);
      U16RoundTrip(fps[0]);
      var b := FingerprintBytes(fps);
      assert b[..2] == ToBigEndian(fps[0], 2) && b[2..] == FingerprintBytes(fps[1..]);
    }
  }

  lemma {:induction false} FingerprintBytesRoundTrip(b: Bytes)
    requires |b| % 2 == 0
    ensures FingerprintBytes(ParseFingerprints(b)) == b
  {
    if |b| > 0 {
      FingerprintBytesRoundTrip(b[2..]);
      ToFromBigEndian(b[..2]);
      var fps := ParseFingerprints(b);
      assert fps[1..] == ParseFingerprints(b[2..]);
      assert b == b[..2] + b[2..];
    }
  }

  lemma {:induction false} PowerPassesTest(k: nat)
    ensures And(Pow2(k), Pow2(k) - 1) == 0
  {
    if k > 0 {
      var m := Pow2(k - 1);
      PowerPassesTest(k - 1);
      assert (2 * m - 1) / 2 == m - 1 && 2 * m / 2 == m;
    }
  }

  lemma {:induction false} TestFindsPower(n: nat) returns (k: nat)
    requires n > 0 && And(n, n - 1) == 0
    ensures n == Pow2(k)
  {
    if n == 1 {
      k := 0;
    } else {
      var m := n / 2;
      if n % 2 == 0 {
        assert (n - 1) / 2 == m - 1 && (n - 1) % 2 == 1;
        assert And(n, n - 1) == 2 * And(m, m - 1);
        k := TestFindsPower(m);
        k := k + 1;
      } else {
        assert And(n, n - 1) == 2 * And(m, m);
        AndSelf(m);
        assert false;
      }
    }
  }

  lemma {:induction false} AndSelf(m: nat)
    ensures And(m, m) == m
  {
    if m > 0 {
      AndSelf(m / 2);
    }
  }

  lemma AcceptedIsValid(f: Filter)
    requires |f.fingerprints| < TWO32
    ensures GeometryAccepted(f.geometry, |f.fingerprints|) <==> f.Valid()
  {
    var n := f.geometry.segmentLength;
    if GeometryAccepted(f.geometry, |f.fingerprints|) {
      var k := TestFindsPower(n);
      ProductValid(f.geometry, k);
    }
    if f.Valid() {
      var k: nat :| n == Pow2(k);
      PowerPassesTest(k);
      ValidProducts(f.geometry);
    }
  }

  /** Where the fields of a section lie. */
  lemma SectionLayout(f: Filter)
    ensures var b := SectionBytes(f);
            && b[0] == TYPE_BINARY_FUSE16 && b[1..9] == ToBigEndian(f.seed, 8)
            && b[9..13] == ToBigEndian(f.geometry.segmentLength, 4)
            && b[13..17] == ToBigEndian(f.geometry.segmentLengthMask, 4)
            && b[17..21] == ToBigEndian(f.geometry.segmentCount, 4)
            && b[21..25] == ToBigEndian(f.geometry.segmentCountLength, 4)
            && b[25..29] == ToBigEndian(|f.fingerprints|, 4)
            && b[HEADER_SIZE..] == FingerprintBytes(f.fingerprints)
  {
    hide ToBigEndian, FingerprintBytes;
  }

  /** Parsing gives back any valid filter that was serialized. */
  lemma ParseOfSection(f: Filter)
    requires f.Valid()
    ensures ParseSection(SectionBytes(f)) == Parsed(f)
  {
    hide ToBigEndian, FromBigEndian, SectionBytes, FingerprintBytes, ParseFingerprints, GeometryAccepted, Pow2;
    SectionLayout(f);
    U64RoundTrip(f.seed);
    U32RoundTrip(f.geometry.segmentLength);
    U32RoundTrip(f.geometry.segmentLengthMask);
    U32RoundTrip(f.geometry.segmentCount);
    U32RoundTrip(f.geometry.segmentCountLength);
    U32RoundTrip(|f.fingerprints|);
    FingerprintsRoundTrip(f.fingerprints);
    AcceptedIsValid(f);
  }

  /** A section is accepted only if it is the serialization of the valid filter returned. */
  lemma SectionOfParse(b: Bytes)
    requires ParseSection(b).Parsed?
    ensures ParseSection(b).filter.Valid()
    ensures SectionBytes(ParseSection(b).filter) == b
  {
    hide ToBigEndian, FromBigEndian, FingerprintBytes, ParseFingerprints, GeometryAccepted, Pow2;
    var f := ParseSection(b).filter;
    AcceptedIsValid(f);
    ToFromBigEndian(b[1..9]);
    ToFromBigEndian(b[9..13]);
    ToFromBigEndian(b[13..17]);
    ToFromBigEndian(b[17..21]);
    ToFromBigEndian(b[21..25]);
    ToFromBigEndian(b[25..29]);
    FingerprintBytesRoundTrip(b[HEADER_SIZE..]);
    SliceHeader(b);
  }

  lemma SliceHeader(b: Bytes)
    requires |b| >= HEADER_SIZE
    ensures b == [b[0]] + b[1..9] + b[9..13] + b[13..17] + b[17..21] + b[21..25] + b[25..29] + b[HEADER_SIZE..]
  {
  }
}
