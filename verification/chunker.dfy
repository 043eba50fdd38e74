/** The UltraCDC byte chunker: where a chunk is cut, and how a stream is split. */
module Chunker {
  import opened Bits
  import opened Endian

  const DEFAULT_MIN_SIZE: nat := 0x8000
  const DEFAULT_NORMAL_SIZE: nat := 0x8_0000
  const DEFAULT_MAX_SIZE: nat := 0x10_0000
  const ONE_GIB: nat := 0x4000_0000
  const MASK_S: nat := 0x2F
  const MASK_L: nat := 0x2C
  const THRESHOLD: nat := 64

  /** `Resolved`: the sizes in effect. */
  datatype Sizes = Sizes(min: nat, max: nat, normal: nat)

  datatype OptionsError = NormalSize | MinSize | MaxSize

  function Pick(v: nat, d: nat): nat {
    if v == 0 then d else v
  }

  /** `Resolved::new`: a missing size is the default. */
  function Resolve(opts: Option<Sizes>): Sizes {
    if opts.None? then Sizes(DEFAULT_MIN_SIZE, DEFAULT_MAX_SIZE, DEFAULT_NORMAL_SIZE)
    else
      Sizes(Pick(opts.value.min, DEFAULT_MIN_SIZE), Pick(opts.value.max, DEFAULT_MAX_SIZE),
            Pick(opts.value.normal, DEFAULT_NORMAL_SIZE))
  }

  /** `validate`. */
  function Validate(o: Sizes): (e: Option<OptionsError>)
    ensures e.None? <==> Valid(o)
  {
    if o.normal < 64 || o.normal > ONE_GIB then Some(NormalSize)
    else if o.min < 64 || o.min > ONE_GIB || o.min >= o.normal then Some(MinSize)
    else if o.max < 64 || o.max > ONE_GIB || o.max <= o.normal then Some(MaxSize)
    else None
  }

  predicate Valid(o: Sizes) {
    64 <= o.min < o.normal < o.max <= ONE_GIB
  }

  // ----- The rule, stated directly.

  function Popcount(n: nat): nat {
    if n == 0 then 0 else n % 2 + Popcount(n / 2)
  }

  /** How many bits of a byte differ from 10101010. */
  function Hamming(b: u8): nat {
    Popcount(Xor8(b, 0xAA))
  }

  function HammingSum(s: Bytes): nat {
    if |s| == 0 then 0 else HammingSum(s[..|s| - 1]) + Hamming(s[|s| - 1])
  }

  /** The distance of the eight bytes before `p`. */
  function Distance(data: Bytes, p: nat): nat
    requires 8 <= p <= |data|
  {
    HammingSum(data[p - 8..p])
  }

  /** The length considered, and the point from which the looser mask applies. */
  function Length(o: Sizes, data: Bytes): nat {
    if |data| <= o.min then |data| else if |data| >= o.max then o.max else |data|
  }

  function Normal(o: Sizes, data: Bytes): nat {
    if o.min < |data| < o.max && |data| <= o.normal then |data| else o.normal
  }

  /** Window `k` after the minimum size; window 0 starts there. */
  function Start(o: Sizes, k: nat): nat {
    o.min + 8 * k
  }

  predicate IsWindow(o: Sizes, data: Bytes, k: nat) {
    Start(o, k) + 8 <= Length(o, data)
  }

  function Window(o: Sizes, data: Bytes, k: nat): Bytes
    requires IsWindow(o, data, k)
  {
    data[Start(o, k)..Start(o, k) + 8]
  }

  predicate Repeats(o: Sizes, data: Bytes, k: nat)
    requires IsWindow(o, data, k)
  {
    k > 0 && Window(o, data, k) == Window(o, data, k - 1)
  }

  /** How many windows in a row, up to window `k`, repeat the one before. */
  function RunLength(o: Sizes, data: Bytes, k: nat): nat
    requires IsWindow(o, data, k)
  {
    if Repeats(o, data, k) then 1 + RunLength(o, data, k - 1) else 0
  }

  function Mask(o: Sizes, data: Bytes, k: nat): nat {
    if Start(o, k) >= Normal(o, data) then MASK_L else MASK_S
  }

  /** Position `j` in window `k` meets the mask rule. */
  predicate MaskStop(o: Sizes, data: Bytes, k: nat, j: nat)
    requires IsWindow(o, data, k) && k > 0 && j < 8 && o.min >= 8
  {
    !Repeats(o, data, k) && And(Distance(data, Start(o, k) + j), Mask(o, data, k)) == 0
  }

  /** Window `k` is the last of 64 repeats in a row. */
  predicate RunStop(o: Sizes, data: Bytes, k: nat)
    requires IsWindow(o, data, k)
  {
    RunLength(o, data, k) == THRESHOLD
  }

  /** Some rule says to cut at `p`. */
  ghost predicate Stops(o: Sizes, data: Bytes, p: nat)
    requires o.min >= 8
  {
    || (exists k, j :: k > 0 && IsWindow(o, data, k) && 0 <= j < 8 && p == Start(o, k) + j && MaskStop(o, data, k, j))
    || (exists k :: IsWindow(o, data, k) && p == Start(o, k) + 8 && RunStop(o, data, k))
  }

  /** The cut is the first place that a rule names, or the length considered. */
  ghost predicate IsCut(o: Sizes, data: Bytes, c: nat)
    requires o.min >= 8
  {
    && c <= Length(o, data)
    && (forall p: nat :: p < c ==> !Stops(o, data, p))
    && (c == Length(o, data) || Stops(o, data, c))
  }

  // ----- No rule applies in the windows already passed.

  ghost predicate MaskQuiet(o: Sizes, data: Bytes, k: nat, j: nat)
    requires o.min >= 8
  {
    forall i :: 0 <= i < j && i < 8 && k > 0 && IsWindow(o, data, k) ==> !MaskStop(o, data, k, i)
  }

  ghost predicate Quiet(o: Sizes, data: Bytes, n: nat)
    requires o.min >= 8
  {
    forall k: nat :: k < n && IsWindow(o, data, k) ==> !RunStop(o, data, k) && MaskQuiet(o, data, k, 8)
  }

  /** Nothing stops before position `j` of window `n`, if nothing did in the windows before it. */
  lemma QuietBefore(o: Sizes, data: Bytes, n: nat, j: nat, p: nat)
    requires o.min >= 8 && Quiet(o, data, n) && MaskQuiet(o, data, n, j) && j <= 8
    requires p < Start(o, n) + j
    ensures !Stops(o, data, p)
  {
    hide MaskStop, RunStop, IsWindow;
  }

  /** The end of the loop: no window is left. */
  lemma QuietToEnd(o: Sizes, data: Bytes, n: nat)
    requires o.min >= 8 && Quiet(o, data, n) && !IsWindow(o, data, n)
    ensures IsCut(o, data, Length(o, data))
  {
    hide MaskStop, RunStop;
    forall p: nat ensures !Stops(o, data, p) {
    }
  }

  lemma MaskCut(o: Sizes, data: Bytes, n: nat, j: nat)
    requires o.min >= 8 && Quiet(o, data, n) && n > 0 && IsWindow(o, data, n) && j < 8
    requires MaskQuiet(o, data, n, j) && MaskStop(o, data, n, j)
    ensures IsCut(o, data, Start(o, n) + j)
  {
    hide MaskStop, RunStop, Stops, MaskQuiet, Quiet;
    forall p: nat | p < Start(o, n) + j ensures !Stops(o, data, p) {
      QuietBefore(o, data, n, j, p);
    }
    MaskIsStop(o, data, n, j);
  }

  lemma MaskIsStop(o: Sizes, data: Bytes, n: nat, j: nat)
    requires o.min >= 8 && n > 0 && IsWindow(o, data, n) && j < 8 && MaskStop(o, data, n, j)
    ensures Stops(o, data, Start(o, n) + j)
  {
    hide MaskStop;
  }

  lemma RunCut(o: Sizes, data: Bytes, n: nat)
    requires o.min >= 8 && Quiet(o, data, n) && IsWindow(o, data, n) && RunStop(o, data, n)
    ensures IsCut(o, data, Start(o, n) + 8)
  {
    hide Stops, Quiet;
    assert Repeats(o, data, n) by {
      assert RunLength(o, data, n) == THRESHOLD;
    }
    assert MaskQuiet(o, data, n, 8);
    forall p: nat | p < Start(o, n) + 8 ensures !Stops(o, data, p) {
      QuietBefore(o, data, n, 8, p);
    }
    RunIsStop(o, data, n);
  }

  lemma RunIsStop(o: Sizes, data: Bytes, n: nat)
    requires o.min >= 8 && IsWindow(o, data, n) && RunStop(o, data, n)
    ensures Stops(o, data, Start(o, n) + 8)
  {
    hide RunStop;
  }

  // ----- The rolling distance.

  lemma {:induction false} SumSnoc(s: Bytes, b: u8)
    ensures HammingSum(s + [b]) == HammingSum(s) + Hamming(b)
  {
    assert (s + [b])[..|s|] == s;
  }

  lemma {:induction false} SumCons(b: u8, s: Bytes)
    ensures HammingSum([b] + s) == Hamming(b) + HammingSum(s)
    decreases |s|
  {
    hide Hamming;
    if |s| == 0 {
      assert [b] + s == [] + [b];
      SumSnoc([], b);
    } else {
      var t := s[..|s| - 1];
      SumCons(b, t);
      SumSnoc([b] + t, s[|s| - 1]);
      assert [b] + s == ([b] + t) + [s[|s| - 1]];
    }
  }

  /** Moving the eight bytes on by one: one byte enters, one leaves. */
  lemma Roll(data: Bytes, p: nat)
    requires 8 <= p < |data|
    ensures Distance(data, p + 1) == Distance(data, p) + Hamming(data[p]) - Hamming(data[p - 8])
  {
    hide Hamming, HammingSum;
    var mid := data[p - 7..p];
    assert data[p - 8..p] == [data[p - 8]] + mid;
    assert data[p - 7..p + 1] == mid + [data[p]];
    SumCons(data[p - 8], mid);
    SumSnoc(mid, data[p]);
  }

  lemma {:induction false} PopcountBound(n: nat, k: nat)
    requires n < Pow2(k)
    ensures Popcount(n) <= k
  {
    if n > 0 {
      PopcountBound(n / 2, k - 1);
    }
  }

  lemma {:induction false} SumBound(s: Bytes)
    ensures HammingSum(s) <= 8 * |s|
  {
    if |s| > 0 {
      SumBound(s[..|s| - 1]);
      Pow2Values();
      PopcountBound(Xor8(s[|s| - 1], 0xAA), 8);
    }
  }

  /** The distance of eight bytes is between 0 and 64. */
  lemma DistanceBound(data: Bytes, p: nat)
    requires 8 <= p <= |data|
    ensures Distance(data, p) <= 64
  {
    SumBound(data[p - 8..p]);
  }

  method InitialDistance(window: Bytes) returns (dist: nat)
    ensures dist == HammingSum(window)
  {
    dist := 0;
    for i := 0 to |window|
      invariant dist == HammingSum(window[..i])
    {
      SumSnoc(window[..i], window[i]);
      assert window[..i + 1] == window[..i] + [window[i]];
      dist := dist + Hamming(window[i]);
    }
    assert window[..|window|] == window;
  }

  /** The inner loop: the eight positions of a window that differs from the one before. */
  method ScanWindow(o: Sizes, data: Bytes, i: nat, ghost k: nat, start: nat, mask: nat) returns (found: bool, j: nat, dist: nat)
    requires o.min >= 8 && k > 0 && IsWindow(o, data, k) && i == Start(o, k) && Length(o, data) <= |data|
    requires start == Distance(data, i) && mask == Mask(o, data, k) && !Repeats(o, data, k)
    ensures found ==> j < 8 && MaskStop(o, data, k, j) && MaskQuiet(o, data, k, j)
    ensures !found ==> MaskQuiet(o, data, k, 8) && dist == Distance(data, i + 8)
  {
    hide HammingSum, Hamming, And, Distance, Mask, Repeats;
    dist, j := start, 0;
    while j < 8
      invariant j <= 8 && dist == Distance(data, i + j) && MaskQuiet(o, data, k, j)
    {
      if And(dist, mask) == 0 {
        return true, j, dist;
      }
      Roll(data, i + j);
      dist := dist + Hamming(data[i + j]) - Hamming(data[i + j - 8]);
      j := j + 1;
    }
    found := false;
  }

  /** `ultra_cdc_cutpoint`. A window equal to the one before is skipped without updating the distance
      or the window kept, and both are still right: the bytes that would enter equal those that
      would leave. */
  method Cutpoint(o: Sizes, data: Bytes) returns (c: nat)
    requires Valid(o)
    ensures IsCut(o, data, c)
  {
    hide Quiet, IsCut, MaskQuiet, RunLength, Mask, Distance;
    var lowEntropyCount: nat := 0;
    var mask := MASK_S;
    var n, normalSize := |data|, o.normal;
    if n <= o.min {
      ShortCut(o, data);
      return n;
    } else if n >= o.max {
      n := o.max;
    } else if n <= normalSize {
      normalSize := n;
    }
    if n < o.min + 8 {
      ShortCut(o, data);
      return n;
    }
    var outBufWin := data[o.min..o.min + 8];
    var dist := InitialDistance(outBufWin);
    DistanceStarts(data, o.min);
    var i := o.min + 8;
    ghost var k: nat := 1;
    FirstQuiet(o, data);
    while i <= n - 8
      invariant k > 0 && i == Start(o, k) && i <= n
      invariant n == Length(o, data) && normalSize == Normal(o, data)
      invariant outBufWin == data[i - 8..i] && dist == Distance(data, i)
      invariant lowEntropyCount == RunLength(o, data, k - 1) < THRESHOLD
      invariant mask == MASK_L ==> i >= normalSize
      invariant mask == MASK_S || mask == MASK_L
      invariant Quiet(o, data, k)
      decreases n - i
    {
      if i >= normalSize {
        mask := MASK_L;
      }
      assert mask == Mask(o, data, k) by { MaskIs(o, data, k, mask); }
      var inBufWin := data[i..i + 8];
      RunStep(o, data, k);
      if inBufWin == outBufWin {
        lowEntropyCount := lowEntropyCount + 1;
        if lowEntropyCount >= THRESHOLD {
          RunCut(o, data, k);
          return i + 8;
        }
        SameDistance(data, i);
        NextQuiet(o, data, k, true);
      } else {
        lowEntropyCount := 0;
        var found, j;
        found, j, dist := ScanWindow(o, data, i, k, dist, mask);
        if found {
          MaskCut(o, data, k, j);
          return i + j;
        }
        NextQuiet(o, data, k, false);
        outBufWin := inBufWin;
      }
      i := i + 8;
      k := k + 1;
    }
    QuietToEnd(o, data, k);
    return n;
  }

  lemma DistanceStarts(data: Bytes, m: nat)
    requires m + 8 <= |data|
    ensures HammingSum(data[m..m + 8]) == Distance(data, m + 8)
  {
  }

  lemma ShortCut(o: Sizes, data: Bytes)
    requires Valid(o) && Length(o, data) < o.min + 8
    ensures IsCut(o, data, Length(o, data))
  {
    assert Quiet(o, data, 0);
    QuietToEnd(o, data, 0);
  }

  lemma FirstQuiet(o: Sizes, data: Bytes)
    requires Valid(o) && IsWindow(o, data, 0)
    ensures RunLength(o, data, 0) == 0 && Quiet(o, data, 1)
  {
  }

  lemma MaskIs(o: Sizes, data: Bytes, k: nat, mask: nat)
    requires Start(o, k) >= Normal(o, data) ==> mask == MASK_L
    requires mask == MASK_L ==> Start(o, k) >= Normal(o, data)
    requires mask == MASK_S || mask == MASK_L
    ensures mask == Mask(o, data, k)
  {
  }

  lemma RunStep(o: Sizes, data: Bytes, k: nat)
    requires k > 0 && IsWindow(o, data, k) && Length(o, data) <= |data|
    ensures IsWindow(o, data, k - 1)
    ensures Repeats(o, data, k) <==> data[Start(o, k)..Start(o, k) + 8] == data[Start(o, k) - 8..Start(o, k)]
    ensures RunLength(o, data, k) == if Repeats(o, data, k) then 1 + RunLength(o, data, k - 1) else 0
  {
    assert Start(o, k - 1) + 8 == Start(o, k);
  }

  lemma SameDistance(data: Bytes, i: nat)
    requires 8 <= i && i + 8 <= |data| && data[i..i + 8] == data[i - 8..i]
    ensures Distance(data, i + 8) == Distance(data, i)
  {
  }

  lemma NextQuiet(o: Sizes, data: Bytes, k: nat, repeats: bool)
    requires o.min >= 8 && Quiet(o, data, k) && k > 0 && IsWindow(o, data, k)
    requires RunLength(o, data, k) < THRESHOLD && repeats == Repeats(o, data, k)
    requires repeats || MaskQuiet(o, data, k, 8)
    ensures Quiet(o, data, k + 1)
  {
    hide RunLength;
    if repeats {
      assert MaskQuiet(o, data, k, 8);
    }
    forall m: nat | m < k + 1 && IsWindow(o, data, m) ensures !RunStop(o, data, m) && MaskQuiet(o, data, m, 8) {
    }
  }

  // ----- Splitting a stream.

  /** The first place from `p` on that a rule names, or the length considered. */
  ghost function CutFrom(o: Sizes, data: Bytes, p: nat): (c: nat)
    requires Valid(o) && p <= Length(o, data) && forall q: nat :: q < p ==> !Stops(o, data, q)
    ensures IsCut(o, data, c)
    decreases Length(o, data) - p
  {
    if p == Length(o, data) || Stops(o, data, p) then p else CutFrom(o, data, p + 1)
  }

  ghost function Cut(o: Sizes, data: Bytes): (c: nat)
    requires Valid(o)
    ensures IsCut(o, data, c)
  {
    CutFrom(o, data, 0)
  }

  lemma OneCut(o: Sizes, data: Bytes, c: nat)
    requires Valid(o) && IsCut(o, data, c)
    ensures c == Cut(o, data)
  {
    hide Stops;
    var d := Cut(o, data);
    assert !(c < d) && !(d < c);
  }

  /** A cut is never empty, never beyond the maximum, and short only where the data ends. */
  lemma CutBounds(o: Sizes, data: Bytes)
    requires Valid(o)
    ensures Cut(o, data) <= |data| && Cut(o, data) <= o.max
    ensures data != [] ==> Cut(o, data) > 0
    ensures Cut(o, data) < |data| ==> Cut(o, data) >= o.min
  {
    var c := Cut(o, data);
    if Stops(o, data, c) {
      StopsLate(o, data, c);
    }
  }

  lemma StopsLate(o: Sizes, data: Bytes, p: nat)
    requires Valid(o) && Stops(o, data, p)
    ensures p >= o.min + 8
  {
  }

  /** Bytes beyond the maximum size have no say. */
  lemma CutIsLocal(o: Sizes, data: Bytes)
    requires Valid(o) && |data| > o.max
    ensures Cut(o, data) == Cut(o, data[..o.max])
  {
    hide IsCut, Stops;
    var head := data[..o.max];
    forall p: nat ensures Stops(o, data, p) <==> Stops(o, head, p) {
      LocalStops(o, data, head, p);
    }
    LocalCut(o, data, head);
  }

  lemma LocalCut(o: Sizes, data: Bytes, head: Bytes)
    requires Valid(o) && Length(o, data) == Length(o, head)
    requires forall p: nat :: Stops(o, data, p) <==> Stops(o, head, p)
    ensures Cut(o, data) == Cut(o, head)
  {
    hide Stops;
    assert IsCut(o, data, Cut(o, head));
    OneCut(o, data, Cut(o, head));
  }

  lemma LocalStops(o: Sizes, data: Bytes, head: Bytes, p: nat)
    requires Valid(o) && |data| > o.max && head == data[..o.max]
    ensures Stops(o, data, p) <==> Stops(o, head, p)
  {
    hide MaskStop, RunLength;
    forall k: nat | IsWindow(o, data, k) ensures RunStop(o, data, k) == RunStop(o, head, k) {
      LocalRun(o, data, head, k);
    }
    forall k: nat, j: nat | k > 0 && IsWindow(o, data, k) && j < 8
      ensures MaskStop(o, data, k, j) == MaskStop(o, head, k, j)
    {
      LocalMask(o, data, head, k, j);
    }
  }

  lemma LocalWindow(o: Sizes, data: Bytes, head: Bytes, k: nat)
    requires Valid(o) && |data| > o.max && head == data[..o.max] && IsWindow(o, data, k)
    ensures Window(o, data, k) == Window(o, head, k)
  {
    SliceOfPrefix(data, o.max, Start(o, k), Start(o, k) + 8);
  }

  lemma SliceOfPrefix(data: Bytes, n: nat, lo: nat, hi: nat)
    requires lo <= hi <= n <= |data|
    ensures data[..n][lo..hi] == data[lo..hi]
  {
  }

  lemma {:induction false} LocalRun(o: Sizes, data: Bytes, head: Bytes, k: nat)
    requires Valid(o) && |data| > o.max && head == data[..o.max] && IsWindow(o, data, k)
    ensures RunLength(o, data, k) == RunLength(o, head, k) && Repeats(o, data, k) == Repeats(o, head, k)
  {
    hide Window;
    LocalWindow(o, data, head, k);
    if k > 0 {
      LocalWindow(o, data, head, k - 1);
      LocalRun(o, data, head, k - 1);
    }
  }

  lemma LocalMask(o: Sizes, data: Bytes, head: Bytes, k: nat, j: nat)
    requires Valid(o) && |data| > o.max && head == data[..o.max] && IsWindow(o, data, k) && k > 0 && j < 8
    ensures MaskStop(o, data, k, j) == MaskStop(o, head, k, j)
  {
    hide Repeats, HammingSum;
    LocalRun(o, data, head, k);
    var p := Start(o, k) + j;
    SliceOfPrefix(data, o.max, p - 8, p);
  }

  /** Chunking the whole input at once. */
  ghost function Chunks(o: Sizes, input: Bytes): seq<Bytes>
    requires Valid(o)
    decreases |input|
  {
    if input == [] then []
    else
      CutBounds(o, input);
      [input[..Cut(o, input)]] + Chunks(o, input[Cut(o, input)..])
  }

  function Concat(chunks: seq<Bytes>): Bytes {
    if |chunks| == 0 then [] else chunks[0] + Concat(chunks[1..])
  }

  /** The chunks put together are the input; none is empty or longer than the maximum, and only the
      last can be shorter than the minimum. */
  lemma {:induction false} ChunksCover(o: Sizes, input: Bytes)
    requires Valid(o)
    ensures Concat(Chunks(o, input)) == input
    ensures forall i :: 0 <= i < |Chunks(o, input)| ==> 0 < |Chunks(o, input)[i]| <= o.max
    ensures forall i :: 0 <= i < |Chunks(o, input)| - 1 ==> |Chunks(o, input)[i]| >= o.min
    decreases |input|
  {
    hide Cut;
    if input != [] {
      var c := Cut(o, input);
      CutBounds(o, input);
      ChunksCover(o, input[c..]);
      var later := Chunks(o, input[c..]);
      assert Chunks(o, input) == [input[..c]] + later;
      assert Chunks(o, input)[1..] == later;
      assert input == input[..c] + input[c..];
      assert c == |input| ==> later == [];
    }
  }

  /** From a cut on, the chunks depend only on the bytes behind it. */
  lemma {:induction false} ChunksFromCut(o: Sizes, input: Bytes, j: nat)
    requires Valid(o) && j <= |Chunks(o, input)|
    ensures var k := |Concat(Chunks(o, input)[..j])|;
            k <= |input| && Chunks(o, input)[j..] == Chunks(o, input[k..])
    decreases j
  {
    hide Cut, Chunks, Concat;
    var all := Chunks(o, input);
    ChunksUnfold(o, input);
    if j == 0 {
      NoChunks();
      assert all[..0] == [] && all[0..] == all && input[0..] == input;
    } else {
      var c := Cut(o, input);
      ChunksUnfold(o, input);
      var rest := input[c..];
      var later := Chunks(o, rest);
      ChunksFromCut(o, rest, j - 1);
      assert all[..j] == [input[..c]] + later[..j - 1];
      ConcatCons(input[..c], later[..j - 1]);
      var k := |Concat(later[..j - 1])|;
      assert rest[k..] == input[c + k..];
    }
  }

  lemma ChunksUnfold(o: Sizes, input: Bytes)
    requires Valid(o)
    ensures input == [] ==> Chunks(o, input) == []
    ensures input != [] ==>
              && 0 < Cut(o, input) <= |input|
              && Chunks(o, input) == [input[..Cut(o, input)]] + Chunks(o, input[Cut(o, input)..])
  {
    CutBounds(o, input);
  }

  lemma NoChunks()
    ensures Concat([]) == []
  {
  }

  lemma ConcatCons(chunk: Bytes, chunks: seq<Bytes>)
    ensures Concat([chunk] + chunks) == chunk + Concat(chunks)
  {
    assert ([chunk] + chunks)[1..] == chunks;
  }

  /** Two inputs that share a cut and the bytes behind it share the chunks behind it. */
  lemma Resynchronise(o: Sizes, a: Bytes, b: Bytes, i: nat, j: nat)
    requires Valid(o) && i <= |Chunks(o, a)| && j <= |Chunks(o, b)|
    requires var k, l := |Concat(Chunks(o, a)[..i])|, |Concat(Chunks(o, b)[..j])|;
             k <= |a| && l <= |b| && a[k..] == b[l..]
    ensures Chunks(o, a)[i..] == Chunks(o, b)[j..]
  {
    ChunksFromCut(o, a, i);
    ChunksFromCut(o, b, j);
  }

  datatype SplitResult = Done | Options(error: OptionsError) | Reader | Callback

  /** `split_bytes` over a reader and a callback that may stop after any chunk. The reader delivers
      `input` and then ends or, if it is broken, fails instead of delivering what is `beyond`. The
      buffer holds at most the maximum size, and is refilled before every cut. Whatever was to come,
      the chunks passed on before a failure are the first of the whole. */
  method SplitBytes(input: Bytes, broken: bool, ghost beyond: Bytes, opts: Option<Sizes>, accepts: seq<Bytes> -> bool)
    returns (r: SplitResult, chunks: seq<Bytes>)
    requires !broken ==> beyond == []
    ensures r.Options? <==> !Valid(Resolve(opts))
    ensures r.Options? ==> Some(r.error) == Validate(Resolve(opts)) && chunks == []
    ensures r.Done? ==> !broken && chunks == Chunks(Resolve(opts), input)
    ensures r.Reader? ==> broken && chunks <= Chunks(Resolve(opts), input + beyond)
    ensures r.Callback? ==> chunks <= Chunks(Resolve(opts), input + beyond) && chunks != [] && !accepts(chunks)
    ensures forall k :: 0 < k < |chunks| || (0 < k == |chunks| && !r.Callback?) ==> accepts(chunks[..k])
  {
    hide IsCut, Cut, Chunks;
    var o := Resolve(opts);
    chunks := [];
    var e := Validate(o);
    if e.Some? {
      return Options(e.value), [];
    }
    var unread, buf := input, [];
    var eof := false;
    ghost var all := input + beyond;
    assert buf + (unread + beyond) == all && chunks + Chunks(o, all) == Chunks(o, all);
    while true
      invariant |buf| <= o.max && (eof ==> unread == [] && !broken)
      invariant chunks + Chunks(o, buf + (unread + beyond)) == Chunks(o, all)
      invariant forall k :: 0 < k <= |chunks| ==> accepts(chunks[..k])
      decreases |buf| + |unread|
    {
      ghost var left := buf + (unread + beyond);
      if !eof && |buf| < o.max {
        var want := o.max - |buf|;
        var got := if |unread| < want then |unread| else want;
        if got < want && broken {
          return Reader, chunks;
        }
        buf, unread := buf + unread[..got], unread[got..];
        if got < want {
          eof := true;
        }
      }
      assert buf + (unread + beyond) == left;
      ChunksUnfold(o, left);
      if buf == [] {
        assert left == [] && chunks + [] == chunks && input + beyond == input;
        return Done, chunks;
      }
      var c := Cutpoint(o, buf);
      OneCut(o, buf, c);
      CutBounds(o, buf);
      assert c == Cut(o, left) by { BufferCut(o, buf, unread + beyond); }
      assert left[..c] == buf[..c] && left[c..] == buf[c..] + (unread + beyond);
      assert Chunks(o, left) == [buf[..c]] + Chunks(o, buf[c..] + (unread + beyond));
      ghost var before := chunks;
      chunks := chunks + [buf[..c]];
      assert forall k :: 0 < k <= |before| ==> chunks[..k] == before[..k];
      assert chunks[..|chunks|] == chunks;
      if !accepts(chunks) {
        return Callback, chunks;
      }
      buf := buf[c..];
    }
  }

  /** A full buffer, or one at the end of the input, is cut where the whole input would be. */
  lemma BufferCut(o: Sizes, buf: Bytes, unread: Bytes)
    requires Valid(o) && |buf| <= o.max && (unread != [] ==> |buf| == o.max)
    ensures Cut(o, buf) == Cut(o, buf + unread)
  {
    hide Cut, IsCut;
    if unread == [] {
      assert buf + unread == buf;
    } else {
      CutIsLocal(o, buf + unread);
      assert (buf + unread)[..o.max] == buf;
    }
  }
}
