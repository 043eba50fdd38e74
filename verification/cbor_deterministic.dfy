/** Deterministic CBOR on bytes, for maps from unsigned integers to integers and strings: definite
    lengths, heads in their shortest form, and keys in strictly increasing bytewise order (section 4.2
    of RFC 8949). */
module DeterministicCbor {
  import opened Bits
  import opened ByteOrder
  import opened Endian
  import opened Cbor

  /** A head at the front of some bytes: its major type, argument and length. */
  datatype Short = Short(major: Major, arg: u64, size: nat)

  /** How many bytes follow the first, by its low five bits; indefinite lengths and reserved values
      have no place here. */
  function Follow(info: nat): Option<nat> {
    if info < 24 then Some(0)
    else if info == 24 then Some(1)
    else if info == 25 then Some(2)
    else if info == 26 then Some(4)
    else if info == 27 then Some(8)
    else None
  }

  /** The least argument that needs that many. */
  function Least(follow: nat): nat {
    if follow == 0 then 0
    else if follow == 1 then 24
    else if follow == 2 then 0x100
    else if follow == 4 then 0x1_0000
    else 0x1_0000_0000
  }

  /** The head at the front, if there is one in shortest form. */
  function ShortHead(b: Bytes): (r: Option<Short>)
    ensures r.Some? ==> 0 < r.value.size <= |b|
  {
    if |b| == 0 then None
    else
      var first: int := b[0];
      var info := first % 32;
      var follow := Follow(info);
      if follow.None? || |b| < 1 + follow.value then None
      else
        FromBigEndianBound(b[1..1 + follow.value]);
        Pow256Small(follow.value);
        var arg := if follow.value == 0 then info else FromBigEndian(b[1..1 + follow.value]);
        if arg < Least(follow.value) then None else Some(Short(first / 32, arg, 1 + follow.value))
  }

  datatype Scalar = Int(value: int) | Bstr(bytes: Bytes) | Tstr(text: Bytes)

  /** The integer or string at the front, and its length. */
  function ShortScalar(b: Bytes): (r: Option<(Scalar, nat)>)
    ensures r.Some? ==> 0 < r.value.1 <= |b|
  {
    var h := ShortHead(b);
    if h.None? then None
    else
      var (major, n, size) := (h.value.major, h.value.arg, h.value.size);
      if major == 0 then Some((Int(n), size))
      else if major == 1 then Some((Int(-1 - n), size))
      else if (major == 2 || major == 3) && size + n <= |b| then
        var s := b[size..size + n];
        Some((if major == 2 then Bstr(s) else Tstr(s), size + n))
      else None
  }

  /** The pairs that fill `b`, `count` of them, with keys after `last`. */
  function ShortPairs(b: Bytes, count: nat, last: Bytes): (r: Option<map<nat, Scalar>>)
    decreases count
  {
    if count == 0 then if b == [] then Some(map[]) else None
    else
      var h := ShortHead(b);
      if h.None? || h.value.major != 0 then None
      else
        var key := b[..h.value.size];
        var v := ShortScalar(b[h.value.size..]);
        if !Less(last, key) || v.None? then None
        else
          var rest := ShortPairs(b[h.value.size..][v.value.1..], count - 1, key);
          if rest.None? then None else Some(rest.value[h.value.arg := v.value.0])
  }

  /** The map that a deterministic encoding stands for. */
  function ShortMap(b: Bytes): Option<map<nat, Scalar>> {
    var h := ShortHead(b);
    if h.None? || h.value.major != 5 then None else ShortPairs(b[h.value.size..], h.value.arg, [])
  }

  // ----- Heads in shortest form are those that are written.

  lemma WrittenIsShort(major: Major, n: u64, z: Bytes)
    ensures ShortHead(Head(major, n) + z) == Some(Short(major, n, |Head(major, n)|))
  {
    hide ToBigEndian, FromBigEndian;
    var h := Head(major, n);
    var b := h + z;
    Pow256Values();
    var first: int := b[0];
    assert first / 32 == major;
    if 24 <= n < 0x100 {
      OneByte(n);
    }
    if n >= 24 {
      var w := |h| - 1;
      assert b[1..1 + w] == h[1..] == ToBigEndian(n, w);
      FromToBigEndian(n, w);
    }
  }

  lemma ShortIsWritten(b: Bytes)
    requires ShortHead(b).Some?
    ensures var h := ShortHead(b).value; b[..h.size] == Head(h.major, h.arg)
  {
    hide ToBigEndian, FromBigEndian;
    var h := ShortHead(b).value;
    var w := h.size - 1;
    var tail := b[1..h.size];
    assert b[..h.size] == [b[0]] + tail;
    ToFromBigEndian(tail);
    FromBigEndianBound(tail);
    Pow256Values();
    if w == 1 {
      OneByte(h.arg);
    }
  }

  // ----- Maps with few small keys, written key by key.

  predicate Writable(v: Scalar) {
    match v
    case Int(x) => -TWO64 <= x < TWO64
    case Bstr(s) => |s| < TWO64
    case Tstr(s) => |s| < TWO64
  }

  function ScalarBytes(v: Scalar): (b: Bytes)
    requires Writable(v)
    ensures b != []
  {
    match v
    case Int(x) => if x >= 0 then Head(MAJOR_UINT, x) else Head(MAJOR_NEGINT, -1 - x)
    case Bstr(s) => Head(MAJOR_BSTR, |s|) + s
    case Tstr(s) => Head(MAJOR_TSTR, |s|) + s
  }

  lemma ScalarReads(v: Scalar, z: Bytes)
    requires Writable(v)
    ensures ShortScalar(ScalarBytes(v) + z) == Some((v, |ScalarBytes(v)|))
  {
    hide ShortHead, Head;
    var b := ScalarBytes(v);
    match v
    case Int(x) =>
      if x >= 0 {
        WrittenIsShort(MAJOR_UINT, x, z);
      } else {
        WrittenIsShort(MAJOR_NEGINT, -1 - x, z);
      }
    case Bstr(s) => StringReads(MAJOR_BSTR, s, z);
    case Tstr(s) => StringReads(MAJOR_TSTR, s, z);
  }

  lemma StringReads(major: Major, s: Bytes, z: Bytes)
    requires |s| < TWO64
    ensures var h, b := Head(major, |s|), Head(major, |s|) + s + z;
            ShortHead(b) == Some(Short(major, |s|, |h|)) && b[|h|..|h| + |s|] == s
  {
    hide ShortHead, Head;
    var h := Head(major, |s|);
    WrittenIsShort(major, |s|, s + z);
    assert h + s + z == h + (s + z);
  }

  lemma ScalarIs(b: Bytes)
    requires ShortScalar(b).Some?
    ensures var (v, n) := ShortScalar(b).value; Writable(v) && b[..n] == ScalarBytes(v)
  {
    hide ShortHead, Head;
    ShortIsWritten(b);
    var h := ShortHead(b).value;
    var (v, n) := ShortScalar(b).value;
    if h.major == MAJOR_BSTR || h.major == MAJOR_TSTR {
      assert b[..n] == b[..h.size] + b[h.size..n];
    }
  }

  /** One more pair in front. */
  lemma PairReads(k: u64, v: Scalar, z: Bytes, count: nat, last: Bytes)
    requires Writable(v) && Less(last, Head(MAJOR_UINT, k)) && ShortPairs(z, count, Head(MAJOR_UINT, k)).Some?
    ensures ShortPairs(Head(MAJOR_UINT, k) + (ScalarBytes(v) + z), count + 1, last)
         == Some(ShortPairs(z, count, Head(MAJOR_UINT, k)).value[k := v])
  {
    hide ShortHead, ShortScalar, Head, Less, ScalarBytes;
    var h := Head(MAJOR_UINT, k);
    var b := h + (ScalarBytes(v) + z);
    WrittenIsShort(MAJOR_UINT, k, ScalarBytes(v) + z);
    ScalarReads(v, z);
    assert b[..|h|] == h && b[|h|..] == ScalarBytes(v) + z;
    assert (ScalarBytes(v) + z)[|ScalarBytes(v)|..] == z;
  }

  /** Every key comes after `last`, and there are as many as announced. */
  lemma {:induction false} KeysAfter(b: Bytes, count: nat, last: Bytes)
    requires ShortPairs(b, count, last).Some?
    ensures var m := ShortPairs(b, count, last).value;
            |m| == count && forall k :: k in m ==> k < TWO64 && Less(last, Head(MAJOR_UINT, k))
    decreases count
  {
    hide ShortHead, ShortScalar, Head, Less;
    if count > 0 {
      var h := ShortHead(b).value;
      ShortIsWritten(b);
      var key := b[..h.size];
      var rest := b[h.size..][ShortScalar(b[h.size..]).value.1..];
      KeysAfter(rest, count - 1, key);
      var m := ShortPairs(rest, count - 1, key).value;
      if h.arg in m {
        NotLess(key);
      }
      forall k | k in m ensures Less(last, Head(MAJOR_UINT, k)) {
        LessTransitive(last, key, Head(MAJOR_UINT, k));
      }
    }
  }

  lemma {:induction false} NotLess(a: Bytes)
    ensures !Less(a, a)
  {
    if |a| > 0 {
      NotLess(a[1..]);
    }
  }

  lemma SmallHeads(j: nat, k: nat)
    requires j < 24 && k < 24 && Less(Head(MAJOR_UINT, j), Head(MAJOR_UINT, k))
    ensures j < k
  {
    NotLess([]);
  }

  /** The pair in front is that of the least key. */
  lemma LeastFirst(b: Bytes, count: nat, last: Bytes, k: nat) returns (z: Bytes)
    requires ShortPairs(b, count, last).Some? && k in ShortPairs(b, count, last).value
    requires forall j :: j in ShortPairs(b, count, last).value ==> k <= j < 24
    ensures var m := ShortPairs(b, count, last).value;
            && count > 0 && Writable(m[k]) && b == Head(MAJOR_UINT, k) + (ScalarBytes(m[k]) + z)
            && ShortPairs(z, count - 1, Head(MAJOR_UINT, k)) == Some(m - {k})
  {
    hide ShortHead, ShortScalar, Head, Less, ScalarBytes;
    var m := ShortPairs(b, count, last).value;
    var h := ShortHead(b).value;
    ShortIsWritten(b);
    var key, after := b[..h.size], b[h.size..];
    ScalarIs(after);
    var n := ShortScalar(after).value.1;
    z := after[n..];
    KeysAfter(z, count - 1, key);
    var rest := ShortPairs(z, count - 1, key).value;
    assert m == rest[h.arg := ShortScalar(after).value.0] && h.arg in m;
    assert key == Head(MAJOR_UINT, h.arg);
    if h.arg != k {
      assert k in rest;
      SmallHeads(h.arg, k);
    }
    if k in rest {
      NotLess(key);
    }
    assert m - {k} == rest;
    assert b == key + (after[..n] + z);
  }

  /** The part of a map from a key on. */
  function From(m: map<nat, Scalar>, k: nat): map<nat, Scalar> {
    map j | j in m && j >= k :: m[j]
  }

  predicate Small(m: map<nat, Scalar>) {
    forall j :: j in m ==> j < 6 && Writable(m[j])
  }

  /** The pairs of a map with keys below six, from a key on. */
  function Written(m: map<nat, Scalar>, k: nat): Bytes
    requires Small(m) && k <= 6
    decreases 6 - k
  {
    if k == 6 then []
    else if k in m then Head(MAJOR_UINT, k) + (ScalarBytes(m[k]) + Written(m, k + 1))
    else Written(m, k + 1)
  }

  lemma FromStep(m: map<nat, Scalar>, k: nat)
    requires Small(m) && k < 6
    ensures if k in m then From(m, k) == From(m, k + 1)[k := m[k]] && From(m, k) - {k} == From(m, k + 1)
                           && |From(m, k)| == |From(m, k + 1)| + 1
            else From(m, k) == From(m, k + 1)
  {
    if k in m {
      assert From(m, k) == From(m, k + 1)[k := m[k]];
      assert From(m, k).Keys == From(m, k + 1).Keys + {k};
    }
  }

  predicate Before(last: Bytes, k: nat) {
    last == [] || exists j :: 0 <= j < k && j < 24 && last == Head(MAJOR_UINT, j)
  }

  lemma BeforeIsLess(last: Bytes, k: nat)
    requires Before(last, k) && k < 24
    ensures Less(last, Head(MAJOR_UINT, k)) && Before(last, k + 1) && Before(Head(MAJOR_UINT, k), k + 1)
  {
  }

  /** What is written is deterministic and stands for the map. */
  lemma {:induction false} WrittenReads(m: map<nat, Scalar>, k: nat, last: Bytes)
    requires Small(m) && k <= 6 && Before(last, k)
    ensures ShortPairs(Written(m, k), |From(m, k)|, last) == Some(From(m, k))
    decreases 6 - k
  {
    hide ShortPairs, Head, Before, From, ScalarBytes;
    if k == 6 {
      NothingFrom(m);
      NoPairs(last);
    } else {
      FromStep(m, k);
      BeforeIsLess(last, k);
      if k in m {
        WrittenReads(m, k + 1, Head(MAJOR_UINT, k));
        PairReads(k, m[k], Written(m, k + 1), |From(m, k + 1)|, last);
      } else {
        WrittenReads(m, k + 1, last);
      }
    }
  }

  lemma NothingFrom(m: map<nat, Scalar>)
    requires Small(m)
    ensures From(m, 6) == map[]
  {
  }

  lemma NoPairs(last: Bytes)
    ensures ShortPairs([], 0, last) == Some(map[])
  {
  }

  /** And nothing else does. */
  lemma {:induction false} WrittenOnly(m: map<nat, Scalar>, k: nat, b: Bytes, count: nat, last: Bytes)
    requires Small(m) && k <= 6 && ShortPairs(b, count, last) == Some(From(m, k))
    ensures b == Written(m, k) && count == |From(m, k)|
    decreases 6 - k
  {
    hide Head, ScalarBytes, ShortHead, ShortScalar;
    KeysAfter(b, count, last);
    if k == 6 {
      NothingFrom(m);
    } else {
      FromStep(m, k);
      if k in m {
        var z := LeastFirst(b, count, last, k);
        WrittenOnly(m, k + 1, z, count - 1, Head(MAJOR_UINT, k));
      } else {
        WrittenOnly(m, k + 1, b, count, last);
      }
    }
  }

  /** The one deterministic encoding of a map with keys below six. */
  function MapBytes(m: map<nat, Scalar>): Bytes
    requires Small(m)
  {
    SmallSize(m);
    Head(MAJOR_MAP, |m|) + Written(m, 0)
  }

  lemma SmallSize(m: map<nat, Scalar>)
    requires Small(m)
    ensures |m| <= 6
  {
    BelowSize(m.Keys, 6);
  }

  lemma {:induction false} BelowSize(s: set<nat>, n: nat)
    requires forall j :: j in s ==> j < n
    ensures |s| <= n
  {
    if n > 0 {
      BelowSize(s - {n - 1}, n - 1);
    }
  }

  /** A byte string is the deterministic encoding of such a map exactly if it is that one. */
  lemma MapExactly(m: map<nat, Scalar>, b: Bytes)
    requires Small(m)
    ensures ShortMap(b) == Some(m) <==> b == MapBytes(m)
  {
    hide Head, ShortHead, ShortPairs, Written;
    SmallSize(m);
    assert From(m, 0) == m;
    WrittenReads(m, 0, []);
    WrittenIsShort(MAJOR_MAP, |m|, Written(m, 0));
    var h := Head(MAJOR_MAP, |m|);
    assert (h + Written(m, 0))[|h|..] == Written(m, 0);
    if ShortMap(b) == Some(m) {
      var s := ShortHead(b).value;
      ShortIsWritten(b);
      WrittenOnly(m, 0, b[s.size..], s.arg, []);
      assert b == b[..s.size] + b[s.size..];
    }
  }
}
