/** The encoding of a reference record is the deterministic CBOR of its fields, and decoding accepts
    exactly that. */
module ReferenceCanonical {
  import opened Bits
  import opened Endian
  import opened Cbor
  import opened DeterministicCbor
  import StoreKey
  import opened ReferenceRecord

  /** The fields that every record has, by their numbers. */
  function Mandatory(r: Reference): map<nat, Scalar> {
    map[0 := Tstr(r.name), 1 := Bstr(r.key), 2 := Tstr(r.user), 3 := Int(r.createdAt)]
  }

  /** An optional byte string, left out if it is empty. */
  function With(m: map<nat, Scalar>, k: nat, s: Bytes): map<nat, Scalar> {
    if s == [] then m else m[k := Bstr(s)]
  }

  function FieldMap(r: Reference): map<nat, Scalar> {
    With(With(Mandatory(r), 4, r.signature), 5, r.publicKey)
  }

  lemma FieldsSmall(r: Reference)
    requires Valid(r)
    ensures Small(FieldMap(r)) && |FieldMap(r)| == PairCount(r)
  {
    hide Valid, FieldMap, Small, PairCount;
    Sizes(r);
    FieldsWritable(r);
    FieldCount(r);
  }

  lemma Sizes(r: Reference)
    requires Valid(r)
    ensures |r.name| < TWO64 && |r.key| < TWO64 && |r.user| < TWO64 && |r.signature| < TWO64 && |r.publicKey| < TWO64
  {
  }

  lemma FieldsWritable(r: Reference)
    requires |r.name| < TWO64 && |r.key| < TWO64 && |r.user| < TWO64 && |r.signature| < TWO64 && |r.publicKey| < TWO64
    ensures Small(FieldMap(r))
  {
  }

  lemma FieldCount(r: Reference)
    ensures |FieldMap(r)| == PairCount(r)
  {
    hide Mandatory, With;
    MandatoryCount(r);
    OneMore(Mandatory(r), 4, r.signature);
    OneMore(With(Mandatory(r), 4, r.signature), 5, r.publicKey);
  }

  lemma MandatoryCount(r: Reference)
    ensures |Mandatory(r)| == 4 && Mandatory(r).Keys == {0, 1, 2, 3}
  {
    assert Mandatory(r).Keys == {0, 1, 2, 3};
  }

  lemma OneMore(m: map<nat, Scalar>, k: nat, s: Bytes)
    requires k !in m
    ensures |With(m, k, s)| == |m| + (if s == [] then 0 else 1)
    ensures With(m, k, s).Keys == m.Keys + (if s == [] then {} else {k})
  {
    if s != [] {
      assert m[k := Bstr(s)].Keys == m.Keys + {k};
    }
  }

  lemma FieldValues(r: Reference)
    ensures var m := FieldMap(r);
            && 0 in m && 1 in m && 2 in m && 3 in m
            && m[0] == Tstr(r.name) && m[1] == Bstr(r.key) && m[2] == Tstr(r.user) && m[3] == Int(r.createdAt)
            && (4 in m <==> r.signature != []) && (4 in m ==> m[4] == Bstr(r.signature))
            && (5 in m <==> r.publicKey != []) && (5 in m ==> m[5] == Bstr(r.publicKey))
  {
  }

  lemma WrittenKey(m: map<nat, Scalar>, k: nat)
    requires Small(m) && k < 6
    ensures Written(m, k)
         == if k in m then Head(MAJOR_UINT, k) + (ScalarBytes(m[k]) + Written(m, k + 1)) else Written(m, k + 1)
  {
    hide Head, ScalarBytes;
  }

  /** A pair as the record writes it. */
  lemma FieldPair(k: u64, v: Scalar, z: Bytes, item: Bytes)
    requires Writable(v) && item == ScalarBytes(v)
    ensures Head(MAJOR_UINT, k) + (ScalarBytes(v) + z) == Pair(k, item) + z
  {
    hide Head, ScalarBytes;
  }

  /** The pairs that are written are those of the fields in the order of their keys. */
  lemma PairsAreFields(r: Reference)
    requires Valid(r) && Small(FieldMap(r))
    ensures Pairs(r) == Written(FieldMap(r), 0)
  {
    hide Head, Small, FieldMap, Written, Valid, ScalarBytes, Pair, StringItem, IntItem, BytesPair;
    var m := FieldMap(r);
    Sizes(r);
    FieldValues(r);
    LastPairs(r);
    Items(r);
    WrittenKey(m, 3);
    FieldPair(3, m[3], Written(m, 4), IntItem(r.createdAt));
    WrittenKey(m, 2);
    FieldPair(2, m[2], Written(m, 3), StringItem(MAJOR_TSTR, r.user));
    WrittenKey(m, 1);
    FieldPair(1, m[1], Written(m, 2), StringItem(MAJOR_BSTR, r.key));
    WrittenKey(m, 0);
    FieldPair(0, m[0], Written(m, 1), StringItem(MAJOR_TSTR, r.name));
  }

  lemma Items(r: Reference)
    requires |r.name| < TWO64 && |r.key| < TWO64 && |r.user| < TWO64
    ensures Writable(Tstr(r.name)) && Writable(Bstr(r.key)) && Writable(Tstr(r.user)) && Writable(Int(r.createdAt))
    ensures ScalarBytes(Tstr(r.name)) == StringItem(MAJOR_TSTR, r.name)
    ensures ScalarBytes(Bstr(r.key)) == StringItem(MAJOR_BSTR, r.key)
    ensures ScalarBytes(Tstr(r.user)) == StringItem(MAJOR_TSTR, r.user)
    ensures ScalarBytes(Int(r.createdAt)) == IntItem(r.createdAt)
  {
    hide Head;
  }

  lemma LastPairs(r: Reference)
    requires Valid(r) && Small(FieldMap(r))
    ensures Written(FieldMap(r), 4) == BytesPair(4, r.signature) + BytesPair(5, r.publicKey)
  {
    hide Head, Small, FieldMap, Written, Valid;
    var m := FieldMap(r);
    Sizes(r);
    FieldValues(r);
    WrittenKey(m, 4);
    WrittenKey(m, 5);
    assert Written(m, 6) == [] by { WrittenEnd(m); }
    var five := BytesPair(5, r.publicKey);
    assert Written(m, 5) == five by { OptionalWritten(5, r.publicKey, []); assert five + [] == five; }
    OptionalWritten(4, r.signature, five);
  }

  lemma WrittenEnd(m: map<nat, Scalar>)
    requires Small(m)
    ensures Written(m, 6) == []
  {
  }

  lemma OptionalWritten(k: u64, s: Bytes, z: Bytes)
    requires |s| < TWO64
    ensures s != [] ==> Head(MAJOR_UINT, k) + (ScalarBytes(Bstr(s)) + z) == BytesPair(k, s) + z
    ensures s == [] ==> BytesPair(k, s) + z == z
  {
    hide Head;
  }

  lemma EncodingIsMap(r: Reference)
    requires Valid(r)
    ensures Small(FieldMap(r)) && Encoding(r) == MapBytes(FieldMap(r))
  {
    hide Head, Valid, FieldMap, Small, Pairs, Written;
    FieldsSmall(r);
    PairsAreFields(r);
  }

  /** The encoding is deterministic CBOR for the fields, and the only byte string that is. */
  lemma EncodingIsDeterministic(r: Reference, b: Bytes)
    requires Valid(r)
    ensures ShortMap(b) == Some(FieldMap(r)) <==> b == Encoding(r)
  {
    hide Encoding, Valid, FieldMap, Small, ShortMap, MapBytes;
    EncodingIsMap(r);
    MapExactly(FieldMap(r), b);
  }

  /** `decode` accepts exactly the deterministic CBOR maps that hold the fields of a valid record. */
  lemma DecodesDeterministic(b: Bytes, r: Reference)
    ensures DecodeOf(b) == Decoded(r) <==> Valid(r) && Texts(r) && ShortMap(b) == Some(FieldMap(r))
  {
    hide DecodeOf, Encoding, Valid, Texts, FieldMap, ShortMap;
    DecodesExactly(b, r);
    if Valid(r) {
      EncodingIsDeterministic(r, b);
    }
  }

  /** Records with the same fields are the same. */
  lemma FieldsDetermine(r: Reference, s: Reference)
    requires FieldMap(r) == FieldMap(s)
    ensures r == s
  {
    hide FieldMap;
    FieldValues(r);
    FieldValues(s);
  }
}
