/** The encoder writes legal fields, and decoding them is the identity. */
module Encoding {
  import opened Wrappers
  import opened Words
  import opened Varint
  import opened Wire
  import opened Grammar
  import opened Codec
  import opened Decoding

  /** Truncation undoes sign extension. */
  lemma SignSurvives(t: i32)
    ensures ToInt32(SignExtend(t)) == t
  {
    if t < 0 {
      ToInt32Wraps(t + TWO_32, 0xFFFF_FFFF);
    }
  }

  lemma OneByteTag(b: u8)
    requires b < 0x80
    ensures IsVarint([b]) && WireType([b]) == b % 8 && FieldNumber([b]) == b / 8
  {
    assert [b][..1] == [b] && [b][1..] == [];
    assert Value([]) == 0;
    assert Value([b]) == b;
  }

  lemma EncodedIsVarint(v: u64)
    ensures IsVarint(EncodeVarint(v)) && Value(EncodeVarint(v)) == v
  {
    EncodedAtMost10(v);
    ReadEncoded(v, 0, []);
    assert EncodeVarint(v) + [] == EncodeVarint(v);
  }

  function TypeField(t: i32): WireField {
    VarintField([0x8], EncodeVarint(SignExtend(t)))
  }

  function DataField(data: seq<u8>): WireField {
    LenField([0x12], EncodeVarint(|data|), data)
  }

  lemma TypeFieldIsLegal(t: i32)
    ensures Legal(TypeField(t)) && forall m :: Merge(m, TypeField(t)) == m.(typ := t)
  {
    OneByteTag(0x8);
    EncodedIsVarint(SignExtend(t));
    SignSurvives(t);
  }

  lemma DataFieldIsLegal(data: seq<u8>)
    requires IsSlice(data)
    ensures Legal(DataField(data)) && forall m :: Merge(m, DataField(data)) == m.(data := data)
  {
    OneByteTag(0x12);
    EncodedIsVarint(|data|);
  }

  /** The fields that the encoder writes. */
  function TypeFields(t: i32): seq<WireField> {
    if t != 0 then [TypeField(t)] else []
  }

  function DataFields(data: seq<u8>): seq<WireField> {
    if data != [] then [DataField(data)] else []
  }

  function FieldsOf(m: Msg): seq<WireField> {
    TypeFields(m.typ) + DataFields(m.data)
  }

  lemma {:induction false} AllBytesAppend(a: seq<WireField>, b: seq<WireField>)
    ensures AllBytes(a + b) == AllBytes(a) + AllBytes(b)
    decreases |a|
  {
    if a == [] {
      assert a + b == b;
    } else {
      AllBytesAppend(a[1..], b);
      assert (a + b)[1..] == a[1..] + b && (a + b)[0] == a[0];
      Assoc(Bytes(a[0]), AllBytes(a[1..]), AllBytes(b));
    }
  }

  lemma EncodeWritesFields(m: Msg)
    ensures AllBytes(FieldsOf(m)) == Encode(m)
  {
    AllBytesAppend(TypeFields(m.typ), DataFields(m.data));
    assert AllBytes([TypeField(m.typ)]) == Bytes(TypeField(m.typ)) by { assert [TypeField(m.typ)][1..] == []; }
    assert AllBytes([DataField(m.data)]) == Bytes(DataField(m.data)) by { assert [DataField(m.data)][1..] == []; }
  }

  lemma MergeFirst(m: Msg, f: WireField, rest: seq<WireField>)
    requires Legal(f) && AllLegal(rest)
    ensures AllLegal([f] + rest) && MergeAll(m, [f] + rest) == MergeAll(Merge(m, f), rest)
  {
    assert ([f] + rest)[1..] == rest;
  }

  lemma DataFieldsMerge(data: seq<u8>, into: Msg)
    requires IsSlice(data)
    ensures AllLegal(DataFields(data))
    ensures MergeAll(into, DataFields(data)) == if data != [] then into.(data := data) else into
  {
    DataFieldIsLegal(data);
    OneFieldAlone(DataField(data), into);
  }

  lemma FieldsMergeTo(m: Msg, into: Msg)
    requires IsSlice(m.data)
    ensures AllLegal(FieldsOf(m))
    ensures MergeAll(into, FieldsOf(m)) == Msg(if m.typ != 0 then m.typ else into.typ,
                                              if m.data != [] then m.data else into.data)
  {
    DataFieldsMerge(m.data, if m.typ != 0 then into.(typ := m.typ) else into);
    if m.typ != 0 {
      TypeFieldIsLegal(m.typ);
      MergeFirst(into, TypeField(m.typ), DataFields(m.data));
    } else {
      assert FieldsOf(m) == DataFields(m.data);
    }
  }

  /** Round trip, for every type and every data: what was encoded decodes again, into an empty message exactly, and
      into any message with its nonzero type and nonempty data taking over. */
  lemma RoundTrip(m: Msg, into: Msg)
    requires IsSlice(Encode(m))
    ensures Unmarshaled(Encode(m), Msg(0, [])) == Decoded(m, None)
    ensures Unmarshaled(Encode(m), into) == Decoded(Msg(if m.typ != 0 then m.typ else into.typ,
                                                        if m.data != [] then m.data else into.data), None)
  {
    EncodeWritesFields(m);
    FieldsMergeTo(m, into);
    FieldsMergeTo(m, Msg(0, []));
    UnmarshalMergesFields(Encode(m), into);
    UnmarshalMergesFields(Encode(m), Msg(0, []));
  }
}
