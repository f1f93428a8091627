/** What the decoder does, in terms of the fields that its input is made of. One iteration reads a legal field, whatever
    follows it, and nothing but a legal field; the loop reads a sequence of these and merges them, with the last one
    winning. Module Decoding says what this comes to, module Folding what it means for inputs that are put together,
    and module Encoding that it undoes the encoder. The decoder is passed as a parameter to the lemmas about its loop,
    which keeps their proofs apart from those about one iteration. */
module Codec {
  import opened Wrappers
  import opened Words
  import opened Varint
  import opened Wire
  import opened Grammar

  /** The field number of a tag, as the decoder truncates it. */
  function Number(f: WireField): i32
    requires IsVarint(f.tag)
  {
    FieldNumber(f.tag)
  }

  /** The tag is one the decoder does not reject. Fields inside a group may have any number. */
  predicate Acceptable(f: WireField)
    requires IsVarint(f.tag)
  {
    0 < Number(f) && (Number(f) == 1 ==> f.VarintField?) && (Number(f) == 2 ==> f.LenField?)
  }

  ghost predicate Legal(f: WireField) {
    WellFormed(f) && Acceptable(f)
  }

  ghost predicate AllLegal(fs: seq<WireField>) {
    forall i :: 0 <= i < |fs| ==> Legal(fs[i])
  }

  ghost function Merge(m: Msg, f: WireField): Msg
    requires Legal(f)
  {
    if Number(f) == 1 then m.(typ := ToInt32(Value(f.value)))
    else if Number(f) == 2 then m.(data := f.payload)
    else m
  }

  /** Merge fields into a message, the first one first. */
  ghost function MergeAll(m: Msg, fs: seq<WireField>): Msg
    requires AllLegal(fs)
    decreases |fs|
  {
    if fs == [] then m else MergeAll(Merge(m, fs[0]), fs[1..])
  }

  // ---------- One field ----------

  lemma TagAtStart(tag: seq<u8>, rest: seq<u8>)
    requires IsVarint(tag)
    ensures tag + rest != [] && VarintExtent(tag + rest, 0) == Extent(|tag|, None)
    ensures WireType(tag + rest) == WireType(tag) && FieldNumber(tag + rest) == FieldNumber(tag)
    ensures (tag + rest)[|tag|..] == rest
  {
    VarintAtStart(tag, rest);
    assert tag[..|tag|] == tag;
  }

  lemma DecodeType(f: WireField, rest: seq<u8>, at: nat, m: Msg)
    requires Legal(f) && Number(f) == 1
    ensures DecodeField(Bytes(f) + rest, at, m) == Field(Merge(m, f), |Bytes(f)|, None)
  {
    Assoc(f.tag, f.value, rest);
    TagAtStart(f.tag, f.value + rest);
    VarintAtStart(f.value, rest);
  }

  lemma DecodeData(f: WireField, rest: seq<u8>, at: nat, m: Msg)
    requires Legal(f) && Number(f) == 2 && at + |Bytes(f)| < TWO_63
    ensures DecodeField(Bytes(f) + rest, at, m) == Field(Merge(m, f), |Bytes(f)|, None)
  {
    var s := Bytes(f) + rest;
    assert s[|f.tag + f.len|..|Bytes(f)|] == f.payload;
    Assoc(f.tag + f.len, f.payload, rest);
    Assoc(f.tag, f.len, f.payload + rest);
    TagAtStart(f.tag, f.len + (f.payload + rest));
    VarintAtStart(f.len, f.payload + rest);
  }

  /** The tag stands at the start of the field's bytes. */
  lemma BytesFromTag(f: WireField) returns (rest: seq<u8>)
    ensures Bytes(f) == f.tag + rest
  {
    match f
    case VarintField(tag, value) => rest := value;
    case LenField(tag, len, payload) =>
      Assoc(tag, len, payload);
      rest := len + payload;
    case GroupField(tag, body, end) =>
      Assoc(tag, AllBytes(body), end);
      rest := AllBytes(body) + end;
    case Fixed64(tag, bytes) => rest := bytes;
    case Fixed32(tag, bytes) => rest := bytes;
  }

  lemma DecodeUnknown(f: WireField, rest: seq<u8>, at: nat, m: Msg)
    requires Legal(f) && Number(f) > 2 && at + |Bytes(f) + rest| < TWO_63
    ensures DecodeField(Bytes(f) + rest, at, m) == Field(m, |Bytes(f)|, None)
  {
    var s := Bytes(f) + rest;
    var inner := BytesFromTag(f);
    Assoc(f.tag, inner, rest);
    TagAtStart(f.tag, inner + rest);
    assert StartsWithField(s, f);
    SkipsOneField(SkipItem, s);
  }

  /** The decoder reads a legal field, whatever follows it, and merges it. */
  lemma DecodeLegal(f: WireField, rest: seq<u8>, at: nat, m: Msg)
    requires Legal(f) && at + |Bytes(f) + rest| < TWO_63
    ensures DecodeField(Bytes(f) + rest, at, m) == Field(Merge(m, f), |Bytes(f)|, None)
  {
    if Number(f) == 1 {
      DecodeType(f, rest, at, m);
    } else if Number(f) == 2 {
      DecodeData(f, rest, at, m);
    } else {
      DecodeUnknown(f, rest, at, m);
    }
  }

  /** A field that the decoder reads stands at the start of s. */
  ghost predicate ReadsLegal(s: seq<u8>, at: nat, m: Msg, f: WireField) {
    Legal(f) && StandsAt(s, 0, Bytes(f)) && DecodeField(s, at, m) == Field(Merge(m, f), |Bytes(f)|, None)
  }

  lemma ConfirmField(s: seq<u8>, at: nat, m: Msg, f: WireField)
    requires Legal(f) && StandsAt(s, 0, Bytes(f)) && at + |s| < TWO_63
    ensures ReadsLegal(s, at, m, f)
  {
    RestFrom(s, 0, Bytes(f));
    DecodeLegal(f, s[|Bytes(f)|..], at, m);
  }

  /** The field's tag is what the decoder reads as the tag of s. */
  lemma TagOf(s: seq<u8>, f: WireField)
    requires StandsAt(s, 0, Bytes(f)) && IsVarint(f.tag)
    ensures VarintExtent(s, 0).err.None? && s != []
    ensures FieldNumber(s) == FieldNumber(f.tag) && WireType(s) == WireType(f.tag)
  {
    var inner := BytesFromTag(f);
    RestFrom(s, 0, Bytes(f));
    Assoc(f.tag, inner, s[|Bytes(f)|..]);
    TagAtStart(f.tag, inner + s[|Bytes(f)|..]);
  }

  lemma ParseKnown(s: seq<u8>, at: nat, m: Msg) returns (f: WireField)
    requires s != [] && at + |s| < TWO_63 && DecodeField(s, at, m).err.None? && FieldNumber(s) <= 2
    ensures ReadsLegal(s, at, m, f)
  {
    f := ParseSimpleField(s, 0);
    assert s[..|Bytes(f)|] == Bytes(f);
    TagOf(s, f);
    ConfirmField(s, at, m, f);
  }

  lemma ParseUnknown(s: seq<u8>, at: nat, m: Msg)
    requires s != [] && at + |s| < TWO_63 && DecodeField(s, at, m).err.None? && FieldNumber(s) > 2
    ensures exists f :: ReadsLegal(s, at, m, f)
  {
    SkipsOneField(SkipItem, s);
    var f :| StartsWithField(s, f);
    TagOf(s, f);
    ConfirmField(s, at, m, f);
  }

  /** The decoder reads nothing but legal fields. */
  lemma ParseLegal(s: seq<u8>, at: nat, m: Msg)
    requires s != [] && at + |s| < TWO_63 && DecodeField(s, at, m).err.None?
    ensures exists f :: ReadsLegal(s, at, m, f)
  {
    if FieldNumber(s) <= 2 {
      var f := ParseKnown(s, at, m);
    } else {
      ParseUnknown(s, at, m);
    }
  }

  // ---------- Whole messages ----------

  lemma DecodeStep(read: Decoder, s: seq<u8>, i: nat, m: Msg, f: WireField)
    requires ReadsFields(read) && |s| < TWO_63 && i < |s| && ReadsLegal(s[i..], i, m, f)
    ensures i < i + |Bytes(f)| <= |s| && Decode(read, s, i, m) == Decode(read, s, i + |Bytes(f)|, Merge(m, f))
  {
    BytesNonEmpty(f);
    assert read(s[i..], i, m) == DecodeField(s[i..], i, m);
  }

  lemma DecodeNext(read: Decoder, s: seq<u8>, i: nat, m: Msg, f: WireField)
    requires ReadsFields(read) && |s| < TWO_63 && Legal(f) && StandsAt(s, i, Bytes(f))
    ensures Decode(read, s, i, m) == Decode(read, s, i + |Bytes(f)|, Merge(m, f))
  {
    BytesNonEmpty(f);
    ConfirmField(s[i..], i, m, f);
    DecodeStep(read, s, i, m, f);
  }

  lemma FirstField(fs: seq<WireField>, m: Msg)
    requires AllLegal(fs) && fs != []
    ensures Legal(fs[0]) && AllLegal(fs[1..]) && AllBytes(fs) == Bytes(fs[0]) + AllBytes(fs[1..])
    ensures MergeAll(m, fs) == MergeAll(Merge(m, fs[0]), fs[1..])
  {
  }

  /** The decoder gets past the first of the fields that stand at index i. */
  lemma DecodeFirst(read: Decoder, s: seq<u8>, i: nat, m: Msg, fs: seq<WireField>) returns (j: nat, m': Msg)
    requires ReadsFields(read) && |s| < TWO_63 && AllLegal(fs) && fs != [] && StandsAt(s, i, AllBytes(fs))
    ensures AllLegal(fs[1..]) && StandsAt(s, j, AllBytes(fs[1..]))
    ensures j + |AllBytes(fs[1..])| == i + |AllBytes(fs)| && MergeAll(m', fs[1..]) == MergeAll(m, fs)
    ensures Decode(read, s, i, m) == Decode(read, s, j, m')
  {
    var f, rest := fs[0], AllBytes(fs[1..]);
    FirstField(fs, m);
    StandsSplit(s, i, Bytes(f), rest);
    DecodeNext(read, s, i, m, f);
    return i + |Bytes(f)|, Merge(m, f);
  }

  /** From index i, where these fields stand, the decoder gets past them, to index j with the merged message. */
  lemma {:induction false} DecodeFieldsTo(read: Decoder, s: seq<u8>, i: nat, m: Msg, fs: seq<WireField>,
                                          j: nat, merged: Msg)
    requires ReadsFields(read) && |s| < TWO_63 && AllLegal(fs) && StandsAt(s, i, AllBytes(fs))
    requires j == i + |AllBytes(fs)| && merged == MergeAll(m, fs)
    ensures Decode(read, s, i, m) == Decode(read, s, j, merged)
    decreases |fs|
  {
    if fs != [] {
      var k, m' := DecodeFirst(read, s, i, m, fs);
      DecodeFieldsTo(read, s, k, m', fs[1..], j, merged);
    }
  }

  lemma DecodeFields(read: Decoder, s: seq<u8>, i: nat, m: Msg, fs: seq<WireField>)
    requires ReadsFields(read) && |s| < TWO_63 && AllLegal(fs) && StandsAt(s, i, AllBytes(fs))
    ensures Decode(read, s, i, m) == Decode(read, s, i + |AllBytes(fs)|, MergeAll(m, fs))
  {
    DecodeFieldsTo(read, s, i, m, fs, i + |AllBytes(fs)|, MergeAll(m, fs));
  }

  lemma PrependLegal(s: seq<u8>, i: nat, f: WireField, fs: seq<WireField>)
    requires Legal(f) && AllLegal(fs) && StandsAt(s, i, Bytes(f)) && StandsAt(s, i + |Bytes(f)|, AllBytes(fs))
    ensures AllLegal([f] + fs) && StandsAt(s, i, AllBytes([f] + fs))
    ensures |AllBytes([f] + fs)| == |Bytes(f)| + |AllBytes(fs)|
  {
    assert ([f] + fs)[1..] == fs;
    StandsSplit(s, i, Bytes(f), AllBytes(fs));
  }

  /** Where decoding goes on, it gets past a legal field. */
  lemma ParseNext(read: Decoder, s: seq<u8>, i: nat, m: Msg) returns (f: WireField)
    requires ReadsFields(read) && |s| < TWO_63 && i < |s| && Decode(read, s, i, m).err.None?
    ensures Legal(f) && StandsAt(s, i, Bytes(f)) && i < i + |Bytes(f)| <= |s|
    ensures Decode(read, s, i + |Bytes(f)|, Merge(m, f)).err.None?
  {
    assert read(s[i..], i, m) == DecodeField(s[i..], i, m);
    ParseLegal(s[i..], i, m);
    f :| ReadsLegal(s[i..], i, m, f);
    DecodeStep(read, s, i, m, f);
  }

  /** The fields that a successful decoding has read. */
  lemma {:induction false} ParseMessage(read: Decoder, s: seq<u8>, i: nat, m: Msg) returns (fs: seq<WireField>)
    requires ReadsFields(read) && |s| < TWO_63 && i <= |s| && Decode(read, s, i, m).err.None?
    ensures AllLegal(fs) && StandsAt(s, i, AllBytes(fs)) && i + |AllBytes(fs)| == |s|
    decreases |s| - i
  {
    if i == |s| {
      return [];
    }
    var f := ParseNext(read, s, i, m);
    fs := ParseMessage(read, s, i + |Bytes(f)|, Merge(m, f));
    PrependLegal(s, i, f, fs);
    fs := [f] + fs;
  }

  lemma DecodesFields(read: Decoder, s: seq<u8>, m: Msg)
    requires ReadsFields(read) && |s| < TWO_63
    ensures Decode(read, s, 0, m).err.None? <==> exists fs :: AllLegal(fs) && AllBytes(fs) == s
    ensures forall fs :: AllLegal(fs) && AllBytes(fs) == s ==> Decode(read, s, 0, m) == Decoded(MergeAll(m, fs), None)
  {
    forall fs | AllLegal(fs) && AllBytes(fs) == s ensures Decode(read, s, 0, m) == Decoded(MergeAll(m, fs), None) {
      DecodeFields(read, s, 0, m, fs);
    }
    if Decode(read, s, 0, m).err.None? {
      var fs := ParseMessage(read, s, 0, m);
      assert AllBytes(fs) == s;
    }
  }

  lemma OneFieldAlone(f: WireField, m: Msg)
    requires Legal(f)
    ensures AllLegal([f]) && AllBytes([f]) == Bytes(f) && MergeAll(m, [f]) == Merge(m, f)
  {
    assert [f][1..] == [];
    assert MergeAll(Merge(m, f), []) == Merge(m, f);
  }

  lemma UnknownFieldAlone(f: WireField, m: Msg)
    requires IsSlice(Bytes(f)) && Legal(f) && Number(f) > 2
    ensures Unmarshaled(Bytes(f), m) == Decoded(m, None)
  {
    OneFieldAlone(f, m);
    DecodesFields(DecodeField, Bytes(f), m);
  }
}
