/** Decoding is a left fold over concatenation, up to the error, and unknown fields are transparent. */
module Folding {
  import opened Wrappers
  import opened Words
  import opened Varint
  import opened Wire
  import opened Grammar
  import opened Codec
  import opened Decoding
  import opened Encoding

  /** The bytes that the field at the start of s claims, if it is the data or an unknown field and says how many. */
  function Claim(s: seq<u8>): nat {
    var tag := VarintExtent(s, 0);
    if tag.err.Some? || WireType(s) == 4 || FieldNumber(s) <= 1 then 0
    else if FieldNumber(s) == 2 then
      if WireType(s) != 2 then 0 else
      var rest := s[tag.used..];
      var len := VarintExtent(rest, 0);
      if len.err.Some? || LengthPrefix(rest) < 0 then 0 else tag.used + len.used + LengthPrefix(rest)
    else Skip(SkipItem, s, 0, 0).end
  }

  type Measure = seq<u8> -> nat

  /** The index at which the field that decoding from index i on fails at claims to end, as `claim` measures it. */
  function FaultEnd(read: Decoder, claim: Measure, s: seq<u8>, i: nat, m: Msg): nat
    requires i <= |s|
    decreases |s| - i
  {
    if i == |s| then i else
    var f := read(s[i..], i, m);
    if f.err.None? && 0 < f.used <= |s| - i then FaultEnd(read, claim, s, i + f.used, f.msg) else i + claim(s[i..])
  }

  ghost predicate MeasuresClaims(claim: Measure) {
    forall s: seq<u8> {:trigger Claim(s)} :: claim(s) == Claim(s)
  }

  /** A field whose claim reaches past the end of the input is refused for that near the start of the input, and for
      its length further on, where the index at which it ends overflows. */
  predicate SameButForOverflow(near: Option<Error>, far: Option<Error>, nearEnd: nat, farEnd: nat) {
    if nearEnd < TWO_63 <= farEnd then near == Some(UnexpectedEOF) && far == Some(InvalidLength) else near == far
  }

  lemma FieldFurtherOn(s: seq<u8>, at: nat, further: nat, m: Msg)
    requires at <= further && further + |s| < TWO_63
    ensures var near, far := DecodeField(s, at, m), DecodeField(s, further, m);
            && near.msg == far.msg && near.used == far.used
            && SameButForOverflow(near.err, far.err, at + Claim(s), further + Claim(s))
  {
  }

  /** One iteration, in y and at the same place of x + y. */
  lemma StepFurtherOn(read: Decoder, claim: Measure, x: seq<u8>, y: seq<u8>, i: nat, m: Msg)
    requires ReadsFields(read) && MeasuresClaims(claim) && |x + y| < TWO_63 && i < |y|
    ensures var near, far := read(y[i..], i, m), read((x + y)[|x| + i..], |x| + i, m);
            && near.msg == far.msg && near.used == far.used
            && SameButForOverflow(near.err, far.err, i + claim(y[i..]), |x| + i + claim(y[i..]))
            && (near.err.None? ==> 0 < near.used <= |y| - i)
  {
    var s := y[i..];
    assert (x + y)[|x| + i..] == s;
    assert read(s, i, m) == DecodeField(s, i, m) && read(s, |x| + i, m) == DecodeField(s, |x| + i, m);
    FieldFurtherOn(s, i, |x| + i, m);
  }

  /** Decoding goes on after a field that it reads. */
  lemma GoesOn(read: Decoder, claim: Measure, s: seq<u8>, i: nat, m: Msg, f: Field)
    requires i < |s| && f == read(s[i..], i, m) && f.err.None? && 0 < f.used <= |s| - i
    ensures Decode(read, s, i, m) == Decode(read, s, i + f.used, f.msg)
    ensures FaultEnd(read, claim, s, i, m) == FaultEnd(read, claim, s, i + f.used, f.msg)
  {
  }

  lemma {:induction false} DecodeFurtherOn(read: Decoder, claim: Measure, x: seq<u8>, y: seq<u8>, i: nat, m: Msg)
    requires ReadsFields(read) && MeasuresClaims(claim) && |x + y| < TWO_63 && i <= |y|
    ensures var near, far := Decode(read, y, i, m), Decode(read, x + y, |x| + i, m);
            var end := FaultEnd(read, claim, y, i, m);
            near.msg == far.msg && SameButForOverflow(near.err, far.err, end, |x| + end)
    decreases |y| - i
  {
    if i < |y| {
      StepFurtherOn(read, claim, x, y, i, m);
      var f := read(y[i..], i, m);
      if f.err.None? {
        GoesOn(read, claim, y, i, m, f);
        GoesOn(read, claim, x + y, |x| + i, m, f);
        DecodeFurtherOn(read, claim, x, y, i + f.used, f.msg);
      }
    }
  }

  lemma DecodeConcat(read: Decoder, claim: Measure, x: seq<u8>, y: seq<u8>, m: Msg)
    requires ReadsFields(read) && MeasuresClaims(claim) && |x + y| < TWO_63 && Decode(read, x, 0, m).err.None?
    ensures var mx := Decode(read, x, 0, m).msg;
            var near, far := Decode(read, y, 0, mx), Decode(read, x + y, 0, m);
            var end := FaultEnd(read, claim, y, 0, mx);
            near.msg == far.msg && SameButForOverflow(near.err, far.err, end, |x| + end)
  {
    var fs := ParseMessage(read, x, 0, m);
    DecodeFields(read, x, 0, m, fs);
    assert StandsAt(x + y, 0, AllBytes(fs));
    DecodeFields(read, x + y, 0, m, fs);
    DecodeFurtherOn(read, claim, x, y, 0, MergeAll(m, fs));
  }

  /** Decoding is a left fold: once x has decoded, decoding x + y is decoding y into the result. Both succeed or
      both fail, with the same message, and a later occurrence of a field wins over an earlier one. Only the error
      can differ: it does exactly when decoding y stops at a field whose claimed end fits in 63 bits counted from the
      start of y, and does not counted from the start of x. */
  lemma DecodingIsLeftFold(x: seq<u8>, y: seq<u8>, m: Msg)
    requires IsSlice(x + y) && Unmarshaled(x, m).err.None?
    ensures var mx := Unmarshaled(x, m).msg;
            var near, far := Unmarshaled(y, mx), Unmarshaled(x + y, m);
            var end := FaultEnd(DecodeField, Claim, y, 0, mx);
            && near.msg == far.msg && near.err.None? == far.err.None?
            && (near != far <==> end < TWO_63 <= |x| + end)
  {
    DecodeConcat(DecodeField, Claim, x, y, m);
  }

  lemma {:induction false} AllOnes(k: nat)
    requires k > 0
    ensures Pow2(7 * k) >= 0x80 && |EncodeVarint(Pow2(7 * k) - 1)| == k
  {
    Pow2Plus7(7 * (k - 1));
    if k > 1 {
      AllOnes(k - 1);
      assert (Pow2(7 * k) - 1) / 0x80 == Pow2(7 * (k - 1)) - 1;
    }
  }

  lemma HugeLength()
    ensures |EncodeVarint(TWO_63 - 11)| == 9
  {
    Pow2Large();
    AllOnes(8);
    assert (TWO_63 - 11) / 0x80 == Pow2(56) - 1;
  }

  lemma ZeroFieldIsLegal(m: Msg)
    ensures var f := VarintField([0x8], [0x0]);
            Legal(f) && Bytes(f) == [0x8, 0x0] && Merge(m, f) == Msg(0, m.data)
  {
    OneByteTag(0x8);
    OneByteTag(0x0);
    assert Value([0x0][1..]) == 0;
  }

  lemma TypeZero(m: Msg)
    ensures Unmarshaled([0x8, 0x0], m) == Decoded(Msg(0, m.data), None)
  {
    var f := VarintField([0x8], [0x0]);
    ZeroFieldIsLegal(m);
    OneFieldAlone(f, m);
    UnmarshalMergesFields([0x8, 0x0], m);
  }

  /** A data field that claims 2^63 - 1 bytes, tag and length included, and has no data. */
  function HugeField(): seq<u8> {
    [0x12] + EncodeVarint(TWO_63 - 11)
  }

  lemma DecodeHugeField(m: Msg)
    ensures HugeField() != [] && |HugeField()| == 10 && Claim(HugeField()) == TWO_63 - 1
    ensures DecodeField(HugeField(), 0, m) == Field(m, 0, Some(UnexpectedEOF))
  {
    var len := EncodeVarint(TWO_63 - 11);
    EncodedIsVarint(TWO_63 - 11);
    OneByteTag(0x12);
    TagAtStart([0x12], len);
    assert len[..|len|] == len;
    HugeLength();
  }

  lemma FirstFieldFails(read: Decoder, claim: Measure, s: seq<u8>, m: Msg, err: Error)
    requires s != [] && read(s, 0, m) == Field(m, 0, Some(err))
    ensures Decode(read, s, 0, m) == Decoded(m, Some(err)) && FaultEnd(read, claim, s, 0, m) == claim(s)
  {
    assert s[0..] == s;
  }

  /** The error does differ: after two bytes, a field that claims 2^63 - 1 bytes. */
  lemma ErrorCanDiffer(m: Msg)
    ensures Unmarshaled([0x8, 0x0], m) == Decoded(Msg(0, m.data), None)
    ensures Unmarshaled(HugeField(), Msg(0, m.data)).err == Some(UnexpectedEOF)
    ensures Unmarshaled([0x8, 0x0] + HugeField(), m).err == Some(InvalidLength)
  {
    TypeZero(m);
    DecodeHugeField(Msg(0, m.data));
    FirstFieldFails(DecodeField, Claim, HugeField(), Msg(0, m.data), UnexpectedEOF);
    DecodeConcat(DecodeField, Claim, [0x8, 0x0], HugeField(), m);
  }

  /** An unknown field is transparent at any field boundary: inserting it changes neither the decoded message nor
      whether decoding succeeds. */
  lemma UnknownFieldIsTransparent(x: seq<u8>, f: WireField, y: seq<u8>, m: Msg)
    requires IsSlice(x + (Bytes(f) + y)) && Unmarshaled(x, m).err.None?
    requires Legal(f) && Number(f) > 2
    ensures var without, inserted := Unmarshaled(x + y, m), Unmarshaled(x + (Bytes(f) + y), m);
            inserted.msg == without.msg && inserted.err.None? == without.err.None?
  {
    var mx := Unmarshaled(x, m).msg;
    UnknownFieldAlone(f, mx);
    DecodingIsLeftFold(Bytes(f), y, mx);
    DecodingIsLeftFold(x, y, m);
    DecodingIsLeftFold(x, Bytes(f) + y, m);
  }
}
