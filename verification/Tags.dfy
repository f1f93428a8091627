/** What tags and values say, in numbers (Protocol Buffers encoding, sections "Message Structure" and "Base 128
    Varints"), with the truncations of the program. */
module Tags {
  import opened Wrappers
  import opened Words
  import opened Varint
  import opened Wire
  import opened Grammar
  import opened Codec
  import opened Encoding
  import opened Folding

  // ---------- Truncation ----------

  /** The low 32 bits, the top one of which is the sign. */
  function Signed32(x: nat): int {
    if x % TWO_32 < TWO_31 then x % TWO_32 else x % TWO_32 - TWO_32
  }

  function Signed64(x: nat): int {
    if x % TWO_64 < TWO_63 then x % TWO_64 else x % TWO_64 - TWO_64
  }

  lemma ToInt32IsSigned(x: nat)
    ensures ToInt32(x) == Signed32(x)
  {
    ToInt32Wraps(x % TWO_32, x / TWO_32);
  }

  lemma {:induction false} ToInt64IsSigned(x: nat)
    ensures ToInt64(x) == Signed64(x)
  {
    if x >= TWO_64 {
      ToInt64IsSigned(x - TWO_64);
    }
  }

  // ---------- Varints ----------

  predicate Continues(s: seq<u8>, n: nat) {
    n <= |s| && forall j :: 0 <= j < n ==> s[j] >= 0x80
  }

  lemma {:induction false} ExtentFrom(s: seq<u8>, k: nat, n: nat)
    requires k <= 10
    ensures VarintExtent(s, k) == Extent(n, None)
       <==> 0 < n <= |s| && k + n <= 10 && Continues(s, n - 1) && s[n - 1] < 0x80
    ensures VarintExtent(s, k).err == Some(IntOverflow) <==> Continues(s, 10 - k)
    ensures VarintExtent(s, k).err == Some(UnexpectedEOF) <==> k + |s| < 10 && Continues(s, |s|)
    ensures VarintExtent(s, k).err in {None, Some(IntOverflow), Some(UnexpectedEOF)}
    decreases |s|
  {
    if k < 10 && s != [] && s[0] >= 0x80 {
      ExtentFrom(s[1..], k + 1, if n > 0 then n - 1 else 0);
      Shorter(s, 10 - k);
      Shorter(s, |s|);
      if 1 < n <= |s| {
        Shorter(s, n - 1);
      }
    }
  }

  lemma Shorter(s: seq<u8>, n: nat)
    requires 0 < n && s != [] && s[0] >= 0x80
    ensures Continues(s, n) <==> Continues(s[1..], n - 1)
  {
    if Continues(s[1..], n - 1) {
      forall j | 0 <= j < n ensures s[j] >= 0x80 {
        assert j > 0 ==> s[j] == s[1..][j - 1];
      }
    }
  }

  /** A varint is read up to its first byte with a clear top bit, which has to be one of the first ten; if these all
      continue it overflows, and if the input ends before, it is cut off. */
  lemma VarintEndsAt(s: seq<u8>, n: nat)
    ensures VarintExtent(s, 0) == Extent(n, None)
       <==> 0 < n <= 10 && n <= |s| && Continues(s, n - 1) && s[n - 1] < 0x80
    ensures VarintExtent(s, 0).err == Some(IntOverflow) <==> Continues(s, 10)
    ensures VarintExtent(s, 0).err == Some(UnexpectedEOF) <==> |s| < 10 && Continues(s, |s|)
  {
    ExtentFrom(s, 0, n);
  }

  // ---------- Tags ----------

  lemma TagRemainder(n: nat, w: nat)
    requires w < 8
    ensures (8 * n + w) % TWO_64 / 8 == n % 0x2000_0000_0000_0000
  {
  }

  lemma SmallerModulus(n: nat)
    ensures Signed32(n % 0x2000_0000_0000_0000) == Signed32(n)
  {
    assert 0x2000_0000_0000_0000 == 0x2000_0000 * TWO_32;
    var q := n / 0x2000_0000_0000_0000;
    assert n == n % 0x2000_0000_0000_0000 + (q * 0x2000_0000) * TWO_32;
    RemainderOfSum(n % 0x2000_0000_0000_0000, q * 0x2000_0000);
  }

  lemma RemainderOfSum(x: nat, k: nat)
    ensures (x + k * TWO_32) % TWO_32 == x % TWO_32
  {
  }

  lemma LowBits(tag: seq<u8>)
    requires tag != []
    ensures Value(tag) % 8 == tag[0] % 8
  {
    var rest := Value(tag[1..]);
    assert Value(tag) == tag[0] % 0x80 + 8 * (16 * rest);
    assert tag[0] == tag[0] % 0x80 + 8 * (16 * (tag[0] / 0x80));
    EightsVanish(tag[0] % 0x80, 16 * rest);
    EightsVanish(tag[0] % 0x80, 16 * (tag[0] / 0x80));
  }

  lemma EightsVanish(x: nat, k: nat)
    ensures (x + 8 * k) % 8 == x % 8
  {
  }

  /** A tag that is the varint of 8n + w, in however many bytes, says field n with wire type w; a number that does not
      fit in 31 bits is truncated to a signed one of 32 bits. */
  lemma TagSays(tag: seq<u8>, n: nat, w: nat)
    requires IsVarint(tag) && Value(tag) == 8 * n + w && w < 8
    ensures WireType(tag) == w && FieldNumber(tag) == Signed32(n)
    ensures n < TWO_31 ==> FieldNumber(tag) == n
  {
    LowBits(tag);
    EightsVanish(w, n);
    assert tag[..|tag|] == tag;
    ToUint64IsRemainder(8 * n + w);
    TagRemainder(n, w);
    ToInt32IsSigned(n % 0x2000_0000_0000_0000);
    SmallerModulus(n);
  }

  // ---------- Fields ----------

  /** The field number of a well-formed field. */
  function NumberOf(f: WireField): int {
    Signed32(Value(f.tag) / 8)
  }

  /** What decoding makes of a field: it is legal unless its number is not positive, or is 1 or 2 with another wire type
      than that field has, and it sets the type or the data, or nothing. */
  lemma FieldSays(f: WireField, m: Msg)
    requires WellFormed(f)
    ensures Legal(f) <==> 0 < NumberOf(f) && (NumberOf(f) == 1 ==> f.VarintField?) && (NumberOf(f) == 2 ==> f.LenField?)
    ensures Legal(f) ==>
      Merge(m, f) == if NumberOf(f) == 1 then Msg(Signed32(Value(f.value)), m.data)
                     else if NumberOf(f) == 2 then Msg(m.typ, f.payload) else m
  {
    TagSays(f.tag, Value(f.tag) / 8, Value(f.tag) % 8);
    if f.VarintField? {
      ToInt32IsSigned(Value(f.value));
    }
  }

  /** A field with any other number than 1 and 2 makes no difference, wherever it stands between fields. */
  lemma OtherNumbersAreTransparent(x: seq<u8>, f: WireField, y: seq<u8>, m: Msg)
    requires IsSlice(x + (Bytes(f) + y)) && Unmarshaled(x, m).err.None?
    requires WellFormed(f) && NumberOf(f) > 2
    ensures var without, inserted := Unmarshaled(x + y, m), Unmarshaled(x + (Bytes(f) + y), m);
            inserted.msg == without.msg && inserted.err.None? == without.err.None?
  {
    FieldSays(f, m);
    TagSays(f.tag, Value(f.tag) / 8, Value(f.tag) % 8);
    UnknownFieldIsTransparent(x, f, y, m);
  }

  /** The type 150 is field 1, a varint of two bytes. */
  lemma TypeIsFieldOne(m: Msg)
    ensures Encode(Msg(150, [])) == [0x08, 0x96, 0x01]
    ensures Unmarshaled([0x08, 0x96, 0x01], m) == Decoded(Msg(150, m.data), None)
  {
    assert EncodeVarint(150) == [0x96] + EncodeVarint(1);
    assert Encode(Msg(150, [])) == [0x08, 0x96, 0x01];
    RoundTrip(Msg(150, []), m);
  }

  /** The data are field 2, after their length, and come after the type. */
  lemma DataAreFieldTwo(data: seq<u8>, m: Msg)
    requires 0 < |data| < 0x80
    ensures Encode(Msg(0, data)) == [0x12, |data|] + data
    ensures Encode(Msg(150, data)) == [0x08, 0x96, 0x01] + [0x12, |data|] + data
    ensures Unmarshaled([0x12, |data|] + data, m) == Decoded(Msg(m.typ, data), None)
  {
    assert EncodeVarint(|data|) == [|data|];
    assert Encode(Msg(0, data)) == [0x12, |data|] + data;
    assert EncodeVarint(150) == [0x96] + EncodeVarint(1);
    RoundTrip(Msg(0, data), m);
  }

  /** Field 17, whose tag takes two bytes, is skipped. */
  lemma SeventeenIsUnknown(m: Msg)
    ensures Unmarshaled([0x88, 0x01, 0x05], m) == Decoded(m, None)
  {
    var f := VarintField([0x88, 0x01], [0x05]);
    VarintEndsAt(f.tag, 2);
    VarintEndsAt(f.value, 1);
    assert f.tag[1..] == [0x01] && f.tag[1..][1..] == [];
    assert Value([]) == 0 && Value([0x01]) == 1 && Value(f.tag) == 136;
    assert Bytes(f) == [0x88, 0x01, 0x05];
    FieldSays(f, m);
    TagSays(f.tag, 17, 0);
    UnknownFieldAlone(f, m);
  }

  /** A length is read as a signed number of 64 bits. */
  lemma LengthSays(f: WireField)
    requires WellFormed(f) && f.LenField?
    ensures Signed64(Value(f.len)) == |f.payload|
  {
    ToInt64IsSigned(Value(f.len));
  }

  /** The tags that are refused, whatever follows them, and why. */
  lemma TagsRefused(tag: seq<u8>, rest: seq<u8>, n: nat, w: nat, at: nat, m: Msg)
    requires IsVarint(tag) && Value(tag) == 8 * n + w && w < 8
    ensures w == 4 ==> DecodeField(tag + rest, at, m) == Field(m, 0, Some(EndGroup))
    ensures w != 4 && Signed32(n) <= 0 ==> DecodeField(tag + rest, at, m) == Field(m, 0, Some(IllegalTag))
    ensures Signed32(n) == 1 && w != 4 && w != 0 ==> DecodeField(tag + rest, at, m) == Field(m, 0, Some(WrongWireType))
    ensures Signed32(n) == 2 && w != 4 && w != 2 ==> DecodeField(tag + rest, at, m) == Field(m, 0, Some(WrongWireType))
    ensures w > 5 && Signed32(n) > 2 ==> DecodeField(tag + rest, at, m) == Field(m, 0, Some(IllegalWireType))
  {
    TagSays(tag, n, w);
    VarintAtStart(tag, rest);
    assert (tag + rest)[0] == tag[0] && tag[..|tag|] == tag;
    if w > 5 {
      assert (tag + rest)[0..] == tag + rest;
      assert Skip(SkipItem, tag + rest, 0, 0) == Skipped(0, Some(IllegalWireType));
    }
  }

  lemma DataPrefix(tag: seq<u8>, len: seq<u8>, rest: seq<u8>)
    requires IsVarint(tag) && IsVarint(len) && Value(tag) == 8 * 2 + 2
    ensures var s := tag + (len + rest);
            && DataStarts(s, |tag|, |len|, Signed64(Value(len)))
            && -TWO_63 <= Signed64(Value(len)) < TWO_63
  {
    TagSays(tag, 2, 2);
    TagAtStart(tag, len + rest);
    VarintAtStart(len, rest);
    ToInt64IsSigned(Value(len));
  }

  /** A tag that says field 2 with a length, and then a length that claims so many bytes. */
  predicate DataStarts(s: seq<u8>, tag: nat, len: nat, claimed: int) {
    && s != [] && VarintExtent(s, 0) == Extent(tag, None) && WireType(s) == 2 && FieldNumber(s) == 2
    && tag <= |s| && VarintExtent(s[tag..], 0) == Extent(len, None) && LengthPrefix(s[tag..]) == claimed
  }

  lemma ReadsData(s: seq<u8>, tag: nat, len: nat, claimed: int, at: nat, m: Msg)
    requires DataStarts(s, tag, len, claimed) && claimed < TWO_63 && at + tag + len < TWO_63
    ensures var end := tag + len + claimed;
            DecodeField(s, at, m) ==
              if claimed < 0 || at + end >= TWO_63 then Field(m, 0, Some(InvalidLength))
              else if end > |s| then Field(m, 0, Some(UnexpectedEOF))
              else Field(Msg(m.typ, s[tag + len..end]), end, None)
  {
  }

  /** What the length of a data field at index `at` leads to: the data, or which error. */
  lemma DataLengths(s: seq<u8>, tag: nat, len: nat, at: nat, m: Msg)
    requires tag + len <= |s| && at + tag + len < TWO_63
    requires IsVarint(s[..tag]) && IsVarint(s[tag..tag + len]) && Value(s[..tag]) == 8 * 2 + 2
    ensures var claimed := Signed64(Value(s[tag..tag + len]));
            var end := tag + len + claimed;
            DecodeField(s, at, m) ==
              if claimed < 0 || at + end >= TWO_63 then Field(m, 0, Some(InvalidLength))
              else if end > |s| then Field(m, 0, Some(UnexpectedEOF))
              else Field(Msg(m.typ, s[tag + len..end]), end, None)
  {
    var rest := s[tag + len..];
    assert s == s[..tag] + (s[tag..tag + len] + rest);
    DataPrefix(s[..tag], s[tag..tag + len], rest);
    ReadsData(s, tag, len, Signed64(Value(s[tag..tag + len])), at, m);
  }
}
