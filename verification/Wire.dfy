/** The message codec: the decoding and encoding functions, and what they promise. The class in module
    Message is proved against them. The decoder's arithmetic on indices wraps at 64 bits, as in the program. */
module Wire {
  import opened Wrappers
  import opened Words
  import opened Varint

  /** The two fields of FinderMessage and of IngestMessage. */
  datatype Msg = Msg(typ: i32, data: seq<u8>)

  /** Slices are no longer than the largest 64-bit integer. */
  predicate IsSlice(s: seq<u8>) {
    |s| < TWO_63
  }

  // ---------- Skipping an unknown field ----------

  /** One field, or one delimiter of a group, at the start of s: the bytes it claims and the change of depth. */
  datatype Item = Item(used: nat, delta: int, err: Option<Error>)

  /** The low three bits of a tag are those of its first byte. */
  function WireType(s: seq<u8>): nat
    requires s != []
  {
    s[0] % 8
  }

  /** The length prefix at the start of s, as the 64-bit signed integer the program makes of it. */
  function LengthPrefix(s: seq<u8>): int {
    ToInt64(Value(s[..VarintExtent(s, 0).used]))
  }

  function SkipItem(s: seq<u8>, depth: nat): (r: Item)
    ensures r.err.None? ==> 0 < r.used < |s| + TWO_63 && depth + r.delta >= 0
  {
    var tag := VarintExtent(s, 0);
    if tag.err.Some? then Item(0, 0, tag.err) else
    var rest := s[tag.used..];
    match WireType(s)
    case 0 =>
      var v := VarintExtent(rest, 0);
      if v.err.Some? then Item(0, 0, v.err) else Item(tag.used + v.used, 0, None)
    case 1 => Item(tag.used + 8, 0, None)
    case 2 =>
      var len := VarintExtent(rest, 0);
      if len.err.Some? then Item(0, 0, len.err)
      else if LengthPrefix(rest) < 0 then Item(0, 0, Some(InvalidLength))
      else Item(tag.used + len.used + LengthPrefix(rest), 0, None)
    case 3 => Item(tag.used, 1, None)
    case 4 => if depth == 0 then Item(0, 0, Some(UnexpectedEndOfGroup)) else Item(tag.used, -1, None)
    case 5 => Item(tag.used + 4, 0, None)
    case _ => Item(0, 0, Some(IllegalWireType))
  }

  /** The index the skipper returns, which may be past the end of its input. */
  datatype Skipped = Skipped(end: nat, err: Option<Error>)

  /** Skip items of s, as read by `read`, from index i on until the depth is zero. The skipper is
      `Skip(SkipItem, s, 0, 0)`. */
  function Skip(read: (seq<u8>, nat) -> Item, s: seq<u8>, i: nat, depth: nat): (r: Skipped)
    ensures r.err.None? ==> i < r.end
    ensures r.end < TWO_63 && (r.err.Some? ==> r.end == 0)
    decreases if i < |s| then |s| - i else 0
  {
    if i >= |s| then Skipped(0, Some(UnexpectedEOF)) else
    var item := read(s[i..], depth);
    if item.err.Some? then Skipped(0, item.err)
    else if ToInt64(i + item.used) <= i then Skipped(0, Some(InvalidLength))
    else if depth + item.delta <= 0 then Skipped(ToInt64(i + item.used), None)
    else Skip(read, s, ToInt64(i + item.used), depth + item.delta)
  }

  // ---------- Decoding ----------

  /** The message after a field, the bytes the field used, and whether decoding it failed. */
  datatype Field = Field(msg: Msg, used: nat, err: Option<Error>)
  datatype Decoded = Decoded(msg: Msg, err: Option<Error>)

  function FieldNumber(s: seq<u8>): i32
    requires VarintExtent(s, 0).err.None?
  {
    ToInt32(ToUint64(Value(s[..VarintExtent(s, 0).used])) / 8)
  }

  /** One iteration of the outer loop on a nonempty rest s of the input, which is at index `at`. */
  function DecodeField(s: seq<u8>, at: nat, m: Msg): (f: Field)
    ensures f.err.None? ==> 0 < f.used <= |s|
  {
    var tag := VarintExtent(s, 0);
    if tag.err.Some? then Field(m, 0, tag.err)
    else if WireType(s) == 4 then Field(m, 0, Some(EndGroup))
    else if FieldNumber(s) <= 0 then Field(m, 0, Some(IllegalTag))
    else if FieldNumber(s) == 1 then
      if WireType(s) != 0 then Field(m, 0, Some(WrongWireType)) else
      var rest := s[tag.used..];
      var v := VarintExtent(rest, 0);
      Field(m.(typ := ToInt32(Value(rest[..v.used]))), tag.used + v.used, v.err)
    else if FieldNumber(s) == 2 then
      if WireType(s) != 2 then Field(m, 0, Some(WrongWireType)) else
      var rest := s[tag.used..];
      var len := VarintExtent(rest, 0);
      if len.err.Some? then Field(m, 0, len.err)
      else if LengthPrefix(rest) < 0 then Field(m, 0, Some(InvalidLength)) else
      var start := tag.used + len.used;
      var end := start + LengthPrefix(rest);
      if ToInt64(at + end) < 0 then Field(m, 0, Some(InvalidLength))
      else if end > |s| then Field(m, 0, Some(UnexpectedEOF))
      else Field(m.(data := s[start..end]), end, None)
    else
      var skipped := Skip(SkipItem, s, 0, 0);
      if skipped.err.Some? then Field(m, 0, skipped.err)
      else if ToInt64(at + skipped.end) < 0 then Field(m, 0, Some(InvalidLength))
      else if skipped.end > |s| then Field(m, 0, Some(UnexpectedEOF))
      else Field(m, skipped.end, None)
  }

  /** Decode an input, whose fields are read by `read`, from index i on into m. The decoder is
      `Decode(DecodeField, s, 0, m)`. */
  function Decode(read: (seq<u8>, nat, Msg) -> Field, s: seq<u8>, i: nat, m: Msg): Decoded
    requires i <= |s|
    decreases |s| - i
  {
    if i == |s| then Decoded(m, None) else
    var f := read(s[i..], i, m);
    if f.err.Some? then Decoded(f.msg, f.err)
    else if 0 < f.used <= |s| - i then Decode(read, s, i + f.used, f.msg)
    else Decoded(f.msg, Some(UnexpectedEOF))
  }

  function Unmarshaled(s: seq<u8>, m: Msg): Decoded {
    Decode(DecodeField, s, 0, m)
  }

  // ---------- The readers under another name ----------

  type Reader = (seq<u8>, nat) -> Item

  /** A reader of items under another name, which keeps the proofs about the loop apart from those about items. */
  ghost predicate ReadsItems(read: Reader) {
    forall s: seq<u8>, depth: nat {:trigger SkipItem(s, depth)} :: read(s, depth) == SkipItem(s, depth)
  }

  type Decoder = (seq<u8>, nat, Msg) -> Field

  ghost predicate ReadsFields(read: Decoder) {
    forall s: seq<u8>, at: nat, m: Msg {:trigger DecodeField(s, at, m)} :: read(s, at, m) == DecodeField(s, at, m)
  }

  // ---------- Encoding ----------

  /** A field is written unless it is zero or empty. */
  function EncodeType(t: i32): seq<u8> {
    if t != 0 then [0x8] + EncodeVarint(SignExtend(t)) else []
  }

  function EncodeData(data: seq<u8>): seq<u8> {
    if data != [] then [0x12] + EncodeVarint(|data|) + data else []
  }

  function Encode(m: Msg): seq<u8> {
    EncodeType(m.typ) + EncodeData(m.data)
  }
}
