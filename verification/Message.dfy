/** The codec in the form the program has it: a message that is decoded field by field in place, and encoded from
    the end of a buffer to its front. Every method is proved against the functions of module Wire. The finder's
    message and the ingest message have the same fields and the same code. */
module Message {
  import opened Wrappers
  import opened Words
  import opened Varint
  import opened Wire

  // ---------- Reading numbers ----------

  lemma ExtentStops(s: seq<u8>, k: nat)
    ensures k >= 10 ==> VarintExtent(s, k) == Extent(0, Some(IntOverflow))
    ensures k < 10 && s == [] ==> VarintExtent(s, k) == Extent(0, Some(UnexpectedEOF))
    ensures k < 10 && s != [] && s[0] < 0x80 ==> VarintExtent(s, k) == Extent(1, None)
    ensures k < 10 && s != [] && s[0] >= 0x80 ==>
      VarintExtent(s, k) == Extent(VarintExtent(s[1..], k + 1).used + 1, VarintExtent(s[1..], k + 1).err)
  {
  }

  /** After k of its bytes, the rest of a varint is what is left to read. */
  ghost predicate Reading(s: seq<u8>, i: nat, k: nat) {
    && i + k <= |s| && k <= 10
    && VarintExtent(s[i..], 0)
       == Extent(k + VarintExtent(s[i + k..], k).used, VarintExtent(s[i + k..], k).err)
  }

  lemma ReadingNext(s: seq<u8>, i: nat, k: nat)
    requires Reading(s, i, k) && k < 10 && i + k < |s| && s[i + k] >= 0x80
    ensures Reading(s, i, k + 1)
  {
    ExtentStops(s[i + k..], k);
    assert s[i + k..][1..] == s[i + k + 1..];
  }

  /** The reading loop is over, and has failed if err says so. */
  ghost predicate HasRead(s: seq<u8>, i: nat, next: nat, err: Option<Error>) {
    i <= next <= |s| && VarintExtent(s[i..], 0) == Extent(next - i, err)
  }

  lemma ReadingEnds(s: seq<u8>, i: nat, k: nat)
    requires Reading(s, i, k)
    ensures k >= 10 ==> HasRead(s, i, i + k, Some(IntOverflow))
    ensures k < 10 && i + k == |s| ==> HasRead(s, i, i + k, Some(UnexpectedEOF))
    ensures k < 10 && i + k < |s| && s[i + k] < 0x80 ==> HasRead(s, i, i + k + 1, None)
  {
    ExtentStops(s[i + k..], k);
  }

  lemma ValueNext(s: seq<u8>, i: nat, k: nat)
    requires i + k < |s|
    ensures Value(s[i..i + k + 1]) == Value(s[i..i + k]) + (s[i + k] % 0x80) * Pow2(7 * k)
    ensures Value(s[i..i + k]) < Pow2(7 * k)
  {
    assert s[i..i + k + 1] == s[i..i + k] + [s[i + k]];
    ValueAppend(s[i..i + k], s[i + k]);
  }

  /** Nine bytes have 63 bits. */
  lemma ValueFits(s: seq<u8>, i: nat, k: nat)
    requires k < 10 && i + k <= |s|
    ensures Value(s[i..i + k]) < TWO_63 && Value(s[i..i + k]) < Pow2(7 * k)
  {
    ValueAppend(s[i..i + k], 0);
    Pow2Monotone(7 * k, 63);
    Pow2Large();
  }

  /** One step of a 64-bit accumulator. */
  lemma Accumulate64(s: seq<u8>, i: nat, k: nat, word: u64)
    requires k < 10 && i + k < |s| && word == Value(s[i..i + k])
    ensures word < Pow2(7 * k)
    ensures OrShifted(word, s[i + k] % 0x80, 7 * k) == ToUint64(Value(s[i..i + k + 1]))
  {
    ValueNext(s, i, k);
    ToUint64IsRemainder(Value(s[i..i + k + 1]));
  }

  /** `word |= uint64(b&0x7F) << shift`, for the tag and for a length. */
  method ReadUint64(s: seq<u8>, i: nat) returns (word: u64, next: nat, err: Option<Error>)
    requires i <= |s|
    ensures HasRead(s, i, next, err) && word == ToUint64(Value(s[i..next]))
  {
    word, next := 0, i;
    var shift := 0;
    ghost var k := 0;
    assert s[i..i] == [];
    while true
      invariant shift == 7 * k && next == i + k && Reading(s, i, k)
      invariant word == ToUint64(Value(s[i..next])) && (k < 10 ==> word == Value(s[i..next]))
      decreases 10 - k
    {
      ReadingEnds(s, i, k);
      if shift >= 64 {
        return word, next, Some(IntOverflow);
      }
      if next >= |s| {
        return word, next, Some(UnexpectedEOF);
      }
      var b := s[next];
      Accumulate64(s, i, k, word);
      next := next + 1;
      word := OrShifted(word, b % 0x80, shift);
      if b < 0x80 {
        return word, next, None;
      }
      ReadingNext(s, i, k);
      shift := shift + 7;
      k := k + 1;
      if k < 10 {
        ValueFits(s, i, k);
      }
    }
  }

  lemma {:induction false} SignOfWord(x: nat)
    ensures ToInt64(ToUint64(x)) == ToInt64(x)
  {
    if x >= TWO_64 {
      SignOfWord(x - TWO_64);
    }
  }

  /** `byteLen |= int(b&0x7F) << shift`: the same bits, read as a signed number. */
  method ReadLength(s: seq<u8>, i: nat) returns (length: int, next: nat, err: Option<Error>)
    requires i <= |s|
    ensures HasRead(s, i, next, err) && length == LengthPrefix(s[i..])
  {
    var word: u64;
    word, next, err := ReadUint64(s, i);
    assert s[i..][..next - i] == s[i..next];
    SignOfWord(Value(s[i..next]));
    length := ToInt64(word);
  }

  lemma {:induction false} LowBitsOfWord(x: nat)
    ensures ToUint64(x) % 8 == x % 8
  {
    if x >= TWO_64 {
      LowBitsOfWord(x - TWO_64);
    }
  }

  lemma EightsDoNotMatter(x: nat, k: nat)
    ensures (x + 8 * k) % 8 == x % 8
  {
  }

  lemma LowBitsOfDigits(b: u8, rest: nat)
    ensures (b % 0x80 + 0x80 * rest) % 8 == b % 8
  {
    EightsDoNotMatter(b % 0x80, 16 * rest);
    EightsDoNotMatter(b % 0x80, 16 * (b / 0x80));
  }

  /** The low bits of the tag are in its first byte. */
  lemma WireTypeOfWord(s: seq<u8>, n: nat)
    requires 0 < n <= |s|
    ensures ToUint64(Value(s[..n])) % 8 == WireType(s)
  {
    LowBitsOfWord(Value(s[..n]));
    LowBitsOfDigits(s[0], Value(s[..n][1..]));
  }

  lemma RemainderKeepsInt32(x: nat)
    ensures ToInt32(x % TWO_32) == ToInt32(x)
  {
    ToInt32Wraps(x % TWO_32, x / TWO_32);
  }

  lemma LowShift(v: nat, shift: nat)
    requires v < Pow2(shift) && shift <= 28
    ensures v < TWO_31
  {
    Pow2Small();
    Pow2Monotone(shift, 28);
  }

  lemma ProductOfNats(a: nat, b: nat)
    ensures 0 <= a * b
  {
  }

  /** A word that is not negative. */
  lemma OrShiftedUnsigned(v: nat, p: nat, shift: nat)
    requires v < TWO_31 && v < Pow2(shift) && p < 128 && shift < 32
    ensures OrShiftedInt32(v, p, shift) == ToInt32((v + p * Pow2(shift)) % TWO_32)
  {
  }

  lemma AccumulateLow(v: nat, p: nat, shift: nat)
    requires v < Pow2(shift) && p < 128 && shift <= 28
    ensures v < TWO_31 && OrShiftedInt32(v, p, shift) == ToInt32(v + p * Pow2(shift))
  {
    LowShift(v, shift);
    ProductOfNats(p, Pow2(shift));
    OrShiftedUnsigned(v, p, shift);
    RemainderKeepsInt32(v + p * Pow2(shift));
  }

  lemma AccumulateHigh(v: nat, p: nat, shift: nat)
    requires shift >= 35
    ensures ToInt32(v + p * Pow2(shift)) == ToInt32(v)
  {
    Pow2Small();
    Pow2Sum(28, 4);
    assert Pow2(4) == 16;
    Pow2Sum(shift - 32, 32);
    ToInt32Wraps(v, p * Pow2(shift - 32));
    assert p * (Pow2(shift - 32) * TWO_32) == (p * Pow2(shift - 32)) * TWO_32;
  }

  lemma HighBitsAreLost(word: i32, p: nat, shift: nat)
    requires p < 128 && shift >= 35
    ensures OrShiftedInt32(word, p, shift) == word
  {
  }

  /** One step of a 32-bit accumulator. */
  lemma Accumulate32(s: seq<u8>, i: nat, k: nat, word: i32)
    requires i + k < |s| && word == ToInt32(Value(s[i..i + k]))
    ensures 7 * k < 32 ==> 0 <= word < Pow2(7 * k)
    ensures OrShiftedInt32(word, s[i + k] % 0x80, 7 * k) == ToInt32(Value(s[i..i + k + 1]))
  {
    ValueNext(s, i, k);
    var v, p := Value(s[i..i + k]), s[i + k] % 0x80;
    if k < 5 {
      AccumulateLow(v, p, 7 * k);
    } else {
      AccumulateHigh(v, p, 7 * k);
      HighBitsAreLost(word, p, 7 * k);
    }
  }

  // ---------- The skipper ----------

  /** The reading loop of an unknown varint, whose value does not matter. */
  method SkipVarint(s: seq<u8>, i: nat) returns (next: nat, err: Option<Error>)
    requires i <= |s|
    ensures HasRead(s, i, next, err)
  {
    next := i;
    var shift := 0;
    ghost var k := 0;
    while true
      invariant shift == 7 * k && next == i + k && Reading(s, i, k)
      decreases 10 - k
    {
      ReadingEnds(s, i, k);
      if shift >= 64 {
        return next, Some(IntOverflow);
      }
      if next >= |s| {
        return next, Some(UnexpectedEOF);
      }
      next := next + 1;
      if s[next - 1] < 0x80 {
        return next, None;
      }
      ReadingNext(s, i, k);
      shift := shift + 7;
      k := k + 1;
    }
  }

  /** The body of the skipper's loop: a tag and what its wire type calls for. */
  method SkipItemAt(s: seq<u8>, i: nat, depth: nat) returns (next: int, newDepth: nat, err: Option<Error>)
    requires i < |s| < TWO_63
    ensures var item := SkipItem(s[i..], depth);
            err == item.err && (err.None? ==> next == ToInt64(i + item.used) && newDepth == depth + item.delta)
  {
    var wire, at, tagErr := ReadUint64(s, i);
    if tagErr.Some? {
      return 0, depth, tagErr;
    }
    assert s[i..][..at - i] == s[i..at] && s[i..][at - i..] == s[at..];
    WireTypeOfWord(s[i..], at - i);
    next, newDepth, err := at, depth, None;
    match wire % 8 {
      case 0 =>
        next, err := SkipVarint(s, at);
      case 1 =>
        next := ToInt64(at + 8);
      case 2 =>
        var length, start, lenErr := ReadLength(s, at);
        if lenErr.Some? {
          return 0, depth, lenErr;
        }
        if length < 0 {
          return 0, depth, Some(InvalidLength);
        }
        next := ToInt64(start + length);
      case 3 =>
        newDepth := depth + 1;
      case 4 =>
        if depth == 0 {
          return 0, depth, Some(UnexpectedEndOfGroup);
        }
        newDepth := depth - 1;
      case 5 =>
        next := ToInt64(at + 4);
      case _ =>
        err := Some(IllegalWireType);
    }
  }

  /** One iteration: the skipper fails, stops, or goes on from a higher index. */
  lemma SkipOnce(read: (seq<u8>, nat) -> Item, s: seq<u8>, i: nat, depth: nat, item: Item)
    requires i < |s| < TWO_63 && item == read(s[i..], depth) && (item.err.None? ==> 0 < item.used < |s| - i + TWO_63)
    ensures item.err.Some? ==> Skip(read, s, i, depth) == Skipped(0, item.err)
    ensures item.err.None? ==>
      var next := ToInt64(i + item.used);
      Skip(read, s, i, depth)
      == if next < 0 then Skipped(0, Some(InvalidLength))
         else if depth + item.delta <= 0 then Skipped(next, None)
         else Skip(read, s, next, depth + item.delta)
    ensures item.err.None? ==> ToInt64(i + item.used) < 0 || ToInt64(i + item.used) > i
  {
  }

  /** What is left to skip from index i decides the result. */
  ghost predicate Remains(read: Reader, s: seq<u8>, i: nat, depth: nat, result: Skipped) {
    Skip(read, s, i, depth) == result
  }

  lemma RemainsOnce(read: Reader, s: seq<u8>, i: nat, depth: nat, item: Item, result: Skipped)
    requires i < |s| < TWO_63 && item == read(s[i..], depth) && Remains(read, s, i, depth, result)
    requires item.err.None? ==> 0 < item.used < |s| - i + TWO_63 && depth + item.delta >= 0
    ensures item.err.Some? ==> result == Skipped(0, item.err)
    ensures item.err.None? ==>
      var next := ToInt64(i + item.used);
      if next < 0 then result == Skipped(0, Some(InvalidLength))
      else if depth + item.delta == 0 then result == Skipped(next, None)
      else next > i && Remains(read, s, next, depth + item.delta, result)
  {
    SkipOnce(read, s, i, depth, item);
  }

  /** The skipper's loop body up to the test for depth zero. */
  method SkipStep(s: seq<u8>, i: nat, depth: nat, ghost read: Reader, ghost result: Skipped)
    returns (next: nat, newDepth: nat, err: Option<Error>)
    requires ReadsItems(read) && i < |s| && IsSlice(s) && Remains(read, s, i, depth, result)
    ensures if err.Some? then result == Skipped(0, err)
            else if newDepth == 0 then result == Skipped(next, None)
            else next > i && Remains(read, s, next, newDepth, result)
  {
    var end: int;
    end, newDepth, err := SkipItemAt(s, i, depth);
    assert read(s[i..], depth) == SkipItem(s[i..], depth);
    RemainsOnce(read, s, i, depth, read(s[i..], depth), result);
    if err.Some? {
      return 0, newDepth, err;
    }
    if end < 0 {
      return 0, newDepth, Some(InvalidLength);
    }
    next := end;
  }

  /** Skip one unknown field, groups nested in it included. */
  method SkipField(s: seq<u8>) returns (n: int, err: Option<Error>)
    requires IsSlice(s)
    ensures 0 <= n && Skip(SkipItem, s, 0, 0) == Skipped(n, err)
  {
    var i, depth := 0, 0;
    ghost var result := Skip(SkipItem, s, 0, 0);
    while i < |s|
      invariant 0 <= i && Remains(SkipItem, s, i, depth, result)
      decreases |s| - i
    {
      var next, newDepth, stepErr := SkipStep(s, i, depth, SkipItem, result);
      if stepErr.Some? {
        return 0, stepErr;
      }
      if newDepth == 0 {
        return next, None;
      }
      i, depth := next, newDepth;
    }
    return 0, Some(UnexpectedEOF);
  }

  // ---------- The message ----------

  /** What the fields still to be decoded from index i on make of a message decides the result. */
  ghost predicate Undecoded(read: Decoder, s: seq<u8>, i: nat, m: Msg, result: Decoded)
    requires i <= |s|
  {
    Decode(read, s, i, m) == result
  }

  lemma DecodeOnce(read: Decoder, s: seq<u8>, i: nat, m: Msg, f: Field, result: Decoded)
    requires i < |s| && f == read(s[i..], i, m) && (f.err.None? ==> 0 < f.used <= |s| - i)
    requires Undecoded(read, s, i, m, result)
    ensures f.err.Some? ==> result == Decoded(f.msg, f.err)
    ensures f.err.None? ==> Undecoded(read, s, i + f.used, f.msg, result)
  {
  }

  /** The builtin copy, to a part of the buffer that has room for all of the data. */
  method Copy(a: array<u8>, at: nat, data: seq<u8>)
    requires at + |data| <= a.Length
    modifies a
    ensures a[..] == old(a[..at]) + data + old(a[at + |data|..])
  {
    forall k | 0 <= k < |data| {
      a[at + k] := data[k];
    }
  }

  /** What stands before what is written already. */
  lemma PutBefore(was: seq<u8>, i: nat, j: nat, piece: seq<u8>, tail: seq<u8>)
    requires j + |piece| == i <= |was|
    ensures var buffer := was[..i] + tail;
            buffer[..j] + piece + buffer[i..] == was[..j] + (piece + tail)
  {
    assert (was[..i] + tail)[..j] == was[..j] && (was[..i] + tail)[i..] == tail;
    Assoc(was[..j], piece, tail);
  }

  /** A number before what is written already. */
  method PrependVarint(a: array<u8>, i: nat, v: u64, ghost was: seq<u8>, ghost tail: seq<u8>) returns (j: nat)
    requires i <= |was| && |EncodeVarint(v)| <= i && a[..] == was[..i] + tail
    modifies a
    ensures j == i - |EncodeVarint(v)| && a[..] == was[..j] + (EncodeVarint(v) + tail)
  {
    j := WriteVarint(a, i, v);
    PutBefore(was, i, j, EncodeVarint(v), tail);
  }

  /** A byte before what is written already. */
  method PrependByte(a: array<u8>, i: nat, b: u8, ghost was: seq<u8>, ghost tail: seq<u8>) returns (j: nat)
    requires 0 < i <= |was| && a[..] == was[..i] + tail
    modifies a
    ensures j == i - 1 && a[..] == was[..j] + ([b] + tail)
  {
    j := i - 1;
    a[j] := b;
    assert a[..] == (was[..i] + tail)[..j] + [b] + (was[..i] + tail)[i..];
    PutBefore(was, i, j, [b], tail);
  }

  /** A tag and a number before what is written already, the number first. */
  method PrependTagged(a: array<u8>, i: nat, tag: u8, v: u64, ghost was: seq<u8>, ghost tail: seq<u8>)
    returns (j: nat)
    requires i <= |was| && |EncodeVarint(v)| < i && a[..] == was[..i] + tail
    modifies a
    ensures j == i - |EncodeVarint(v)| - 1 && a[..] == was[..j] + ([tag] + EncodeVarint(v) + tail)
  {
    j := PrependVarint(a, i, v, was, tail);
    j := PrependByte(a, j, tag, was, EncodeVarint(v) + tail);
    Assoc([tag], EncodeVarint(v), tail);
  }

  /** The data field at the end of a buffer. */
  method PutData(a: array<u8>, data: seq<u8>) returns (i: nat)
    requires |EncodeData(data)| <= a.Length && IsSlice(data)
    modifies a
    ensures i == a.Length - |EncodeData(data)| && a[..] == old(a[..i]) + EncodeData(data)
  {
    ghost var was := a[..];
    i := a.Length;
    if |data| > 0 {
      i := i - |data|;
      Copy(a, i, data);
      assert a[..] == was[..i] + data;
      i := PrependTagged(a, i, 0x12, |data|, was, data);
    }
  }

  /** The type field before what is written already. */
  method PutType(a: array<u8>, i: nat, t: i32, ghost was: seq<u8>, ghost tail: seq<u8>) returns (j: nat)
    requires i <= |was| && |EncodeType(t)| <= i && a[..] == was[..i] + tail
    modifies a
    ensures j == i - |EncodeType(t)| && a[..] == was[..j] + (EncodeType(t) + tail)
  {
    j := i;
    if t != 0 {
      j := PrependTagged(a, i, 0x8, SignExtend(t), was, tail);
    } else {
      assert [] + tail == tail;
    }
  }

  lemma SliceOfRest(s: seq<u8>, i: nat, start: nat, end: nat)
    requires i <= start <= end <= |s|
    ensures s[i..][start - i..end - i] == s[start..end]
  {
  }

  class FinderMessage {
    var typ: i32
    var data: seq<u8>

    constructor ()
      ensures Contents() == Msg(0, [])
    {
      typ, data := 0, [];
    }

    ghost function Contents(): Msg
      reads this
    {
      Msg(typ, data)
    }

    /** `m.Type |= MessageType(b&0x7F) << shift`: bits beyond the 32nd are lost. */
    method UnmarshalType(s: seq<u8>, i: nat) returns (next: nat, err: Option<Error>)
      requires i <= |s|
      modifies this`typ
      ensures HasRead(s, i, next, err) && typ == ToInt32(Varint.Value(s[i..next]))
    {
      typ, next := 0, i;
      var shift := 0;
      ghost var k := 0;
      assert s[i..i] == [];
      while true
        invariant shift == 7 * k && next == i + k && Reading(s, i, k)
        invariant typ == ToInt32(Varint.Value(s[i..next]))
        decreases 10 - k
      {
        ReadingEnds(s, i, k);
        if shift >= 64 {
          return next, Some(IntOverflow);
        }
        if next >= |s| {
          return next, Some(UnexpectedEOF);
        }
        var b := s[next];
        Accumulate32(s, i, k, typ);
        next := next + 1;
        typ := OrShiftedInt32(typ, b % 0x80, shift);
        if b < 0x80 {
          return next, None;
        }
        ReadingNext(s, i, k);
        shift := shift + 7;
        k := k + 1;
      }
    }

    /** The data of the field at index i, whose tag ends at index `at`. */
    method UnmarshalData(s: seq<u8>, i: nat, at: nat) returns (next: nat, err: Option<Error>)
      requires i < at <= |s| && IsSlice(s) && HasRead(s, i, at, None)
      requires WireType(s[i..]) == 2 && FieldNumber(s[i..]) == 2
      modifies this`data
      ensures var f := DecodeField(s[i..], i, old(Contents()));
              Contents() == f.msg && err == f.err && (err.None? ==> next == i + f.used)
    {
      assert s[i..][at - i..] == s[at..];
      var length, start, lenErr := ReadLength(s, at);
      if lenErr.Some? {
        return i, lenErr;
      }
      if length < 0 {
        return i, Some(InvalidLength);
      }
      var postIndex := ToInt64(start + length);
      if postIndex < 0 {
        return i, Some(InvalidLength);
      }
      if postIndex > |s| {
        return i, Some(UnexpectedEOF);
      }
      SliceOfRest(s, i, start, postIndex);
      data := s[start..postIndex];
      return postIndex, None;
    }

    /** One iteration of the decoder's loop: a tag and the field it announces. */
    method UnmarshalField(s: seq<u8>, i: nat) returns (next: nat, err: Option<Error>)
      requires i < |s| && IsSlice(s)
      modifies this
      ensures var f := DecodeField(s[i..], i, old(Contents()));
              Contents() == f.msg && err == f.err && (err.None? ==> next == i + f.used)
    {
      var wire, at, tagErr := ReadUint64(s, i);
      if tagErr.Some? {
        return i, tagErr;
      }
      assert s[i..][..at - i] == s[i..at] && s[i..][at - i..] == s[at..];
      WireTypeOfWord(s[i..], at - i);
      var fieldNum, wireType := ToInt32(wire / 8), wire % 8;
      if wireType == 4 {
        return i, Some(EndGroup);
      }
      if fieldNum <= 0 {
        return i, Some(IllegalTag);
      }
      match fieldNum {
        case 1 =>
          if wireType != 0 {
            return i, Some(WrongWireType);
          }
          next, err := UnmarshalType(s, at);
          assert s[at..][..next - at] == s[at..next];
        case 2 =>
          if wireType != 2 {
            return i, Some(WrongWireType);
          }
          next, err := UnmarshalData(s, i, at);
        case _ =>
          var skippy, skipErr := SkipField(s[i..]);
          if skipErr.Some? {
            return i, skipErr;
          }
          if ToInt64(i + skippy) < 0 {
            return i, Some(InvalidLength);
          }
          if ToInt64(i + skippy) > |s| {
            return i, Some(UnexpectedEOF);
          }
          return ToInt64(i + skippy), None;
      }
    }

    method UnmarshalStep(s: seq<u8>, i: nat, ghost read: Decoder, ghost result: Decoded)
      returns (next: nat, err: Option<Error>)
      requires ReadsFields(read) && i < |s| && IsSlice(s) && Undecoded(read, s, i, Contents(), result)
      modifies this
      ensures if err.Some? then result == Decoded(Contents(), err)
              else i < next <= |s| && Undecoded(read, s, next, Contents(), result)
    {
      ghost var m := Contents();
      next, err := UnmarshalField(s, i);
      assert read(s[i..], i, m) == DecodeField(s[i..], i, m);
      DecodeOnce(read, s, i, m, read(s[i..], i, m), result);
    }

    /** Decode into this message, whatever it holds. On failure the message keeps what was decoded before. */
    method Unmarshal(s: seq<u8>) returns (err: Option<Error>)
      requires IsSlice(s)
      modifies this
      ensures Decoded(Contents(), err) == Unmarshaled(s, old(Contents()))
    {
      var i := 0;
      ghost var result := Unmarshaled(s, Contents());
      while i < |s|
        invariant i <= |s| && Undecoded(DecodeField, s, i, Contents(), result)
      {
        i, err := UnmarshalStep(s, i, DecodeField, result);
        if err.Some? {
          return err;
        }
      }
      return None;
    }

    method Size() returns (n: nat)
      ensures n == |Encode(Contents())|
    {
      n := 0;
      if typ != 0 {
        SizeIsEncodedLength(SignExtend(typ));
        n := n + 1 + SizeOfVarint(SignExtend(typ));
      }
      var l := |data|;
      if l > 0 {
        SizeIsEncodedLength(l);
        n := n + 1 + l + SizeOfVarint(l);
      }
    }

    /** Write at the end of a buffer that is large enough, from its end to its front; the bytes before stay. */
    method MarshalToSizedBuffer(a: array<u8>) returns (n: nat)
      requires |Encode(Contents())| <= a.Length && IsSlice(a[..])
      modifies a
      ensures n == |Encode(Contents())|
      ensures a[..] == old(a[..a.Length - n]) + Encode(Contents())
    {
      ghost var was := a[..];
      var i := PutData(a, data);
      i := PutType(a, i, typ, was, EncodeData(data));
      return a.Length - i;
    }

    method Marshal() returns (a: array<u8>)
      requires IsSlice(Encode(Contents()))
      ensures fresh(a) && a[..] == Encode(Contents())
    {
      var size := Size();
      a := new u8[size];
      var n := MarshalToSizedBuffer(a);
    }
  }

  /** Write a varint in the buffer so that it ends at `offset`; the rest of the buffer stays. */
  method WriteVarint(a: array<u8>, offset: nat, v: u64) returns (base: nat)
    requires |EncodeVarint(v)| <= offset <= a.Length
    modifies a
    ensures base + |EncodeVarint(v)| == offset
    ensures a[..] == old(a[..base]) + EncodeVarint(v) + old(a[offset..])
  {
    SizeIsEncodedLength(v);
    base := offset - SizeOfVarint(v);
    var at, w := base, v;
    ghost var was: seq<u8>, done: seq<u8> := a[..], [];
    assert a[..] == was[..base] + done + was[at..];
    while w >= 0x80
      invariant base <= at && at + |EncodeVarint(w)| == offset && |done| == at - base
      invariant done + EncodeVarint(w) == EncodeVarint(v)
      invariant a[..] == was[..base] + done + was[at..]
      decreases w
    {
      var b := w % 0x80 + 0x80;
      WriteNext(was, base, at, done, b);
      Assoc(done, [b], EncodeVarint(w / 0x80));
      a[at] := b;
      done := done + [b];
      w := w / 0x80;
      at := at + 1;
    }
    WriteNext(was, base, at, done, w);
    a[at] := w;
  }

  lemma WriteNext(was: seq<u8>, base: nat, at: nat, done: seq<u8>, b: u8)
    requires base + |done| == at < |was|
    ensures (was[..base] + done + was[at..])[at := b] == was[..base] + (done + [b]) + was[at + 1..]
  {
  }
}
