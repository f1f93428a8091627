/** Base 128 varints (Protocol Buffers encoding, section "Base 128 Varints"). */
module Varint {
  import opened Wrappers
  import opened Words

  datatype Error =
    | IntOverflow | UnexpectedEOF | InvalidLength | UnexpectedEndOfGroup
    | EndGroup | IllegalTag | WrongWireType | IllegalWireType

  // ---------- Reading ----------

  /** How many bytes a reading loop uses before it stops, and whether it fails. */
  datatype Extent = Extent(used: nat, err: Option<Error>)

  /** The loop after k bytes: it stops at a byte with the top bit clear, and fails at the end of the input or when
      the shift amount, 7k, has reached 64. */
  function VarintExtent(s: seq<u8>, k: nat): (r: Extent)
    ensures r.used <= |s|
    ensures r.err.None? ==> 0 < r.used
    ensures k <= 10 ==> k + r.used <= 10
  {
    if k >= 10 then Extent(0, Some(IntOverflow))
    else if s == [] then Extent(0, Some(UnexpectedEOF))
    else if s[0] < 0x80 then Extent(1, None)
    else
      var r := VarintExtent(s[1..], k + 1);
      Extent(r.used + 1, r.err)
  }

  /** The number whose base 128 digits, least significant first, are the low seven bits of the bytes. */
  function Value(bs: seq<u8>): nat {
    if bs == [] then 0 else bs[0] % 0x80 + 0x80 * Value(bs[1..])
  }

  lemma {:induction false} ValueAppend(bs: seq<u8>, b: u8)
    ensures Value(bs + [b]) == Value(bs) + (b % 0x80) * Pow2(7 * |bs|)
    ensures Value(bs) < Pow2(7 * |bs|)
  {
    if bs == [] {
      assert bs + [b] == [b] && Value([b][1..]) == 0;
    } else {
      var rest := bs[1..];
      ValueAppend(rest, b);
      assert (bs + [b])[1..] == rest + [b];
      Pow2Plus7(7 * |rest|);
      assert 0x80 * ((b % 0x80) * Pow2(7 * |rest|)) == (b % 0x80) * (0x80 * Pow2(7 * |rest|));
    }
  }

  /** A successful reading does not depend on what follows the bytes it used. */
  lemma {:induction false} ExtentIsLocal(s: seq<u8>, rest: seq<u8>, k: nat)
    requires VarintExtent(s, k).err.None?
    ensures VarintExtent(s + rest, k) == VarintExtent(s, k)
  {
    if s[0] >= 0x80 {
      assert (s + rest)[1..] == s[1..] + rest;
      ExtentIsLocal(s[1..], rest, k + 1);
    }
  }

  // ---------- Writing ----------

  function EncodeVarint(v: nat): (s: seq<u8>)
    ensures s != []
  {
    if v < 0x80 then [v] else [v % 0x80 + 0x80] + EncodeVarint(v / 0x80)
  }

  /** Reading back an encoded number uses its bytes, whatever follows them, and gives the number. */
  lemma {:induction false} ReadEncoded(v: nat, k: nat, rest: seq<u8>)
    requires k + |EncodeVarint(v)| <= 10
    ensures VarintExtent(EncodeVarint(v) + rest, k) == Extent(|EncodeVarint(v)|, None)
    ensures Value(EncodeVarint(v)) == v
  {
    var s := EncodeVarint(v) + rest;
    if v >= 0x80 {
      assert s[1..] == EncodeVarint(v / 0x80) + rest;
      assert EncodeVarint(v)[1..] == EncodeVarint(v / 0x80);
      ReadEncoded(v / 0x80, k + 1, rest);
    } else {
      assert EncodeVarint(v)[1..] == [];
    }
  }

  // ---------- The size of a varint ----------

  /** Number of bits needed to represent x. */
  function Len64(x: nat): nat {
    if x == 0 then 0 else 1 + Len64(x / 2)
  }

  function OrOne(x: nat): nat {
    if x % 2 == 0 then x + 1 else x
  }

  function SizeOfVarint(x: nat): nat {
    (Len64(OrOne(x)) + 6) / 7
  }

  lemma Len64Half(x: nat)
    requires x > 0
    ensures Len64(x) == 1 + Len64(x / 2)
  {
  }

  lemma Len64Shifted(x: nat)
    requires x >= 0x80
    ensures Len64(x) == 7 + Len64(x / 0x80)
  {
    Len64Half(x); Len64Half(x / 2); Len64Half(x / 4); Len64Half(x / 8);
    Len64Half(x / 16); Len64Half(x / 32); Len64Half(x / 64);
    assert x / 2 / 2 == x / 4 && x / 4 / 2 == x / 8 && x / 8 / 2 == x / 16;
    assert x / 16 / 2 == x / 32 && x / 32 / 2 == x / 64 && x / 64 / 2 == x / 128;
  }

  lemma Len64Small(x: nat)
    requires 0 < x < 0x80
    ensures 1 <= Len64(x) <= 7
  {
    assert Len64(x / 64) <= 1;
    assert Len64(x / 16) <= 3;
    assert Len64(x / 4) <= 5;
  }

  /** The closed formula is the number of bytes the encoder writes. */
  lemma {:induction false} SizeIsEncodedLength(v: nat)
    ensures SizeOfVarint(v) == |EncodeVarint(v)|
  {
    if v < 0x80 {
      Len64Small(OrOne(v));
    } else {
      Len64Shifted(v);
      assert Len64(OrOne(v)) == Len64(v) by { assert OrOne(v) / 2 == v / 2; }
      assert Len64(OrOne(v / 0x80)) == Len64(v / 0x80) by { assert OrOne(v / 0x80) / 2 == v / 0x80 / 2; }
      SizeIsEncodedLength(v / 0x80);
    }
  }

  lemma {:induction false} EncodedAtMost(v: nat, k: nat)
    requires v < Pow2(7 * k) && k > 0
    ensures |EncodeVarint(v)| <= k
    decreases k
  {
    if v >= 0x80 {
      Pow2Small();
      Pow2Plus7(7 * (k - 1));
      EncodedAtMost(v / 0x80, k - 1);
    }
  }

  /** No 64-bit number needs more than ten bytes. */
  lemma EncodedAtMost10(v: u64)
    ensures |EncodeVarint(v)| <= 10
  {
    Pow2Large();
    EncodedAtMost(v, 10);
  }
}
