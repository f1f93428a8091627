/** Machine words as bounded integers, and the bitwise operations that the message codec applies to them. */
module Words {

  const TWO_31 := 0x8000_0000
  const TWO_32 := 0x1_0000_0000
  const TWO_63 := 0x8000_0000_0000_0000
  const TWO_64 := 0x1_0000_0000_0000_0000

  type u8 = x: int | 0 <= x < 0x100
  type u32 = x: int | 0 <= x < 0x1_0000_0000
  type u64 = x: int | 0 <= x < 0x1_0000_0000_0000_0000
  type i32 = x: int | -0x8000_0000 <= x < 0x8000_0000

  /** Conversion between integer types of Go keeps the low bits, so it wraps around until the value fits; a signed
      result reads the top bit as the sign. */
  function ToUint64(x: nat): u64 {
    if x < TWO_64 then x else ToUint64(x - TWO_64)
  }

  function ToInt64(x: nat): (r: int)
    ensures -TWO_63 <= r < TWO_63
  {
    if x < TWO_63 then x else if x < TWO_64 then x - TWO_64 else ToInt64(x - TWO_64)
  }

  function ToInt32(x: nat): i32 {
    if x < TWO_31 then x else if x < TWO_32 then x - TWO_32 else ToInt32(x - TWO_32)
  }

  lemma {:induction false} ToUint64IsRemainder(x: nat)
    ensures ToUint64(x) == x % TWO_64
  {
    if x >= TWO_64 {
      ToUint64IsRemainder(x - TWO_64);
    }
  }

  lemma {:induction false} ToInt32Wraps(x: nat, k: nat)
    ensures ToInt32(x + k * TWO_32) == ToInt32(x)
  {
    if k > 0 {
      ToInt32Wraps(x, k - 1);
      assert x + k * TWO_32 - TWO_32 == x + (k - 1) * TWO_32;
    }
  }

  /** Conversion of a 32-bit signed integer extends its sign. */
  function SignExtend(x: i32): u64 {
    if x < 0 then x + TWO_64 else x
  }

  function Pow2(n: nat): nat {
    if n == 0 then 1 else 2 * Pow2(n - 1)
  }

  lemma Pow2Plus7(n: nat)
    ensures Pow2(n + 7) == 128 * Pow2(n)
  {
    assert Pow2(n + 7) == 2 * Pow2(n + 6) == 4 * Pow2(n + 5) == 8 * Pow2(n + 4);
    assert Pow2(n + 4) == 2 * Pow2(n + 3) == 4 * Pow2(n + 2) == 8 * Pow2(n + 1);
  }

  lemma TwiceProduct(x: nat, y: nat)
    ensures 2 * (x * y) == (2 * x) * y
  {
  }

  lemma {:induction false} Pow2Sum(m: nat, n: nat)
    ensures Pow2(m + n) == Pow2(m) * Pow2(n)
  {
    if m > 0 {
      Pow2Sum(m - 1, n);
      TwiceProduct(Pow2(m - 1), Pow2(n));
      assert Pow2(m + n) == 2 * Pow2(m - 1 + n);
    }
  }

  lemma Pow2Small()
    ensures Pow2(7) == 0x80 && Pow2(14) == 0x4000 && Pow2(28) == 0x1000_0000
  {
    Pow2Plus7(0);
    Pow2Plus7(7);
    Pow2Sum(14, 14);
  }

  lemma Pow2Large()
    ensures Pow2(56) == 0x100_0000_0000_0000 && Pow2(63) == TWO_63 && Pow2(70) == 0x40_0000_0000_0000_0000
  {
    Pow2Small();
    Pow2Sum(28, 28);
    Pow2Plus7(56);
    Pow2Plus7(63);
  }

  lemma {:induction false} Pow2Monotone(m: nat, n: nat)
    requires m <= n
    ensures Pow2(m) <= Pow2(n)
  {
    if m < n {
      Pow2Monotone(m, n - 1);
    }
  }

  /** `word | payload << shift` in 64 bits, where the word has no bit at `shift` or above: then no two bits meet, and
      the result is a sum. `OrShiftedBits64` is the same fact about bit-vectors. */
  function OrShifted(word: u64, payload: nat, shift: nat): u64
    requires payload < 128 && (shift < 64 ==> word < Pow2(shift))
  {
    (word + payload * Pow2(shift)) % TWO_64
  }

  /** The same in 32 bits, where a shift by 32 or more leaves zero. */
  function OrShifted32(word: u32, payload: nat, shift: nat): u32
    requires payload < 128 && (shift < 32 ==> word < Pow2(shift))
  {
    if shift < 32 then (word + payload * Pow2(shift)) % TWO_32 else word
  }

  /** The same on a signed word. */
  function OrShiftedInt32(word: i32, payload: nat, shift: nat): i32
    requires payload < 128 && (shift < 32 ==> 0 <= word < Pow2(shift))
  {
    ToInt32(OrShifted32(if word < 0 then word + TWO_32 else word, payload, shift))
  }

  /** The shifts that occur in the 64-bit loops, first those up to 28. The two sides are the bits of the loop and the
      sum above, with the sums and products of bit-vectors wrapping around as `OrShifted` does. */
  lemma OrShiftedBits64(word: bv64, payload: bv64)
    requires payload < 128
    ensures word == 0 ==> word | payload == word + payload
    ensures word < 1 << 7 ==> word | (payload << 7) == word + payload * (1 << 7)
    ensures word < 1 << 14 ==> word | (payload << 14) == word + payload * (1 << 14)
    ensures word < 1 << 21 ==> word | (payload << 21) == word + payload * (1 << 21)
    ensures word < 1 << 28 ==> word | (payload << 28) == word + payload * (1 << 28)
  {
  }

  /** The shifts from 35 on; the last loses all but one bit of the payload. */
  lemma OrShiftedHighBits64(word: bv64, payload: bv64)
    requires payload < 128
    ensures word < 1 << 35 ==> word | (payload << 35) == word + payload * (1 << 35)
    ensures word < 1 << 42 ==> word | (payload << 42) == word + payload * (1 << 42)
    ensures word < 1 << 49 ==> word | (payload << 49) == word + payload * (1 << 49)
    ensures word < 1 << 56 ==> word | (payload << 56) == word + payload * (1 << 56)
    ensures word < 1 << 63 ==> word | (payload << 63) == word + payload * (1 << 63)
  {
  }

  /** And in the 32-bit loop, before the payload is shifted out. */
  lemma OrShiftedBits32(word: bv32, payload: bv32)
    requires payload < 128
    ensures word == 0 ==> word | payload == word + payload
    ensures word < 1 << 7 ==> word | (payload << 7) == word + payload * (1 << 7)
    ensures word < 1 << 14 ==> word | (payload << 14) == word + payload * (1 << 14)
    ensures word < 1 << 21 ==> word | (payload << 21) == word + payload * (1 << 21)
    ensures word < 1 << 28 ==> word | (payload << 28) == word + payload * (1 << 28)
  {
  }

  /** The other bitwise operations of the codec, as the arithmetic that stands for them here. */
  lemma MasksAndShiftsAreDivisions(v: bv64)
    ensures v & 0x7F == v % 0x80 && v >> 7 == v / 0x80
    ensures (v & 0x7F) | 0x80 == v % 0x80 + 0x80
    ensures v & 0x7 == v % 8 && v >> 3 == v / 8
    ensures v | 1 == if v % 2 == 0 then v + 1 else v
  {
  }
}
