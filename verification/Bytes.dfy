/** Bytes, bitwise exclusive or, and the little-endian integers of the ZIP format. */
module Bytes {
  newtype byte = b: int | 0 <= b < 256
  type Buffer = seq<byte>

  const POW16: nat := 0x1_0000
  const POW32: nat := 0x1_0000_0000

  // ------------------------------------------------------------ exclusive or

  /** Bitwise exclusive or of two naturals. */
  function Xor(a: nat, b: nat): nat {
    if a == 0 then b
    else if b == 0 then a
    else (if a % 2 == b % 2 then 0 else 1) + 2 * Xor(a / 2, b / 2)
  }

  lemma {:induction false} XorHalves(a: nat, b: nat)
    ensures Xor(a, b) % 2 == if a % 2 == b % 2 then 0 else 1
    ensures Xor(a, b) / 2 == Xor(a / 2, b / 2)
  {
    if a != 0 && b != 0 {
      HalvesOfSum(if a % 2 == b % 2 then 0 else 1, Xor(a / 2, b / 2));
    }
  }

  lemma {:induction false} XorCommutes(a: nat, b: nat)
    ensures Xor(a, b) == Xor(b, a)
  {
    if a != 0 && b != 0 {
      XorCommutes(a / 2, b / 2);
    }
  }

  lemma {:induction false} XorAssociates(a: nat, b: nat, c: nat)
    ensures Xor(Xor(a, b), c) == Xor(a, Xor(b, c))
  {
    if a != 0 && b != 0 && c != 0 {
      hide Xor;
      XorHalves(a, b);
      XorHalves(b, c);
      XorHalves(Xor(a, b), c);
      XorHalves(a, Xor(b, c));
      XorAssociates(a / 2, b / 2, c / 2);
      EqualByHalves(Xor(Xor(a, b), c), Xor(a, Xor(b, c)));
    }
  }

  lemma HalvesOfSum(x: nat, y: nat)
    ensures (x + 2 * y) % 2 == x % 2 && (x + 2 * y) / 2 == x / 2 + y && 2 * y / 2 == y
  {}

  lemma EqualByHalves(x: nat, y: nat)
    requires x % 2 == y % 2 && x / 2 == y / 2
    ensures x == y
  {}

  lemma {:induction false} XorSelf(a: nat)
    ensures Xor(a, a) == 0
  {
    if a != 0 {
      XorSelf(a / 2);
    }
  }

  lemma XorCancels(a: nat, b: nat)
    ensures Xor(Xor(a, b), b) == a && Xor(b, Xor(a, b)) == a
  {
    XorAssociates(a, b, b);
    XorSelf(b);
    XorCommutes(b, Xor(a, b));
  }

  lemma XorSwapsInner(a: nat, b: nat, c: nat, d: nat)
    ensures Xor(Xor(a, b), Xor(c, d)) == Xor(Xor(a, c), Xor(b, d))
  {
    XorAssociates(a, b, Xor(c, d));
    XorAssociates(b, c, d);
    XorCommutes(b, c);
    XorAssociates(c, b, d);
    XorAssociates(a, c, Xor(b, d));
  }

  function Pow2(k: nat): nat {
    if k == 0 then 1 else 2 * Pow2(k - 1)
  }

  /** `value << k`. */
  function ShiftUp(k: nat, value: nat): nat {
    if k == 0 then value else 2 * ShiftUp(k - 1, value)
  }

  /** `value >>> k`. */
  function ShiftDown(k: nat, value: nat): nat {
    if k == 0 then value else ShiftDown(k - 1, value / 2)
  }

  lemma ByTwoBits(k: nat, value: nat)
    ensures Pow2(k + 2) == 4 * Pow2(k)
    ensures ShiftUp(k + 2, value) == 4 * ShiftUp(k, value)
    ensures ShiftDown(k + 2, value) == ShiftDown(k, value / 4)
  {
    assert ShiftDown(k + 2, value) == ShiftDown(k + 1, value / 2);
  }

  lemma QuarterTwice(value: nat)
    ensures value / 4 / 4 == value / 16
  {}

  lemma ByNibble(k: nat, value: nat)
    ensures Pow2(k + 4) == 16 * Pow2(k)
    ensures ShiftUp(k + 4, value) == 16 * ShiftUp(k, value)
    ensures ShiftDown(k + 4, value) == ShiftDown(k, value / 16)
  {
    ByTwoBits(k + 2, value);
    ByTwoBits(k, value);
    ByTwoBits(k, value / 4);
    QuarterTwice(value);
  }

  lemma NibbleTwice(value: nat)
    ensures value / 16 / 16 == value / 256
  {}

  lemma ByByte(value: nat)
    ensures Pow2(8) == 256
    ensures ShiftUp(8, value) == 256 * value
    ensures ShiftDown(8, value) == value / 256
  {
    ByNibble(4, value);
    ByNibble(0, value);
    ByNibble(0, value / 16);
    NibbleTwice(value);
  }

  /** Values below 2^k and values moved up by k bits share no bit. */
  lemma {:induction false} XorDisjoint(k: nat, low: nat, high: nat)
    requires low < Pow2(k)
    ensures Xor(low, ShiftUp(k, high)) == low + ShiftUp(k, high)
  {
    if k > 0 {
      var up := ShiftUp(k - 1, high);
      XorHalves(low, 2 * up);
      XorDisjoint(k - 1, low / 2, high);
      HalvesOfSum(low, up);
      EqualByHalves(Xor(low, 2 * up), low + 2 * up);
    }
  }

  lemma {:induction false} XorShiftedDown(k: nat, a: nat, b: nat)
    ensures ShiftDown(k, Xor(a, b)) == Xor(ShiftDown(k, a), ShiftDown(k, b))
  {
    if k > 0 {
      XorHalves(a, b);
      XorShiftedDown(k - 1, a / 2, b / 2);
    }
  }

  lemma {:induction false} XorBound(k: nat, a: nat, b: nat)
    requires a < Pow2(k) && b < Pow2(k)
    ensures Xor(a, b) < Pow2(k)
  {
    if k > 0 && a != 0 && b != 0 {
      XorBound(k - 1, a / 2, b / 2);
    }
  }

  // ------------------------------------------------------------ little-endian integers

  /** `u16(value)`: the low sixteen bits, least significant byte first. */
  function U16(value: nat): (r: Buffer)
    ensures |r| == 2
  {
    [(value % 256) as byte, (value / 256 % 256) as byte]
  }

  /** `u32(value)`: the low thirty-two bits, least significant byte first. */
  function U32(value: nat): (r: Buffer)
    ensures |r| == 4
  {
    U16(value) + U16(value / POW16)
  }

  /** `readUInt16LE`: an out-of-range offset reads as zero. */
  function ReadU16(buffer: Buffer, offset: int): (r: nat)
    ensures r < POW16
  {
    if offset < 0 || offset + 2 > |buffer| then 0
    else buffer[offset] as int + 256 * buffer[offset + 1] as int
  }

  /** `readUInt32LE`: an out-of-range offset reads as zero. */
  function ReadU32(buffer: Buffer, offset: int): (r: nat)
    ensures r < POW32
  {
    if offset < 0 || offset + 4 > |buffer| then 0
    else ReadU16(buffer, offset) + POW16 * ReadU16(buffer, offset + 2)
  }

  /** `part` occurs in `buffer` at `offset`. */
  ghost predicate Holds(buffer: Buffer, offset: int, part: Buffer)
  {
    0 <= offset && offset + |part| <= |buffer| && buffer[offset..offset + |part|] == part
  }

  lemma HoldsConcat(buffer: Buffer, offset: int, left: Buffer, right: Buffer)
    requires Holds(buffer, offset, left + right)
    ensures Holds(buffer, offset, left) && Holds(buffer, offset + |left|, right)
  {
    var whole := buffer[offset..offset + |left| + |right|];
    assert whole[..|left|] == left && whole[|left|..] == right;
  }

  /** Reading back what `u16` wrote gives the value truncated to sixteen bits. */
  lemma ReadBackU16(buffer: Buffer, offset: int, value: nat)
    requires Holds(buffer, offset, U16(value))
    ensures ReadU16(buffer, offset) == value % POW16
  {
    var part := buffer[offset..offset + 2];
    assert buffer[offset] == part[0] && buffer[offset + 1] == part[1];
    assert value % POW16 == value % 256 + 256 * (value / 256 % 256);
  }

  /** Reading back what `u32` wrote gives the value truncated to thirty-two bits. */
  lemma ReadBackU32(buffer: Buffer, offset: int, value: nat)
    requires Holds(buffer, offset, U32(value))
    ensures ReadU32(buffer, offset) == value % POW32
  {
    HoldsConcat(buffer, offset, U16(value), U16(value / POW16));
    ReadBackU16(buffer, offset, value);
    ReadBackU16(buffer, offset + 2, value / POW16);
    assert value % POW32 == value % POW16 + POW16 * (value / POW16 % POW16);
  }

  /** Outside the buffer everything reads as zero. */
  lemma ReadOutside(buffer: Buffer, offset: int)
    ensures offset < 0 || offset + 2 > |buffer| ==> ReadU16(buffer, offset) == 0
    ensures offset < 0 || offset + 4 > |buffer| ==> ReadU32(buffer, offset) == 0
  {}
}
