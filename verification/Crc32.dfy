/** CRC-32 as src/zipWriter.js computes it, with a 256-entry table (section 4.4.7 of PKWARE APPNOTE.TXT). */
module Crc32 {
  import opened Bytes

  const POLYNOMIAL: nat := 0xedb8_8320
  const ALL_ONES: nat := 0xffff_ffff

  // ------------------------------------------------------------ the serial definition

  /** One shift of a reflected register with the given feedback. */
  function Feedback(polynomial: nat, c: nat): nat {
    if c % 2 == 1 then Xor(polynomial, c / 2) else c / 2
  }

  function Step(c: nat): nat {
    Feedback(POLYNOMIAL, c)
  }

  function Steps(n: nat, c: nat): nat {
    if n == 0 then c else Steps(n - 1, Step(c))
  }

  /** Shift `n` message bits in, least significant first: each bit is added to the
      register's low bit and the register is shifted once. */
  function ShiftIn(n: nat, c: nat, bits: nat): nat {
    if n == 0 then c else ShiftIn(n - 1, Step(Xor(c, bits % 2)), bits / 2)
  }

  /** The register after a whole message, one bit at a time. */
  function Register(c: nat, message: Buffer): nat {
    if message == [] then c
    else ShiftIn(8, Register(c, message[..|message| - 1]), message[|message| - 1] as nat)
  }

  /** The CRC-32 of a message by the serial definition. */
  function Crc(message: Buffer): nat {
    Xor(Register(ALL_ONES, message), ALL_ONES)
  }

  // ------------------------------------------------------------ the register is linear and injective

  lemma FeedbackIsLinear(p: nat, a: nat, b: nat)
    ensures Feedback(p, Xor(a, b)) == Xor(Feedback(p, a), Feedback(p, b))
  {
    XorHalves(a, b);
    TermMoves(p, a / 2, b / 2);
  }

  lemma TermMoves(p: nat, x: nat, y: nat)
    ensures Xor(p, Xor(x, y)) == Xor(Xor(p, x), y) == Xor(x, Xor(p, y))
    ensures Xor(Xor(p, x), Xor(p, y)) == Xor(x, y)
  {
    XorAssociates(p, x, y);
    XorAssociates(x, p, y);
    XorCommutes(p, x);
    XorSwapsInner(p, x, p, y);
    XorSelf(p);
  }

  lemma StepIsLinear(a: nat, b: nat)
    ensures Step(Xor(a, b)) == Xor(Step(a), Step(b))
  {
    FeedbackIsLinear(POLYNOMIAL, a, b);
  }

  lemma {:induction false} StepsAreLinear(n: nat, a: nat, b: nat)
    ensures Steps(n, Xor(a, b)) == Xor(Steps(n, a), Steps(n, b))
  {
    if n > 0 {
      StepIsLinear(a, b);
      StepsAreLinear(n - 1, Step(a), Step(b));
    }
  }

  lemma TopBits()
    ensures Pow2(8) == 256 && Pow2(31) == 0x8000_0000 && Pow2(32) == POW32
  {
    ByByte(0);
    assert Pow2(12) == 16 * Pow2(8);
    assert Pow2(16) == 16 * Pow2(12);
    assert Pow2(20) == 16 * Pow2(16);
    assert Pow2(24) == 16 * Pow2(20);
    assert Pow2(28) == 16 * Pow2(24);
    assert Pow2(31) == 8 * Pow2(28);
  }

  lemma {:induction false} ShiftUpOne(k: nat)
    ensures ShiftUp(k, 1) == Pow2(k)
  {
    if k > 0 {
      ShiftUpOne(k - 1);
    }
  }

  /** The bit shifted out is the register's new top bit. */
  lemma StepBound(c: nat)
    requires c < POW32
    ensures Step(c) < POW32
    ensures c % 2 == 1 <==> Step(c) >= 0x8000_0000
  {
    TopBits();
    ShiftUpOne(31);
    var low := POLYNOMIAL - 0x8000_0000;
    XorDisjoint(31, low, 1);
    XorCommutes(low, Pow2(31));
    XorAssociates(Pow2(31), low, c / 2);
    XorBound(31, low, c / 2);
    XorDisjoint(31, Xor(low, c / 2), 1);
    XorCommutes(Xor(low, c / 2), Pow2(31));
  }

  lemma StepIsInjective(a: nat, b: nat)
    requires a < POW32 && b < POW32 && Step(a) == Step(b)
    ensures a == b
  {
    StepBound(a);
    StepBound(b);
    XorCommutes(POLYNOMIAL, a / 2);
    XorCommutes(POLYNOMIAL, b / 2);
    XorCancels(a / 2, POLYNOMIAL);
    XorCancels(b / 2, POLYNOMIAL);
  }

  lemma {:induction false} StepsBound(n: nat, c: nat)
    requires c < POW32
    ensures Steps(n, c) < POW32
  {
    if n > 0 {
      StepBound(c);
      StepsBound(n - 1, Step(c));
    }
  }

  lemma {:induction false} StepsAreInjective(n: nat, a: nat, b: nat)
    requires a < POW32 && b < POW32 && Steps(n, a) == Steps(n, b)
    ensures a == b
  {
    if n > 0 {
      StepBound(a);
      StepBound(b);
      StepsAreInjective(n - 1, Step(a), Step(b));
      StepIsInjective(a, b);
    }
  }

  /** Shifts of a register whose low bits are clear only move it down. */
  lemma {:induction false} ClearBitsShiftDown(n: nat, c: nat)
    ensures Steps(n, ShiftUp(n, c)) == c
  {
    if n > 0 {
      ClearBitsShiftDown(n - 1, c);
    }
  }

  // ------------------------------------------------------------ a byte at a time

  /** Adding all bits to the register first and then shifting is the serial process,
      up to the bits that have not been consumed. */
  lemma {:induction false} SerialIsParallel(n: nat, c: nat, bits: nat)
    ensures Steps(n, Xor(c, bits)) == Xor(ShiftIn(n, c, bits), ShiftDown(n, bits))
  {
    if n > 0 {
      var low, high := bits % 2, bits / 2;
      OneBitIn(c, low, high);
      SerialIsParallel(n - 1, Step(Xor(c, low)), high);
    }
  }

  lemma OneBitIn(c: nat, low: nat, high: nat)
    requires low < 2
    ensures Step(Xor(c, low + 2 * high)) == Xor(Step(Xor(c, low)), high)
  {
    assert Pow2(1) == 2 && ShiftUp(1, high) == 2 * high && Step(2 * high) == high;
    hide Xor, Step;
    XorDisjoint(1, low, high);
    XorAssociates(c, low, 2 * high);
    StepIsLinear(Xor(c, low), 2 * high);
  }

  lemma {:induction false} ShiftedOut(n: nat, bits: nat)
    requires bits < Pow2(n)
    ensures ShiftDown(n, bits) == 0
  {
    if n > 0 {
      ShiftedOut(n - 1, bits / 2);
    }
  }

  lemma FeedByte(c: nat, b: byte)
    ensures ShiftIn(8, c, b as nat) == Steps(8, Xor(c, b as nat))
  {
    TopBits();
    SerialIsParallel(8, c, b as nat);
    ShiftedOut(8, b as nat);
    XorCommutes(ShiftIn(8, c, b as nat), 0);
  }

  /** The step of the table-driven loop: look the low byte up, shift the rest down. */
  lemma TableStep(c: nat, b: byte)
    ensures ShiftIn(8, c, b as nat) == Xor(Steps(8, Xor(c, b as nat) % 256), c / 256)
  {
    hide *;
    var x := Xor(c, b as nat);
    FeedByte(c, b);
    LowAndHigh(x);
    HighOfSum(c, b);
    StepsAreLinear(8, x % 256, ShiftUp(8, x / 256));
    ClearBitsShiftDown(8, x / 256);
  }

  lemma LowAndHigh(x: nat)
    ensures x == Xor(x % 256, ShiftUp(8, x / 256))
  {
    hide Xor, Pow2, ShiftUp, ShiftDown;
    ByByte(x / 256);
    ByByte(x);
    XorDisjoint(8, x % 256, x / 256);
  }

  lemma HighOfSum(c: nat, b: byte)
    ensures Xor(c, b as nat) / 256 == c / 256
  {
    hide Xor, Pow2, ShiftUp, ShiftDown;
    ByByte(c);
    ByByte(b as nat);
    ByByte(Xor(c, b as nat));
    XorShiftedDown(8, c, b as nat);
    XorNothing(c / 256);
    assert b as nat / 256 == 0;
  }

  lemma XorNothing(a: nat)
    ensures Xor(a, 0) == a
  {
    XorCommutes(a, 0);
  }

  // ------------------------------------------------------------ the source's loops

  ghost predicate IsTable(table: seq<nat>) {
    |table| == 256 && forall n: nat :: n < 256 ==> table[n] == Steps(8, n)
  }

  /** CRC_TABLE: every byte value run through eight shifts. */
  method BuildTable() returns (table: array<nat>)
    ensures fresh(table) && IsTable(table[..])
  {
    table := new nat[256];
    var n := 0;
    while n < 256
      invariant 0 <= n <= 256
      invariant forall i: nat :: i < n ==> table[i] == Steps(8, i)
    {
      var c: nat := n;
      var k := 0;
      while k < 8
        invariant 0 <= k <= 8
        invariant Steps(8 - k, c) == Steps(8, n)
      {
        c := if c % 2 == 1 then Xor(POLYNOMIAL, c / 2) else c / 2;
        k := k + 1;
      }
      table[n] := c;
      n := n + 1;
    }
  }

  /** crc32(buffer): the table-driven loop computes the serial CRC-32 of every buffer. */
  method Crc32(table: array<nat>, buffer: Buffer) returns (crc: nat)
    requires IsTable(table[..])
    ensures crc == Crc(buffer)
  {
    var c := ALL_ONES;
    var i := 0;
    while i < |buffer|
      invariant 0 <= i <= |buffer|
      invariant c == Register(ALL_ONES, buffer[..i])
    {
      var low := Xor(c, buffer[i] as nat) % 256;
      TableStep(c, buffer[i]);
      assert table[low] == table[..][low];
      assert buffer[..i + 1][..i] == buffer[..i];
      c := Xor(table[low], c / 256);
      i := i + 1;
    }
    assert buffer[..i] == buffer;
    crc := Xor(c, ALL_ONES);
  }

  // ------------------------------------------------------------ what the check in entryData detects

  lemma {:induction false} RegisterBound(c: nat, message: Buffer)
    requires c < POW32
    ensures Register(c, message) < POW32
  {
    if message != [] {
      var init, last := message[..|message| - 1], message[|message| - 1];
      RegisterBound(c, init);
      FeedByte(Register(c, init), last);
      ByteXorBound(Register(c, init), last);
      StepsBound(8, Xor(Register(c, init), last as nat));
    }
  }

  lemma ByteXorBound(c: nat, b: byte)
    requires c < POW32
    ensures Xor(c, b as nat) < POW32
  {
    TopBits();
    XorBound(32, c, b as nat);
  }

  lemma CrcBound(message: Buffer)
    ensures Crc(message) < POW32
  {
    TopBits();
    RegisterBound(ALL_ONES, message);
    XorBound(32, Register(ALL_ONES, message), ALL_ONES);
  }

  /** Registers that meet after the same suffix had met before it. */
  lemma {:induction false} SameSuffix(c: nat, d: nat, message: Buffer)
    requires c < POW32 && d < POW32 && Register(c, message) == Register(d, message)
    ensures c == d
  {
    if message != [] {
      var init, last := message[..|message| - 1], message[|message| - 1];
      var x, y := Register(c, init), Register(d, init);
      RegisterBound(c, init);
      RegisterBound(d, init);
      FeedByte(x, last);
      FeedByte(y, last);
      ByteXorBound(x, last);
      ByteXorBound(y, last);
      StepsAreInjective(8, Xor(x, last as nat), Xor(y, last as nat));
      XorCancels(x, last as nat);
      XorCancels(y, last as nat);
      SameSuffix(c, d, init);
    }
  }

  lemma {:induction false} RegisterConcat(c: nat, left: Buffer, right: Buffer)
    ensures Register(c, left + right) == Register(Register(c, left), right)
  {
    if right == [] {
      assert left + right == left;
    } else {
      var init := right[..|right| - 1];
      assert (left + right)[..|left + right| - 1] == left + init;
      RegisterConcat(c, left, init);
    }
  }

  /** The difference of two registers that are fed up to four bytes from a common start. */
  function Difference(d: nat, a: Buffer, b: Buffer): nat
    requires |a| == |b|
  {
    if a == [] then d
    else
      var n := |a| - 1;
      Steps(8, Xor(Difference(d, a[..n], b[..n]), Xor(a[n] as nat, b[n] as nat)))
  }

  lemma {:induction false} RegistersDiffer(c: nat, a: Buffer, b: Buffer)
    requires |a| == |b|
    ensures Xor(Register(c, a), Register(c, b)) == Difference(0, a, b)
  {
    if a == [] {
      XorSelf(c);
    } else {
      var n := |a| - 1;
      var x, y, p, q := Register(c, a[..n]), Register(c, b[..n]), a[n] as nat, b[n] as nat;
      RegistersDiffer(c, a[..n], b[..n]);
      FeedByte(x, a[n]);
      FeedByte(y, b[n]);
      StepsAreLinear(8, Xor(x, p), Xor(y, q));
      XorSwapsInner(x, p, y, q);
    }
  }

  /** The bytes of a difference, read as one little-endian word. */
  function Word(a: Buffer, b: Buffer): nat
    requires |a| == |b|
  {
    if a == [] then 0
    else Xor(a[0] as nat, b[0] as nat) + 256 * Word(a[1..], b[1..])
  }

  lemma {:induction false} WordBound(a: Buffer, b: Buffer)
    requires |a| == |b| <= 4
    ensures Word(a, b) < Pow2(8 * |a|)
    ensures Word(a, b) == 0 ==> a == b
  {
    TopBits();
    if a != [] {
      var x := Xor(a[0] as nat, b[0] as nat);
      XorBound(8, a[0] as nat, b[0] as nat);
      WordBound(a[1..], b[1..]);
      MorePow2(8 * (|a| - 1));
      if Word(a, b) == 0 {
        XorCancels(a[0] as nat, b[0] as nat);
        XorCommutes(a[0] as nat, b[0] as nat);
        assert a == [a[0]] + a[1..] && b == [b[0]] + b[1..];
      }
    }
  }

  lemma MorePow2(k: nat)
    ensures Pow2(k + 8) == 256 * Pow2(k)
  {
    ByNibble(k + 4, 0);
    ByNibble(k, 0);
  }

  lemma WordFront(a: Buffer, b: Buffer)
    requires |a| == |b| && a != []
    ensures Word(a, b) == Xor(a[0] as nat, b[0] as nat) + 256 * Word(a[1..], b[1..])
  {
    hide Xor;
  }

  lemma NoDifference(d: nat)
    ensures Difference(d, [], []) == Steps(0, Xor(d, Word([], [])))
  {
    XorNothing(d);
  }

  /** Four bytes of difference enter the register exactly as their word would. */
  lemma {:induction false} DifferenceIsWord(d: nat, a: Buffer, b: Buffer)
    requires |a| == |b|
    ensures Difference(d, a, b) == Steps(8 * |a|, Xor(d, Word(a, b)))
    decreases |a|
  {
    hide *;
    if a == [] {
      NoDifference(d);
    } else {
      var x, rest, n := Xor(a[0] as nat, b[0] as nat), Word(a[1..], b[1..]), 8 * |a[1..]|;
      var d' := Steps(8, Xor(d, x));
      WordFront(a, b);
      DifferenceFromFront(d, a, b);
      DifferenceIsWord(d', a[1..], b[1..]);
      WordEnters(d, x, rest, a[0], b[0]);
      StepsCompose(8, n, Xor(d, x + 256 * rest));
    }
  }

  lemma WordEnters(d: nat, x: nat, rest: nat, p: byte, q: byte)
    requires x == Xor(p as nat, q as nat)
    ensures Steps(8, Xor(d, x + 256 * rest)) == Xor(Steps(8, Xor(d, x)), rest)
  {
    hide *;
    XorBoundByte(p, q);
    ByByte(rest);
    XorDisjoint(8, x, rest);
    XorAssociates(d, x, ShiftUp(8, rest));
    StepsAreLinear(8, Xor(d, x), ShiftUp(8, rest));
    ClearBitsShiftDown(8, rest);
  }

  lemma XorBoundByte(x: byte, y: byte)
    ensures Xor(x as nat, y as nat) < 256
  {
    ByByte(0);
    XorBound(8, x as nat, y as nat);
  }

  lemma {:induction false} StepsCompose(m: nat, n: nat, c: nat)
    ensures Steps(m + n, c) == Steps(n, Steps(m, c))
  {
    if m > 0 {
      StepsCompose(m - 1, n, Step(c));
    }
  }

  lemma {:induction false} DifferenceFromFront(d: nat, a: Buffer, b: Buffer)
    requires |a| == |b| > 0
    ensures Difference(d, a, b) == Difference(Steps(8, Xor(d, Xor(a[0] as nat, b[0] as nat))), a[1..], b[1..])
  {
    if |a| > 1 {
      var n := |a| - 1;
      DifferenceFromFront(d, a[..n], b[..n]);
      assert a[..n][1..] == a[1..][..n - 1] && b[..n][1..] == b[1..][..n - 1];
    } else {
      assert a[..0] == [] && b[..0] == [] && a[1..] == [] && b[1..] == [];
    }
  }

  /** Messages that agree outside four consecutive bytes and have equal CRCs are equal. */
  lemma BurstIsDetected(before: Buffer, a: Buffer, b: Buffer, after: Buffer)
    requires |a| == |b| <= 4
    requires Crc(before + a + after) == Crc(before + b + after)
    ensures a == b
  {
    var c := Register(ALL_ONES, before);
    RegisterBound(ALL_ONES, before);
    RegisterBound(c, a);
    RegisterBound(c, b);
    RegisterConcat(ALL_ONES, before, a);
    RegisterConcat(ALL_ONES, before, b);
    RegisterConcat(ALL_ONES, before + a, after);
    RegisterConcat(ALL_ONES, before + b, after);
    XorCancels(Register(ALL_ONES, before + a + after), ALL_ONES);
    XorCancels(Register(ALL_ONES, before + b + after), ALL_ONES);
    SameSuffix(Register(c, a), Register(c, b), after);
    RegistersDiffer(c, a, b);
    XorSelf(Register(c, a));
    DifferenceIsWord(0, a, b);
    WordBound(a, b);
    NarrowWord(|a|);
    StepsOfZero(8 * |a|);
    StepsAreInjective(8 * |a|, Word(a, b), 0);
  }

  lemma NarrowWord(n: nat)
    requires n <= 4
    ensures Pow2(8 * n) <= POW32
  {
    TopBits();
    MorePow2(0);
    MorePow2(8);
    MorePow2(16);
    MorePow2(24);
  }

  lemma {:induction false} StepsOfZero(n: nat)
    ensures Steps(n, 0) == 0
  {
    if n > 0 {
      StepsOfZero(n - 1);
    }
  }

  // ------------------------------------------------------------ registers as words, to compute with

  predicate Odd(w: bv32) {
    w & 1 == 1
  }

  function Half(w: bv32): bv32 {
    w >> 1
  }

  function Sum(v: bv32, w: bv32): bv32 {
    v ^ w
  }

  /** The natural number whose binary digits the word holds. */
  function Value(w: bv32): nat {
    if w == 0 then 0 else (if Odd(w) then 1 else 0) + 2 * Value(Half(w))
  }

  lemma Unfolded(w: bv32)
    ensures Value(w) == (if Odd(w) then 1 else 0) + 2 * Value(Half(w)) && Value(0) == 0
  {}

  lemma ValueHalves(w: bv32)
    ensures Value(w) % 2 == (if Odd(w) then 1 else 0) && Value(w) / 2 == Value(Half(w)) && Value(0) == 0
  {
    Unfolded(w);
    hide *;
    HalvesOfSum(if Odd(w) then 1 else 0, Value(Half(w)));
  }

  lemma SumHalves(v: bv32, w: bv32)
    ensures Half(Sum(v, w)) == Sum(Half(v), Half(w))
  {}

  lemma SumOdd(v: bv32, w: bv32)
    ensures Odd(Sum(v, w)) <==> Odd(v) != Odd(w)
  {}

  lemma SumZero(w: bv32)
    ensures Sum(0, w) == w
  {}

  lemma HalfIsSmaller(w: bv32)
    requires w != 0
    ensures Half(w) < w
  {}

  lemma {:induction false} XorValue(v: bv32, w: bv32)
    ensures Xor(Value(v), Value(w)) == Value(Sum(v, w))
    decreases v
  {
    hide *;
    ValueHalves(v);
    ValueHalves(w);
    ValueHalves(Sum(v, w));
    if v == 0 {
      SumZero(w);
      XorNothing(Value(w));
      XorCommutes(Value(w), 0);
    } else {
      HalfIsSmaller(v);
      XorValue(Half(v), Half(w));
      SumHalves(v, w);
      SumOdd(v, w);
      XorHalves(Value(v), Value(w));
      EqualByHalves(Xor(Value(v), Value(w)), Value(Sum(v, w)));
    }
  }

  /** The lowest hexadecimal digit, and the other ones. */
  function Digit(w: bv32): nat {
    (if Odd(w) then 1 else 0) + (if Odd(Half(w)) then 2 else 0) + (if Odd(Half(Half(w))) then 4 else 0)
    + if Odd(Half(Half(Half(w)))) then 8 else 0
  }

  function Digits(w: bv32): bv32 {
    Half(Half(Half(Half(w))))
  }

  lemma ByDigit(w: bv32)
    ensures Value(w) == Digit(w) + 16 * Value(Digits(w))
  {
    hide Odd, Half, Value;
    Unfolded(w);
    Unfolded(Half(w));
    Unfolded(Half(Half(w)));
    Unfolded(Half(Half(Half(w))));
  }

  lemma ByTwoDigits(w: bv32)
    ensures Value(w) == Digit(w) + 16 * Digit(Digits(w)) + 256 * Value(Digits(Digits(w)))
  {
    hide *;
    ByDigit(w);
    ByDigit(Digits(w));
  }

  function StepWord(w: bv32): bv32 {
    if Odd(w) then Sum(0xedb8_8320, Half(w)) else Half(w)
  }

  function StepsWord(n: nat, w: bv32): bv32 {
    if n == 0 then w else StepsWord(n - 1, StepWord(w))
  }

  lemma PolynomialValue()
    ensures Value(0xedb8_8320) == POLYNOMIAL
  {
    ByTwoDigits(0xedb8_8320);
    ByTwoDigits(0xed_b883);
    ByTwoDigits(0xedb8);
    ByTwoDigits(0xed);
    hide Value;
    Unfolded(0);
  }

  lemma StepValue(w: bv32)
    ensures Step(Value(w)) == Value(StepWord(w))
  {
    PolynomialValue();
    ValueHalves(w);
    XorValue(0xedb8_8320, Half(w));
    hide Xor, Value, Odd, Half, Sum;
  }

  lemma {:induction false} StepsValue(n: nat, w: bv32)
    ensures Steps(n, Value(w)) == Value(StepsWord(n, w))
  {
    if n > 0 {
      StepValue(w);
      StepsValue(n - 1, StepWord(w));
      hide Step, StepWord, Value;
    }
  }

  // ------------------------------------------------------------ it is the CRC-32 of the standard

  const RESIDUE: nat := 0xdebb_20e3

  function Zeros(n: nat): Buffer {
    seq(n, _ => 0 as byte)
  }

  lemma {:induction false} RegisterIsWord(c: nat, a: Buffer)
    ensures Register(c, a) == Difference(c, a, Zeros(|a|))
  {
    if a != [] {
      var n := |a| - 1;
      RegisterIsWord(c, a[..n]);
      assert Zeros(|a|)[..n] == Zeros(n);
      FeedByte(Register(c, a[..n]), a[n]);
      XorNothing(a[n] as nat);
    }
  }

  lemma {:induction false} WordOfZeros(a: Buffer, b: Buffer)
    requires |a| == 4 && b == Zeros(4)
    ensures Word(a, b) == a[0] as nat + 0x100 * a[1] as nat + 0x1_0000 * a[2] as nat + 0x100_0000 * a[3] as nat
  {
    forall i | 0 <= i < 4
      ensures Xor(a[i] as nat, b[i] as nat) == a[i] as nat
    {
      XorNothing(a[i] as nat);
    }
    hide Xor;
    WordFront(a, b);
    WordFront(a[1..], b[1..]);
    WordFront(a[2..], b[2..]);
    WordFront(a[3..], b[3..]);
    assert a[1..][1..] == a[2..] && a[2..][1..] == a[3..] && b[1..][1..] == b[2..] && b[2..][1..] == b[3..];
  }

  lemma ReadWord(v: nat)
    requires v < POW32
    ensures var a := U32(v);
      v == a[0] as nat + 0x100 * a[1] as nat + 0x1_0000 * a[2] as nat + 0x100_0000 * a[3] as nat
  {}

  lemma FeedWord(c: nat, v: nat)
    requires v < POW32
    ensures Register(c, U32(v)) == Steps(32, Xor(c, v))
  {
    hide *;
    RegisterIsWord(c, U32(v));
    ZerosAre();
    DifferenceIsWord(c, U32(v), Zeros(4));
    WordOfZeros(U32(v), Zeros(4));
    ReadWord(v);
  }

  lemma ZerosAre()
    ensures |Zeros(4)| == 4
  {}

  lemma Ones1()
    ensures StepsWord(8, 0xffff_ffff) == 0x2dfd_1072
  {}

  lemma Ones2()
    ensures StepsWord(8, 0x2dfd_1072) == 0xbe26_ed00
  {}

  lemma Ones3()
    ensures StepsWord(8, 0xbe26_ed00) == 0x00be_26ed
  {}

  lemma Ones4()
    ensures StepsWord(8, 0x00be_26ed) == 0xdebb_20e3
  {}

  lemma OnesShifted()
    ensures Value(0xffff_ffff) == ALL_ONES && Steps(32, ALL_ONES) == RESIDUE
  {
    ByTwoDigits(0xffff_ffff);
    ByTwoDigits(0xff_ffff);
    ByTwoDigits(0xffff);
    ByTwoDigits(0xff);
    ByTwoDigits(0xdebb_20e3);
    ByTwoDigits(0xde_bb20);
    ByTwoDigits(0xdebb);
    ByTwoDigits(0xde);
    hide Value, Step, Steps, StepWord, StepsWord;
    Unfolded(0);
    Ones1();
    Ones2();
    Ones3();
    Ones4();
    StepsValue(8, 0xffff_ffff);
    StepsValue(8, 0x2dfd_1072);
    StepsValue(8, 0xbe26_ed00);
    StepsValue(8, 0x00be_26ed);
    StepsCompose(8, 24, ALL_ONES);
    StepsCompose(8, 16, Steps(8, ALL_ONES));
    StepsCompose(8, 8, Steps(8, Steps(8, ALL_ONES)));
  }

  /** A message followed by its own CRC always leaves the same residue, the magic number of section 4.4.7. */
  lemma CrcLeavesResidue(message: Buffer)
    ensures Register(ALL_ONES, message + U32(Crc(message))) == RESIDUE
  {
    var c := Register(ALL_ONES, message);
    RegisterConcat(ALL_ONES, message, U32(Crc(message)));
    CrcBound(message);
    FeedWord(c, Crc(message));
    XorCancels(ALL_ONES, c);
    XorCommutes(c, ALL_ONES);
    OnesShifted();
    hide *;
    CrcIs(message);
  }

  lemma CrcIs(message: Buffer)
    ensures Crc(message) == Xor(Register(ALL_ONES, message), ALL_ONES)
  {}

  /** The CRC of nothing is zero. */
  lemma CrcOfNothing()
    ensures Crc([]) == 0
  {
    XorSelf(ALL_ONES);
  }

  lemma FeedOne(message: Buffer, b: byte, c: bv32, w: bv32, d: bv32)
    requires Register(ALL_ONES, message) == Value(c) && Value(w) == b as nat && StepsWord(8, Sum(c, w)) == d
    ensures Register(ALL_ONES, message + [b]) == Value(d)
  {
    assert (message + [b])[..|message|] == message;
    FeedByte(Value(c), b);
    XorValue(c, w);
    StepsValue(8, Sum(c, w));
    hide ShiftIn, Xor, Value, Steps, StepsWord, Sum;
  }

  lemma DigitValue(w: bv32)
    requires 0x30 <= w < 0x40
    ensures Value(w) == 0x30 + Digit(w)
  {
    ByTwoDigits(w);
    hide Value;
    Unfolded(0);
    DigitsOf(w);
  }

  lemma DigitsOf(w: bv32)
    requires 0x30 <= w < 0x40
    ensures Digit(Digits(w)) == 3 && Digits(Digits(w)) == 0
  {}

  lemma Check1(message: Buffer)
    requires Register(ALL_ONES, message) == Value(0xffff_ffff)
    ensures Register(ALL_ONES, message + [0x31]) == Value(0x7c23_1048)
  {
    DigitValue(0x31);
    assert StepsWord(8, Sum(0xffff_ffff, 0x31)) == 0x7c23_1048;
    hide Register, Value;
    FeedOne(message, 0x31, 0xffff_ffff, 0x31, 0x7c23_1048);
  }

  lemma Check2(message: Buffer)
    requires Register(ALL_ONES, message) == Value(0x7c23_1048)
    ensures Register(ALL_ONES, message + [0x32]) == Value(0xb0ac_bb32)
  {
    DigitValue(0x32);
    assert StepsWord(8, Sum(0x7c23_1048, 0x32)) == 0xb0ac_bb32;
    hide Register, Value;
    FeedOne(message, 0x32, 0x7c23_1048, 0x32, 0xb0ac_bb32);
  }

  lemma Check3(message: Buffer)
    requires Register(ALL_ONES, message) == Value(0xb0ac_bb32)
    ensures Register(ALL_ONES, message + [0x33]) == Value(0x77b7_9c2d)
  {
    DigitValue(0x33);
    assert StepsWord(8, Sum(0xb0ac_bb32, 0x33)) == 0x77b7_9c2d;
    hide Register, Value;
    FeedOne(message, 0x33, 0xb0ac_bb32, 0x33, 0x77b7_9c2d);
  }

  lemma Check4(message: Buffer)
    requires Register(ALL_ONES, message) == Value(0x77b7_9c2d)
    ensures Register(ALL_ONES, message + [0x34]) == Value(0x641c_1f5c)
  {
    DigitValue(0x34);
    assert StepsWord(8, Sum(0x77b7_9c2d, 0x34)) == 0x641c_1f5c;
    hide Register, Value;
    FeedOne(message, 0x34, 0x77b7_9c2d, 0x34, 0x641c_1f5c);
  }

  lemma Check5(message: Buffer)
    requires Register(ALL_ONES, message) == Value(0x641c_1f5c)
    ensures Register(ALL_ONES, message + [0x35]) == Value(0x340a_c5e3)
  {
    DigitValue(0x35);
    assert StepsWord(8, Sum(0x641c_1f5c, 0x35)) == 0x340a_c5e3;
    hide Register, Value;
    FeedOne(message, 0x35, 0x641c_1f5c, 0x35, 0x340a_c5e3);
  }

  lemma Check6(message: Buffer)
    requires Register(ALL_ONES, message) == Value(0x340a_c5e3)
    ensures Register(ALL_ONES, message + [0x36]) == Value(0xf68d_2c9e)
  {
    DigitValue(0x36);
    assert StepsWord(8, Sum(0x340a_c5e3, 0x36)) == 0xf68d_2c9e;
    hide Register, Value;
    FeedOne(message, 0x36, 0x340a_c5e3, 0x36, 0xf68d_2c9e);
  }

  lemma Check7(message: Buffer)
    requires Register(ALL_ONES, message) == Value(0xf68d_2c9e)
    ensures Register(ALL_ONES, message + [0x37]) == Value(0xaffc_9660)
  {
    DigitValue(0x37);
    assert StepsWord(8, Sum(0xf68d_2c9e, 0x37)) == 0xaffc_9660;
    hide Register, Value;
    FeedOne(message, 0x37, 0xf68d_2c9e, 0x37, 0xaffc_9660);
  }

  lemma Check8(message: Buffer)
    requires Register(ALL_ONES, message) == Value(0xaffc_9660)
    ensures Register(ALL_ONES, message + [0x38]) == Value(0x651f_2550)
  {
    DigitValue(0x38);
    assert StepsWord(8, Sum(0xaffc_9660, 0x38)) == 0x651f_2550;
    hide Register, Value;
    FeedOne(message, 0x38, 0xaffc_9660, 0x38, 0x651f_2550);
  }

  lemma Check9(message: Buffer)
    requires Register(ALL_ONES, message) == Value(0x651f_2550)
    ensures Register(ALL_ONES, message + [0x39]) == Value(0x340b_c6d9)
  {
    DigitValue(0x39);
    assert StepsWord(8, Sum(0x651f_2550, 0x39)) == 0x340b_c6d9;
    hide Register, Value;
    FeedOne(message, 0x39, 0x651f_2550, 0x39, 0x340b_c6d9);
  }

  /** The check value: the CRC of the digits 1 to 9. */
  lemma CheckValue()
    ensures Crc([0x31, 0x32, 0x33, 0x34, 0x35, 0x36, 0x37, 0x38, 0x39]) == 0xcbf4_3926
  {
    OnesShifted();
    hide *;
    NothingFed();
    Check1([]);
    Check2([] + [0x31]);
    Check3([] + [0x31] + [0x32]);
    var three: Buffer := [] + [0x31] + [0x32] + [0x33];
    Check4(three);
    Check5(three + [0x34]);
    Check6(three + [0x34] + [0x35]);
    var six := three + [0x34] + [0x35] + [0x36];
    Check7(six);
    Check8(six + [0x37]);
    Check9(six + [0x37] + [0x38]);
    assert six + [0x37] + [0x38] + [0x39] == [0x31, 0x32, 0x33, 0x34, 0x35, 0x36, 0x37, 0x38, 0x39];
    CheckedValue();
    CrcIs([0x31, 0x32, 0x33, 0x34, 0x35, 0x36, 0x37, 0x38, 0x39]);
  }

  lemma NothingFed()
    ensures Register(ALL_ONES, []) == ALL_ONES
  {}

  lemma CheckedValue()
    ensures Xor(Value(0x340b_c6d9), ALL_ONES) == 0xcbf4_3926
  {
    OnesShifted();
    XorValue(0x340b_c6d9, 0xffff_ffff);
    ByTwoDigits(0xcbf4_3926);
    ByTwoDigits(0xcb_f439);
    ByTwoDigits(0xcbf4);
    ByTwoDigits(0xcb);
    Unfolded(0);
    hide Value, Xor, Steps;
  }
}
