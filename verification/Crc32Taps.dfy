/** What one step of the CRC-32 register does to each of its bits, and to a byte taken in bit by bit. */
module Crc32Taps {
  import opened Crc32
  import ModbusBits

  function FlipBit(c: bv32, x: bool): bv32 {
    if x then c ^ 1 else c
  }

  /** The bit of place i, the lowest being bit 0. */
  function Mask(i: nat): bv32 {
    match i
    case 0 => 0x0000_0001
    case 1 => 0x0000_0002
    case 2 => 0x0000_0004
    case 3 => 0x0000_0008
    case 4 => 0x0000_0010
    case 5 => 0x0000_0020
    case 6 => 0x0000_0040
    case 7 => 0x0000_0080
    case 8 => 0x0000_0100
    case 9 => 0x0000_0200
    case 10 => 0x0000_0400
    case 11 => 0x0000_0800
    case 12 => 0x0000_1000
    case 13 => 0x0000_2000
    case 14 => 0x0000_4000
    case 15 => 0x0000_8000
    case 16 => 0x0001_0000
    case 17 => 0x0002_0000
    case 18 => 0x0004_0000
    case 19 => 0x0008_0000
    case 20 => 0x0010_0000
    case 21 => 0x0020_0000
    case 22 => 0x0040_0000
    case 23 => 0x0080_0000
    case 24 => 0x0100_0000
    case 25 => 0x0200_0000
    case 26 => 0x0400_0000
    case 27 => 0x0800_0000
    case 28 => 0x1000_0000
    case 29 => 0x2000_0000
    case 30 => 0x4000_0000
    case 31 => 0x8000_0000
    case _ => 0x0000_0000
  }

  predicate Tap(c: bv32, i: nat) {
    c & Mask(i) != 0
  }

  predicate OneBit(m: bv32) {
    m & (m - 1) == 0
  }

  predicate Doubles(m: bv32, next: bv32) {
    next == m << 1 && OneBit(m) && next >> 1 == m
  }

  lemma LowMasks(i: nat)
    requires i < 16
    ensures Doubles(Mask(i), Mask(i + 1))
  {
  }

  lemma HighMasks(i: nat)
    requires 16 <= i < 31
    ensures Doubles(Mask(i), Mask(i + 1))
  {
  }

  lemma NextMask(i: nat)
    requires i < 31
    ensures Mask(i + 1) == Mask(i) << 1 && OneBit(Mask(i)) && (Mask(i) << 1) >> 1 == Mask(i)
  {
    if i < 16 {
      LowMasks(i);
    } else {
      HighMasks(i);
    }
  }

  lemma ShiftedBit(z: bv32, m: bv32)
    requires (m << 1) >> 1 == m
    ensures (z >> 1) & m != 0 <==> z & (m << 1) != 0
  {
  }

  lemma TopGone(z: bv32)
    ensures (z >> 1) & 0x8000_0000 == 0
  {
  }

  lemma AddedBit(y: bv32, k: bv32, m: bv32)
    requires OneBit(m)
    ensures (y ^ k) & m != 0 <==> (y & m != 0) != (k & m != 0)
  {
  }

  lemma FlippedLow(c: bv32)
    ensures (c ^ 1) & 1 != 0 <==> c & 1 == 0
  {
  }

  lemma LowIsOdd(c: bv32)
    ensures Odd(c) <==> c & 1 != 0
  {
  }

  lemma OthersStay(c: bv32, m: bv32)
    ensures (c ^ 1) & (m << 1) == c & (m << 1)
  {
  }

  // ---------- one step ----------

  lemma StepTop(z: bv32)
    ensures Tap(BitStep(z), 31) == (Odd(z) && Tap(0xEDB8_8320, 31))
  {
    TopGone(z);
    AddedBit(z >> 1, 0xEDB8_8320, 0x8000_0000);
  }

  lemma StepTap(z: bv32, j: nat)
    requires j < 31
    ensures Tap(BitStep(z), j) == (Tap(z, j + 1) != (Odd(z) && Tap(0xEDB8_8320, j)))
  {
    NextMask(j);
    ShiftedBit(z, Mask(j));
    AddedBit(z >> 1, 0xEDB8_8320, Mask(j));
  }

  lemma FlipTap(c: bv32, x: bool, j: nat)
    requires j < 31
    ensures Tap(FlipBit(c, x), j + 1) == Tap(c, j + 1)
  {
    NextMask(j);
    OthersStay(c, Mask(j));
  }

  lemma FlipOdd(c: bv32, x: bool)
    ensures Odd(FlipBit(c, x)) == (Tap(c, 0) != x)
  {
    LowIsOdd(c);
    LowIsOdd(c ^ 1);
    FlippedLow(c);
  }

  /** Taking in a bit. */
  lemma BitTap(c: bv32, x: bool, j: nat)
    requires j < 32
    ensures Tap(BitStep(FlipBit(c, x)), j) == ((j < 31 && Tap(c, j + 1)) != ((Tap(c, 0) != x) && Tap(0xEDB8_8320, j)))
  {
    FlipOdd(c, x);
    if j < 31 {
      FlipTap(c, x, j);
      StepTap(FlipBit(c, x), j);
    } else {
      StepTop(FlipBit(c, x));
    }
  }

  /** The generating constant has the bits of the powers below 32, the highest power being bit 0. */
  lemma GeneratorTap(j: nat)
    requires j < 32
    ensures Tap(0xEDB8_8320, j) <==> 31 - j in {26, 23, 22, 16, 12, 11, 10, 8, 7, 5, 4, 2, 1, 0}
  {
  }

  lemma AllSet(j: nat)
    requires j < 32
    ensures Tap(0xFFFF_FFFF, j)
  {
  }

  lemma FinalTap(c: bv32, j: nat)
    requires j < 32
    ensures Tap(c ^ 0xFFFF_FFFF, j) == !Tap(c, j)
  {
    if j < 31 {
      NextMask(j);
    }
    AddedBit(c, 0xFFFF_FFFF, Mask(j));
    AllSet(j);
  }

  // ---------- bytes ----------

  ghost predicate StepAt(step: bv32 -> bv32, c: bv32, b: bv8, m: bv32) {
    step(c ^ (b as bv32)) == step(m) ^ ((b >> 1) as bv32)
  }

  lemma OddOdd(c: bv32, b: bv8)
    requires Odd(c) && ModbusBits.OddByte(b)
    ensures StepAt(BitStep, c, b, c ^ 1)
  {
  }

  lemma EvenOdd(c: bv32, b: bv8)
    requires !Odd(c) && ModbusBits.OddByte(b)
    ensures StepAt(BitStep, c, b, c ^ 1)
  {
  }

  lemma OddEven(c: bv32, b: bv8)
    requires Odd(c) && !ModbusBits.OddByte(b)
    ensures StepAt(BitStep, c, b, c)
  {
  }

  lemma EvenEven(c: bv32, b: bv8)
    requires !Odd(c) && !ModbusBits.OddByte(b)
    ensures StepAt(BitStep, c, b, c)
  {
  }

  lemma OneStep(c: bv32, b: bv8)
    ensures StepAt(BitStep, c, b, if ModbusBits.OddByte(b) then c ^ 1 else c)
  {
    if Odd(c) && ModbusBits.OddByte(b) {
      OddOdd(c, b);
    } else if ModbusBits.OddByte(b) {
      EvenOdd(c, b);
    } else if Odd(c) {
      OddEven(c, b);
    } else {
      EvenEven(c, b);
    }
  }

  lemma AsLaw(step: bv32 -> bv32, c: bv32, b: bv8)
    requires StepAt(step, c, b, if ModbusBits.OddByte(b) then c ^ 1 else c)
    ensures step(Mix(c, b)) == Mix(step(FlipBit(c, ModbusBits.OddByte(b))), ModbusBits.HalfByte(b))
  {
  }

  lemma MixNone(c: bv32)
    ensures Mix(c, 0) == c
  {
  }

  // ---------- the bits tell the register ----------

  lemma NoBits(z: bv32)
    requires z & 0x0000_0001 == 0 && z & 0x0000_0002 == 0 && z & 0x0000_0004 == 0 && z & 0x0000_0008 == 0
    requires z & 0x0000_0010 == 0 && z & 0x0000_0020 == 0 && z & 0x0000_0040 == 0 && z & 0x0000_0080 == 0
    requires z & 0x0000_0100 == 0 && z & 0x0000_0200 == 0 && z & 0x0000_0400 == 0 && z & 0x0000_0800 == 0
    requires z & 0x0000_1000 == 0 && z & 0x0000_2000 == 0 && z & 0x0000_4000 == 0 && z & 0x0000_8000 == 0
    requires z & 0x0001_0000 == 0 && z & 0x0002_0000 == 0 && z & 0x0004_0000 == 0 && z & 0x0008_0000 == 0
    requires z & 0x0010_0000 == 0 && z & 0x0020_0000 == 0 && z & 0x0040_0000 == 0 && z & 0x0080_0000 == 0
    requires z & 0x0100_0000 == 0 && z & 0x0200_0000 == 0 && z & 0x0400_0000 == 0 && z & 0x0800_0000 == 0
    requires z & 0x1000_0000 == 0 && z & 0x2000_0000 == 0 && z & 0x4000_0000 == 0 && z & 0x8000_0000 == 0
    ensures z == 0
  {
  }

  lemma NoTaps(z: bv32)
    requires forall j: nat :: j < 32 ==> !Tap(z, j)
    ensures z == 0
  {
    assert !Tap(z, 0) && !Tap(z, 1) && !Tap(z, 2) && !Tap(z, 3);
    assert !Tap(z, 4) && !Tap(z, 5) && !Tap(z, 6) && !Tap(z, 7);
    assert !Tap(z, 8) && !Tap(z, 9) && !Tap(z, 10) && !Tap(z, 11);
    assert !Tap(z, 12) && !Tap(z, 13) && !Tap(z, 14) && !Tap(z, 15);
    assert !Tap(z, 16) && !Tap(z, 17) && !Tap(z, 18) && !Tap(z, 19);
    assert !Tap(z, 20) && !Tap(z, 21) && !Tap(z, 22) && !Tap(z, 23);
    assert !Tap(z, 24) && !Tap(z, 25) && !Tap(z, 26) && !Tap(z, 27);
    assert !Tap(z, 28) && !Tap(z, 29) && !Tap(z, 30) && !Tap(z, 31);
    NoBits(z);
  }

  lemma DifferentTap(c: bv32, d: bv32, j: nat)
    requires j < 32
    ensures Tap(c ^ d, j) <==> Tap(c, j) != Tap(d, j)
  {
    if j < 31 {
      NextMask(j);
    }
    AddedBit(c, d, Mask(j));
  }

  lemma SameIfNoDifference(c: bv32, d: bv32)
    requires c ^ d == 0
    ensures c == d
  {
  }

  /** Two registers that differ have a bit that differs. */
  lemma SameTaps(c: bv32, d: bv32)
    requires forall j: nat :: j < 32 ==> Tap(c, j) == Tap(d, j)
    ensures c == d
  {
    var z := c ^ d;
    forall j: nat | j < 32
      ensures !Tap(z, j)
    {
      DifferentTap(c, d, j);
    }
    NoTaps(z);
    SameIfNoDifference(c, d);
  }
}
