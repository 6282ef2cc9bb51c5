/** What one step of the Modbus register does to each of its bits. */
module ModbusTaps {
  import opened ModbusBits

  /** The bit of place i, the lowest being bit 0. */
  function Mask(i: nat): bv16 {
    match i
    case 0 => 0x0001
    case 1 => 0x0002
    case 2 => 0x0004
    case 3 => 0x0008
    case 4 => 0x0010
    case 5 => 0x0020
    case 6 => 0x0040
    case 7 => 0x0080
    case 8 => 0x0100
    case 9 => 0x0200
    case 10 => 0x0400
    case 11 => 0x0800
    case 12 => 0x1000
    case 13 => 0x2000
    case 14 => 0x4000
    case 15 => 0x8000
    case _ => 0x0000
  }

  predicate Tap(c: bv16, i: nat) {
    c & Mask(i) != 0
  }

  predicate OneBit(m: bv16) {
    m & (m - 1) == 0
  }

  lemma NextMask(i: nat)
    requires i < 15
    ensures Mask(i + 1) == Mask(i) << 1 && OneBit(Mask(i)) && (Mask(i) << 1) >> 1 == Mask(i)
  {
  }

  lemma ShiftedBit(z: bv16, m: bv16)
    requires (m << 1) >> 1 == m
    ensures (z >> 1) & m != 0 <==> z & (m << 1) != 0
  {
  }

  lemma TopGone(z: bv16)
    ensures (z >> 1) & 0x8000 == 0
  {
  }

  lemma AddedBit(y: bv16, k: bv16, m: bv16)
    requires OneBit(m)
    ensures (y ^ k) & m != 0 <==> (y & m != 0) != (k & m != 0)
  {
  }

  lemma FlippedLow(c: bv16)
    ensures (c ^ 1) & 1 != 0 <==> c & 1 == 0
  {
  }

  lemma LowIsOdd(c: bv16)
    ensures Odd(c) <==> c & 1 != 0
  {
  }

  lemma OthersStay(c: bv16, m: bv16)
    ensures (c ^ 1) & (m << 1) == c & (m << 1)
  {
  }

  // ---------- one step ----------

  /** Bit j of the register after a shift, with the constant added if bit `out` is set. */
  lemma StepTop(z: bv16)
    ensures Tap(BitStep(z), 15) == (Odd(z) && Tap(0xA001, 15))
  {
    TopGone(z);
    AddedBit(z >> 1, 0xA001, 0x8000);
  }

  lemma StepTap(z: bv16, j: nat)
    requires j < 15
    ensures Tap(BitStep(z), j) == (Tap(z, j + 1) != (Odd(z) && Tap(0xA001, j)))
  {
    NextMask(j);
    ShiftedBit(z, Mask(j));
    AddedBit(z >> 1, 0xA001, Mask(j));
  }

  lemma FlipTap(c: bv16, x: bool, j: nat)
    requires j < 15
    ensures Tap(FlipBit(c, x), j + 1) == Tap(c, j + 1)
  {
    NextMask(j);
    OthersStay(c, Mask(j));
  }

  lemma FlipOdd(c: bv16, x: bool)
    ensures Odd(FlipBit(c, x)) == (Tap(c, 0) != x)
  {
    LowIsOdd(c);
    LowIsOdd(c ^ 1);
    FlippedLow(c);
  }

  /** Taking in a bit. */
  lemma BitTap(c: bv16, x: bool, j: nat)
    requires j < 16
    ensures Tap(BitStep(FlipBit(c, x)), j) == ((j < 15 && Tap(c, j + 1)) != ((Tap(c, 0) != x) && Tap(0xA001, j)))
  {
    FlipOdd(c, x);
    if j < 15 {
      FlipTap(c, x, j);
      StepTap(FlipBit(c, x), j);
    } else {
      StepTop(FlipBit(c, x));
    }
  }

  /** The generating constant has the bits of x^15, x^2 and 1, the highest power being bit 0. */
  lemma GeneratorTap(j: nat)
    requires j < 16
    ensures Tap(0xA001, j) <==> 15 - j in {15, 2, 0}
  {
  }

  lemma AllSet(j: nat)
    requires j < 16
    ensures Tap(0xFFFF, j)
  {
  }

  lemma NoBits(z: bv16)
    requires z & 0x0001 == 0 && z & 0x0002 == 0 && z & 0x0004 == 0 && z & 0x0008 == 0
    requires z & 0x0010 == 0 && z & 0x0020 == 0 && z & 0x0040 == 0 && z & 0x0080 == 0
    requires z & 0x0100 == 0 && z & 0x0200 == 0 && z & 0x0400 == 0 && z & 0x0800 == 0
    requires z & 0x1000 == 0 && z & 0x2000 == 0 && z & 0x4000 == 0 && z & 0x8000 == 0
    ensures z == 0
  {
  }

  lemma NoTaps(z: bv16)
    requires forall j: nat :: j < 16 ==> !Tap(z, j)
    ensures z == 0
  {
    assert !Tap(z, 0) && !Tap(z, 1) && !Tap(z, 2) && !Tap(z, 3);
    assert !Tap(z, 4) && !Tap(z, 5) && !Tap(z, 6) && !Tap(z, 7);
    assert !Tap(z, 8) && !Tap(z, 9) && !Tap(z, 10) && !Tap(z, 11);
    assert !Tap(z, 12) && !Tap(z, 13) && !Tap(z, 14) && !Tap(z, 15);
    NoBits(z);
  }

  lemma DifferentTap(c: bv16, d: bv16, j: nat)
    requires j < 16
    ensures Tap(c ^ d, j) <==> Tap(c, j) != Tap(d, j)
  {
    if j < 15 {
      NextMask(j);
    }
    AddedBit(c, d, Mask(j));
  }

  lemma SameIfNoDifference(c: bv16, d: bv16)
    requires c ^ d == 0
    ensures c == d
  {
  }

  /** Two registers that differ have a bit that differs. */
  lemma SameTaps(c: bv16, d: bv16)
    requires forall j: nat :: j < 16 ==> Tap(c, j) == Tap(d, j)
    ensures c == d
  {
    var z := c ^ d;
    forall j: nat | j < 16
      ensures !Tap(z, j)
    {
      DifferentTap(c, d, j);
    }
    NoTaps(z);
    SameIfNoDifference(c, d);
  }
}
