/** What CRC-32 is: a remainder of a division of polynomials. */
module Crc32Division {
  import opened BitStream
  import opened Crc32
  import opened Crc32Taps
  import ModbusBits
  import opened PolyDivision
  import opened ShiftRegister

  /** The register of `crc_32.c`. */
  function Register(): Line<bv32, bv8> {
    Line(BitStep, FlipBit, Mix, ModbusBits.OddByte, ModbusBits.HalfByte, 0)
  }

  /** The polynomial of section 8 of RFC 1952. */
  function Generator(): seq<bool> {
    Polynomial({32, 26, 23, 22, 16, 12, 11, 10, 8, 7, 5, 4, 2, 1, 0}, 32)
  }

  /** The bits of the register, the lowest first: it is the highest power. */
  function RegisterBits(c: bv32): (r: seq<bool>)
    ensures |r| == 32 && forall j :: 0 <= j < 32 ==> r[j] == Tap(c, j)
  {
    seq(32, j requires 0 <= j < 32 => Tap(c, j))
  }

  lemma BytesAreBits()
    ensures BitByBit(Register())
  {
    forall c: bv32, b: bv8
      ensures BitStep(Mix(c, b)) == Mix(BitStep(FlipBit(c, ModbusBits.OddByte(b))), ModbusBits.HalfByte(b))
    {
      OneStep(c, b);
      AsLaw(BitStep, c, b);
    }
    forall c: bv32
      ensures Mix(c, 0) == c
    {
      MixNone(c);
    }
  }

  lemma EightBits(b: bv8)
    ensures Within(Register(), b, 8)
  {
    var b1 := b >> 1;
    var b2 := b1 >> 1;
    var b3 := b2 >> 1;
    var b4 := b3 >> 1;
    var b5 := b4 >> 1;
    var b6 := b5 >> 1;
    var b7 := b6 >> 1;
    ModbusBits.ShiftedOut(b);
    assert Within(Register(), b7 >> 1, 0);
    assert Within(Register(), b7, 1);
    assert Within(Register(), b6, 2);
    assert Within(Register(), b5, 3);
    assert Within(Register(), b4, 4);
    assert Within(Register(), b3, 5);
    assert Within(Register(), b2, 6);
    assert Within(Register(), b1, 7);
  }

  lemma BitsAreBytes()
    ensures ByteOfBits(Register())
  {
    forall a: bv8, b: bv8 | ModbusBits.OddByte(a) == ModbusBits.OddByte(b)
                            && ModbusBits.HalfByte(a) == ModbusBits.HalfByte(b)
      ensures a == b
    {
      ModbusBits.TwoParts(a, b);
    }
    forall b: bv8
      ensures Within(Register(), b, 8)
    {
      EightBits(b);
    }
  }

  lemma GeneratorAt(j: nat)
    requires j < 32
    ensures Generator()[j + 1] == Tap(0xEDB8_8320, j) && Generator()[0]
  {
    GeneratorTap(j);
  }

  lemma BitShifts(c: bv32, x: bool)
    ensures RegisterBits(TakeBit(Register(), c, x)) == ShiftIn(RegisterBits(c), x, Generator())
  {
    var gen := Generator();
    forall j: nat | j < 32
      ensures RegisterBits(TakeBit(Register(), c, x))[j] == ShiftIn(RegisterBits(c), x, gen)[j]
    {
      BitTap(c, x, j);
      GeneratorAt(j);
    }
  }

  lemma RegisterShifts()
    ensures Shifts(Register(), RegisterBits, Generator())
  {
    forall c: bv32, x: bool
      ensures RegisterBits(TakeBit(Register(), c, x)) == ShiftIn(RegisterBits(c), x, Generator())
    {
      BitShifts(c, x);
    }
  }

  /** For any initial value: what `crc32_cyc_cal` leaves is the remainder of the input times x^32, with the initial
      value added to its first 32 bits, on division by the polynomial. */
  lemma CycleIsRemainder(init: bv32, data: seq<bv8>)
    ensures RegisterBits(Cycle(init, data))
         == Remainder(Dividend(RegisterBits(init), Bits(Register(), data)), Generator())
  {
    BytesAreBits();
    BitsAreBytes();
    FeedIsTakeBits(Register(), init, data);
    RegisterShifts();
    RegisterDivides(Register(), RegisterBits, Generator(), init, Bits(Register(), data));
  }

  /** And `crc32_cal` complements the first 32 bits of the input, and complements the remainder. */
  lemma CrcIsRemainder(data: seq<bv8>)
    ensures Complemented(RegisterBits(Crc(data)), 32)
         == Remainder(Complemented(Bits(Register(), data) + Zeros(32), 32), Generator())
  {
    var xs := Bits(Register(), data);
    CycleIsRemainder(0xFFFF_FFFF, data);
    StartComplements(xs);
    EndComplements(Cycle(0xFFFF_FFFF, data));
  }

  lemma StartComplements(xs: seq<bool>)
    ensures Dividend(RegisterBits(0xFFFF_FFFF), xs) == Complemented(xs + Zeros(32), 32)
  {
    forall i: nat | i < |xs| + 32
      ensures Dividend(RegisterBits(0xFFFF_FFFF), xs)[i] == Complemented(xs + Zeros(32), 32)[i]
    {
      if i < 32 {
        AllSet(i);
        assert (RegisterBits(0xFFFF_FFFF) + Zeros(|xs|))[i];
      } else {
        assert !(RegisterBits(0xFFFF_FFFF) + Zeros(|xs|))[i];
      }
    }
  }

  lemma EndComplements(c: bv32)
    ensures Complemented(RegisterBits(c ^ 0xFFFF_FFFF), 32) == RegisterBits(c)
  {
    forall j: nat | j < 32
      ensures RegisterBits(c ^ 0xFFFF_FFFF)[j] == !RegisterBits(c)[j]
    {
      FinalTap(c, j);
    }
  }

  // ---------- the check value ----------

  /** The digits 1 to 9, by which CRCs are told apart. */
  function Digits(): (r: seq<bv8>)
    ensures |r| == 9
  {
    [0x31, 0x32, 0x33, 0x34, 0x35, 0x36, 0x37, 0x38, 0x39]
  }

  /** One more byte, by the table. */
  lemma Then(data: seq<bv8>, k: nat, c: bv32, b: bv8, d: bv32)
    requires k < |data| && Cycle(0xFFFF_FFFF, data[..k]) == c && data[k] == b && (c >> 8) ^ Table(Index(c, b)) == d
    ensures Cycle(0xFFFF_FFFF, data[..k + 1]) == d
  {
    OneMoreByte(0xFFFF_FFFF, data, k, c);
  }

  lemma ThreeDigits()
    ensures Cycle(0xFFFF_FFFF, Digits()[..3]) == 0x77B7_9C2D
  {
    Then(Digits(), 0, 0xFFFF_FFFF, 0x31, 0x7C23_1048);
    Then(Digits(), 1, 0x7C23_1048, 0x32, 0xB0AC_BB32);
    Then(Digits(), 2, 0xB0AC_BB32, 0x33, 0x77B7_9C2D);
  }

  lemma FiveDigits()
    ensures Cycle(0xFFFF_FFFF, Digits()[..5]) == 0x340A_C5E3
  {
    ThreeDigits();
    Then(Digits(), 3, 0x77B7_9C2D, 0x34, 0x641C_1F5C);
    Then(Digits(), 4, 0x641C_1F5C, 0x35, 0x340A_C5E3);
  }

  lemma SevenDigits()
    ensures Cycle(0xFFFF_FFFF, Digits()[..7]) == 0xAFFC_9660
  {
    FiveDigits();
    Then(Digits(), 5, 0x340A_C5E3, 0x36, 0xF68D_2C9E);
    Then(Digits(), 6, 0xF68D_2C9E, 0x37, 0xAFFC_9660);
  }

  lemma AllDigits()
    ensures Cycle(0xFFFF_FFFF, Digits()[..9]) == 0x340B_C6D9
  {
    SevenDigits();
    Then(Digits(), 7, 0xAFFC_9660, 0x38, 0x651F_2550);
    Then(Digits(), 8, 0x651F_2550, 0x39, 0x340B_C6D9);
  }

  lemma CrcOfDigits()
    ensures Crc(Digits()) == 0xCBF4_3926
  {
    AllDigits();
    assert Digits()[..9] == Digits();
  }
}
