/** What the Modbus CRC is: the remainder of a division of polynomials. And that this depends on its initial value. */
module ModbusDivision {
  import opened BitStream
  import opened ModbusBits
  import opened ModbusCrc
  import opened ModbusErrors
  import opened ModbusTaps
  import opened PolyDivision
  import opened ShiftRegister

  /** x^16 + x^15 + x^2 + 1. */
  function Generator(): seq<bool> {
    Polynomial({16, 15, 2, 0}, 16)
  }

  /** The bits of the register, the lowest first: it is the highest power. */
  function RegisterBits(c: bv16): (r: seq<bool>)
    ensures |r| == 16 && forall j :: 0 <= j < 16 ==> r[j] == Tap(c, j)
  {
    seq(16, j requires 0 <= j < 16 => Tap(c, j))
  }

  lemma BitShifts(c: bv16, x: bool)
    ensures RegisterBits(TakeBit(Modbus(), c, x)) == ShiftIn(RegisterBits(c), x, Generator())
  {
    var r, s := RegisterBits(TakeBit(Modbus(), c, x)), ShiftIn(RegisterBits(c), x, Generator());
    forall j: nat | j < 16
      ensures r[j] == s[j]
    {
      BitTap(c, x, j);
      GeneratorTap(j);
    }
  }

  lemma ModbusShifts()
    ensures Shifts(Modbus(), RegisterBits, Generator())
  {
    forall c: bv16, x: bool
      ensures RegisterBits(TakeBit(Modbus(), c, x)) == ShiftIn(RegisterBits(c), x, Generator())
    {
      BitShifts(c, x);
    }
  }

  /** The register never loses anything: its bits tell what it is. */
  lemma BitsTellRegister(c: bv16, d: bv16)
    requires RegisterBits(c) == RegisterBits(d)
    ensures c == d
  {
    forall j: nat | j < 16
      ensures Tap(c, j) == Tap(d, j)
    {
      assert RegisterBits(c)[j] == RegisterBits(d)[j];
    }
    SameTaps(c, d);
  }

  /** The bits of a message in the order in which they are sent, the lowest bit of each byte first, and 16 zeros: the
      message times x^16. */
  function Shifted16(data: seq<bv8>): (r: seq<bool>)
    ensures |r| == 8 * |data| + 16
  {
    Bits(Modbus(), data) + Zeros(16)
  }

  /** The CRC of a message is the remainder of the message times x^16, with the first 16 bits complemented, on division
      by x^16 + x^15 + x^2 + 1. */
  lemma CrcIsRemainder(data: seq<bv8>)
    ensures RegisterBits(Crc(data)) == Remainder(Complemented(Shifted16(data), 16), Generator())
  {
    var xs := Bits(Modbus(), data);
    ByteLaws();
    BitsMakeBytes();
    FeedIsTakeBits(Modbus(), 0xFFFF, data);
    ModbusShifts();
    RegisterDivides(Modbus(), RegisterBits, Generator(), 0xFFFF, xs);
    StartComplements(xs);
  }

  lemma StartComplements(xs: seq<bool>)
    ensures Dividend(RegisterBits(0xFFFF), xs) == Complemented(xs + Zeros(16), 16)
  {
    forall i: nat | i < |xs| + 16
      ensures Dividend(RegisterBits(0xFFFF), xs)[i] == Complemented(xs + Zeros(16), 16)[i]
    {
      if i < 16 {
        AllSet(i);
        assert (RegisterBits(0xFFFF) + Zeros(|xs|))[i];
      } else {
        assert !(RegisterBits(0xFFFF) + Zeros(|xs|))[i];
      }
    }
  }

  /** So a value is the CRC of a message exactly if the message, changed so, differs from it by a multiple of the
      polynomial. */
  lemma CrcByDivision(data: seq<bv8>, crc: bv16)
    ensures crc == Crc(data) <==>
            exists q: seq<bool> ::
              |q| == 8 * |data| && Recomposed(q, Generator(), RegisterBits(crc)) == Complemented(Shifted16(data), 16)
  {
    CrcIsRemainder(data);
    RemainderIs(Complemented(Shifted16(data), 16), Generator(), RegisterBits(crc));
    if RegisterBits(crc) == RegisterBits(Crc(data)) {
      BitsTellRegister(crc, Crc(data));
    }
  }

  // ---------- the initial value ----------

  function ZeroBytes(n: nat): (r: seq<bv8>)
    ensures |r| == n
  {
    seq(n, _ => 0)
  }

  lemma {:induction false} ZeroStaysZero(n: nat)
    ensures Feed(BitStep, Mix, 0, ZeroBytes(n)) == 0
  {
    if n > 0 {
      assert ZeroBytes(n)[..n - 1] == ZeroBytes(n - 1);
      ZeroStaysZero(n - 1);
      MixNone(0);
      ZeroStays();
    }
  }

  /** A line that is stuck at 0 makes no frame that passes. */
  lemma ZerosAreRefused(n: nat)
    requires n >= 2
    ensures !Accepts(ZeroBytes(n))
  {
    AcceptedIffZero(ZeroBytes(n));
    Laws();
    SeparatesBytes();
    ZeroStaysZero(n);
    FeedInjective(BitStep, Mix, 0xFFFF, 0, ZeroBytes(n));
  }

  lemma SeparatesBytes()
    ensures Separates(Mix)
  {
    Laws();
  }

  // ---------- check values ----------

  function EightSteps(c: bv16): bv16 {
    BitStep(BitStep(BitStep(BitStep(BitStep(BitStep(BitStep(BitStep(c))))))))
  }

  lemma IterIsEight(c: bv16)
    ensures Iter(BitStep, c, 8) == EightSteps(c)
  {
  }

  /** One more byte of a message. */
  lemma Then(data: seq<bv8>, k: nat, c: bv16, b: bv8, d: bv16)
    requires k < |data| && Crc(data[..k]) == c && data[k] == b && EightSteps(Mix(c, b)) == d
    ensures Crc(data[..k + 1]) == d
  {
    FeedOne(BitStep, Mix, 0xFFFF, data[..k], b);
    assert data[..k + 1] == data[..k] + [b];
    IterIsEight(Mix(c, b));
  }

  /** The CRC of the bytes 02 07. */
  lemma CrcOfCommand()
    ensures Crc([0x02, 0x07]) == 0x1241
  {
    var data: seq<bv8> := [0x02, 0x07];
    Then(data, 0, 0xFFFF, 0x02, 0x813E);
    Then(data, 1, 0x813E, 0x07, 0x1241);
    assert data[..2] == data;
  }

  /** The digits 1 to 9, by which CRCs are told apart. */
  function Digits(): (r: seq<bv8>)
    ensures |r| == 9
  {
    [0x31, 0x32, 0x33, 0x34, 0x35, 0x36, 0x37, 0x38, 0x39]
  }

  lemma FirstDigits()
    ensures Crc(Digits()[..3]) == 0x7A75
  {
    Then(Digits(), 0, 0xFFFF, 0x31, 0x947E);
    Then(Digits(), 1, 0x947E, 0x32, 0xF595);
    Then(Digits(), 2, 0xF595, 0x33, 0x7A75);
  }

  lemma MoreDigits()
    ensures Crc(Digits()[..6]) == 0x32E4
  {
    FirstDigits();
    Then(Digits(), 3, 0x7A75, 0x34, 0x30BA);
    Then(Digits(), 4, 0x30BA, 0x35, 0xA471);
    Then(Digits(), 5, 0xA471, 0x36, 0x32E4);
  }

  lemma AllDigits()
    ensures Crc(Digits()[..9]) == 0x4B37
  {
    MoreDigits();
    Then(Digits(), 6, 0x32E4, 0x37, 0x9D73);
    Then(Digits(), 7, 0x9D73, 0x38, 0x37DD);
    Then(Digits(), 8, 0x37DD, 0x39, 0x4B37);
  }

  lemma CrcOfDigits()
    ensures Crc(Digits()) == 0x4B37
  {
    AllDigits();
    assert Digits()[..9] == Digits();
  }
}
