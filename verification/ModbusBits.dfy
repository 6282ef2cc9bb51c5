/** The bit operations of the Modbus CRC: what one step does to the bits of the register and of a byte. */
module ModbusBits {
  predicate Odd(c: bv16) {
    c & 1 == 1
  }

  function BitStep(c: bv16): bv16 {
    if Odd(c) then (c >> 1) ^ 0xA001 else c >> 1
  }

  function Mix(c: bv16, b: bv8): bv16 {
    c ^ (b as bv16)
  }

  function Xor(a: bv16, b: bv16): bv16 {
    a ^ b
  }

  ghost predicate LinearAt(a: bv16, b: bv16) {
    BitStep(a ^ b) == BitStep(a) ^ BitStep(b)
  }

  lemma BothOdd(a: bv16, b: bv16)
    requires Odd(a) && Odd(b)
    ensures LinearAt(a, b)
  {
  }

  lemma FirstOdd(a: bv16, b: bv16)
    requires Odd(a) && !Odd(b)
    ensures LinearAt(a, b)
  {
  }

  lemma SecondOdd(a: bv16, b: bv16)
    requires !Odd(a) && Odd(b)
    ensures LinearAt(a, b)
  {
  }

  lemma NeitherOdd(a: bv16, b: bv16)
    requires !Odd(a) && !Odd(b)
    ensures LinearAt(a, b)
  {
  }

  lemma BitLinear(a: bv16, b: bv16)
    ensures LinearAt(a, b)
  {
    if Odd(a) && Odd(b) {
      BothOdd(a, b);
    } else if Odd(a) {
      FirstOdd(a, b);
    } else if Odd(b) {
      SecondOdd(a, b);
    } else {
      NeitherOdd(a, b);
    }
  }

  lemma BitInjective(a: bv16, b: bv16)
    requires BitStep(a) == BitStep(b)
    ensures a == b
  {
  }

  lemma MixSeparates(a: bv16, c: bv16, b: bv8)
    requires Mix(a, b) == Mix(c, b)
    ensures a == c
  {
  }

  // ---------- the bits of a byte ----------

  predicate OddByte(b: bv8) {
    b & 1 == 1
  }

  function HalfByte(b: bv8): bv8 {
    b >> 1
  }

  function FlipBit(c: bv16, x: bool): bv16 {
    if x then c ^ 1 else c
  }

  lemma MixNone(c: bv16)
    ensures Mix(c, 0) == c
  {
  }

  lemma TwoParts(a: bv8, b: bv8)
    requires OddByte(a) == OddByte(b) && HalfByte(a) == HalfByte(b)
    ensures a == b
  {
  }

  lemma ShiftedOut(b: bv8)
    ensures (((((((b >> 1) >> 1) >> 1) >> 1) >> 1) >> 1) >> 1) >> 1 == 0
  {
  }

  // ---------- differences of registers ----------

  function TopBits(k: nat): bv16 {
    match k
    case 0 => 0x0000
    case 1 => 0x8000
    case 2 => 0xC000
    case 3 => 0xE000
    case 4 => 0xF000
    case 5 => 0xF800
    case 6 => 0xFC00
    case 7 => 0xFE00
    case 8 => 0xFF00
    case 9 => 0xFF80
    case 10 => 0xFFC0
    case 11 => 0xFFE0
    case 12 => 0xFFF0
    case 13 => 0xFFF8
    case 14 => 0xFFFC
    case 15 => 0xFFFE
    case _ => 0xFFFF
  }

  /** The top k bits are clear. */
  predicate Clear(v: bv16, k: nat) {
    v & TopBits(k) == 0
  }

  lemma OneMoreBit(k: nat)
    requires k < 16
    ensures TopBits(k) == TopBits(k + 1) << 1 && TopBits(k + 1) & 0x8000 == 0x8000
  {
  }

  /** What a step leaves with its top bit clear has only been shifted. */
  lemma OnlyShifted(z: bv16, more: bv16, mask: bv16)
    requires mask == more << 1 && more & 0x8000 == 0x8000 && BitStep(z) & more == 0
    ensures z & mask == 0
  {
  }

  lemma StepClear(z: bv16, k: nat)
    requires k < 16 && Clear(BitStep(z), k + 1)
    ensures Clear(z, k)
  {
    OneMoreBit(k);
    OnlyShifted(z, TopBits(k + 1), TopBits(k));
  }

  lemma FlipClear(d: bv16, k: nat)
    requires k < 16 && Clear(d ^ 1, k)
    ensures Clear(d, k)
  {
    OneMoreBit(k);
    LowestUncovered(d, TopBits(k + 1));
  }

  lemma LowestUncovered(z: bv16, more: bv16)
    ensures (z ^ 1) & (more << 1) == z & (more << 1)
  {
  }

  lemma FlippedBoth(c: bv16, e: bv16)
    ensures Xor(FlipBit(c, true), FlipBit(e, true)) == FlipBit(Xor(c, e), false)
  {
  }

  lemma FlippedFirst(c: bv16, e: bv16)
    ensures Xor(FlipBit(c, true), FlipBit(e, false)) == FlipBit(Xor(c, e), true)
  {
  }

  lemma FlippedSecond(c: bv16, e: bv16)
    ensures Xor(FlipBit(c, false), FlipBit(e, true)) == FlipBit(Xor(c, e), true)
  {
  }

  lemma FlippedNone(c: bv16, e: bv16)
    ensures Xor(FlipBit(c, false), FlipBit(e, false)) == FlipBit(Xor(c, e), false)
  {
  }

  lemma NoDifference(c: bv16, e: bv16)
    ensures Clear(Xor(c, e), 16) <==> c == e
  {
  }

  lemma FirstBit(c: bv16)
    ensures BitStep(FlipBit(Xor(c, c), true)) == 0xA001
  {
  }

  lemma TopSet(mask: bv16)
    requires mask & 0x8000 == 0x8000
    ensures 0xA001 & mask != 0
  {
  }

  lemma SameFlip(c: bv16, e: bv16, x: bool)
    requires FlipBit(c, x) == FlipBit(e, x)
    ensures c == e
  {
  }

  // ---------- parity ----------

  function Fold8(c: bv16): bv16 {
    c ^ (c >> 8)
  }

  function Fold4(c: bv16): bv16 {
    c ^ (c >> 4)
  }

  function Fold2(c: bv16): bv16 {
    c ^ (c >> 2)
  }

  function Fold1(c: bv16): bv16 {
    (c ^ (c >> 1)) & 1
  }

  /** The exclusive or of all bits. */
  function Fold(c: bv16): bv16 {
    Fold1(Fold2(Fold4(Fold8(c))))
  }

  /** Whether the number of set bits is odd. */
  predicate Parity(c: bv16) {
    Fold(c) == 1
  }

  lemma FlipParity(c: bv16)
    ensures Fold(c ^ 1) == Fold(c) ^ 1
  {
  }

  /** The generating constant has an odd number of bits. */
  lemma MixParity(c: bv16)
    ensures Fold(c ^ 0xA001) == Fold(c) ^ 1
  {
  }

  lemma EvenStep(c: bv16)
    requires c & 1 == 0
    ensures Fold(c >> 1) == Fold(c)
  {
  }

  lemma FoldIsBit(c: bv16)
    ensures Fold(c) == 0 || Fold(c) == 1
  {
  }

  lemma HalfOfOdd(c: bv16)
    ensures (c ^ 1) >> 1 == c >> 1
  {
  }

  lemma OddIsNext(c: bv16)
    requires Odd(c)
    ensures (c ^ 1) & 1 == 0
  {
  }
}
