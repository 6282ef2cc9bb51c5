/** Which transmission errors the check of Modbus frames finds: bursts of up to 16 bits, and any odd number of bits,
    in frames of any length. */
module ModbusErrors {
  import opened BitStream
  import opened ModbusBits
  import opened ModbusCrc

  /** The register of `usModbusRTU_CRC`. */
  function Modbus(): Line<bv16, bv8> {
    Line(BitStep, FlipBit, Mix, OddByte, HalfByte, 0)
  }

  // ---------- bytes ----------

  ghost predicate StepAt(step: bv16 -> bv16, c: bv16, b: bv8, m: bv16) {
    step(c ^ (b as bv16)) == step(m) ^ ((b >> 1) as bv16)
  }

  lemma OddOdd(c: bv16, b: bv8)
    requires Odd(c) && OddByte(b)
    ensures StepAt(BitStep, c, b, c ^ 1)
  {
  }

  lemma EvenOdd(c: bv16, b: bv8)
    requires !Odd(c) && OddByte(b)
    ensures StepAt(BitStep, c, b, c ^ 1)
  {
  }

  lemma OddEven(c: bv16, b: bv8)
    requires Odd(c) && !OddByte(b)
    ensures StepAt(BitStep, c, b, c)
  {
  }

  lemma EvenEven(c: bv16, b: bv8)
    requires !Odd(c) && !OddByte(b)
    ensures StepAt(BitStep, c, b, c)
  {
  }

  lemma OneStep(c: bv16, b: bv8)
    ensures StepAt(BitStep, c, b, if OddByte(b) then c ^ 1 else c)
  {
    if Odd(c) && OddByte(b) {
      OddOdd(c, b);
    } else if OddByte(b) {
      EvenOdd(c, b);
    } else if Odd(c) {
      OddEven(c, b);
    } else {
      EvenEven(c, b);
    }
  }

  lemma AsLaw(step: bv16 -> bv16, c: bv16, b: bv8)
    requires StepAt(step, c, b, if OddByte(b) then c ^ 1 else c)
    ensures step(Mix(c, b)) == Mix(step(FlipBit(c, OddByte(b))), HalfByte(b))
  {
  }

  lemma ByteLaws()
    ensures BitByBit(Modbus())
  {
    forall c: bv16, b: bv8
      ensures BitStep(Mix(c, b)) == Mix(BitStep(FlipBit(c, OddByte(b))), HalfByte(b))
    {
      OneStep(c, b);
      AsLaw(BitStep, c, b);
    }
    forall c: bv16
      ensures Mix(c, 0) == c
    {
      MixNone(c);
    }
  }

  lemma EightBits(b: bv8)
    ensures Within(Modbus(), b, 8)
  {
    var b1 := b >> 1;
    var b2 := b1 >> 1;
    var b3 := b2 >> 1;
    var b4 := b3 >> 1;
    var b5 := b4 >> 1;
    var b6 := b5 >> 1;
    var b7 := b6 >> 1;
    ShiftedOut(b);
    assert Within(Modbus(), b7 >> 1, 0);
    assert Within(Modbus(), b7, 1);
    assert Within(Modbus(), b6, 2);
    assert Within(Modbus(), b5, 3);
    assert Within(Modbus(), b4, 4);
    assert Within(Modbus(), b3, 5);
    assert Within(Modbus(), b2, 6);
    assert Within(Modbus(), b1, 7);
  }

  lemma BitsMakeBytes()
    ensures ByteOfBits(Modbus())
  {
    forall a: bv8, b: bv8 | OddByte(a) == OddByte(b) && HalfByte(a) == HalfByte(b)
      ensures a == b
    {
      TwoParts(a, b);
    }
    forall b: bv8
      ensures Within(Modbus(), b, 8)
    {
      EightBits(b);
    }
  }

  // ---------- differences ----------

  lemma FlipDifference(c: bv16, e: bv16, x: bool, y: bool)
    ensures Xor(FlipBit(c, x), FlipBit(e, y)) == FlipBit(Xor(c, e), x != y)
  {
    if x && y {
      FlippedBoth(c, e);
    } else if x {
      FlippedFirst(c, e);
    } else if y {
      FlippedSecond(c, e);
    } else {
      FlippedNone(c, e);
    }
  }

  lemma DifferenceLaws()
    ensures Differences(Modbus(), Xor, Clear)
  {
    forall c: bv16, e: bv16, x: bool, y: bool
      ensures Xor(TakeBit(Modbus(), c, x), TakeBit(Modbus(), e, y)) == TakeBit(Modbus(), Xor(c, e), x != y)
    {
      Laws();
      FlipDifference(c, e, x, y);
    }
    forall c: bv16, e: bv16
      ensures Clear(Xor(c, e), 16) <==> c == e
    {
      NoDifference(c, e);
    }
    forall z: bv16, k: nat | k < 16 && Clear(BitStep(z), k + 1)
      ensures Clear(z, k)
    {
      StepClear(z, k);
    }
    forall d: bv16, x: bool, k: nat | k < 16 && Clear(FlipBit(d, x), k)
      ensures Clear(d, k)
    {
      if x {
        FlipClear(d, k);
      }
    }
    forall c: bv16, k: nat | k < 16
      ensures Marked(Modbus(), Xor, Clear, c, k)
    {
      FirstBit(c);
      OneMoreBit(k);
      TopSet(TopBits(k + 1));
    }
  }

  lemma BitsInjective()
    ensures BitStream.BitInjective(Modbus())
  {
    forall c: bv16, e: bv16, x: bool | TakeBit(Modbus(), c, x) == TakeBit(Modbus(), e, x)
      ensures c == e
    {
      ModbusBits.BitInjective(FlipBit(c, x), FlipBit(e, x));
      SameFlip(c, e, x);
    }
  }

  // ---------- frames ----------

  /** Bit j of byte k of two frames of the same length is the same, but for 16 successive bits from bit p on. */
  predicate WithinBurst(f: seq<bv8>, g: seq<bv8>, p: nat) {
    && |f| == |g|
    && forall k: nat, j: nat :: k < |f| && j < 8 && !(p <= 8 * k + j < p + 16) ==>
                                  Bit(Modbus(), f[k], j) == Bit(Modbus(), g[k], j)
  }

  lemma BurstBits(f: seq<bv8>, g: seq<bv8>, p: nat)
    requires WithinBurst(f, g, p)
    ensures Window(Bits(Modbus(), f), Bits(Modbus(), g), p)
  {
    forall i: nat | i < 8 * |f| && !(p <= i < p + 16)
      ensures Bits(Modbus(), f)[i] == Bits(Modbus(), g)[i]
    {
      SameBit(Modbus(), f, g, i);
    }
  }

  /** A passing frame of any length with errors in at most 16 successive bits, which may lie in two bytes or in
      three, the trailer included, does not pass any more. */
  lemma BurstsFound(f: seq<bv8>, g: seq<bv8>, p: nat)
    requires WithinBurst(f, g, p) && f != g && |f| >= 2 && Accepts(f)
    ensures !Accepts(g)
  {
    AcceptedIffZero(f);
    AcceptedIffZero(g);
    if Accepts(g) {
      ByteLaws();
      BitsMakeBytes();
      DifferenceLaws();
      BitsInjective();
      FeedIsTakeBits(Modbus(), 0xFFFF, f);
      FeedIsTakeBits(Modbus(), 0xFFFF, g);
      BurstBits(f, g, p);
      BurstSeparates(Modbus(), Xor, Clear, 0xFFFF, Bits(Modbus(), f), Bits(Modbus(), g), p);
      ByteBitsTell(Modbus());
      SameFrame(Modbus(), f, g);
    }
  }

  /** So does one that is changed in any way within two adjacent bytes. */
  lemma AdjacentErrorsFound(f: seq<bv8>, g: seq<bv8>, i: nat)
    requires |f| == |g| && i + 1 < |f| && f != g && Accepts(f)
    requires forall k :: 0 <= k < |f| && k != i && k != i + 1 ==> f[k] == g[k]
    ensures !Accepts(g)
  {
    BurstsFound(f, g, 8 * i);
  }

  // ---------- parity ----------

  /** One bit more, one bit less. */
  lemma Swapped(fold: bv16 -> bv16, a: bv16, b: bv16)
    requires fold(a) == fold(b) ^ 1 && (fold(b) == 0 || fold(b) == 1)
    ensures (fold(a) == 1) == !(fold(b) == 1)
  {
  }

  lemma ParitySwaps(c: bv16)
    ensures Parity(c ^ 1) == !Parity(c) && Parity(c ^ 0xA001) == !Parity(c)
  {
    FoldIsBit(c);
    FlipParity(c);
    Swapped(Fold, c ^ 1, c);
    MixParity(c);
    Swapped(Fold, c ^ 0xA001, c);
  }

  /** One bit more or less changes the parity, and so does the generating constant, which has three; a clear bit that
      is shifted out does not. */
  ghost predicate ParityLaws(parity: bv16 -> bool) {
    && (forall c :: parity(c ^ 1) == !parity(c))
    && (forall c :: parity(c ^ 0xA001) == !parity(c))
    && (forall c :: c & 1 == 0 ==> parity(c >> 1) == parity(c))
  }

  lemma FlipLaw()
    ensures forall c :: Parity(c ^ 1) == !Parity(c)
  {
    forall c: bv16
      ensures Parity(c ^ 1) == !Parity(c)
    {
      ParitySwaps(c);
    }
  }

  lemma MixLaw()
    ensures forall c :: Parity(c ^ 0xA001) == !Parity(c)
  {
    forall c: bv16
      ensures Parity(c ^ 0xA001) == !Parity(c)
    {
      ParitySwaps(c);
    }
  }

  lemma EvenLaw()
    ensures forall c :: c & 1 == 0 ==> Parity(c >> 1) == Parity(c)
  {
    forall c: bv16 | c & 1 == 0
      ensures Parity(c >> 1) == Parity(c)
    {
      EvenStep(c);
    }
  }

  lemma ParityHasLaws()
    ensures ParityLaws(Parity)
  {
    FlipLaw();
    MixLaw();
    EvenLaw();
  }

  /** So a step keeps the parity: what it shifts out it makes up for. */
  lemma StepParity(parity: bv16 -> bool, c: bv16)
    requires ParityLaws(parity)
    ensures parity(BitStep(c)) == parity(c)
  {
    if Odd(c) {
      OddIsNext(c);
      HalfOfOdd(c);
      assert parity((c ^ 1) >> 1) == parity(c ^ 1);
    }
  }

  lemma ParityCounts()
    ensures Counts(Modbus(), Parity)
  {
    forall c: bv16, x: bool
      ensures Parity(TakeBit(Modbus(), c, x)) == (Parity(c) != x)
    {
      ParityHasLaws();
      StepParity(Parity, FlipBit(c, x));
    }
  }

  /** Every passing frame has an even number of set bits. */
  lemma PassesIfEven(f: seq<bv8>)
    requires Accepts(f)
    ensures Ones(Bits(Modbus(), f)) % 2 == 0
  {
    AcceptedIffZero(f);
    ByteLaws();
    BitsMakeBytes();
    ParityCounts();
    FeedIsTakeBits(Modbus(), 0xFFFF, f);
    TakeParity(Modbus(), Parity, 0xFFFF, Bits(Modbus(), f));
  }

  /** A passing frame of any length with an odd number of wrong bits, wherever they are, does not pass any more. */
  lemma OddErrorsFound(f: seq<bv8>, g: seq<bv8>)
    requires |f| == |g| && Accepts(f) && Errors(Bits(Modbus(), f), Bits(Modbus(), g)) % 2 == 1
    ensures !Accepts(g)
  {
    PassesIfEven(f);
    OddErrors(Bits(Modbus(), f), Bits(Modbus(), g));
    if Accepts(g) {
      PassesIfEven(g);
    }
  }
}
