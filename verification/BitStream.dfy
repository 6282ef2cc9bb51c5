/** A shift register that takes in bytes, seen as one that takes in bits: the lowest bit of each byte comes first. What
    the register can tell apart follows from a few laws of a single bit. */
module BitStream {
  import opened ShiftRegister

  /** The bits of a byte. */
  const BYTE: nat := 8

  /** `flip` mixes in one bit, and `mix` a whole byte, of which `odd` is the lowest bit and `half` the others. */
  datatype Line<!W, !B> = Line(
    step: W -> W, flip: (W, bool) -> W, mix: (W, B) -> W, odd: B -> bool, half: B -> B, none: B)

  /** A byte mixed in at once, then stepped, is its lowest bit mixed in and stepped, and then the others. */
  ghost predicate BitByBit<W(!new), B(!new)>(l: Line<W, B>) {
    && (forall c, b :: l.step(l.mix(c, b)) == l.mix(l.step(l.flip(c, l.odd(b))), l.half(b)))
    && (forall c :: l.mix(c, l.none) == c)
  }

  /** A byte is given by its bits. */
  ghost predicate ByteOfBits<W, B(!new)>(l: Line<W, B>) {
    && (forall a, b :: l.odd(a) == l.odd(b) && l.half(a) == l.half(b) ==> a == b)
    && (forall b :: Within(l, b, BYTE))
  }

  /** Bit j of a byte, the lowest being bit 0. */
  predicate Bit<W, B>(l: Line<W, B>, b: B, j: nat)
    decreases j
  {
    if j == 0 then l.odd(b) else Bit(l, l.half(b), j - 1)
  }

  /** No bit of b is set from bit n on. */
  ghost predicate Within<W, B>(l: Line<W, B>, b: B, n: nat)
    decreases n
  {
    if n == 0 then b == l.none else Within(l, l.half(b), n - 1)
  }

  /** The first n bits of a byte. */
  function BitsOf<W, B>(l: Line<W, B>, b: B, n: nat): (r: seq<bool>)
    ensures |r| == n
    decreases n
  {
    if n == 0 then [] else [l.odd(b)] + BitsOf(l, l.half(b), n - 1)
  }

  /** The bits of a frame, in the order in which they come. */
  function Bits<W, B>(l: Line<W, B>, frame: seq<B>): (r: seq<bool>)
    ensures |r| == 8 * |frame|
  {
    if frame == [] then [] else Bits(l, frame[..|frame| - 1]) + BitsOf(l, frame[|frame| - 1], BYTE)
  }

  function TakeBit<W, B>(l: Line<W, B>, c: W, x: bool): W {
    l.step(l.flip(c, x))
  }

  /** The register after the bits of `xs`. */
  function TakeBits<W, B>(l: Line<W, B>, c: W, xs: seq<bool>): W
    decreases |xs|
  {
    if xs == [] then c else TakeBits(l, TakeBit(l, c, xs[0]), xs[1..])
  }

  // ---------- bytes as bits ----------

  lemma {:induction false} ByteAsBits<W(!new), B(!new)>(l: Line<W, B>, c: W, b: B, n: nat)
    requires BitByBit(l) && Within(l, b, n)
    ensures Iter(l.step, l.mix(c, b), n) == TakeBits(l, c, BitsOf(l, b, n))
    decreases n
  {
    if n > 0 {
      ByteAsBits(l, TakeBit(l, c, l.odd(b)), l.half(b), n - 1);
      assert BitsOf(l, b, n)[1..] == BitsOf(l, l.half(b), n - 1);
    }
  }

  lemma {:induction false} TakeAppend<W, B>(l: Line<W, B>, c: W, xs: seq<bool>, ys: seq<bool>)
    ensures TakeBits(l, c, xs + ys) == TakeBits(l, TakeBits(l, c, xs), ys)
    decreases |xs|
  {
    if xs == [] {
      assert xs + ys == ys;
    } else {
      assert (xs + ys)[1..] == xs[1..] + ys;
      TakeAppend(l, TakeBit(l, c, xs[0]), xs[1..], ys);
    }
  }

  /** Taking in a frame byte by byte is taking in its bits one by one. */
  lemma {:induction false} FeedIsTakeBits<W(!new), B(!new)>(l: Line<W, B>, c: W, frame: seq<B>)
    requires BitByBit(l) && ByteOfBits(l)
    ensures Feed(l.step, l.mix, c, frame) == TakeBits(l, c, Bits(l, frame))
  {
    if frame != [] {
      var p, b := frame[..|frame| - 1], frame[|frame| - 1];
      FeedIsTakeBits(l, c, p);
      ByteAsBits(l, Feed(l.step, l.mix, c, p), b, BYTE);
      TakeAppend(l, c, Bits(l, p), BitsOf(l, b, BYTE));
    }
  }

  lemma {:induction false} BitsOfAt<W, B>(l: Line<W, B>, b: B, n: nat, j: nat)
    requires j < n
    ensures BitsOf(l, b, n)[j] == Bit(l, b, j)
    decreases n
  {
    if j > 0 {
      BitsOfAt(l, l.half(b), n - 1, j - 1);
    }
  }

  /** Bit j of byte k is the one at place 8 * k + j. */
  lemma {:induction false} BitsAt<W, B>(l: Line<W, B>, frame: seq<B>, k: nat, j: nat)
    requires k < |frame| && j < 8
    ensures Bits(l, frame)[8 * k + j] == Bit(l, frame[k], j)
  {
    if k == |frame| - 1 {
      BitsOfAt(l, frame[k], BYTE, j);
    } else {
      BitsAt(l, frame[..|frame| - 1], k, j);
    }
  }

  lemma SameBit<W, B>(l: Line<W, B>, f: seq<B>, g: seq<B>, i: nat)
    requires |f| == |g| && i < 8 * |f| && Bit(l, f[i / 8], i % 8) == Bit(l, g[i / 8], i % 8)
    ensures Bits(l, f)[i] == Bits(l, g)[i]
  {
    var k, j := i / 8, i % 8;
    BitsAt(l, f, k, j);
    BitsAt(l, g, k, j);
  }

  lemma {:induction false} SameByte<W, B(!new)>(l: Line<W, B>, a: B, b: B, n: nat)
    requires ByteOfBits(l) && Within(l, a, n) && Within(l, b, n) && BitsOf(l, a, n) == BitsOf(l, b, n)
    ensures a == b
    decreases n
  {
    if n > 0 {
      assert BitsOf(l, a, n)[0] == BitsOf(l, b, n)[0];
      assert BitsOf(l, a, n)[1..] == BitsOf(l, l.half(a), n - 1);
      assert BitsOf(l, b, n)[1..] == BitsOf(l, l.half(b), n - 1);
      SameByte(l, l.half(a), l.half(b), n - 1);
    }
  }

  /** Different bytes have different bits. */
  ghost predicate BitsTell<W, B(!new)>(l: Line<W, B>) {
    forall a, b :: BitsOf(l, a, BYTE) == BitsOf(l, b, BYTE) ==> a == b
  }

  lemma ByteBitsTell<W, B(!new)>(l: Line<W, B>)
    requires ByteOfBits(l)
    ensures BitsTell(l)
  {
    forall a, b | BitsOf(l, a, BYTE) == BitsOf(l, b, BYTE)
      ensures a == b
    {
      SameByte(l, a, b, BYTE);
    }
  }

  lemma SameBitsOf<W, B>(l: Line<W, B>, f: seq<B>, g: seq<B>, k: nat)
    requires k < |f| == |g| && Bits(l, f) == Bits(l, g)
    ensures BitsOf(l, f[k], BYTE) == BitsOf(l, g[k], BYTE)
  {
    forall j: nat | j < BYTE
      ensures BitsOf(l, f[k], BYTE)[j] == BitsOf(l, g[k], BYTE)[j]
    {
      BitsAt(l, f, k, j);
      BitsAt(l, g, k, j);
      BitsOfAt(l, f[k], BYTE, j);
      BitsOfAt(l, g[k], BYTE, j);
    }
  }

  /** Different frames have different bits. */
  lemma SameFrame<W, B(!new)>(l: Line<W, B>, f: seq<B>, g: seq<B>)
    requires BitsTell(l) && |f| == |g| && Bits(l, f) == Bits(l, g)
    ensures f == g
  {
    forall k: nat | k < |f|
      ensures f[k] == g[k]
    {
      SameBitsOf(l, f, g, k);
    }
  }

  // ---------- bursts ----------

  /** How the difference of two registers goes on: `clear(d, k)` says that the top k of its 16 bits are clear. Where a
      step leaves k + 1 of them clear, k were so before it, and before the bit that was mixed in. */
  ghost predicate Differences<W(!new), B(!new)>(l: Line<W, B>, xor: (W, W) -> W, clear: (W, nat) -> bool) {
    && (forall c, e, x, y ::
          xor(TakeBit(l, c, x), TakeBit(l, e, y)) == TakeBit(l, xor(c, e), x != y))
    && (forall c, e :: clear(xor(c, e), 16) <==> c == e)
    && (forall z, k: nat :: k < 16 && clear(l.step(z), k + 1) ==> clear(z, k))
    && (forall d, x, k: nat :: k < 16 && clear(l.flip(d, x), k) ==> clear(d, k))
    && (forall c, k: nat :: k < 16 ==> Marked(l, xor, clear, c, k))
  }

  /** A bit that differs shows at the top. */
  ghost predicate Marked<W, B>(l: Line<W, B>, xor: (W, W) -> W, clear: (W, nat) -> bool, c: W, k: nat) {
    !clear(TakeBit(l, xor(c, c), true), k + 1)
  }

  /** Registers that n bits, at most 16, bring to the same value agree but for their lowest n bits; and if they agree
      there too, so do the bits taken in. */
  lemma {:induction false} WindowSeparates<W(!new), B(!new)>(
      l: Line<W, B>, xor: (W, W) -> W, clear: (W, nat) -> bool, c: W, e: W, xs: seq<bool>, ys: seq<bool>)
    requires Differences(l, xor, clear)
    requires |xs| == |ys| <= 16 && TakeBits(l, c, xs) == TakeBits(l, e, ys)
    ensures clear(xor(c, e), 16 - |xs|)
    ensures c == e ==> xs == ys
    decreases |xs|
  {
    if xs != [] {
      var x, y, k := xs[0], ys[0], 16 - |xs|;
      var c1, e1 := TakeBit(l, c, x), TakeBit(l, e, y);
      WindowSeparates(l, xor, clear, c1, e1, xs[1..], ys[1..]);
      assert xor(c1, e1) == TakeBit(l, xor(c, e), x != y);
      assert clear(l.step(l.flip(xor(c, e), x != y)), k + 1);
      assert clear(l.flip(xor(c, e), x != y), k);
      assert Marked(l, xor, clear, c, k);
      assert xs == [x] + xs[1..] && ys == [y] + ys[1..];
    }
  }

  /** The same bits keep different registers different. */
  ghost predicate BitInjective<W(!new), B(!new)>(l: Line<W, B>) {
    forall c, e, x :: TakeBit(l, c, x) == TakeBit(l, e, x) ==> c == e
  }

  lemma {:induction false} TakeInjective<W(!new), B(!new)>(l: Line<W, B>, c: W, e: W, xs: seq<bool>)
    requires BitInjective(l) && TakeBits(l, c, xs) == TakeBits(l, e, xs)
    ensures c == e
    decreases |xs|
  {
    if xs != [] {
      TakeInjective(l, TakeBit(l, c, xs[0]), TakeBit(l, e, xs[0]), xs[1..]);
    }
  }

  lemma MiddleSeparates<W(!new), B(!new)>(
      l: Line<W, B>, xor: (W, W) -> W, clear: (W, nat) -> bool, start: W,
      front: seq<bool>, xs: seq<bool>, ys: seq<bool>, back: seq<bool>)
    requires Differences(l, xor, clear) && BitInjective(l) && |xs| == |ys| <= 16
    requires TakeBits(l, start, front + xs + back) == TakeBits(l, start, front + ys + back)
    ensures xs == ys
  {
    TakeAppend(l, start, front + xs, back);
    TakeAppend(l, start, front + ys, back);
    TakeAppend(l, start, front, xs);
    TakeAppend(l, start, front, ys);
    var c := TakeBits(l, start, front);
    TakeInjective(l, TakeBits(l, c, xs), TakeBits(l, c, ys), back);
    WindowSeparates(l, xor, clear, c, c, xs, ys);
  }

  /** Only the places from p on, and less than p + 16, may differ. */
  ghost predicate Window(xs: seq<bool>, ys: seq<bool>, p: nat) {
    |xs| == |ys| && forall i: nat :: i < |xs| && !(p <= i < p + 16) ==> xs[i] == ys[i]
  }

  lemma Parts(xs: seq<bool>, ys: seq<bool>, p: nat) returns (a: nat, b: nat)
    requires Window(xs, ys, p)
    ensures a <= b <= |xs| == |ys| && b <= a + 16 && xs[..a] == ys[..a] && xs[b..] == ys[b..]
    ensures xs == xs[..a] + xs[a..b] + xs[b..] && ys == ys[..a] + ys[a..b] + ys[b..]
  {
    a := if p < |xs| then p else |xs|;
    b := if p + 16 < |xs| then p + 16 else |xs|;
  }

  /** Bits that differ only within 16 successive places lead to different registers. */
  lemma BurstSeparates<W(!new), B(!new)>(
      l: Line<W, B>, xor: (W, W) -> W, clear: (W, nat) -> bool, start: W, xs: seq<bool>, ys: seq<bool>, p: nat)
    requires Differences(l, xor, clear) && BitInjective(l) && Window(xs, ys, p)
    requires TakeBits(l, start, xs) == TakeBits(l, start, ys)
    ensures xs == ys
  {
    var a, b := Parts(xs, ys, p);
    MiddleSeparates(l, xor, clear, start, xs[..a], xs[a..b], ys[a..b], xs[b..]);
  }

  // ---------- parity ----------

  function Ones(xs: seq<bool>): nat {
    if xs == [] then 0 else Ones(xs[1..]) + if xs[0] then 1 else 0
  }

  /** The register keeps count of the set bits, as far as odd and even go. */
  ghost predicate Counts<W(!new), B(!new)>(l: Line<W, B>, parity: W -> bool) {
    forall c, x :: parity(TakeBit(l, c, x)) == (parity(c) != x)
  }

  lemma {:induction false} TakeParity<W(!new), B(!new)>(l: Line<W, B>, parity: W -> bool, c: W, xs: seq<bool>)
    requires Counts(l, parity)
    ensures parity(TakeBits(l, c, xs)) == (parity(c) != (Ones(xs) % 2 == 1))
    decreases |xs|
  {
    if xs != [] {
      TakeParity(l, parity, TakeBit(l, c, xs[0]), xs[1..]);
    }
  }

  /** How many bits differ. */
  function Errors(xs: seq<bool>, ys: seq<bool>): nat
    requires |xs| == |ys|
  {
    if xs == [] then 0 else Errors(xs[1..], ys[1..]) + if xs[0] != ys[0] then 1 else 0
  }

  lemma {:induction false} ErrorsChangeOnes(xs: seq<bool>, ys: seq<bool>)
    requires |xs| == |ys|
    ensures (Ones(xs) + Ones(ys) + Errors(xs, ys)) % 2 == 0
    decreases |xs|
  {
    if xs != [] {
      ErrorsChangeOnes(xs[1..], ys[1..]);
    }
  }

  /** An odd number of errors makes the number of set bits odd, if it was even. */
  lemma OddErrors(xs: seq<bool>, ys: seq<bool>)
    requires |xs| == |ys| && Ones(xs) % 2 == 0 && Errors(xs, ys) % 2 == 1
    ensures Ones(ys) % 2 == 1
  {
    ErrorsChangeOnes(xs, ys);
  }
}
