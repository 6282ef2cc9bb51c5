/** Division of polynomials with coefficients 0 and 1, written as their coefficients with the highest power first; and
    what a shift register that takes in bits computes in these terms. */
module PolyDivision {
  import opened BitStream

  /** The sum, which is also the difference. */
  function Sum(a: seq<bool>, b: seq<bool>): (r: seq<bool>)
    requires |a| == |b|
    ensures |r| == |a| && forall i :: 0 <= i < |r| ==> r[i] == (a[i] != b[i])
  {
    seq(|a|, i requires 0 <= i < |a| => a[i] != b[i])
  }

  function Zeros(n: nat): (r: seq<bool>)
    ensures |r| == n && forall i :: 0 <= i < n ==> !r[i]
  {
    seq(n, _ => false)
  }

  /** The first n bits are complemented. */
  function Complemented(xs: seq<bool>, n: nat): (r: seq<bool>)
    requires n <= |xs|
    ensures |r| == |xs| && forall i :: 0 <= i < |r| ==> r[i] == if i < n then !xs[i] else xs[i]
  {
    seq(|xs|, i requires 0 <= i < |xs| => if i < n then !xs[i] else xs[i])
  }

  /** The polynomial with these powers. */
  function Polynomial(powers: set<nat>, degree: nat): (r: seq<bool>)
    ensures |r| == degree + 1 && forall i :: 0 <= i <= degree ==> r[i] == (degree - i in powers)
  {
    seq(degree + 1, i requires 0 <= i <= degree => degree - i in powers)
  }

  predicate Divisor(gen: seq<bool>) {
    |gen| > 0 && gen[0]
  }

  // ---------- long division ----------

  /** One step of the division: the multiple of `gen` that clears the highest coefficient is taken away. */
  function Reduced(bits: seq<bool>, gen: seq<bool>): (r: seq<bool>)
    requires Divisor(gen) && |bits| >= |gen|
    ensures |r| == |bits| - 1
  {
    if bits[0] then Sum(bits[..|gen|], gen)[1..] + bits[|gen|..] else bits[1..]
  }

  function Remainder(bits: seq<bool>, gen: seq<bool>): (r: seq<bool>)
    requires Divisor(gen)
    ensures |bits| >= |gen| - 1 ==> |r| == |gen| - 1
    decreases |bits|
  {
    if |bits| < |gen| then bits else Remainder(Reduced(bits, gen), gen)
  }

  // ---------- what the remainder is ----------

  /** The product of a polynomial with |q| coefficients and `gen`. */
  function Product(q: seq<bool>, gen: seq<bool>): (r: seq<bool>)
    requires |gen| > 0
    ensures |r| == |q| + |gen| - 1
    decreases |q|
  {
    if q == [] then Zeros(|gen| - 1)
    else Sum((if q[0] then gen else Zeros(|gen|)) + Zeros(|q| - 1), [false] + Product(q[1..], gen))
  }

  /** q times `gen`, and r. */
  function Recomposed(q: seq<bool>, gen: seq<bool>, r: seq<bool>): (bits: seq<bool>)
    requires Divisor(gen) && |r| == |gen| - 1
    ensures |bits| == |q| + |r|
  {
    Sum(Product(q, gen), Zeros(|q|) + r)
  }

  function Quotient(bits: seq<bool>, gen: seq<bool>): (q: seq<bool>)
    requires Divisor(gen) && |bits| >= |gen| - 1
    ensures |q| == |bits| - (|gen| - 1)
    decreases |bits|
  {
    if |bits| < |gen| then [] else [bits[0]] + Quotient(Reduced(bits, gen), gen)
  }

  lemma OneStepExact(bits: seq<bool>, gen: seq<bool>, q: seq<bool>, r: seq<bool>)
    requires Divisor(gen) && |bits| >= |gen| && |r| == |gen| - 1 && |q| == |bits| - |r| && q[0] == bits[0]
    requires Reduced(bits, gen) == Recomposed(q[1..], gen, r)
    ensures bits == Recomposed(q, gen, r)
  {
    var next := Reduced(bits, gen);
    forall i: nat | i < |bits|
      ensures bits[i] == Recomposed(q, gen, r)[i]
    {
      if i > 0 {
        Shifted(q, gen, r, i - 1);
        assert next[i - 1] == (bits[i] != (bits[0] && i < |gen| && gen[i]));
      }
    }
  }

  lemma {:induction false} DivisionIsExact(bits: seq<bool>, gen: seq<bool>)
    requires Divisor(gen) && |bits| >= |gen| - 1
    ensures bits == Recomposed(Quotient(bits, gen), gen, Remainder(bits, gen))
    decreases |bits|
  {
    var q, r := Quotient(bits, gen), Remainder(bits, gen);
    if |bits| >= |gen| {
      DivisionIsExact(Reduced(bits, gen), gen);
      assert q[1..] == Quotient(Reduced(bits, gen), gen);
      OneStepExact(bits, gen, q, r);
    } else {
      assert Zeros(0) + r == r;
    }
  }

  lemma {:induction false} RemainderIsUnique(q: seq<bool>, p: seq<bool>, gen: seq<bool>, r: seq<bool>, s: seq<bool>)
    requires Divisor(gen) && |r| == |s| == |gen| - 1 && |q| == |p|
    requires Recomposed(q, gen, r) == Recomposed(p, gen, s)
    ensures r == s
    decreases |q|
  {
    if q == [] {
      forall i | 0 <= i < |r|
        ensures r[i] == s[i]
      {
        assert Recomposed(q, gen, r)[i] == r[i] && Recomposed(p, gen, s)[i] == s[i];
      }
    } else {
      assert Recomposed(q, gen, r)[0] == q[0] && Recomposed(p, gen, s)[0] == p[0];
      forall i | 0 <= i < |q| - 1 + |r|
        ensures Recomposed(q[1..], gen, r)[i] == Recomposed(p[1..], gen, s)[i]
      {
        Shifted(q, gen, r, i);
        Shifted(p, gen, s, i);
      }
      assert Recomposed(q[1..], gen, r) == Recomposed(p[1..], gen, s);
      RemainderIsUnique(q[1..], p[1..], gen, r, s);
    }
  }

  lemma Shifted(q: seq<bool>, gen: seq<bool>, r: seq<bool>, i: nat)
    requires Divisor(gen) && |r| == |gen| - 1 && q != [] && i < |q| - 1 + |r|
    ensures Recomposed(q[1..], gen, r)[i]
         == (Recomposed(q, gen, r)[i + 1] != (q[0] && i + 1 < |gen| && gen[i + 1]))
  {
    assert (Zeros(|q|) + r)[i + 1] == (Zeros(|q| - 1) + r)[i];
  }

  /** The remainder is the one polynomial of lower degree than the divisor that differs from the dividend by a multiple
      of the divisor. */
  lemma RemainderIs(bits: seq<bool>, gen: seq<bool>, r: seq<bool>)
    requires Divisor(gen) && |bits| >= |gen| - 1 && |r| == |gen| - 1
    ensures r == Remainder(bits, gen) <==>
            exists q: seq<bool> :: |q| == |bits| - |r| && Recomposed(q, gen, r) == bits
  {
    DivisionIsExact(bits, gen);
    assert Recomposed(Quotient(bits, gen), gen, Remainder(bits, gen)) == bits;
    if q: seq<bool> :| |q| == |bits| - |r| && Recomposed(q, gen, r) == bits {
      RemainderIsUnique(q, Quotient(bits, gen), gen, r, Remainder(bits, gen));
    }
  }

  // ---------- the shift register ----------

  /** Taking in a bit shifts the register, whose bit 0 is the highest power, and takes `gen` away if the bit that leaves
      differs from the one that comes in. */
  function ShiftIn(reg: seq<bool>, x: bool, gen: seq<bool>): (r: seq<bool>)
    requires |gen| == |reg| + 1 && reg != []
    ensures |r| == |reg|
  {
    seq(|reg|, j requires 0 <= j < |reg| =>
      (if j + 1 < |reg| then reg[j + 1] else false) != ((reg[0] != x) && gen[j + 1]))
  }

  ghost predicate Shifts<W(!new), B(!new)>(l: Line<W, B>, bits: W -> seq<bool>, gen: seq<bool>) {
    && Divisor(gen) && |gen| > 1 && (forall c :: |bits(c)| == |gen| - 1)
    && (forall c, x :: |bits(c)| == |gen| - 1 ==> bits(TakeBit(l, c, x)) == ShiftIn(bits(c), x, gen))
  }

  /** A message followed by as many zeros as the register has bits, with the bits of the register added in front. */
  function Dividend(reg: seq<bool>, xs: seq<bool>): (r: seq<bool>)
    ensures |r| == |reg| + |xs|
  {
    Sum(reg + Zeros(|xs|), xs + Zeros(|reg|))
  }

  lemma OneBitDivided(reg: seq<bool>, xs: seq<bool>, gen: seq<bool>)
    requires Divisor(gen) && |gen| == |reg| + 1 && reg != [] && xs != []
    ensures Reduced(Dividend(reg, xs), gen) == Dividend(ShiftIn(reg, xs[0], gen), xs[1..])
  {
    var d, n := Dividend(reg, xs), ShiftIn(reg, xs[0], gen);
    var l, r := Reduced(d, gen), Dividend(n, xs[1..]);
    forall i | 0 <= i < |l|
      ensures l[i] == r[i]
    {
      assert l[i] == (d[i + 1] != (d[0] && i + 1 < |gen| && gen[i + 1]));
      assert (n + Zeros(|xs| - 1))[i] == (i < |n| && n[i]);
      assert (reg + Zeros(|xs|))[i + 1] == (i + 1 < |reg| && reg[i + 1]);
      assert (xs[1..] + Zeros(|n|))[i] == (xs + Zeros(|reg|))[i + 1];
      assert d[0] == (reg[0] != xs[0]);
    }
  }

  /** What is left in the register is the remainder of the message, its first bits changed by what was in the register
      at the beginning. */
  lemma {:induction false} RegisterDivides<W(!new), B(!new)>(
      l: Line<W, B>, bits: W -> seq<bool>, gen: seq<bool>, c: W, xs: seq<bool>)
    requires Shifts(l, bits, gen)
    ensures bits(TakeBits(l, c, xs)) == Remainder(Dividend(bits(c), xs), gen)
    decreases |xs|
  {
    if xs == [] {
      assert Dividend(bits(c), xs) == bits(c);
    } else {
      RegisterDivides(l, bits, gen, TakeBit(l, c, xs[0]), xs[1..]);
      OneBitDivided(bits(c), xs, gen);
    }
  }
}
