/** Registers that take in one byte after the other: mix the byte in, then step a number of times. What
    follows for any such register from laws of a single step. */
module ShiftRegister {

  function Iter<W>(step: W -> W, c: W, n: nat): W
    decreases n
  {
    if n == 0 then c else Iter(step, step(c), n - 1)
  }

  /** The register after the bytes of `s`. */
  function Feed<W, B>(step: W -> W, mix: (W, B) -> W, c: W, s: seq<B>): W {
    if s == [] then c else Iter(step, mix(Feed(step, mix, c, s[..|s| - 1]), s[|s| - 1]), 8)
  }

  ghost predicate Injective<W(!new)>(step: W -> W) {
    forall a, b :: step(a) == step(b) ==> a == b
  }

  ghost predicate Linear<W(!new)>(step: W -> W, xor: (W, W) -> W) {
    forall a, b :: step(xor(a, b)) == xor(step(a), step(b))
  }

  /** Different registers stay different when the same byte is mixed in. */
  ghost predicate Separates<W(!new), B(!new)>(mix: (W, B) -> W) {
    forall a, c, b :: mix(a, b) == mix(c, b) ==> a == c
  }

  lemma {:induction false} IterInjective<W(!new)>(step: W -> W, a: W, b: W, n: nat)
    requires Injective(step) && Iter(step, a, n) == Iter(step, b, n)
    ensures a == b
    decreases n
  {
    if n > 0 {
      IterInjective(step, step(a), step(b), n - 1);
    }
  }

  lemma {:induction false} IterLinear<W(!new)>(step: W -> W, xor: (W, W) -> W, a: W, b: W, n: nat)
    requires Linear(step, xor)
    ensures Iter(step, xor(a, b), n) == xor(Iter(step, a, n), Iter(step, b, n))
    decreases n
  {
    if n > 0 {
      IterLinear(step, xor, step(a), step(b), n - 1);
    }
  }

  lemma FeedOne<W, B>(step: W -> W, mix: (W, B) -> W, c: W, s: seq<B>, b: B)
    ensures Feed(step, mix, c, s + [b]) == Iter(step, mix(Feed(step, mix, c, s), b), 8)
  {
    assert (s + [b])[..|s|] == s;
  }

  /** One pass over a split input: the register after the first part is the initial value for the second. */
  lemma {:induction false} FeedAppend<W, B>(step: W -> W, mix: (W, B) -> W, c: W, s: seq<B>, t: seq<B>)
    ensures Feed(step, mix, c, s + t) == Feed(step, mix, Feed(step, mix, c, s), t)
  {
    if t == [] {
      assert s + t == s;
    } else {
      assert (s + t)[..|s + t| - 1] == s + t[..|t| - 1];
      FeedAppend(step, mix, c, s, t[..|t| - 1]);
    }
  }

  /** The same bytes keep different registers different. */
  lemma {:induction false} FeedInjective<W(!new), B(!new)>(step: W -> W, mix: (W, B) -> W, c: W, d: W, s: seq<B>)
    requires Injective(step) && Separates(mix)
    ensures Feed(step, mix, c, s) == Feed(step, mix, d, s) <==> c == d
  {
    if s != [] {
      var p := s[..|s| - 1];
      FeedInjective(step, mix, c, d, p);
      var x, y := mix(Feed(step, mix, c, p), s[|s| - 1]), mix(Feed(step, mix, d, p), s[|s| - 1]);
      if Iter(step, x, 8) == Iter(step, y, 8) {
        IterInjective(step, x, y, 8);
      }
    }
  }
}
