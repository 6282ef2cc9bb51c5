/** The block list of the small-memory heap, as a value: what `plug_holes`, the split in
    `rt_malloc` and the split in `rt_realloc` do to it, and what every well-formed list looks like.
    Offsets are relative to `heap_ptr`, as the links in the headers are. */
module HeapLayout {

  /** SIZEOF_STRUCT_MEM, MIN_SIZE_ALIGNED and RT_ALIGN_SIZE on the 32-bit target. */
  const HEADER: nat := 12
  const MIN_SIZE: nat := 12
  const ALIGN: nat := 4
  const WORD: nat := 0x1_0000_0000

  /** The block whose header is at `off`; the next header is at `next`. */
  datatype Block = Block(off: nat, next: nat, used: bool) {
    function Room(): int {
      next - off - HEADER
    }
  }

  predicate Sized(b: Block) {
    && b.off % ALIGN == 0 && b.next % ALIGN == 0
    && b.off + HEADER <= b.next
    && (b.used ==> b.off + HEADER < b.next)
  }

  predicate Touch(bs: seq<Block>, i: nat)
    requires 0 < i < |bs|
  {
    bs[i - 1].next == bs[i].off
  }

  predicate Apart(bs: seq<Block>, i: nat)
    requires 0 < i < |bs|
  {
    bs[i - 1].used || bs[i].used
  }

  /** The blocks cover [start, end) without gap or overlap. */
  ghost predicate Tiles(bs: seq<Block>, start: nat, end: nat) {
    && (if bs == [] then start == end else bs[0].off == start && bs[|bs| - 1].next == end)
    && (forall i :: 0 <= i < |bs| ==> Sized(bs[i]))
    && (forall i :: 0 < i < |bs| ==> Touch(bs, i))
  }

  /** No two neighbouring blocks are both free. */
  ghost predicate Coalesced(bs: seq<Block>) {
    forall i :: 0 < i < |bs| ==> Apart(bs, i)
  }

  ghost predicate Canonical(bs: seq<Block>, start: nat, end: nat) {
    Tiles(bs, start, end) && Coalesced(bs)
  }

  // ---------- what the operations do to the list ----------

  /** Block i swallows a free right neighbour. */
  function MergeForward(bs: seq<Block>, i: nat): seq<Block>
    requires i < |bs|
  {
    if i + 1 < |bs| && !bs[i + 1].used
    then bs[..i] + [Block(bs[i].off, bs[i + 1].next, bs[i].used)] + bs[i + 2..]
    else bs
  }

  /** A free left neighbour swallows block i. */
  function MergeBackward(bs: seq<Block>, i: nat): seq<Block>
    requires i < |bs|
  {
    if i > 0 && !bs[i - 1].used
    then bs[..i - 1] + [Block(bs[i - 1].off, bs[i].next, false)] + bs[i + 1..]
    else bs
  }

  function Plug(bs: seq<Block>, i: nat): seq<Block>
    requires i < |bs|
  {
    MergeBackward(MergeForward(bs, i), i)
  }

  function Split(bs: seq<Block>, i: nat, at: nat): seq<Block>
    requires i < |bs|
  {
    bs[..i] + [Block(bs[i].off, at, true), Block(at, bs[i].next, false)] + bs[i + 1..]
  }

  function MarkUsed(bs: seq<Block>, i: nat, used: bool): seq<Block>
    requires i < |bs|
  {
    bs[..i] + [Block(bs[i].off, bs[i].next, used)] + bs[i + 1..]
  }

  predicate Splits(b: Block, size: nat) {
    b.Room() >= size + HEADER + MIN_SIZE
  }

  function Take(bs: seq<Block>, i: nat, size: nat): seq<Block>
    requires i < |bs|
  {
    if Splits(bs[i], size) then Split(bs, i, bs[i].off + HEADER + size) else MarkUsed(bs, i, true)
  }

  function Release(bs: seq<Block>, i: nat): seq<Block>
    requires i < |bs|
  {
    Plug(MarkUsed(bs, i, false), i)
  }

  function Shrink(bs: seq<Block>, i: nat, size: nat): seq<Block>
    requires i < |bs|
  {
    Plug(Split(bs, i, bs[i].off + HEADER + size), i + 1)
  }

  // ---------- searching ----------

  function OffAt(bs: seq<Block>, k: nat, end: nat): nat {
    if k < |bs| then bs[k].off else end
  }

  predicate Fits(b: Block, size: nat) {
    !b.used && b.Room() >= size
  }

  function FirstFreeFrom(bs: seq<Block>, from: nat): (k: nat)
    requires from <= |bs|
    ensures from <= k <= |bs|
    ensures forall j :: from <= j < k ==> bs[j].used
    ensures k < |bs| ==> !bs[k].used
    decreases |bs| - from
  {
    if from == |bs| || !bs[from].used then from else FirstFreeFrom(bs, from + 1)
  }

  function LowestFree(bs: seq<Block>, end: nat): nat {
    OffAt(bs, FirstFreeFrom(bs, 0), end)
  }

  /** Address-ordered first fit below `bound`; |bs| when there is none. */
  function FirstFitFrom(bs: seq<Block>, size: nat, bound: int, from: nat): (k: nat)
    requires from <= |bs|
    ensures from <= k <= |bs|
    ensures forall j :: from <= j < k ==> !(bs[j].off < bound && Fits(bs[j], size))
    ensures k < |bs| ==> bs[k].off < bound && Fits(bs[k], size)
    decreases |bs| - from
  {
    if from == |bs| || (bs[from].off < bound && Fits(bs[from], size)) then from
    else FirstFitFrom(bs, size, bound, from + 1)
  }

  function FirstFit(bs: seq<Block>, size: nat, bound: int): nat {
    FirstFitFrom(bs, size, bound, 0)
  }

  /** The position of the block that starts at `off`; |bs| when there is none. */
  function IndexFrom(bs: seq<Block>, off: int, from: nat): (k: nat)
    requires from <= |bs|
    ensures from <= k <= |bs|
    ensures forall j :: from <= j < k ==> bs[j].off != off
    ensures k < |bs| ==> bs[k].off == off
    decreases |bs| - from
  {
    if from == |bs| || bs[from].off == off then from else IndexFrom(bs, off, from + 1)
  }

  function IndexOf(bs: seq<Block>, off: int): nat {
    IndexFrom(bs, off, 0)
  }

  /** The position of the live block that starts at `off`; |bs| when there is none. */
  function LiveAt(bs: seq<Block>, off: int): (k: nat)
    ensures k <= |bs|
    ensures k < |bs| ==> bs[k].off == off && bs[k].used
  {
    var k := IndexOf(bs, off);
    if k < |bs| && bs[k].used then k else |bs|
  }

  /** The list after rt_realloc has moved the live block i into the free block k. */
  function Moved(bs: seq<Block>, i: nat, k: nat, size: nat): seq<Block>
    requires i < |bs| && k < |bs|
  {
    var cs := Take(bs, k, size);
    var j := LiveAt(cs, bs[i].off);
    if j < |cs| then Release(cs, j) else cs
  }

  function Span(b: Block): int {
    if b.used then b.next - b.off else 0
  }

  /** The bytes, headers included, of the live blocks among the first n. */
  function SpanTo(bs: seq<Block>, n: nat): int
    requires n <= |bs|
  {
    if n == 0 then 0 else SpanTo(bs, n - 1) + Span(bs[n - 1])
  }

  function UsedSpan(bs: seq<Block>): int {
    SpanTo(bs, |bs|)
  }

  ghost function UsedSet(bs: seq<Block>): set<Block> {
    set b | b in bs && b.used
  }

  // ---------- order ----------

  lemma {:induction false} Ordered(bs: seq<Block>, start: nat, end: nat, i: nat, j: nat)
    requires Tiles(bs, start, end)
    requires i < j < |bs|
    ensures bs[i].next <= bs[j].off
  {
    assert Touch(bs, j);
    if i < j - 1 {
      Ordered(bs, start, end, i, j - 1);
    }
  }

  lemma {:induction false} Within(bs: seq<Block>, start: nat, end: nat, i: nat)
    requires Tiles(bs, start, end) && i < |bs|
    ensures start <= bs[i].off && bs[i].off + HEADER <= bs[i].next <= end
  {
    if i > 0 {
      Ordered(bs, start, end, 0, i);
    }
    if i < |bs| - 1 {
      Ordered(bs, start, end, i, |bs| - 1);
    }
  }

  /** An offset starts at most one block. */
  lemma OffsetUnique(bs: seq<Block>, start: nat, end: nat, i: nat, j: nat)
    requires Tiles(bs, start, end) && i < |bs| && j < |bs| && bs[i].off == bs[j].off
    ensures i == j
  {
    if i < j {
      Ordered(bs, start, end, i, j);
    } else if j < i {
      Ordered(bs, start, end, j, i);
    }
  }

  /** Offsets only grow, so nothing after the bound is worth looking at. */
  lemma NoFitBeyond(bs: seq<Block>, start: nat, end: nat, size: nat, bound: int, k: nat)
    requires Tiles(bs, start, end) && k <= |bs| && (k < |bs| ==> bound <= bs[k].off)
    ensures FirstFitFrom(bs, size, bound, k) == |bs|
  {
    var r := FirstFitFrom(bs, size, bound, k);
    if k < r < |bs| {
      Ordered(bs, start, end, k, r);
    }
  }

  // ---------- every operation keeps the tiling ----------

  lemma SplitTiles(bs: seq<Block>, start: nat, end: nat, i: nat, at: nat)
    requires Tiles(bs, start, end) && i < |bs|
    requires at % ALIGN == 0 && bs[i].off + HEADER < at && at + HEADER <= bs[i].next
    ensures Tiles(Split(bs, i, at), start, end)
  {
    var cs := Split(bs, i, at);
    forall j | 0 < j < |cs|
      ensures Touch(cs, j)
    {
      if j < i {
        assert Touch(bs, j);
      } else if j == i && i > 0 {
        assert Touch(bs, i);
      } else if j > i + 1 {
        assert Touch(bs, j - 1);
      }
    }
  }

  lemma MarkTiles(bs: seq<Block>, start: nat, end: nat, i: nat, used: bool)
    requires Tiles(bs, start, end) && i < |bs| && (used ==> bs[i].Room() > 0)
    ensures Tiles(MarkUsed(bs, i, used), start, end)
  {
    var cs := MarkUsed(bs, i, used);
    forall j | 0 < j < |cs|
      ensures Touch(cs, j)
    {
      assert Touch(bs, j);
    }
  }

  lemma MergeForwardTiles(bs: seq<Block>, start: nat, end: nat, i: nat)
    requires Tiles(bs, start, end) && i < |bs|
    ensures Tiles(MergeForward(bs, i), start, end)
  {
    var cs := MergeForward(bs, i);
    if i + 1 < |bs| && !bs[i + 1].used {
      assert Touch(bs, i + 1);
      forall j | 0 < j < |cs|
        ensures Touch(cs, j)
      {
        if j <= i {
          assert Touch(bs, j);
        } else {
          assert Touch(bs, j + 1);
        }
      }
    }
  }

  lemma MergeBackwardTiles(bs: seq<Block>, start: nat, end: nat, i: nat)
    requires Tiles(bs, start, end) && i < |bs| && !bs[i].used
    ensures Tiles(MergeBackward(bs, i), start, end)
  {
    if i > 0 && !bs[i - 1].used {
      MergeForwardTiles(bs, start, end, i - 1);
      assert MergeBackward(bs, i) == MergeForward(bs, i - 1);
    }
  }

  /** Only the seams around block i may join two free blocks. */
  ghost predicate CoalescedBut(bs: seq<Block>, i: nat) {
    forall j :: 0 < j < |bs| && j != i && j != i + 1 ==> Apart(bs, j)
  }

  lemma PlugCanonical(bs: seq<Block>, start: nat, end: nat, i: nat)
    requires Tiles(bs, start, end) && i < |bs| && !bs[i].used
    requires CoalescedBut(bs, i)
    requires i + 2 < |bs| ==> Apart(bs, i + 2)
    ensures Canonical(Plug(bs, i), start, end)
  {
    var cs := MergeForward(bs, i);
    MergeForwardTiles(bs, start, end, i);
    assert forall j :: 0 < j < |cs| && j != i ==> Apart(cs, j) by {
      forall j | 0 < j < |cs| && j != i
        ensures Apart(cs, j)
      {
        if |cs| == |bs| {
          if j != i + 1 {
            assert Apart(bs, j);
          }
        } else if j < i {
          assert Apart(bs, j);
        } else {
          assert Apart(bs, j + 1);
        }
      }
    }
    MergeBackwardTiles(cs, start, end, i);
    var ds := MergeBackward(cs, i);
    forall j | 0 < j < |ds|
      ensures Apart(ds, j)
    {
      if |ds| == |cs| {
        if j != i {
          assert Apart(cs, j);
        }
      } else if j < i - 1 {
        assert Apart(cs, j);
      } else if j == i - 1 {
        assert Apart(cs, j);
      } else {
        assert Apart(cs, j + 1);
      }
    }
  }

  lemma ReleaseCanonical(bs: seq<Block>, start: nat, end: nat, i: nat)
    requires Canonical(bs, start, end) && i < |bs|
    ensures Canonical(Release(bs, i), start, end)
  {
    var cs := MarkUsed(bs, i, false);
    MarkTiles(bs, start, end, i, false);
    forall j | 0 < j < |cs| && j != i && j != i + 1
      ensures Apart(cs, j)
    {
      assert Apart(bs, j);
    }
    PlugCanonical(cs, start, end, i);
  }

  lemma TakeCanonical(bs: seq<Block>, start: nat, end: nat, i: nat, size: nat)
    requires Canonical(bs, start, end) && i < |bs| && Fits(bs[i], size)
    requires size > 0 && size % ALIGN == 0
    ensures Canonical(Take(bs, i, size), start, end)
  {
    var cs := Take(bs, i, size);
    if Splits(bs[i], size) {
      SplitTiles(bs, start, end, i, bs[i].off + HEADER + size);
      forall j | 0 < j < |cs|
        ensures Apart(cs, j)
      {
        if j < i {
          assert Apart(bs, j);
        } else if j == i + 2 {
          assert Apart(bs, i + 1);
        } else if j > i + 2 {
          assert Apart(bs, j - 1);
        }
      }
    } else {
      MarkTiles(bs, start, end, i, true);
      forall j | 0 < j < |cs|
        ensures Apart(cs, j)
      {
        assert Apart(bs, j);
      }
    }
  }

  lemma ShrinkCanonical(bs: seq<Block>, start: nat, end: nat, i: nat, size: nat)
    requires Canonical(bs, start, end) && i < |bs| && bs[i].used
    requires size > 0 && size % ALIGN == 0 && size + HEADER <= bs[i].Room()
    ensures Canonical(Shrink(bs, i, size), start, end)
  {
    var cs := Split(bs, i, bs[i].off + HEADER + size);
    SplitTiles(bs, start, end, i, bs[i].off + HEADER + size);
    forall j | 0 < j < |cs| && j != i + 1 && j != i + 2
      ensures Apart(cs, j)
    {
      if j < i {
        assert Apart(bs, j);
      } else if j > i + 2 {
        assert Apart(bs, j - 1);
      }
    }
    PlugCanonical(cs, start, end, i + 1);
  }

  // ---------- the counters ----------

  /** Equal stretches of two lists add equal spans. */
  lemma {:induction false} SpanStretch(bs: seq<Block>, i: nat, cs: seq<Block>, j: nat, len: nat)
    requires i + len <= |bs| && j + len <= |cs|
    requires forall k :: i <= k < i + len ==> bs[k] == cs[k - i + j]
    ensures SpanTo(bs, i + len) - SpanTo(bs, i) == SpanTo(cs, j + len) - SpanTo(cs, j)
  {
    if len > 0 {
      SpanStretch(bs, i, cs, j, len - 1);
    }
  }

  lemma SpanStep(bs: seq<Block>, n: nat)
    requires n < |bs|
    ensures SpanTo(bs, n + 1) == SpanTo(bs, n) + Span(bs[n])
  {
  }

  lemma MarkSpan(bs: seq<Block>, i: nat, used: bool)
    requires i < |bs|
    ensures UsedSpan(MarkUsed(bs, i, used)) == UsedSpan(bs) - Span(bs[i]) + Span(Block(bs[i].off, bs[i].next, used))
  {
    var cs := MarkUsed(bs, i, used);
    SpanStep(bs, i);
    SpanStep(cs, i);
    SpanStretch(bs, 0, cs, 0, i);
    SpanStretch(bs, i + 1, cs, i + 1, |bs| - i - 1);
  }

  lemma SplitSpan(bs: seq<Block>, i: nat, at: nat)
    requires i < |bs|
    ensures UsedSpan(Split(bs, i, at)) == UsedSpan(bs) - Span(bs[i]) + at - bs[i].off
  {
    var cs := Split(bs, i, at);
    SpanStep(bs, i);
    SpanStep(cs, i);
    SpanStep(cs, i + 1);
    SpanStretch(bs, 0, cs, 0, i);
    SpanStretch(bs, i + 1, cs, i + 2, |bs| - i - 1);
  }

  lemma MergeForwardSpan(bs: seq<Block>, i: nat)
    requires i < |bs| && !bs[i].used
    ensures UsedSpan(MergeForward(bs, i)) == UsedSpan(bs)
  {
    if i + 1 < |bs| && !bs[i + 1].used {
      var cs := MergeForward(bs, i);
      SpanStep(bs, i);
      SpanStep(bs, i + 1);
      SpanStep(cs, i);
      SpanStretch(bs, 0, cs, 0, i);
      SpanStretch(bs, i + 2, cs, i + 1, |bs| - i - 2);
    }
  }

  lemma PlugSpan(bs: seq<Block>, i: nat)
    requires i < |bs| && !bs[i].used
    ensures UsedSpan(Plug(bs, i)) == UsedSpan(bs)
  {
    var cs := MergeForward(bs, i);
    MergeForwardSpan(bs, i);
    if i > 0 && !cs[i - 1].used {
      MergeForwardSpan(cs, i - 1);
      assert MergeBackward(cs, i) == MergeForward(cs, i - 1);
    }
  }

  lemma ReleaseSpan(bs: seq<Block>, i: nat)
    requires i < |bs| && bs[i].used
    ensures UsedSpan(Release(bs, i)) == UsedSpan(bs) - (bs[i].next - bs[i].off)
  {
    MarkSpan(bs, i, false);
    PlugSpan(MarkUsed(bs, i, false), i);
  }

  lemma TakeSpan(bs: seq<Block>, i: nat, size: nat)
    requires i < |bs| && !bs[i].used
    ensures UsedSpan(Take(bs, i, size))
         == UsedSpan(bs) + if Splits(bs[i], size) then HEADER + size else bs[i].next - bs[i].off
  {
    if Splits(bs[i], size) {
      SplitSpan(bs, i, bs[i].off + HEADER + size);
    } else {
      MarkSpan(bs, i, true);
    }
  }

  lemma ShrinkSpan(bs: seq<Block>, i: nat, size: nat)
    requires i < |bs| && bs[i].used
    ensures UsedSpan(Shrink(bs, i, size)) == UsedSpan(bs) - (bs[i].Room() - size)
  {
    SplitSpan(bs, i, bs[i].off + HEADER + size);
    PlugSpan(Split(bs, i, bs[i].off + HEADER + size), i + 1);
  }

  // ---------- the lowest free block ----------

  /** What plug_holes does to `lfree`. */
  function PlugLow(bs: seq<Block>, i: nat, low: nat): nat
    requires i < |bs|
  {
    var l := if i + 1 < |bs| && !bs[i + 1].used && low == bs[i + 1].off then bs[i].off else low;
    if i > 0 && !bs[i - 1].used && l == bs[i].off then bs[i - 1].off else l
  }

  lemma LowestIs(bs: seq<Block>, end: nat, k: nat)
    requires k <= |bs| && (forall j :: 0 <= j < k ==> bs[j].used) && (k < |bs| ==> !bs[k].used)
    ensures FirstFreeFrom(bs, 0) == k && LowestFree(bs, end) == OffAt(bs, k, end)
  {
  }

  lemma MergeLowest(bs: seq<Block>, start: nat, end: nat, i: nat)
    requires Tiles(bs, start, end) && i < |bs| && !bs[i].used
    ensures LowestFree(MergeForward(bs, i), end) == LowestFree(bs, end) <= bs[i].off
  {
    var k := FirstFreeFrom(bs, 0);
    LowestIs(MergeForward(bs, i), end, k);
    if k < i {
      Ordered(bs, start, end, k, i);
    }
  }

  lemma PlugLowest(bs: seq<Block>, start: nat, end: nat, i: nat)
    requires Tiles(bs, start, end) && i < |bs| && !bs[i].used
    ensures PlugLow(bs, i, LowestFree(bs, end)) == LowestFree(Plug(bs, i), end)
  {
    var cs := MergeForward(bs, i);
    MergeForwardTiles(bs, start, end, i);
    MergeLowest(bs, start, end, i);
    if i + 1 < |bs| {
      Ordered(bs, start, end, i, i + 1);
    }
    if i > 0 && !bs[i - 1].used {
      Ordered(bs, start, end, i - 1, i);
      MergeLowest(cs, start, end, i - 1);
      assert Plug(bs, i) == MergeForward(cs, i - 1);
    }
  }

  /** Allocating block k moves the lowest free offset only if k was the lowest free block. */
  lemma TakeLowest(bs: seq<Block>, start: nat, end: nat, k: nat, size: nat)
    requires Tiles(bs, start, end) && k < |bs| && !bs[k].used
    ensures k < |Take(bs, k, size)| && Take(bs, k, size)[k].off == bs[k].off
    ensures if bs[k].off == LowestFree(bs, end)
            then forall j :: 0 <= j < k ==> Take(bs, k, size)[j].used
            else LowestFree(Take(bs, k, size), end) == LowestFree(bs, end)
  {
    var f := FirstFreeFrom(bs, 0);
    if bs[k].off == LowestFree(bs, end) {
      OffsetUnique(bs, start, end, f, k);
    } else {
      LowestIs(Take(bs, k, size), end, f);
    }
  }

  /** Freeing block i, or cutting a free block off it, can only lower the lowest free offset. */
  lemma LowestAfterFree(bs: seq<Block>, start: nat, end: nat, i: nat)
    requires Tiles(bs, start, end) && i < |bs| && bs[i].used
    ensures LowestFree(MarkUsed(bs, i, false), end)
         == if bs[i].off < LowestFree(bs, end) then bs[i].off else LowestFree(bs, end)
  {
    var k := FirstFreeFrom(bs, 0);
    Within(bs, start, end, i);
    if k < i {
      Ordered(bs, start, end, k, i);
      LowestIs(MarkUsed(bs, i, false), end, k);
    } else {
      if k < |bs| {
        Ordered(bs, start, end, i, k);
      }
      LowestIs(MarkUsed(bs, i, false), end, i);
    }
  }

  lemma LowestAfterSplit(bs: seq<Block>, start: nat, end: nat, i: nat, at: nat)
    requires Tiles(bs, start, end) && i < |bs| && bs[i].used && bs[i].off < at < bs[i].next
    ensures LowestFree(Split(bs, i, at), end)
         == if at < LowestFree(bs, end) then at else LowestFree(bs, end)
  {
    var k := FirstFreeFrom(bs, 0);
    Within(bs, start, end, i);
    if k < i {
      Ordered(bs, start, end, k, i);
      LowestIs(Split(bs, i, at), end, k);
    } else {
      if k < |bs| {
        Ordered(bs, start, end, i, k);
      }
      LowestIs(Split(bs, i, at), end, i + 1);
    }
  }

  // ---------- the live blocks ----------

  lemma MergeForwardLive(bs: seq<Block>, i: nat)
    requires i < |bs| && !bs[i].used
    ensures UsedSet(MergeForward(bs, i)) == UsedSet(bs)
  {
    var cs := MergeForward(bs, i);
    forall b | b in UsedSet(bs)
      ensures b in cs
    {
      var k :| 0 <= k < |bs| && bs[k] == b;
      if |cs| < |bs| && k > i {
        assert cs[k - 1] == b;
      } else {
        assert cs[k] == b;
      }
    }
  }

  lemma PlugLive(bs: seq<Block>, i: nat)
    requires i < |bs| && !bs[i].used
    ensures UsedSet(Plug(bs, i)) == UsedSet(bs)
  {
    var cs := MergeForward(bs, i);
    MergeForwardLive(bs, i);
    if i > 0 && !cs[i - 1].used {
      MergeForwardLive(cs, i - 1);
      assert MergeBackward(cs, i) == MergeForward(cs, i - 1);
    }
  }

  /** Freeing takes exactly the named block out of the live set. */
  lemma ReleaseLive(bs: seq<Block>, start: nat, end: nat, i: nat)
    requires Tiles(bs, start, end) && i < |bs| && bs[i].used
    ensures UsedSet(Release(bs, i)) == UsedSet(bs) - {bs[i]}
  {
    MarkLive(bs, start, end, i);
    PlugLive(MarkUsed(bs, i, false), i);
  }

  /** The other live blocks when block j is freed. */
  lemma OthersLive(cs: seq<Block>, end: nat, j: nat, k: nat, es: seq<Block>)
    requires Tiles(cs, 0, end) && j < |cs| && cs[j].used && k < |cs| && cs[k].used && j != k
    requires UsedSet(es) <= UsedSet(cs) - {cs[j], cs[k]}
    ensures cs[k] in UsedSet(Release(cs, j))
    ensures UsedSet(es) <= UsedSet(Release(cs, j))
    ensures UsedSet(es) <= UsedSet(cs) - {cs[k]}
  {
    ReleaseLive(cs, 0, end, j);
    if cs[j] == cs[k] {
      OffsetUnique(cs, 0, end, j, k);
    }
  }

  /** Allocating adds exactly one live block, at the place of the free block it is cut from. */
  lemma TakeLive(bs: seq<Block>, i: nat, size: nat)
    requires i < |bs| && !bs[i].used
    ensures UsedSet(Take(bs, i, size)) == UsedSet(bs) + {Take(bs, i, size)[i]}
  {
    var cs := Take(bs, i, size);
    forall b | b in UsedSet(bs)
      ensures b in cs
    {
      var k :| 0 <= k < |bs| && bs[k] == b;
      if |cs| > |bs| && k > i {
        assert cs[k + 1] == b;
      } else {
        assert cs[k] == b;
      }
    }
  }

  lemma SplitLive(bs: seq<Block>, start: nat, end: nat, i: nat, at: nat)
    requires Tiles(bs, start, end) && i < |bs| && bs[i].used
    ensures UsedSet(Split(bs, i, at)) == UsedSet(bs) - {bs[i]} + {Block(bs[i].off, at, true)}
  {
    var cs := Split(bs, i, at);
    forall b | b in UsedSet(bs) - {bs[i]}
      ensures b in UsedSet(cs)
    {
      var k :| 0 <= k < |bs| && bs[k] == b;
      assert b == cs[if k < i then k else k + 1];
    }
    forall b | b in UsedSet(cs) && b != cs[i]
      ensures b in UsedSet(bs) - {bs[i]}
    {
      var k :| 0 <= k < |cs| && cs[k] == b;
      var j := if k < i then k else k - 1;
      assert bs[j] == b;
      if b == bs[i] {
        OffsetUnique(bs, start, end, i, j);
      }
    }
    assert cs[i] in cs;
  }

  /** Shrinking replaces exactly the named block by its head. */
  lemma ShrinkLive(bs: seq<Block>, start: nat, end: nat, i: nat, size: nat)
    requires Tiles(bs, start, end) && i < |bs| && bs[i].used
    ensures UsedSet(Shrink(bs, i, size))
         == UsedSet(bs) - {bs[i]} + {Block(bs[i].off, bs[i].off + HEADER + size, true)}
  {
    var at := bs[i].off + HEADER + size;
    calc {
      UsedSet(Shrink(bs, i, size));
      { PlugLive(Split(bs, i, at), i + 1); }
      UsedSet(Split(bs, i, at));
      { SplitLive(bs, start, end, i, at); }
      UsedSet(bs) - {bs[i]} + {Block(bs[i].off, at, true)};
    }
  }

  // ---------- what a caller of the operations needs ----------

  lemma ReleaseFacts(bs: seq<Block>, end: nat, i: nat)
    requires Canonical(bs, 0, end) && i < |bs| && bs[i].used
    ensures Coalesced(Release(bs, i))
    ensures UsedSpan(Release(bs, i)) == UsedSpan(bs) - (bs[i].next - bs[i].off) >= 0
    ensures LowestFree(Release(bs, i), end)
         == PlugLow(MarkUsed(bs, i, false), i,
                    if bs[i].off < LowestFree(bs, end) then bs[i].off else LowestFree(bs, end))
  {
    ReleaseCanonical(bs, 0, end, i);
    ReleaseSpan(bs, i);
    SpanNonNegative(Release(bs, i), 0, end, |Release(bs, i)|);
    MarkTiles(bs, 0, end, i, false);
    LowestAfterFree(bs, 0, end, i);
    PlugLowest(MarkUsed(bs, i, false), 0, end, i);
  }

  lemma ShrinkFacts(bs: seq<Block>, end: nat, i: nat, size: nat, at: nat)
    requires Canonical(bs, 0, end) && i < |bs| && bs[i].used
    requires size > 0 && size % ALIGN == 0 && size + HEADER <= bs[i].Room() && at == bs[i].off + HEADER + size
    ensures at % ALIGN == 0 && Coalesced(Shrink(bs, i, size))
    ensures UsedSpan(Shrink(bs, i, size)) == UsedSpan(bs) - (bs[i].Room() - size) >= 0
    ensures LowestFree(Shrink(bs, i, size), end)
         == PlugLow(Split(bs, i, at), i + 1, if at < LowestFree(bs, end) then at else LowestFree(bs, end))
  {
    ShrinkCanonical(bs, 0, end, i, size);
    ShrinkSpan(bs, i, size);
    SpanNonNegative(Shrink(bs, i, size), 0, end, |Shrink(bs, i, size)|);
    SplitTiles(bs, 0, end, i, at);
    LowestAfterSplit(bs, 0, end, i, at);
    PlugLowest(Split(bs, i, at), 0, end, i + 1);
  }

  lemma MarkLive(bs: seq<Block>, start: nat, end: nat, i: nat)
    requires Tiles(bs, start, end) && i < |bs|
    ensures UsedSet(MarkUsed(bs, i, false)) == UsedSet(bs) - {bs[i]}
  {
    var cs := MarkUsed(bs, i, false);
    forall b | b in UsedSet(bs) - {bs[i]}
      ensures b in cs
    {
      var k :| 0 <= k < |bs| && bs[k] == b;
      assert cs[k] == b;
    }
    forall b | b in UsedSet(cs)
      ensures b in UsedSet(bs) - {bs[i]}
    {
      var k :| 0 <= k < |cs| && cs[k] == b;
      assert bs[k] == b;
      if b == bs[i] {
        OffsetUnique(bs, start, end, i, k);
      }
    }
  }

  /** What allocating block k means to the other blocks. */
  lemma TakeFacts(bs: seq<Block>, end: nat, k: nat, size: nat)
    requires Canonical(bs, 0, end) && k < |bs| && Fits(bs[k], size)
    requires size > 0 && size % ALIGN == 0
    ensures var cs := Take(bs, k, size);
            && Tiles(cs, 0, end) && k < |cs| && cs[k].used
            && cs[k].off == bs[k].off && size <= cs[k].Room() < size + HEADER + MIN_SIZE
            && UsedSet(cs) == UsedSet(bs) + {cs[k]} && cs[k] !in UsedSet(bs)
  {
    TakeCanonical(bs, 0, end, k, size);
    TakeLive(bs, k, size);
    var cs := Take(bs, k, size);
    if cs[k] in UsedSet(bs) {
      var j :| 0 <= j < |bs| && bs[j] == cs[k];
      OffsetUnique(bs, 0, end, j, k);
    }
  }

  /** A live block is found again by its offset. */
  lemma FoundByOffset(bs: seq<Block>, end: nat, b: Block)
    requires Tiles(bs, 0, end) && b in UsedSet(bs)
    ensures LiveAt(bs, b.off) < |bs| && bs[LiveAt(bs, b.off)] == b
  {
    var k :| 0 <= k < |bs| && bs[k] == b;
    OffsetUnique(bs, 0, end, k, IndexOf(bs, b.off));
  }

  /** Block i of the list survives the allocation of block k, and is found again by its offset. */
  lemma GrowFacts(bs: seq<Block>, end: nat, i: nat, k: nat, size: nat)
    requires Canonical(bs, 0, end) && i < |bs| && bs[i].used && k < |bs| && Fits(bs[k], size)
    requires size > 0 && size % ALIGN == 0
    ensures var cs := Take(bs, k, size);
            var j := LiveAt(cs, bs[i].off);
            && k < |cs| && cs[k].used && cs[k].off == bs[k].off && size <= cs[k].Room()
            && j < |cs| && j != k && cs[j] == bs[i] && cs[j] in UsedSet(cs)
            && UsedSet(MarkUsed(bs, i, false)) <= UsedSet(cs) - {cs[j], cs[k]}
            && UsedSet(MarkUsed(bs, i, false)) <= UsedSet(cs)
  {
    TakeFacts(bs, end, k, size);
    FoundByOffset(Take(bs, k, size), end, bs[i]);
    MarkLive(bs, 0, end, i);
  }

  lemma {:induction false} SpanNonNegative(bs: seq<Block>, start: nat, end: nat, n: nat)
    requires Tiles(bs, start, end) && n <= |bs|
    ensures SpanTo(bs, n) >= 0
  {
    if n > 0 {
      SpanNonNegative(bs, start, end, n - 1);
    }
  }

  // ---------- the list is a function of the live blocks ----------

  lemma TailCanonical(bs: seq<Block>, start: nat, end: nat)
    requires Canonical(bs, start, end) && bs != []
    ensures Canonical(bs[1..], bs[0].next, end)
    ensures UsedSet(bs[1..]) == UsedSet(bs) - {bs[0]}
  {
    var cs := bs[1..];
    if cs != [] {
      assert Touch(bs, 1);
    }
    forall j | 0 < j < |cs|
      ensures Touch(cs, j) && Apart(cs, j)
    {
      assert Touch(bs, j + 1) && Apart(bs, j + 1);
    }
    forall b | b in UsedSet(bs) - {bs[0]}
      ensures b in cs
    {
      var k :| 0 <= k < |bs| && bs[k] == b;
      assert cs[k - 1] == b;
    }
    forall b | b in cs
      ensures b != bs[0]
    {
      var k :| 0 <= k < |cs| && cs[k] == b;
      Ordered(bs, start, end, 0, k + 1);
    }
  }

  /** The first live block fixes where a leading free block ends. */
  lemma LeadingFree(bs: seq<Block>, start: nat, end: nat, other: seq<Block>)
    requires Canonical(bs, start, end) && Canonical(other, start, end)
    requires UsedSet(bs) == UsedSet(other)
    requires bs != [] && other != [] && !bs[0].used && !other[0].used
    ensures other[0].next <= bs[0].next
  {
    if |bs| == 1 {
      Within(other, start, end, 0);
    } else {
      assert Apart(bs, 1) && Touch(bs, 1);
      assert bs[1] in UsedSet(bs);
      var k :| 0 <= k < |other| && other[k] == bs[1];
      Ordered(other, start, end, 0, k);
    }
  }

  /** A well-formed block list is determined by its live blocks: the free blocks carry no history. */
  lemma {:induction false} LayoutIsFunctionOfLive(bs: seq<Block>, other: seq<Block>, start: nat, end: nat)
    requires Canonical(bs, start, end) && Canonical(other, start, end)
    requires UsedSet(bs) == UsedSet(other)
    ensures bs == other
    decreases |bs|
  {
    if bs == [] {
      if other != [] {
        Within(other, start, end, 0);
      }
    } else if other == [] {
      Within(bs, start, end, 0);
    } else {
      SameHead(bs, other, start, end);
      TailCanonical(bs, start, end);
      TailCanonical(other, start, end);
      LayoutIsFunctionOfLive(bs[1..], other[1..], bs[0].next, end);
      assert bs == [bs[0]] + bs[1..] && other == [other[0]] + other[1..];
    }
  }

  lemma SameHead(bs: seq<Block>, other: seq<Block>, start: nat, end: nat)
    requires Canonical(bs, start, end) && Canonical(other, start, end)
    requires UsedSet(bs) == UsedSet(other)
    requires bs != [] && other != []
    ensures bs[0] == other[0]
  {
    if bs[0].used {
      assert bs[0] in UsedSet(other);
      var k :| 0 <= k < |other| && other[k] == bs[0];
      OffsetUnique(other, start, end, 0, k);
    } else if other[0].used {
      assert other[0] in UsedSet(bs);
      var k :| 0 <= k < |bs| && bs[k] == other[0];
      OffsetUnique(bs, start, end, 0, k);
    } else {
      LeadingFree(bs, start, end, other);
      LeadingFree(other, start, end, bs);
    }
  }

  /** Freeing what was just allocated restores the identical list, whatever was split. */
  lemma TakeReleaseRestores(bs: seq<Block>, start: nat, end: nat, i: nat, size: nat)
    requires Canonical(bs, start, end) && i < |bs| && Fits(bs[i], size)
    requires size > 0 && size % ALIGN == 0
    ensures Release(Take(bs, i, size), i) == bs
  {
    var cs := Take(bs, i, size);
    TakeCanonical(bs, start, end, i, size);
    TakeLive(bs, i, size);
    ReleaseCanonical(cs, start, end, i);
    ReleaseLive(cs, start, end, i);
    assert cs[i] !in UsedSet(bs) by {
      if cs[i] in bs {
        var k :| 0 <= k < |bs| && bs[k] == cs[i];
        OffsetUnique(bs, start, end, i, k);
      }
    }
    assert UsedSet(Release(cs, i)) == UsedSet(bs);
    LayoutIsFunctionOfLive(Release(cs, i), bs, start, end);
  }

  /** Two live blocks may be freed in either order. `i2` and `j2` are where the other block sits
      after the first free. */
  lemma ReleaseCommutes(bs: seq<Block>, start: nat, end: nat, i: nat, j: nat, i2: nat, j2: nat)
    requires Canonical(bs, start, end)
    requires i < |bs| && j < |bs| && i != j && bs[i].used && bs[j].used
    requires j2 < |Release(bs, i)| && Release(bs, i)[j2] == bs[j]
    requires i2 < |Release(bs, j)| && Release(bs, j)[i2] == bs[i]
    ensures Release(Release(bs, i), j2) == Release(Release(bs, j), i2)
  {
    var x, y := Release(bs, i), Release(bs, j);
    ReleaseCanonical(bs, start, end, i);
    ReleaseCanonical(bs, start, end, j);
    ReleaseLive(bs, start, end, i);
    ReleaseLive(bs, start, end, j);
    ReleaseCanonical(x, start, end, j2);
    ReleaseCanonical(y, start, end, i2);
    ReleaseLive(x, start, end, j2);
    ReleaseLive(y, start, end, i2);
    LayoutIsFunctionOfLive(Release(x, j2), Release(y, i2), start, end);
  }

  /** Once nothing is live the heap is one free block again: no leak, no lasting fragmentation. */
  lemma NothingLiveIsOneBlock(bs: seq<Block>, end: nat)
    requires Canonical(bs, 0, end) && end >= HEADER && end % ALIGN == 0
    requires UsedSet(bs) == {}
    ensures bs == [Block(0, end, false)]
  {
    var one := [Block(0, end, false)];
    assert UsedSet(one) == {};
    LayoutIsFunctionOfLive(bs, one, 0, end);
  }
}
