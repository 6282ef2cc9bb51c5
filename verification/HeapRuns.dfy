/** What follows for every run of the small-memory heap, and where `rt_malloc` falls short. */
module HeapRuns {
  import opened HeapLayout
  import opened SmallHeap
  import HeapBytes

  /** A call, by what it names: an aligned size, or the header offset of a live block. */
  datatype Call = Malloc(size: nat) | Free(off: nat) | Resize(off: nat, size: nat)

  /** The block list after a call, as the methods of `Heap` ensure it. */
  function After(bs: seq<Block>, memSize: nat, c: Call): seq<Block> {
    match c
    case Malloc(size) =>
      var k := Choice(bs, memSize, size);
      if k < |bs| then Take(bs, k, Want(size)) else bs
    case Free(off) =>
      var i := LiveAt(bs, off);
      if i < |bs| then Release(bs, i) else bs
    case Resize(off, size) =>
      var i := LiveAt(bs, off);
      if i == |bs| || size > memSize || bs[i].Room() == size then bs
      else if size == 0 then Release(bs, i)
      else if size + HEADER + MIN_SIZE < bs[i].Room() then Shrink(bs, i, size)
      else
        var k := Choice(bs, memSize, size);
        if k < |bs| then Moved(bs, i, k, Want(size)) else bs
  }

  function Run(bs: seq<Block>, memSize: nat, calls: seq<Call>): seq<Block> {
    if calls == [] then bs else After(Run(bs, memSize, calls[..|calls| - 1]), memSize, calls[|calls| - 1])
  }

  function Fresh(memSize: nat): seq<Block> {
    [Block(0, memSize + HEADER, false)]
  }

  predicate Aligned(c: Call) {
    c.Free? || c.size % ALIGN == 0
  }

  lemma ChoiceFits(bs: seq<Block>, memSize: nat, size: nat)
    requires size % ALIGN == 0 && Choice(bs, memSize, size) < |bs|
    ensures Fits(bs[Choice(bs, memSize, size)], Want(size)) && Want(size) > 0 && Want(size) % ALIGN == 0
  {
  }

  lemma MovedCanonical(bs: seq<Block>, end: nat, i: nat, k: nat, size: nat)
    requires Canonical(bs, 0, end) && i < |bs| && bs[i].used && k < |bs| && Fits(bs[k], size)
    requires size > 0 && size % ALIGN == 0
    ensures Canonical(Moved(bs, i, k, size), 0, end)
  {
    GrowFacts(bs, end, i, k, size);
    TakeCanonical(bs, 0, end, k, size);
    ReleaseCanonical(Take(bs, k, size), 0, end, LiveAt(Take(bs, k, size), bs[i].off));
  }

  lemma AfterCanonical(bs: seq<Block>, memSize: nat, c: Call)
    requires Canonical(bs, 0, memSize + HEADER) && Aligned(c)
    ensures Canonical(After(bs, memSize, c), 0, memSize + HEADER)
  {
    var end := memSize + HEADER;
    match c
    case Malloc(size) =>
      var k := Choice(bs, memSize, size);
      if k < |bs| {
        ChoiceFits(bs, memSize, size);
        TakeCanonical(bs, 0, end, k, Want(size));
      }
    case Free(off) =>
      if LiveAt(bs, off) < |bs| {
        ReleaseCanonical(bs, 0, end, LiveAt(bs, off));
      }
    case Resize(off, size) =>
      var i := LiveAt(bs, off);
      if i < |bs| && size <= memSize && bs[i].Room() != size {
        if size == 0 {
          ReleaseCanonical(bs, 0, end, i);
        } else if size + HEADER + MIN_SIZE < bs[i].Room() {
          ShrinkCanonical(bs, 0, end, i, size);
        } else if Choice(bs, memSize, size) < |bs| {
          ChoiceFits(bs, memSize, size);
          MovedCanonical(bs, end, i, Choice(bs, memSize, size), Want(size));
        }
      }
  }

  /** Every run of malloc, free and realloc keeps the heap tiled and fully coalesced. */
  lemma {:induction false} RunCanonical(memSize: nat, calls: seq<Call>)
    requires memSize % ALIGN == 0 && forall i :: 0 <= i < |calls| ==> Aligned(calls[i])
    ensures Canonical(Run(Fresh(memSize), memSize, calls), 0, memSize + HEADER)
  {
    if calls != [] {
      RunCanonical(memSize, calls[..|calls| - 1]);
      AfterCanonical(Run(Fresh(memSize), memSize, calls[..|calls| - 1]), memSize, calls[|calls| - 1]);
    }
  }

  /** Two runs that leave the same live blocks leave the same heap: free space has no memory of how
      it came about, so every later call answers the same. */
  lemma {:induction false} RunsWithSameLiveBlocks(memSize: nat, xs: seq<Call>, ys: seq<Call>)
    requires memSize % ALIGN == 0
    requires forall i :: 0 <= i < |xs| ==> Aligned(xs[i])
    requires forall i :: 0 <= i < |ys| ==> Aligned(ys[i])
    requires UsedSet(Run(Fresh(memSize), memSize, xs)) == UsedSet(Run(Fresh(memSize), memSize, ys))
    ensures Run(Fresh(memSize), memSize, xs) == Run(Fresh(memSize), memSize, ys)
  {
    RunCanonical(memSize, xs);
    RunCanonical(memSize, ys);
    LayoutIsFunctionOfLive(Run(Fresh(memSize), memSize, xs), Run(Fresh(memSize), memSize, ys), 0, memSize + HEADER);
  }

  /** A run that has freed everything is back at the fresh heap. */
  lemma {:induction false} RunThatFreesEverything(memSize: nat, calls: seq<Call>)
    requires memSize % ALIGN == 0 && forall i :: 0 <= i < |calls| ==> Aligned(calls[i])
    requires UsedSet(Run(Fresh(memSize), memSize, calls)) == {}
    ensures Run(Fresh(memSize), memSize, calls) == Fresh(memSize)
  {
    RunCanonical(memSize, calls);
    NothingLiveIsOneBlock(Run(Fresh(memSize), memSize, calls), memSize + HEADER);
  }

  /** `After` is what rt_realloc does to a live block. */
  lemma {:induction false} ResizedIsAfter(bs: seq<Block>, ds: seq<Block>, memSize: nat, off: nat, size: nat, r: Pointer,
                                          before: seq<HeapBytes.byte>, after: seq<HeapBytes.byte>)
    requires LiveAt(bs, off) < |bs| && 0 < size <= memSize
    requires Resized(bs, ds, memSize, LiveAt(bs, off), size, r, before, after)
    ensures ds == After(bs, memSize, Resize(off, size))
  {
    var i := LiveAt(bs, off);
    if bs[i].Room() != size && !(size + HEADER + MIN_SIZE < bs[i].Room()) {
      assert Regrown(bs, ds, memSize, i, size, r, before, after);
    }
  }

  // ---------- the high-water mark ----------

  /** `max_mem` after a call, as the methods of `Heap` ensure it. */
  function TopAfter(bs: seq<Block>, memSize: nat, c: Call, top: int): int {
    match c
    case Malloc(size) => Max(top, HighWater(bs, memSize, size))
    case Free(_) => top
    case Resize(off, size) => ReallocTop(bs, memSize, Addr(off + HEADER), size, top)
  }

  function TopOf(bs: seq<Block>, memSize: nat, calls: seq<Call>): int {
    if calls == [] then 0 else
      var before := calls[..|calls| - 1];
      TopAfter(Run(bs, memSize, before), memSize, calls[|calls| - 1], TopOf(bs, memSize, before))
  }

  /** The call moves a live block: for a while the old and the new one are both in use. */
  predicate Moves(bs: seq<Block>, memSize: nat, c: Call) {
    && c.Resize? && 0 < c.size <= memSize && LiveAt(bs, c.off) < |bs| && TakesFresh(bs[LiveAt(bs, c.off)], c.size)
    && Choice(bs, memSize, c.size) < |bs|
  }

  /** The most that is in use before, during or after a call. */
  function InFlight(bs: seq<Block>, memSize: nat, c: Call): int {
    Max(Max(UsedSpan(bs), UsedSpan(After(bs, memSize, c))),
        if Moves(bs, memSize, c) then UsedSpan(Take(bs, Choice(bs, memSize, c.size), Want(c.size))) else 0)
  }

  /** The most that is in use at any time of a run. */
  function Peak(bs: seq<Block>, memSize: nat, calls: seq<Call>): int {
    if calls == [] then UsedSpan(bs) else
      var before := calls[..|calls| - 1];
      Max(Peak(bs, memSize, before), InFlight(Run(bs, memSize, before), memSize, calls[|calls| - 1]))
  }

  lemma FreeUsesLess(bs: seq<Block>, end: nat, i: nat)
    requires Canonical(bs, 0, end) && i < |bs| && bs[i].used
    ensures UsedSpan(Release(bs, i)) <= UsedSpan(bs)
  {
    ReleaseSpan(bs, i);
    assert Sized(bs[i]);
  }

  lemma MoveUsesLess(bs: seq<Block>, end: nat, i: nat, k: nat, size: nat)
    requires Canonical(bs, 0, end) && i < |bs| && bs[i].used && k < |bs| && Fits(bs[k], size) && size > 0
             && size % ALIGN == 0
    ensures UsedSpan(Moved(bs, i, k, size)) <= UsedSpan(Take(bs, k, size))
  {
    GrowFacts(bs, end, i, k, size);
    TakeCanonical(bs, 0, end, k, size);
    var cs := Take(bs, k, size);
    FreeUsesLess(cs, end, LiveAt(cs, bs[i].off));
  }

  lemma TakeUsesMore(bs: seq<Block>, memSize: nat, size: nat)
    requires Canonical(bs, 0, memSize + HEADER) && size % ALIGN == 0 && Choice(bs, memSize, size) < |bs|
    ensures UsedSpan(bs) <= UsedSpan(Take(bs, Choice(bs, memSize, size), Want(size)))
  {
    var k := Choice(bs, memSize, size);
    ChoiceFits(bs, memSize, size);
    TakeSpan(bs, k, Want(size));
    assert Sized(bs[k]);
  }

  lemma ShrinkUsesLess(bs: seq<Block>, i: nat, size: nat)
    requires i < |bs| && bs[i].used && size <= bs[i].Room()
    ensures UsedSpan(Shrink(bs, i, size)) <= UsedSpan(bs)
  {
    ShrinkSpan(bs, i, size);
  }

  lemma ResizePeaks(bs: seq<Block>, memSize: nat, off: nat, size: nat, top: int)
    requires Canonical(bs, 0, memSize + HEADER) && size % ALIGN == 0 && top >= UsedSpan(bs) && top >= 0
    ensures TopAfter(bs, memSize, Resize(off, size), top) == Max(top, InFlight(bs, memSize, Resize(off, size)))
  {
    var i := LiveAt(bs, off);
    if i < |bs| && size <= memSize && bs[i].Room() != size {
      if size == 0 {
        FreeUsesLess(bs, memSize + HEADER, i);
      } else if size + HEADER + MIN_SIZE < bs[i].Room() {
        ShrinkUsesLess(bs, i, size);
      } else if Choice(bs, memSize, size) < |bs| {
        ChoiceFits(bs, memSize, size);
        MoveUsesLess(bs, memSize + HEADER, i, Choice(bs, memSize, size), Want(size));
      }
    }
  }

  lemma CallPeaks(bs: seq<Block>, memSize: nat, c: Call, top: int)
    requires Canonical(bs, 0, memSize + HEADER) && Aligned(c) && top >= UsedSpan(bs) && top >= 0
    ensures TopAfter(bs, memSize, c, top) == Max(top, InFlight(bs, memSize, c))
  {
    match c
    case Malloc(size) =>
    case Free(off) =>
      if LiveAt(bs, off) < |bs| {
        FreeUsesLess(bs, memSize + HEADER, LiveAt(bs, off));
      }
    case Resize(off, size) => ResizePeaks(bs, memSize, off, size, top);
  }

  /** `max_mem` is the running maximum of what is in use, the moments inside a reallocation included. */
  lemma {:induction false} TopIsPeak(memSize: nat, calls: seq<Call>)
    requires memSize % ALIGN == 0 && forall i :: 0 <= i < |calls| ==> Aligned(calls[i])
    ensures TopOf(Fresh(memSize), memSize, calls) == Peak(Fresh(memSize), memSize, calls)
    ensures 0 <= Peak(Fresh(memSize), memSize, calls)
            && UsedSpan(Run(Fresh(memSize), memSize, calls)) <= Peak(Fresh(memSize), memSize, calls)
  {
    if calls == [] {
      SpanStep(Fresh(memSize), 0);
    } else {
      var before, c := calls[..|calls| - 1], calls[|calls| - 1];
      TopIsPeak(memSize, before);
      RunCanonical(memSize, before);
      CallPeaks(Run(Fresh(memSize), memSize, before), memSize, c, TopOf(Fresh(memSize), memSize, before));
    }
  }

  // ---------- when an allocation fails ----------

  /** rt_malloc refuses an aligned request exactly when every free block that is large enough is the
      one whose data area is the last `Want(size)` bytes of the heap. */
  lemma {:induction false} RefusalIsExact(bs: seq<Block>, memSize: nat, size: nat)
    requires Canonical(bs, 0, memSize + HEADER) && MIN_SIZE <= memSize && size <= memSize
    ensures Choice(bs, memSize, size) == |bs|
       <==> forall i :: 0 <= i < |bs| && Fits(bs[i], Want(size)) ==>
                          bs[i].off == memSize - Want(size) && bs[i].next == memSize + HEADER
  {
    forall i | 0 <= i < |bs|
      ensures bs[i].next <= memSize + HEADER
    {
      Within(bs, 0, memSize + HEADER, i);
    }
  }

  /** So a fresh heap cannot hand out its whole size, although its one block fits. */
  lemma FreshHeapRefusesItsSize(memSize: nat)
    requires MIN_SIZE <= memSize
    ensures Fits(Fresh(memSize)[0], memSize)
    ensures Choice(Fresh(memSize), memSize, memSize) == |Fresh(memSize)|
  {
  }

  /** The block handed out holds the aligned request and wastes less than a header and MIN_SIZE. */
  lemma {:induction false} HandedOut(bs: seq<Block>, memSize: nat, size: nat)
    requires Canonical(bs, 0, memSize + HEADER) && size % ALIGN == 0 && Choice(bs, memSize, size) < |bs|
    ensures var k, ds := Choice(bs, memSize, size), After(bs, memSize, Malloc(size));
            && k < |ds| && ds[k].used && ds[k].off == bs[k].off
            && size <= ds[k].Room() < Want(size) + HEADER + MIN_SIZE
            && UsedSet(ds) == UsedSet(bs) + {ds[k]} && ds[k] !in UsedSet(bs)
    ensures forall j :: 0 <= j < Choice(bs, memSize, size) ==> !Fits(bs[j], Want(size))
  {
    var k := Choice(bs, memSize, size);
    ChoiceFits(bs, memSize, size);
    TakeFacts(bs, memSize + HEADER, k, Want(size));
    forall j | 0 <= j < k
      ensures bs[j].off < bs[k].off
    {
      Ordered(bs, 0, memSize + HEADER, j, k);
    }
  }

  /** Freeing ends exactly the named block, and every other live block stays what it was. */
  lemma FreedLive(bs: seq<Block>, memSize: nat, off: nat)
    requires Canonical(bs, 0, memSize + HEADER)
    ensures var i, ds := LiveAt(bs, off), After(bs, memSize, Free(off));
            if i < |bs| then bs[i].used && bs[i].off == off && UsedSet(ds) == UsedSet(bs) - {bs[i]} else ds == bs
  {
    if LiveAt(bs, off) < |bs| {
      ReleaseLive(bs, 0, memSize + HEADER, LiveAt(bs, off));
    }
  }

  lemma MovedLive(bs: seq<Block>, end: nat, i: nat, k: nat, size: nat)
    requires Canonical(bs, 0, end) && i < |bs| && bs[i].used && k < |bs| && Fits(bs[k], size)
    requires size > 0 && size % ALIGN == 0
    ensures exists n: Block :: Replaces(bs, Moved(bs, i, k, size), bs[i], n)
                               && n.off == bs[k].off && size <= n.Room() < size + HEADER + MIN_SIZE
  {
    var cs := Take(bs, k, size);
    TakeFacts(bs, end, k, size);
    FoundByOffset(cs, end, bs[i]);
    var j := LiveAt(cs, bs[i].off);
    ReleaseLive(cs, 0, end, j);
    assert bs[i] in UsedSet(bs);
    assert Replaces(bs, Moved(bs, i, k, size), bs[i], cs[k]);
  }

  /** Of the live blocks, n has taken the place of b, and nothing else has changed. */
  ghost predicate Replaces(bs: seq<Block>, ds: seq<Block>, b: Block, n: Block) {
    b in UsedSet(bs) && n !in UsedSet(bs) - {b} && UsedSet(ds) == UsedSet(bs) - {b} + {n}
  }

  /** rt_realloc leaves everything alone for a size that is too large or is the one the block has, and ends the block
      for size 0. */
  lemma ResizeKeepsOrEnds(bs: seq<Block>, memSize: nat, off: nat, size: nat)
    requires Canonical(bs, 0, memSize + HEADER) && LiveAt(bs, off) < |bs|
    ensures var b, ds := bs[LiveAt(bs, off)], After(bs, memSize, Resize(off, size));
            && (size > memSize || b.Room() == size ==> ds == bs)
            && (size == 0 && b.Room() != 0 ==> UsedSet(ds) == UsedSet(bs) - {b})
  {
    ReleaseLive(bs, 0, memSize + HEADER, LiveAt(bs, off));
  }

  /** It cuts the block to the size if more than a header and MIN_SIZE are left over. */
  lemma ResizeCuts(bs: seq<Block>, memSize: nat, off: nat, size: nat)
    requires Canonical(bs, 0, memSize + HEADER) && LiveAt(bs, off) < |bs|
    requires 0 < size <= memSize && size + HEADER + MIN_SIZE < bs[LiveAt(bs, off)].Room()
    ensures var b, ds := bs[LiveAt(bs, off)], After(bs, memSize, Resize(off, size));
            Replaces(bs, ds, b, Block(b.off, b.off + HEADER + size, true))
  {
    AfterIsCut(bs, memSize, off, size);
    CutLive(bs, memSize + HEADER, LiveAt(bs, off), size);
  }

  lemma AfterIsCut(bs: seq<Block>, memSize: nat, off: nat, size: nat)
    requires LiveAt(bs, off) < |bs| && 0 < size <= memSize && size + HEADER + MIN_SIZE < bs[LiveAt(bs, off)].Room()
    ensures After(bs, memSize, Resize(off, size)) == Shrink(bs, LiveAt(bs, off), size)
  {
  }

  lemma CutLive(bs: seq<Block>, end: nat, i: nat, size: nat)
    requires Canonical(bs, 0, end) && i < |bs| && bs[i].used
    ensures Replaces(bs, Shrink(bs, i, size), bs[i], Block(bs[i].off, bs[i].off + HEADER + size, true))
  {
    assert bs[i] in UsedSet(bs);
    ShrinkLive(bs, 0, end, i, size);
    SameOffset(bs, end, i, Block(bs[i].off, bs[i].off + HEADER + size, true));
  }

  /** Otherwise the block is replaced by one in the place that malloc would choose, or kept if there is none; so a block
      never ends up with more than a header and MIN_SIZE above what was asked for. */
  lemma ResizeMoves(bs: seq<Block>, memSize: nat, off: nat, size: nat)
    requires Canonical(bs, 0, memSize + HEADER) && size % ALIGN == 0 && LiveAt(bs, off) < |bs|
    requires 0 < size <= memSize && size != bs[LiveAt(bs, off)].Room() <= size + HEADER + MIN_SIZE
    ensures var b, ds, k := bs[LiveAt(bs, off)], After(bs, memSize, Resize(off, size)), Choice(bs, memSize, size);
            if k == |bs| then ds == bs
            else exists n: Block :: Replaces(bs, ds, b, n) && n.off == bs[k].off
                                    && size <= n.Room() < Want(size) + HEADER + MIN_SIZE
  {
    var i, k := LiveAt(bs, off), Choice(bs, memSize, size);
    if k < |bs| {
      ChoiceFits(bs, memSize, size);
      MovedLive(bs, memSize + HEADER, i, k, Want(size));
    }
  }

  /** No other block begins where block i does. */
  lemma SameOffset(bs: seq<Block>, end: nat, i: nat, n: Block)
    requires Tiles(bs, 0, end) && i < |bs| && n.off == bs[i].off
    ensures n !in UsedSet(bs) - {bs[i]}
  {
    if n in UsedSet(bs) {
      var k :| 0 <= k < |bs| && bs[k] == n;
      OffsetUnique(bs, 0, end, i, k);
    }
  }

  /** The request is met iff RT_ALIGN does not wrap: the three largest sizes align to 0, and
      rt_malloc then hands out a block of MIN_SIZE. */
  lemma AlignedRequestCoversSize(size: nat)
    requires size < WORD
    ensures size <= Want(Align(size)) <==> size <= WORD - ALIGN
    ensures size > WORD - ALIGN ==> Want(Align(size)) == MIN_SIZE
  {
    AlignIs(size);
  }

  /** The n-th position of the scan that begins at block i: a block, or from the end of the list on the sentinel, whose
      `next` leads back to itself. */
  function ScanAt(bs: seq<Block>, end: nat, i: nat, n: nat): nat {
    OffAt(bs, i + n, end)
  }

  /** What the scan tests at a position: the block there is free and large enough. The sentinel is marked used. */
  predicate ScanFits(bs: seq<Block>, i: nat, n: nat, want: nat) {
    i + n < |bs| && Fits(bs[i + n], want)
  }

  /** On a heap of 4 or 8 bytes the bound of the scan, `mem_size_aligned - size`, wraps: every position there is, for
      ever, is below it, and nothing there fits. So the loop, which ends at the bound or at a fit, never ends. */
  lemma TinyHeapScanNeverEnds(bs: seq<Block>, memSize: nat, i: nat, n: nat)
    requires Canonical(bs, 0, memSize + HEADER) && memSize < MIN_SIZE
    ensures ScanAt(bs, memSize + HEADER, i, n) < (memSize + WORD - MIN_SIZE) % WORD
    ensures !ScanFits(bs, i, n, MIN_SIZE)
  {
    if i + n < |bs| {
      Within(bs, 0, memSize + HEADER, i + n);
    }
  }

  /** The reply to a single write asks for len + 5 bytes and fills len + 6. What rt_malloc promises for such a request
      holds the frame exactly if it rounds the size up. */
  lemma ReplyFits(len: nat)
    requires len < 0x100
    ensures len + 6 <= Want(Align(len + 5)) <==> len + 5 < MIN_SIZE || (len + 5) % ALIGN != 0
  {
    AlignIs(len + 5);
  }

  /** malloc followed by free of the result leaves the block list as it was. */
  lemma {:induction false} MallocFreeRestores(bs: seq<Block>, memSize: nat, size: nat)
    requires Canonical(bs, 0, memSize + HEADER) && size % ALIGN == 0 && Choice(bs, memSize, size) < |bs|
    ensures Run(bs, memSize, [Malloc(size), Free(bs[Choice(bs, memSize, size)].off)]) == bs
  {
    var k, end := Choice(bs, memSize, size), memSize + HEADER;
    var cs := After(bs, memSize, Malloc(size));
    var calls := [Malloc(size), Free(bs[k].off)];
    ChoiceFits(bs, memSize, size);
    TakeFacts(bs, end, k, Want(size));
    FoundByOffset(cs, end, cs[k]);
    OffsetUnique(cs, 0, end, LiveAt(cs, bs[k].off), k);
    TakeReleaseRestores(bs, 0, end, k, Want(size));
    assert calls[..1] == [Malloc(size)] && calls[..1][..0] == [];
    assert Run(bs, memSize, calls[..1]) == cs;
  }
}
