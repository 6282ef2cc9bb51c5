/** Which block an allocation from a memory heap gets, and how much more than what was asked for a block can have. */
module MemHeapEffects {
  import opened LinkedNodes
  import opened MemHeapModel

  /** An allocation gets the first block of the free list that is large enough. */
  lemma AllocIsFirstFit(s: Pool, size: nat, n: nat)
    requires PoolInv(s, size) && Aligned(n)
    ensures var r := Alloc(s, size, n).1;
            r.At? ==> exists k: nat :: k < |s.free| && s.free[k] in s.blocks.next
                                       && r == At(s.free[k] + HDR) && Room(s.blocks, s.free[k]) >= n
                                       && forall j :: 0 <= j < k ==>
                                                        s.free[j] in s.blocks.next && Room(s.blocks, s.free[j]) < n
  {
    var k := FirstFit(s, n, 0);
    if k < |s.free| {
      assert s.free[k] in s.free;
    }
  }

  /** The block at r has no more than a header and the smallest block above n bytes. */
  ghost predicate Tight(t: Pool, r: Pointer, n: nat) {
    match r
    case NoMemory => true
    case At(x) => x >= HDR && x - HDR in t.blocks.next && Room(t.blocks, x - HDR) <= n + HDR + MINIALLOC
  }

  lemma InPlaceTight(s: Pool, size: nat, h: nat, n: nat)
    requires PoolInv(s, size) && h in s.used && h != size - HDR && n < WORD && Aligned(n)
    requires h in s.blocks.next && s.blocks.next[h] in s.blocks.next && DecidesRight(s, h, n) && !Moves(s, h, n)
    ensures Tight(InPlace(s, size, h, n), At(h + HDR), n)
  {
    InPlaceKeeps(s, size, h, n);
  }

  lemma MoveTight(s: Pool, size: nat, h: nat, n: nat)
    requires PoolInv(s, size) && h in s.used && h != size - HDR && Aligned(n)
    ensures Tight(Move(s, size, h, n).0, Move(s, size, h, n).1, n)
  {
    var t, r, g := Allocated(s, size, n);
    if r.At? {
      FreeKeeps(t, size, h);
      StillWide(t, FreeBlock(t, size, h), h, g);
    }
  }

  lemma StillWide(t: Pool, u: Pool, h: nat, g: nat)
    requires KeepsOthers(t, u, h) && g in t.used && g != h && g in t.blocks.next
    ensures g in u.blocks.next && Room(u.blocks, g) == Room(t.blocks, g)
  {
  }

  /** A reallocation never leaves a block with more than a header and the smallest block above what was asked for: it
      cuts a block that is larger, and enlarges or moves one that is smaller. */
  lemma ReallocIsTight(s: Pool, size: nat, h: nat, n: nat)
    requires PoolInv(s, size) && h in s.used && h != size - HDR && n < WORD && Aligned(n)
    requires h in s.blocks.next && s.blocks.next[h] in s.blocks.next && DecidesRight(s, h, n)
    ensures Tight(Resize(s, size, h, n).0, Resize(s, size, h, n).1, n)
  {
    if Moves(s, h, n) {
      assert Resize(s, size, h, n) == Move(s, size, h, n);
      MoveTight(s, size, h, n);
    } else {
      assert Resize(s, size, h, n) == (InPlace(s, size, h, n), At(h + HDR));
      InPlaceTight(s, size, h, n);
    }
  }

  /** A block stays where it is exactly if it is large enough, or the unused block behind it gives enough; otherwise it
      is moved to where an allocation would go, and kept if there is none. */
  lemma ReallocMovesWhen(s: Pool, size: nat, h: nat, n: nat)
    requires PoolInv(s, size) && h in s.used && h != size - HDR && n < WORD && Aligned(n)
    requires h in s.blocks.next && s.blocks.next[h] in s.blocks.next && DecidesRight(s, h, n)
    ensures var r := Resize(s, size, h, n).1;
            if n <= Room(s.blocks, h)
               || (s.blocks.next[h] !in s.used
                   && Room(s.blocks, h) + Room(s.blocks, s.blocks.next[h]) > n + MINIALLOC)
            then r == At(h + HDR)
            else r == Alloc(s, size, n).1 && r != At(h + HDR)
  {
    Behind(s, size, h);
    SmallerThanPool(s, size, h);
    if Moves(s, h, n) {
      MoveKeeps(s, size, h, n);
    }
  }

  /** A reallocation to size 0 is a free, and one of NULL an allocation. */
  lemma ReallocEnds(s: Pool, size: nat, h: nat, newsize: nat)
    requires PoolInv(s, size) && newsize < WORD
    ensures h in s.used && h != size - HDR ==>
              var (t, r) := ReallocPointer(s, size, At(h + HDR), 0);
              r == NoMemory && PoolInv(t, size) && t.used == s.used - {h} && KeepsOthers(s, t, h)
    ensures ReallocPointer(s, size, NoMemory, newsize)
         == if newsize == 0 then (s, NoMemory) else Alloc(s, size, Wanted(newsize))
  {
    if h in s.used && h != size - HDR {
      FreeKeeps(s, size, h);
    }
  }
}
