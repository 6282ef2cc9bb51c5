/** `rt_memheap_alloc`, `rt_memheap_realloc` and `rt_memheap_free` of `memheap.c` over the headers in the pool. */
module MemHeap {
  import opened LinkedNodes
  import opened MemHeapModel
  import opened RtList
  import SmallHeap

  /** The headers say what the address list is, and which blocks are used. */
  ghost predicate Tied(next: seq<int>, prev: seq<int>, magic: seq<bool>, a: Blocks, used: set<nat>) {
    && |next| == |prev| == |magic|
    && forall b :: b in a.next ==>
         b < |next| && b in a.prev && next[b] == a.next[b] && prev[b] == a.prev[b] && (magic[b] <==> b in used)
  }

  lemma SplitTied(next: seq<int>, prev: seq<int>, magic: seq<bool>, a: Blocks, used: set<nat>, h: nat, n: nat)
    requires Tied(next, prev, magic, a, used) && h in a.next && a.next[h] in a.next && n < |next| && n !in a.next
             && n !in used
    ensures h < |next| && a.next[h] < |next|
    ensures Tied(next[n := a.next[h]][h := n], prev[n := h][a.next[h] := n], magic[n := false], SplitAt(a, h, n), used)
  {
  }

  lemma DropTied(next: seq<int>, prev: seq<int>, magic: seq<bool>, a: Blocks, used: set<nat>, b: nat)
    requires Tied(next, prev, magic, a, used) && b in a.next && b in a.prev && a.next[b] in a.next
             && a.prev[b] in a.next
    ensures b < |next| && a.next[b] < |next| && a.prev[b] < |next|
    ensures Tied(next[a.prev[b] := a.next[b]], prev[a.next[b] := a.prev[b]], magic, Drop(a, b), used)
  {
  }

  lemma MarkTied(next: seq<int>, prev: seq<int>, magic: seq<bool>, a: Blocks, used: set<nat>, h: nat)
    requires Tied(next, prev, magic, a, used) && h in a.next
    ensures h < |magic| && Tied(next, prev, magic[h := true], a, used + {h})
            && Tied(next, prev, magic[h := false], a, used - {h})
  {
  }

  /** RT_ALIGN_DOWN. */
  function AlignedDown(n: nat): nat {
    n / 4 * 4
  }

  lemma AlignedDownIs(n: nat)
    ensures AlignedDown(n) <= n && AlignedDown(n) % 4 == 0
  {
  }

  /** One step along the free list. */
  lemma WalkOn(nx: seq<int>, pv: seq<int>, head: nat, free: seq<nat>, k: nat)
    requires Ring(nx, pv, [head] + free) && k <= |free|
    ensures var h := ([head] + free)[k]; h < |nx| && nx[h] == (free + [head])[k]
  {
    assert Linked(nx, pv, [head] + free, k);
  }

  /** The bytes from `at` up to `end`. */
  function Slice(d: seq<bv8>, at: nat, end: nat): seq<bv8> {
    if at <= end <= |d| then d[at..end] else []
  }

  ghost predicate BlockKept(s: Pool, before: seq<bv8>, after: seq<bv8>, b: nat)
    requires b in s.blocks.next
  {
    Slice(after, b + HDR, s.blocks.next[b]) == Slice(before, b + HDR, s.blocks.next[b])
  }

  /** The data of the used blocks other than h is as it was. */
  ghost predicate OthersKept(s: Pool, before: seq<bv8>, after: seq<bv8>, h: nat) {
    forall b :: b in s.used && b != h && b in s.blocks.next ==> BlockKept(s, before, after, b)
  }

  /** The first `count` bytes at `src` are now at `dst`. */
  ghost predicate Carried(before: seq<bv8>, src: nat, after: seq<bv8>, dst: nat, count: nat) {
    src + count <= |before| && dst + count <= |after| && after[dst..dst + count] == before[src..src + count]
  }

  /** How much data of block h there is to keep in a block of n bytes. */
  function Common(s: Pool, h: nat, n: nat): nat
    requires h in s.blocks.next
  {
    if Room(s.blocks, h) < 0 then 0 else if Room(s.blocks, h) < n then Room(s.blocks, h) else n
  }

  /** After a reallocation of block h: its data is where the caller is told, as far as both blocks go, or untouched. */
  ghost predicate DataMoved(s: Pool, before: seq<bv8>, after: seq<bv8>, h: nat, n: nat, r: Pointer)
    requires h in s.blocks.next
  {
    && OthersKept(s, before, after, h)
    && if r.NoMemory? then after == before else Carried(before, h + HDR, after, r.x, Common(s, h, n))
  }

  /** The data of the block behind p goes with it; without such a block, or when it is freed, no byte changes. */
  ghost predicate PointerMoved(s: Pool, before: seq<bv8>, after: seq<bv8>, p: Pointer, newsize: nat, r: Pointer)
    requires newsize < WORD
  {
    if p.NoMemory? || newsize == 0 then after == before
    else p.x >= HDR && p.x - HDR in s.blocks.next && DataMoved(s, before, after, p.x - HDR, Wanted(newsize), r)
  }

  lemma MovedBehind(s: Pool, before: seq<bv8>, after: seq<bv8>, p: Pointer, h: nat, newsize: nat, r: Pointer)
    requires p == At(h + HDR) && h in s.blocks.next && newsize < WORD
    requires if newsize == 0 then after == before else DataMoved(s, before, after, h, Wanted(newsize), r)
    ensures PointerMoved(s, before, after, p, newsize, r)
  {
  }

  lemma NothingMoved(s: Pool, d: seq<bv8>, h: nat, n: nat)
    requires h in s.blocks.next && h + HDR + Common(s, h, n) <= |d|
    ensures DataMoved(s, d, d, h, n, NoMemory) && DataMoved(s, d, d, h, n, At(h + HDR))
  {
  }

  lemma InBounds(s: Pool, size: nat, b: nat)
    requires Accounted(s, size) && b in s.blocks.next && b != size - HDR
    ensures 0 <= Room(s.blocks, b) && b + HDR + Room(s.blocks, b) <= size
  {
    assert Placed(s.blocks, size - HDR, b);
  }

  /** A copy into the data of a block that was not used before concerns none that was. */
  lemma CopyKeeps(s: Pool, t: Pool, size: nat, h: nat, g: nat, n: nat, count: nat, before: seq<bv8>, after: seq<bv8>)
    requires PoolInv(t, size) && HandedOut(s, t, g, n) && count <= n && |before| == |after| && h in s.used
    requires g + HDR + count <= |before|
    requires after[..g + HDR] == before[..g + HDR] && after[g + HDR + count..] == before[g + HDR + count..]
    ensures OthersKept(s, before, after, h)
  {
    forall b | b in s.used && b != h && b in s.blocks.next
      ensures BlockKept(s, before, after, b)
    {
      if b < g {
        UsedApart(t, size, b, g);
        SliceBefore(before, after, g + HDR, b + HDR, s.blocks.next[b]);
      } else {
        UsedApart(t, size, g, b);
        SliceBehind(before, after, g + HDR + count, b + HDR, s.blocks.next[b]);
      }
    }
  }

  lemma SliceBefore(d: seq<bv8>, e: seq<bv8>, k: nat, at: nat, end: nat)
    requires |d| == |e| && k <= |d| && d[..k] == e[..k] && end <= k
    ensures Slice(d, at, end) == Slice(e, at, end)
  {
    if at <= end {
      assert d[at..end] == d[..k][at..end] && e[at..end] == e[..k][at..end];
    }
  }

  lemma SliceBehind(d: seq<bv8>, e: seq<bv8>, k: nat, at: nat, end: nat)
    requires |d| == |e| && k <= |d| && d[k..] == e[k..] && k <= at
    ensures Slice(d, at, end) == Slice(e, at, end)
  {
    forall i | at <= i < end && end <= |d|
      ensures d[i] == e[i]
    {
      assert d[k..][i - k] == e[k..][i - k];
    }
  }

  class Heap {
    /** The pool size. Index `size` of the free links stands for the free list header. */
    const size: nat
    const next: array<int>
    const prev: array<int>
    const nextFree: array<int>
    const prevFree: array<int>
    const magic: array<bool>
    /** The bytes of the pool, of which only those between the headers matter here. */
    const data: array<bv8>
    var available: int
    var maxUsed: int
    ghost var blocks: Blocks
    ghost var used: set<nat>
    ghost var free: seq<nat>

    ghost predicate Separate() {
      && next != prev && next != nextFree && next != prevFree && prev != nextFree && prev != prevFree
         && nextFree != prevFree
      && data as object !in {next as object, prev as object, nextFree as object, prevFree as object, magic as object}
      && next.Length == prev.Length == magic.Length == data.Length == size
         && nextFree.Length == prevFree.Length == size + 1
    }

    ghost predicate Shape()
      reads this, next, prev, nextFree, prevFree, magic
    {
      && Separate() && Tied(next[..], prev[..], magic[..], blocks, used)
         && Ring(nextFree[..], prevFree[..], [size] + free)
    }

    ghost function State(): Pool
      reads this
    {
      Pool(blocks, used, free, available, maxUsed)
    }

    ghost predicate Valid()
      reads this, next, prev, nextFree, prevFree, magic
    {
      Shape() && PoolInv(State(), size)
    }

    /** `rt_memheap_init`; the pool size is aligned down. */
    constructor (bytes: nat)
      requires AlignedDown(bytes) >= 2 * HDR && bytes < WORD
      ensures Valid() && State() == Fresh(size) && size == AlignedDown(bytes)
      ensures fresh(next) && fresh(prev) && fresh(nextFree) && fresh(prevFree) && fresh(magic) && fresh(data)
    {
      var poolSize := AlignedDown(bytes);
      size := poolSize;
      next, prev := new int[poolSize], new int[poolSize];
      nextFree, prevFree := new int[poolSize + 1], new int[poolSize + 1];
      magic := new bool[poolSize];
      data := new bv8[poolSize];
      available := poolSize - 2 * HDR;
      maxUsed := poolSize - (poolSize - 2 * HDR);
      blocks, used, free := Fresh(poolSize).blocks, Fresh(poolSize).used, [0];
      new;
      InitLists();
      AlignedDownIs(bytes);
      FreshValid();
    }

    lemma FreshValid()
      requires 2 * HDR <= size < WORD && size % 4 == 0 && Shape() && State() == Fresh(size)
      ensures Valid()
    {
      FreshInv(size);
    }

    /** One large block on both lists, and the tail. */
    method InitLists()
      requires Separate() && size >= 2 * HDR && blocks == Fresh(size).blocks && used == Fresh(size).used && free == [0]
      modifies next, prev, nextFree, prevFree, magic
      ensures Shape()
    {
      var tail := size - HDR;
      nextFree[size], prevFree[size] := size, size;
      next[0], prev[0], magic[0] := tail, tail, false;
      nextFree[0], prevFree[0] := nextFree[size], size;
      prevFree[nextFree[size]] := 0;
      nextFree[size] := 0;
      next[tail], prev[tail], magic[tail] := 0, 0, true;
      FreshRing(nextFree[..], prevFree[..], size);
    }

    static lemma FreshRing(nx: seq<int>, pv: seq<int>, n: nat)
      requires |nx| == |pv| == n + 1 && n > 0 && nx[0] == n && pv[0] == n && nx[n] == 0 && pv[n] == 0
      ensures Ring(nx, pv, [n] + [0])
    {
    }

    // ---------- list primitives ----------

    /** The header n is put behind h. */
    method SplitOff(h: nat, n: nat)
      requires Shape() && h in blocks.next && blocks.next[h] in blocks.next && n < size && n !in blocks.next
               && n !in used
      modifies this`blocks, next, prev, magic
      ensures Shape() && blocks == SplitAt(old(blocks), h, n)
    {
      SplitTied(next[..], prev[..], magic[..], blocks, used, h, n);
      ghost var nx, pv := next[..], prev[..];
      magic[n] := false;
      prev[n] := h;
      next[n] := next[h];
      prev[next[h]] := n;
      next[h] := n;
      assert next[..] == nx[n := nx[h]][h := n];
      assert prev[..] == pv[n := h][nx[h] := n];
      blocks := SplitAt(blocks, h, n);
    }

    /** The header b is taken off the address list. */
    method TakeOff(b: nat)
      requires Shape() && b in blocks.next && b in blocks.prev && blocks.next[b] in blocks.next
               && blocks.prev[b] in blocks.next
      requires b != blocks.next[b]
      modifies this`blocks, next, prev
      ensures Shape() && blocks == Drop(old(blocks), b)
    {
      DropTied(next[..], prev[..], magic[..], blocks, used, b);
      next[prev[b]] := next[b];
      prev[next[b]] := prev[b];
      blocks := Drop(blocks, b);
    }

    method PushFree(x: nat)
      requires Shape() && x < size && x !in free
      modifies this`free, nextFree, prevFree
      ensures Shape() && free == [x] + old(free)
    {
      ghost var nx, pv := nextFree[..], prevFree[..];
      InsertFirst(nx, pv, [size] + free, x);
      Neighbours(nx, pv, [size] + free, 0);
      assert [size, x] + ([size] + free)[1..] == [size] + ([x] + free);
      nextFree[x] := nextFree[size];
      prevFree[x] := size;
      prevFree[nextFree[size]] := x;
      nextFree[size] := x;
      assert nextFree[..] == AfterNext(nx, size, x);
      assert prevFree[..] == AfterPrev(nx, pv, size, x);
      free := [x] + free;
    }

    method RemoveFree(x: nat)
      requires Shape() && x in free
      modifies this`free, nextFree, prevFree
      ensures Shape() && free == Unlinked(old(free), x)
    {
      ghost var ring := [size] + free;
      ghost var i :| 0 <= i < |free| && free[i] == x;
      RemoveRing(nextFree[..], prevFree[..], ring, i + 1);
      RemovedIs(i, x);
      ghost var nx, pv := nextFree[..], prevFree[..];
      prevFree[nextFree[x]] := prevFree[x];
      nextFree[prevFree[x]] := nextFree[x];
      assert nextFree[..] == nx[pv[x] := nx[x]];
      assert prevFree[..] == pv[nx[x] := pv[x]];
      free := Unlinked(free, x);
    }

    lemma RemovedIs(i: nat, x: nat)
      requires Shape() && i < |free| && free[i] == x
      ensures ([size] + free)[..i + 1] + ([size] + free)[i + 2..] == [size] + Unlinked(free, x)
    {
      var ring := [size] + free;
      forall j | 0 <= j < i
        ensures free[j] != x
      {
        assert ring[j + 1] == free[j] && ring[i + 1] == x;
      }
      UnlinkedAt(free, i, x);
    }

    method Charge()
      modifies this`maxUsed
      ensures State() == Charged(old(State()), size)
    {
      if size - available > maxUsed {
        maxUsed := size - available;
      }
    }
  
    // ---------- rt_memheap_alloc ----------

    /** The first block on the free list with room for n bytes. */
    method Search(n: nat) returns (h: nat, room: int, ghost k: nat)
      requires Shape() && n > 0 && forall b :: b in free ==> b in blocks.next
      ensures k == FirstFit(State(), n, 0)
      ensures if k < |free| then h == free[k] && room == Room(blocks, h) >= n else room < n
    {
      room := 0;
      k := 0;
      h := First();
      while h != size && room < n
        invariant k <= |free| && h == (if k < |free| then free[k] else size)
        invariant room < n ==> FirstFit(State(), n, k) == FirstFit(State(), n, 0)
        invariant room >= n ==> k < |free| && k == FirstFit(State(), n, 0) && room == Room(blocks, h)
        decreases |free| - k, if room < n then 1 else 0
      {
        room := RoomOf(h, k);
        if room < n {
          h := After(h, k);
          k := k + 1;
        }
      }
    }

    method RoomOf(h: nat, ghost k: nat) returns (room: int)
      requires Shape() && k < |free| && h == free[k] && forall b :: b in free ==> b in blocks.next
      ensures h in blocks.next && room == Room(blocks, h)
    {
      assert h in free;
      room := next[h] - h - HDR;
    }

    method First() returns (h: nat)
      requires Shape()
      ensures h == if free != [] then free[0] else size
    {
      WalkOn(nextFree[..], prevFree[..], size, free, 0);
      h := nextFree[size];
    }

    method After(b: nat, ghost k: nat) returns (h: nat)
      requires Shape() && k < |free| && b == free[k]
      ensures h == if k + 1 < |free| then free[k + 1] else size
    {
      WalkOn(nextFree[..], prevFree[..], size, free, k + 1);
      h := nextFree[b];
    }

    /** The rest of block h goes to the front of the free list. */
    method TakePart(h: nat, n: nat)
      requires Shape() && h in free && h in blocks.next && blocks.next[h] in blocks.next && h !in used
      requires h + HDR + n !in blocks.next && h + HDR + n !in used && h + HDR + n < size && h + HDR + n !in free
      modifies this`blocks, this`free, this`available, next, prev, nextFree, prevFree, magic
      ensures Shape() && maxUsed == old(maxUsed) && used == old(used)
      ensures blocks == SplitAt(old(blocks), h, h + HDR + n) && free == [h + HDR + n] + Unlinked(old(free), h)
      ensures available == old(available) - n - HDR
    {
      var m := h + HDR + n;
      UnlinkedSub(free, h);
      SplitOff(h, m);
      RemoveFree(h);
      PushFree(m);
      available := available - n - HDR;
    }

    /** Block h is handed out for n bytes. */
    method Take(h: nat, n: nat)
      requires Shape() && h in free && Takeable(State(), size, h, n)
      modifies this, next, prev, nextFree, prevFree, magic
      ensures Shape() && State() == TakeBlock(old(State()), size, h, n)
    {
      var room := next[h] - h - HDR;
      if room >= n + HDR + MINIALLOC {
        TakePart(h, n);
      } else {
        RemoveFree(h);
        available := available - room;
      }
      Charge();
      MarkTaken(h);
    }

    method MarkTaken(h: nat)
      requires Shape() && h in blocks.next
      modifies this`used, magic
      ensures Shape() && used == old(used) + {h}
    {
      MarkTied(next[..], prev[..], magic[..], blocks, used, h);
      magic[h] := true;
      used := used + {h};
    }

    static lemma UnlinkedSub(l: seq<nat>, p: nat)
      ensures forall q :: q in Unlinked(l, p) ==> q in l
      decreases l
    {
      if l != [] && l[0] != p {
        UnlinkedSub(l[1..], p);
      }
    }

    /** Where the rest of block h would begin there is no header. */
    static ghost predicate Takeable(s: Pool, size: nat, h: nat, n: nat) {
      && h in s.blocks.next && s.blocks.next[h] in s.blocks.next && h !in s.used
      && (Splits(s.blocks, h, n) ==>
            h + HDR + n !in s.blocks.next && h + HDR + n !in s.used && h + HDR + n !in s.free && h + HDR + n < size)
    }

    /** What `Alloc` needs to know of the free list. */
    static ghost predicate Ready(s: Pool, size: nat, n: nat) {
      && (forall b :: b in s.free ==> b in s.blocks.next)
      && forall h {:trigger Takeable(s, size, h, n)} ::
           h in s.free && Room(s.blocks, h) >= n ==> Takeable(s, size, h, n)
    }

    /** `rt_memheap_alloc`, once the size is aligned. */
    method AllocWanted(n: nat) returns (r: Pointer)
      requires Shape() && n > 0 && Ready(State(), size, n)
      modifies this, next, prev, nextFree, prevFree, magic
      ensures Shape() && (State(), r) == MemHeapModel.Alloc(old(State()), size, n)
    {
      r := NoMemory;
      if n < available {
        var h, room, k := Search(n);
        if room >= n {
          assert h in free && Takeable(State(), size, h, n);
          Take(h, n);
          r := At(h + HDR);
        }
      }
    }

    static lemma IsReady(s: Pool, size: nat, n: nat)
      requires PoolInv(s, size) && Aligned(n)
      ensures Ready(s, size, n)
    {
      assert forall b :: b in s.free ==> b in s.blocks.next && b !in s.used;
      forall h {:trigger Takeable(s, size, h, n)} | h in s.free && Room(s.blocks, h) >= n
        ensures Takeable(s, size, h, n)
      {
        WholeAccounted(s, size, h);
        TakeAccounted(s, size, h, n);
        assert Placed(s.blocks, size - HDR, h);
      }
    }

    method Alloc(bytes: nat) returns (r: Pointer)
      requires Valid() && bytes < WORD
      modifies this, next, prev, nextFree, prevFree, magic
      ensures Valid() && (State(), r) == MemHeapModel.Alloc(old(State()), size, Wanted(bytes))
    {
      WantedIs(bytes);
      AllocKeeps(State(), size, Wanted(bytes));
      var n := SmallHeap.Align(bytes);
      if n < MINIALLOC {
        n := MINIALLOC;
      }
      IsReady(State(), size, n);
      r := AllocWanted(n);
    }
  
    // ---------- rt_memheap_free ----------

    /** The links around a block that can be taken off the address list. */
    static ghost predicate Inner(a: Blocks, b: nat) {
      && b in a.next && b in a.prev && a.next[b] in a.next && a.prev[b] in a.next && b != a.next[b]
    }

    static lemma IsInner(s: Pool, size: nat, b: nat)
      requires Accounted(s, size) && b in s.blocks.next
      ensures Inner(s.blocks, b)
    {
      assert Placed(s.blocks, size - HDR, b);
    }

    method GiveBack(h: nat)
      requires Shape() && h in blocks.next
      modifies this`used, this`available, magic
      ensures Shape() && State() == GiveUp(old(State()), h)
    {
      MarkTied(next[..], prev[..], magic[..], blocks, used, h);
      magic[h] := false;
      used := used - {h};
      available := available + (next[h] - h - HDR);
    }

    method JoinLeft(h: nat) returns (g: nat)
      requires Shape() && Inner(blocks, h)
      modifies this`blocks, this`available, next, prev
      ensures Shape() && (State(), g) == MergeLeft(old(State()), h)
    {
      g := h;
      if !magic[prev[h]] {
        available := available + HDR;
        g := prev[h];
        TakeOff(h);
      }
    }

    method JoinRight(g: nat)
      requires Shape() && g in blocks.next && Inner(blocks, blocks.next[g])
               && (blocks.next[g] !in used ==> blocks.next[g] in free)
      modifies this`blocks, this`available, this`free, next, prev, nextFree, prevFree
      ensures Shape() && State() == MergeRight(old(State()), g)
    {
      var y := next[g];
      if !magic[y] {
        available := available + HDR;
        TakeOff(y);
        RemoveFree(y);
      }
    }

    /** The way from s to v by freeing block h. */
    static ghost predicate FreesTo(s: Pool, size: nat, h: nat, v: Pool) {
      && h in s.blocks.next && Inner(s.blocks, h)
      && var (t, g) := MergeLeft(GiveUp(s, h), h);
         && g in t.blocks.next && t.blocks.next[g] in t.blocks.next && Inner(t.blocks, t.blocks.next[g])
         && (t.blocks.next[g] !in t.used ==> t.blocks.next[g] in t.free)
         && var u := MergeRight(t, g);
            && (g == h ==> g < size && g !in u.free)
            && v == if g == h then u.(free := [g] + u.free) else u
    }

    static lemma Frees(s: Pool, size: nat, h: nat)
      requires PoolInv(s, size) && h in s.used && h != size - HDR
      ensures FreesTo(s, size, h, FreeBlock(s, size, h))
    {
      IsInner(s, size, h);
      assert Placed(s.blocks, size - HDR, h);
      LeftAccounted(s, size, h);
      LeftKeeps(s, size, h);
      LeftStays(s, size, h);
      var (t, g) := MergeLeft(GiveUp(s, h), h);
      RightAccounted(t, size, g);
      IsInner(t, size, t.blocks.next[g]);
      UnlinkedSub(t.free, t.blocks.next[g]);
    }

    method FreeTo(h: nat, ghost v: Pool)
      requires Shape() && FreesTo(State(), size, h, v)
      modifies this, next, prev, nextFree, prevFree, magic
      ensures Shape() && State() == v
    {
      GiveBack(h);
      var g := JoinLeft(h);
      JoinRight(g);
      if g == h {
        PushFree(h);
      }
    }

    /** The header in front of the data at p. */
    method BlockOf(p: Pointer) returns (h: nat)
      requires PoolInv(State(), size) && p.At? && Handed(State(), size, p)
      ensures p == At(h + HDR) && h in used && h != size - HDR
      ensures FreePointer(State(), size, p) == FreeBlock(State(), size, h)
    {
      return p.x - HDR;
    }

    /** `rt_memheap_free`. */
    method Free(p: Pointer)
      requires Valid() && Handed(State(), size, p)
      modifies this, next, prev, nextFree, prevFree, magic
      ensures Valid() && State() == FreePointer(old(State()), size, p)
    {
      if p.At? {
        var h := BlockOf(p);
        FreeUsed(h);
      }
    }

    method FreeUsed(h: nat)
      requires Valid() && h in used && h != size - HDR
      modifies this, next, prev, nextFree, prevFree, magic
      ensures Valid() && State() == FreeBlock(old(State()), size, h)
    {
      Frees(State(), size, h);
      FreeKeeps(State(), size, h);
      FreeTo(h, FreeBlock(State(), size, h));
    }
  
    // ---------- rt_memheap_realloc ----------

    /** The way to grow block h to n bytes. */
    static ghost predicate Growable(s: Pool, size: nat, h: nat, n: nat) {
      && UnusedBehind(s, h) && Inner(s.blocks, s.blocks.next[h]) && s.blocks.next[h] in s.free
      && var m := h + HDR + n;
         var a := Drop(s.blocks, s.blocks.next[h]);
         && m < size < WORD && m !in a.next && m !in s.used && m !in Unlinked(s.free, s.blocks.next[h])
         && h in a.next && a.next[h] in a.next
    }

    static lemma CanGrow(s: Pool, size: nat, h: nat, n: nat)
      requires PoolInv(s, size) && UnusedBehind(s, h) && h != size - HDR && Aligned(n)
      requires n + MINIALLOC < Room(s.blocks, s.blocks.next[h]) + Room(s.blocks, h)
      ensures Growable(s, size, h, n)
    {
      IsInner(s, size, s.blocks.next[h]);
      GrowAccounted(s, size, h, n);
      SwallowAccounted(s, size, h);
      IsInner(Swallow(s, h), size, h);
      UnlinkedHas(s.free, s.blocks.next[h]);
      assert Placed(s.blocks, size - HDR, s.blocks.next[h]);
      assert forall b :: b in s.free <==> b in MemHeapModel.Free(s);
    }

    /** The unused block x behind h is replaced by one that begins later. */
    method GrowBlock(h: nat, n: nat)
      requires Shape() && n < WORD && Growable(State(), size, h, n)
      modifies this, next, prev, nextFree, prevFree, magic
      ensures Shape() && State() == Grow(old(State()), size, h, n)
    {
      var x, m := next[h], h + HDR + n;
      available := available - (n - (next[h] - h - HDR));
      Charge();
      RemoveFree(x);
      TakeOff(x);
      SplitOff(h, m);
      PushFree(m);
    }

    /** The way to cut block h down to n bytes. */
    static ghost predicate Cuttable(s: Pool, size: nat, h: nat, n: nat) {
      && h in s.blocks.next && s.blocks.next[h] in s.blocks.next
      && var y, m := s.blocks.next[h], h + HDR + n;
         && y != h && y != m && m < size && m !in s.blocks.next && m !in s.used && m !in s.free
            && m !in Unlinked(s.free, y)
         && (y !in s.used ==>
               y in s.free && Inner(SplitAt(s.blocks, h, m), y) && m in Drop(SplitAt(s.blocks, h, m), y).next)
    }

    static lemma CanCut(s: Pool, size: nat, h: nat, n: nat)
      requires PoolInv(s, size) && h in s.used && h != size - HDR && Aligned(n) && h in s.blocks.next
               && n + HDR <= Room(s.blocks, h)
      ensures Cuttable(s, size, h, n)
    {
      Behind(s, size, h);
      ShrinkAccounted(s, size, h, n);
      assert Placed(s.blocks, size - HDR, h) && Placed(s.blocks, size - HDR, s.blocks.next[h]);
      UnlinkedSub(s.free, s.blocks.next[h]);
      assert forall b :: b in s.free <==> b in MemHeapModel.Free(s);
    }

    /** An unused block y is merged with the one in front of it. */
    method JoinCut(y: nat)
      requires Shape() && Inner(blocks, y) && y in free
      modifies this`available, this`blocks, this`free, next, prev, nextFree, prevFree
      ensures Shape() && blocks == Drop(old(blocks), y) && free == Unlinked(old(free), y)
      ensures available == old(available) - Room(old(blocks), y)
    {
      available := available - (next[y] - y - HDR);
      TakeOff(y);
      RemoveFree(y);
    }

    method EnterRest(m: nat)
      requires Shape() && m < size && m !in free && m in blocks.next
      modifies this`available, this`free, nextFree, prevFree
      ensures Shape() && free == [m] + old(free) && available == old(available) + Room(blocks, m)
    {
      PushFree(m);
      available := available + (next[m] - m - HDR);
    }

    /** The rest of block h becomes an unused block. */
    method CutBlock(h: nat, n: nat)
      requires Shape() && Cuttable(State(), size, h, n)
      modifies this, next, prev, nextFree, prevFree, magic
      ensures Shape() && State() == Shrink(old(State()), h, n)
    {
      var m := h + HDR + n;
      var y := next[h];
      SplitOff(h, m);
      if !magic[y] {
        JoinCut(y);
      }
      EnterRest(m);
    }

    method ResizeInPlace(h: nat, n: nat)
      requires Valid() && h in used && h != size - HDR && n < WORD && Aligned(n)
      requires h in blocks.next && blocks.next[h] in blocks.next && DecidesRight(State(), h, n) && !Moves(State(), h, n)
      modifies this, next, prev, nextFree, prevFree, magic
      ensures Shape() && State() == InPlace(old(State()), size, h, n)
    {
      Behind(State(), size, h);
      var oldSize := next[h] - h - HDR;
      if n > oldSize {
        CanGrow(State(), size, h, n);
        GrowBlock(h, n);
      } else if n + HDR + MINIALLOC < oldSize {
        CanCut(State(), size, h, n);
        CutBlock(h, n);
      }
    }

    /** `rt_memheap_realloc`. */
    method Realloc(p: Pointer, newsize: nat) returns (r: Pointer)
      requires Valid() && Handed(State(), size, p) && newsize < WORD && Resizable(State(), p, newsize)
      modifies this, next, prev, nextFree, prevFree, magic, data
      ensures Valid() && (State(), r) == ReallocPointer(old(State()), size, p, newsize)
      ensures PointerMoved(old(State()), old(data[..]), data[..], p, newsize, r)
    {
      if p.At? {
        r := ReallocBlock(p, newsize);
      } else {
        r := ReallocNull(newsize);
      }
    }

    method BlockToResize(p: Pointer, newsize: nat) returns (h: nat)
      requires PoolInv(State(), size) && p.At? && Handed(State(), size, p) && newsize < WORD
      requires Resizable(State(), p, newsize)
      ensures p == At(h + HDR) && h in used && h != size - HDR && MayResize(State(), h, newsize)
      ensures ReallocPointer(State(), size, p, newsize) == MemHeapModel.Realloc(State(), size, h, newsize)
    {
      return p.x - HDR;
    }

    method ReallocBlock(p: Pointer, newsize: nat) returns (r: Pointer)
      requires Valid() && p.At? && Handed(State(), size, p) && newsize < WORD && Resizable(State(), p, newsize)
      modifies this, next, prev, nextFree, prevFree, magic, data
      ensures Valid() && (State(), r) == ReallocPointer(old(State()), size, p, newsize)
      ensures PointerMoved(old(State()), old(data[..]), data[..], p, newsize, r)
    {
      ghost var s, d := State(), data[..];
      var h := BlockToResize(p, newsize);
      r := ReallocUsed(h, newsize);
      MovedBehind(s, d, data[..], p, h, newsize, r);
    }

    /** The size is rounded in `rt_memheap_realloc`, and once more in `rt_memheap_alloc`. */
    method ReallocNull(newsize: nat) returns (r: Pointer)
      requires Valid() && newsize < WORD
      modifies this, next, prev, nextFree, prevFree, magic
      ensures Valid() && (State(), r) == ReallocPointer(old(State()), size, NoMemory, newsize)
    {
      if newsize == 0 {
        return NoMemory;
      }
      WantedIs(newsize);
      var n := SmallHeap.Align(newsize);
      if n < MINIALLOC {
        n := MINIALLOC;
      }
      r := Alloc(n);
    }

    method ReallocUsed(h: nat, newsize: nat) returns (r: Pointer)
      requires Valid() && h in used && h != size - HDR && newsize < WORD
      requires MayResize(State(), h, newsize)
      modifies this, next, prev, nextFree, prevFree, magic, data
      ensures Valid() && (State(), r) == MemHeapModel.Realloc(old(State()), size, h, newsize)
      ensures if newsize == 0 then data[..] == old(data[..])
              else DataMoved(old(State()), old(data[..]), data[..], h, Wanted(newsize), r)
    {
      if newsize == 0 {
        FreeUsed(h);
        return NoMemory;
      }
      WantedIs(newsize);
      var n := SmallHeap.Align(newsize);
      if n < MINIALLOC {
        n := MINIALLOC;
      }
      r := ResizeTo(h, n);
    }

    method ResizeTo(h: nat, n: nat) returns (r: Pointer)
      requires Valid() && h in used && h != size - HDR && n < WORD && Aligned(n) && n > 0
      requires h in blocks.next && blocks.next[h] in blocks.next && DecidesRight(State(), h, n)
      modifies this, next, prev, nextFree, prevFree, magic, data
      ensures Valid() && (State(), r) == Resize(old(State()), size, h, n)
      ensures DataMoved(old(State()), old(data[..]), data[..], h, n, r)
    {
      ghost var s, d := State(), data[..];
      Behind(s, size, h);
      InBounds(s, size, h);
      ResizeKeeps(s, size, h, n);
      NothingMoved(s, d, h, n);
      var oldSize := next[h] - h - HDR;
      var x := next[h];
      if n > oldSize && (magic[x] || !GrowTest(next[x] - x - HDR + oldSize, n)) {
        r := MoveBlock(h, n, oldSize);
      } else {
        ResizeInPlace(h, n);
        r := At(h + HDR);
        assert data[..] == d;
      }
    }

    /** A new block with a copy of the data, and the old one freed. */
    method MoveBlock(h: nat, n: nat, oldSize: nat) returns (r: Pointer)
      requires Valid() && h in used && h != size - HDR && Aligned(n) && n > oldSize && h in blocks.next
               && oldSize == Room(blocks, h)
      modifies this, next, prev, nextFree, prevFree, magic, data
      ensures Valid() && (State(), r) == Move(old(State()), size, h, n)
      ensures DataMoved(old(State()), old(data[..]), data[..], h, n, r)
    {
      ghost var s, d := State(), data[..];
      ghost var t, a, g := Allocated(s, size, n);
      IsReady(s, size, n);
      InBounds(s, size, h);
      NothingMoved(s, d, h, n);
      r := AllocWanted(n);
      assert data[..] == d;
      if r.At? {
        CopyOver(h, n, oldSize, r.x - HDR, s);
        ghost var e := data[..];
        FreeUsed(h);
        assert data[..] == e;
      }
    }

    /** The data of block h is copied into the new block g. */
    method CopyOver(h: nat, n: nat, oldSize: nat, g: nat, ghost s: Pool)
      requires Separate() && PoolInv(State(), size) && HandedOut(s, State(), g, n) && h in s.used && h != size - HDR
               && oldSize < n
      requires h in s.blocks.next && oldSize == Room(s.blocks, h)
      modifies data
      ensures DataMoved(s, old(data[..]), data[..], h, n, At(g + HDR))
    {
      assert h in used && g in used && h != g && blocks.next[h] == s.blocks.next[h];
      TailAlone(s, g, n);
      InBounds(State(), size, h);
      InBounds(State(), size, g);
      if h < g {
        UsedApart(State(), size, h, g);
      } else {
        UsedApart(State(), size, g, h);
      }
      CopyBytes(g + HDR, h + HDR, oldSize);
      CopyKeeps(s, State(), size, h, g, n, oldSize, old(data[..]), data[..]);
    }

    lemma TailAlone(s: Pool, g: nat, n: nat)
      requires PoolInv(State(), size) && HandedOut(s, State(), g, n)
      ensures g != size - HDR
    {
      assert Placed(blocks, size - HDR, size - HDR);
    }

    /** `rt_memcpy`. */
    method CopyBytes(dst: nat, src: nat, count: nat)
      requires dst + count <= data.Length && src + count <= data.Length && (src + count <= dst || dst + count <= src)
      modifies data
      ensures Carried(old(data[..]), src, data[..], dst, count)
      ensures data[..dst] == old(data[..dst]) && data[dst + count..] == old(data[dst + count..])
    {
      var n := 0;
      while n < count
        invariant n <= count
        invariant forall i :: 0 <= i < data.Length ==>
                  data[i] == if dst <= i < dst + n then old(data[src + (i - dst)]) else old(data[i])
      {
        data[dst + n] := data[src + n];
        n := n + 1;
      }
    }
  }
}
