/** `memheap.c`: a pool of blocks on a circular address list, the unused ones also on a free list. */
module MemHeapModel {
  import opened LinkedNodes
  import opened MapSums
  import SmallHeap

  /** RT_MEMHEAP_SIZE, six words, and RT_MEMHEAP_MINIALLOC. */
  const HDR: nat := 24
  const MINIALLOC: nat := 12
  const WORD: nat := 0x1_0000_0000

  /** The links of the address list, by the offsets of the block headers in the pool. */
  datatype Blocks = Blocks(next: map<nat, nat>, prev: map<nat, nat>)

  /** `MEMITEM_SIZE`. */
  function Room(a: Blocks, b: nat): int
    requires b in a.next
  {
    a.next[b] - b - HDR
  }

  /** A new header n between h and the block after it. */
  function SplitAt(a: Blocks, h: nat, n: nat): Blocks
    requires h in a.next
  {
    Blocks(a.next[n := a.next[h]][h := n], a.prev[n := h][a.next[h] := n])
  }

  /** The header b is taken off the address list: its space goes to the block in front of it. */
  function Drop(a: Blocks, b: nat): Blocks
    requires b in a.next && b in a.prev
  {
    Blocks(a.next[a.prev[b] := a.next[b]] - {b}, a.prev[a.next[b] := a.prev[b]] - {b})
  }

  /** The block in front of the tail, and every other, ends where the next one begins. */
  ghost predicate Placed(a: Blocks, tail: nat, b: nat) {
    && b in a.next && b in a.prev && a.next[b] in a.prev && a.prev[b] in a.next
    && a.prev[a.next[b]] == b && a.next[a.prev[b]] == b
    && (if b == tail then a.next[b] == 0 else b + HDR <= a.next[b] <= tail)
  }

  /** No header lies inside another block. */
  ghost predicate Clear(a: Blocks, tail: nat, b: nat) {
    b in a.next && b != tail ==> forall c :: c in a.next && b < c ==> a.next[b] <= c
  }

  /** The blocks tile the pool, from its start up to the tail block, which is empty. */
  ghost predicate Tiled(a: Blocks, tail: nat) {
    && a.prev.Keys == a.next.Keys && 0 in a.next && tail in a.next
    && (forall b {:trigger Placed(a, tail, b)} :: b in a.next ==> Placed(a, tail, b))
    && (forall b {:trigger Clear(a, tail, b)} :: b in a.next ==> Clear(a, tail, b))
  }

  lemma SplitPlaced(a: Blocks, tail: nat, h: nat, n: nat, c: nat)
    requires a.prev.Keys == a.next.Keys && Placed(a, tail, h) && h != tail && n !in a.next && h + HDR <= n
             && n + HDR <= a.next[h]
    requires c == n || (c in a.next && Placed(a, tail, c))
    ensures Placed(SplitAt(a, h, n), tail, c)
  {
  }

  lemma SplitTiled(a: Blocks, tail: nat, h: nat, n: nat)
    requires Tiled(a, tail) && h in a.next && h != tail && h + HDR <= n && n + HDR <= a.next[h]
    ensures n !in a.next && Tiled(SplitAt(a, h, n), tail)
  {
    var t := SplitAt(a, h, n);
    assert Placed(a, tail, h) && Clear(a, tail, h);
    forall c {:trigger Placed(t, tail, c)} | c in t.next
      ensures Placed(t, tail, c)
    {
      assert c != n ==> Placed(a, tail, c);
      SplitPlaced(a, tail, h, n, c);
    }
    forall c {:trigger Clear(t, tail, c)} | c in t.next
      ensures Clear(t, tail, c)
    {
      assert c != n ==> Clear(a, tail, c);
    }
  }

  lemma Between(a: Blocks, tail: nat, b: nat)
    requires Tiled(a, tail) && b in a.next && 0 < b && b != tail
    ensures b in a.prev && a.prev[b] in a.next && a.next[b] in a.prev && a.next[a.prev[b]] == b
            && a.prev[a.next[b]] == b
    ensures a.prev[b] != tail && a.prev[b] + HDR <= b && b + HDR <= a.next[b] <= tail
  {
    assert Placed(a, tail, b);
    assert Placed(a, tail, a.prev[b]);
  }

  lemma DropPlaced(a: Blocks, tail: nat, b: nat, c: nat)
    requires b in a.next && b in a.prev && a.next[b] in a.prev && a.prev[b] in a.next && Placed(a, tail, c)
    requires a.next[a.prev[b]] == b && a.prev[a.next[b]] == b && a.prev.Keys == a.next.Keys
    requires a.prev[b] != tail && a.prev[b] + HDR <= b && b + HDR <= a.next[b] <= tail && c != b
    ensures Placed(Drop(a, b), tail, c)
  {
  }

  lemma DropTiled(a: Blocks, tail: nat, b: nat)
    requires Tiled(a, tail) && b in a.next && 0 < b && b != tail
    ensures b in a.prev && a.prev[b] in a.next && Tiled(Drop(a, b), tail)
  {
    Between(a, tail, b);
    var t := Drop(a, b);
    forall c {:trigger Placed(t, tail, c)} | c in t.next
      ensures Placed(t, tail, c)
    {
      DropPlaced(a, tail, b, c);
    }
    forall c {:trigger Clear(t, tail, c)} | c in t.next
      ensures Clear(t, tail, c)
    {
      assert Clear(a, tail, c) && Clear(a, tail, b);
    }
  }

  // ---------- data sizes ----------

  /** The data sizes of the blocks in `bs`; the tail block counts as empty. */
  function Rooms(a: Blocks, bs: set<nat>): map<nat, nat> {
    map b | b in bs && b in a.next :: if Room(a, b) >= 0 then Room(a, b) as nat else 0
  }

  ghost function Sum(a: Blocks, bs: set<nat>): nat {
    Total(Rooms(a, bs))
  }

  lemma SumWith(a: Blocks, bs: set<nat>, b: nat)
    requires b in a.next && Room(a, b) >= 0 && b !in bs
    ensures Sum(a, bs + {b}) == Sum(a, bs) + Room(a, b)
  {
    TotalWith(Rooms(a, bs), b, Room(a, b));
    assert Rooms(a, bs + {b}) == Rooms(a, bs)[b := Room(a, b)];
  }

  lemma SumWithout(a: Blocks, bs: set<nat>, b: nat)
    requires b in a.next && Room(a, b) >= 0 && b in bs
    ensures Sum(a, bs) == Sum(a, bs - {b}) + Room(a, b)
  {
    SumWith(a, bs - {b}, b);
    assert bs - {b} + {b} == bs;
  }

  lemma SumFrame(a: Blocks, t: Blocks, bs: set<nat>)
    requires forall b :: b in bs ==> (b in a.next <==> b in t.next) && (b in a.next ==> a.next[b] == t.next[b])
    ensures Sum(a, bs) == Sum(t, bs)
  {
    assert Rooms(a, bs) == Rooms(t, bs);
  }

  lemma {:induction false} TotalPart(m: map<nat, nat>, k: map<nat, nat>)
    requires forall x :: x in k ==> x in m && k[x] == m[x]
    ensures Total(k) <= Total(m)
    decreases |m|
  {
    if k != map[] {
      var x :| x in k;
      TotalWithout(k, x);
      TotalWithout(m, x);
      TotalPart(m - {x}, k - {x});
    }
  }

  // ---------- the pool ----------

  /** A memory heap: `used` are the blocks marked so, `free` is the free list, from the head on. */
  datatype Pool = Pool(blocks: Blocks, used: set<nat>, free: seq<nat>, avail: int, top: int)

  datatype Pointer = NoMemory | At(x: nat)

  predicate Aligned(b: nat) {
    b % 4 == 0
  }

  function Free(s: Pool): set<nat> {
    s.blocks.next.Keys - s.used
  }

  ghost predicate NextUsed(s: Pool, b: nat) {
    b in s.blocks.next && b !in s.used ==> s.blocks.next[b] in s.used
  }

  /** Each byte of the pool is in a header or in the data of a block, and the available size is that of the unused
      ones; the tail is used. */
  ghost predicate Accounted(s: Pool, size: nat) {
    && 2 * HDR <= size < WORD && Tiled(s.blocks, size - HDR)
    && (forall b :: b in s.used ==> b in s.blocks.next) && size - HDR in s.used
    && s.avail == Sum(s.blocks, Free(s))
    && Sum(s.blocks, s.blocks.next.Keys) + HDR * |s.blocks.next| == size
    && (forall b :: b in s.blocks.next ==> Aligned(b))
  }

  ghost predicate Coalesced(s: Pool) {
    forall b {:trigger NextUsed(s, b)} :: b in s.blocks.next ==> NextUsed(s, b)
  }

  /** The free list holds exactly the unused blocks. */
  ghost predicate FreeExact(s: Pool) {
    NoDup(s.free) && forall b :: b in s.free <==> b in Free(s)
  }

  ghost predicate PoolInv(s: Pool, size: nat) {
    Accounted(s, size) && Coalesced(s) && FreeExact(s) && s.top >= size - s.avail
  }

  /** So the available size never exceeds the pool. */
  lemma AvailFits(s: Pool, size: nat)
    requires Accounted(s, size)
    ensures s.avail + HDR <= size
  {
    TotalPart(Rooms(s.blocks, s.blocks.next.Keys), Rooms(s.blocks, Free(s)));
    assert size - HDR in s.blocks.next.Keys;
    assert |s.blocks.next| > 0;
  }

  // ---------- splitting and merging ----------

  lemma SplitSums(a: Blocks, h: nat, n: nat, bs: set<nat>)
    requires h in a.next && n !in a.next && h + HDR <= n && n + HDR <= a.next[h] && h !in bs && n !in bs
    ensures var c := SplitAt(a, h, n);
            && Sum(c, bs + {n}) == Sum(a, bs) + (a.next[h] - n - HDR)
            && Sum(c, bs + {h} + {n}) + HDR == Sum(a, bs + {h})
  {
    var c := SplitAt(a, h, n);
    SumFrame(a, c, bs);
    SumWith(c, bs, n);
    SumWith(a, bs, h);
    SumWith(c, bs, h);
    SumWith(c, bs + {h}, n);
  }

  /** All bytes are still accounted for: a new header, and as much less data. */
  lemma SplitWhole(a: Blocks, h: nat, n: nat)
    requires h in a.next && n !in a.next && h + HDR <= n && n + HDR <= a.next[h]
    ensures var c := SplitAt(a, h, n);
            && c.next.Keys == a.next.Keys + {n}
            && Sum(c, c.next.Keys) + HDR * |c.next| == Sum(a, a.next.Keys) + HDR * |a.next|
  {
    var c, keys := SplitAt(a, h, n), a.next.Keys;
    SplitSums(a, h, n, keys - {h});
    assert keys - {h} + {h} == keys;
    assert c.next.Keys == keys + {n};
    assert |c.next| == |c.next.Keys| == |keys| + 1;
  }

  /** A used block h is cut: the rest from n on is unused. */
  lemma SplitAccounted(s: Pool, size: nat, h: nat, n: nat, t: Pool)
    requires Accounted(s, size) && h in s.used && h != size - HDR && h + HDR <= n && n + HDR <= s.blocks.next[h]
             && Aligned(n)
    requires t == s.(blocks := SplitAt(s.blocks, h, n), avail := s.avail + (s.blocks.next[h] - n - HDR))
    ensures n !in s.blocks.next && Accounted(t, size)
  {
    SplitTiled(s.blocks, size - HDR, h, n);
    SplitWhole(s.blocks, h, n);
    SplitSums(s.blocks, h, n, Free(s));
    SplitFree(s, h, n, t);
  }

  lemma SplitFree(s: Pool, h: nat, n: nat, t: Pool)
    requires h in s.used && h in s.blocks.next && n !in s.used && t.blocks == SplitAt(s.blocks, h, n)
             && t.used == s.used
    ensures Free(t) == Free(s) + {n}
  {
  }

  /** An unused block h is put to use, or a used one given up. */
  lemma MarkAccounted(s: Pool, size: nat, h: nat, t: Pool)
    requires Accounted(s, size) && h in s.blocks.next && h != size - HDR && Room(s.blocks, h) >= 0
    requires if h in s.used then t == s.(used := s.used - {h}, avail := s.avail + Room(s.blocks, h))
             else t == s.(used := s.used + {h}, avail := s.avail - Room(s.blocks, h))
    ensures Accounted(t, size)
  {
    assert Placed(s.blocks, size - HDR, h);
    if h in s.used {
      SumWith(s.blocks, Free(s), h);
      assert Free(t) == Free(s) + {h};
    } else {
      SumWithout(s.blocks, Free(s), h);
      assert Free(t) == Free(s) - {h};
    }
  }

  lemma DropSums(a: Blocks, tail: nat, b: nat, bs: set<nat>)
    requires Tiled(a, tail) && b in a.next && 0 < b && b != tail && b in a.prev && b !in bs && a.prev[b] !in bs
    ensures a.prev[b] in a.next
    ensures var c, p := Drop(a, b), a.prev[b];
            && Room(a, b) >= 0 && Sum(c, bs) == Sum(a, bs) && Sum(a, bs + {b}) == Sum(a, bs) + Room(a, b)
            && Sum(c, bs + {p}) == Sum(a, bs + {p} + {b}) + HDR
  {
    Between(a, tail, b);
    var c, p := Drop(a, b), a.prev[b];
    SumFrame(a, c, bs);
    SumWith(a, bs, b);
    SumWith(a, bs, p);
    SumWith(a, bs + {p}, b);
    SumWith(c, bs, p);
  }

  lemma TwoOut(bs: set<nat>, p: nat, b: nat)
    requires p in bs && b in bs && p != b
    ensures bs - {p} - {b} + {p} == bs - {b} && bs - {b} + {b} == bs
  {
  }

  /** Two blocks of `bs` become one: a header more of data. */
  lemma DropJoins(a: Blocks, tail: nat, b: nat, bs: set<nat>)
    requires Tiled(a, tail) && b in a.next && 0 < b && b != tail && b in a.prev && b in bs && a.prev[b] in bs
    ensures a.prev[b] in a.next && Sum(Drop(a, b), bs - {b}) == Sum(a, bs) + HDR
  {
    Between(a, tail, b);
    DropSums(a, tail, b, bs - {a.prev[b]} - {b});
    TwoOut(bs, a.prev[b], b);
  }

  lemma DropKeys(a: Blocks, tail: nat, b: nat)
    requires Tiled(a, tail) && b in a.next && 0 < b && b != tail
    ensures b in a.prev && a.prev[b] in a.next
    ensures Drop(a, b).next.Keys == a.next.Keys - {b} && |Drop(a, b).next| == |a.next| - 1
  {
    Between(a, tail, b);
    var c := Drop(a, b);
    assert c.next.Keys == a.next.Keys - {b};
    assert |c.next| == |c.next.Keys|;
    assert |a.next| == |a.next.Keys|;
  }

  /** The unused block b is merged with the block in front of it, which is unused too. */
  lemma MergeAccounted(s: Pool, size: nat, b: nat, t: Pool)
    requires Accounted(s, size) && b in s.blocks.next && b !in s.used && 0 < b && b in s.blocks.prev
             && s.blocks.prev[b] !in s.used
    requires t == s.(blocks := Drop(s.blocks, b), avail := s.avail + HDR)
    ensures Accounted(t, size) && Free(t) == Free(s) - {b}
  {
    Between(s.blocks, size - HDR, b);
    DropTiled(s.blocks, size - HDR, b);
    DropKeys(s.blocks, size - HDR, b);
    DropJoins(s.blocks, size - HDR, b, s.blocks.next.Keys);
    DropJoins(s.blocks, size - HDR, b, Free(s));
    DropFree(s, b, t);
  }

  lemma DropFree(s: Pool, b: nat, t: Pool)
    requires t.blocks.next.Keys == s.blocks.next.Keys - {b} && t.used == s.used
    ensures Free(t) == Free(s) - {b}
  {
  }

  lemma DropOne(a: Blocks, tail: nat, b: nat, bs: set<nat>)
    requires Tiled(a, tail) && b in a.next && 0 < b && b != tail && b in a.prev && b in bs && a.prev[b] !in bs
    ensures Sum(Drop(a, b), bs - {b}) == Sum(a, bs) - Room(a, b)
  {
    DropSums(a, tail, b, bs - {b});
    assert bs - {b} + {b} == bs;
  }

  /** The unused block b is taken over by the used block in front of it. */
  lemma TakenOver(s: Pool, size: nat, b: nat, t: Pool)
    requires Accounted(s, size) && b in s.blocks.next && b !in s.used && 0 < b && b in s.blocks.prev
             && s.blocks.prev[b] in s.used
    requires t == s.(blocks := Drop(s.blocks, b), avail := s.avail - Room(s.blocks, b))
    ensures Accounted(t, size) && Free(t) == Free(s) - {b}
  {
    Between(s.blocks, size - HDR, b);
    DropTiled(s.blocks, size - HDR, b);
    DropKeys(s.blocks, size - HDR, b);
    DropJoins(s.blocks, size - HDR, b, s.blocks.next.Keys);
    DropOne(s.blocks, size - HDR, b, Free(s));
    DropFree(s, b, t);
  }

  // ---------- rt_memheap_alloc ----------

  /** The size that is looked for: aligned, and not too small. */
  function Wanted(size: nat): nat
    requires size < WORD
  {
    if SmallHeap.Align(size) < MINIALLOC then MINIALLOC else SmallHeap.Align(size)
  }

  /** The first block on the free list, from place i on, with room for n bytes. */
  function FirstFit(s: Pool, n: nat, i: nat): (k: nat)
    requires i <= |s.free|
    ensures i <= k <= |s.free| && (k < |s.free| ==> s.free[k] in s.blocks.next ==> Room(s.blocks, s.free[k]) >= n)
    ensures forall j :: i <= j < k ==> s.free[j] in s.blocks.next && Room(s.blocks, s.free[j]) < n
    decreases |s.free| - i
  {
    if i == |s.free| || s.free[i] !in s.blocks.next || Room(s.blocks, s.free[i]) >= n then i else FirstFit(s, n, i + 1)
  }

  function Charged(s: Pool, size: nat): Pool {
    s.(top := if size - s.avail > s.top then size - s.avail else s.top)
  }

  /** The rest is split off if it can hold a header and a smallest block. */
  predicate Splits(a: Blocks, h: nat, n: nat)
    requires h in a.next
  {
    Room(a, h) >= n + HDR + MINIALLOC
  }

  /** Block h on the free list is handed out for n bytes. */
  function TakeBlock(s: Pool, size: nat, h: nat, n: nat): Pool
    requires h in s.blocks.next
  {
    var m := h + HDR + n;
    Charged(
      if Splits(s.blocks, h, n)
      then s.(blocks := SplitAt(s.blocks, h, m), used := s.used + {h}, free := [m] + Unlinked(s.free, h),
          avail := s.avail - n - HDR)
      else s.(used := s.used + {h}, free := Unlinked(s.free, h), avail := s.avail - Room(s.blocks, h)),
      size)
  }

  function Alloc(s: Pool, size: nat, n: nat): (Pool, Pointer) {
    var k := FirstFit(s, n, 0);
    if n >= s.avail || k == |s.free| || s.free[k] !in s.blocks.next then (s, NoMemory)
    else (TakeBlock(s, size, s.free[k], n), At(s.free[k] + HDR))
  }

  /** The other used blocks stay as they are. */
  ghost predicate KeepsOthers(s: Pool, t: Pool, h: nat) {
    forall b :: b in s.used && b != h && b in s.blocks.next ==>
      b in t.used && b in t.blocks.next && t.blocks.next[b] == s.blocks.next[b]
  }

  lemma FourMore(h: nat, n: nat)
    requires Aligned(h) && Aligned(n)
    ensures Aligned(h + HDR + n)
  {
  }

  /** All of block h is used. */
  function Whole(s: Pool, h: nat): Pool
    requires h in s.blocks.next
  {
    s.(used := s.used + {h}, avail := s.avail - Room(s.blocks, h))
  }

  lemma RestAccounted(w: Pool, size: nat, h: nat, n: nat, t: Pool)
    requires Accounted(w, size) && h in w.used && h in w.blocks.next && h != size - HDR && Splits(w.blocks, h, n)
             && Aligned(n)
    requires t.blocks == SplitAt(w.blocks, h, h + HDR + n) && t.used == w.used
             && t.avail == w.avail + Room(w.blocks, h) - n - HDR
    ensures h + HDR + n !in w.blocks.next && Accounted(t, size)
  {
    FourMore(h, n);
    var m := h + HDR + n;
    SplitAccounted(w, size, h, m, w.(blocks := t.blocks, avail := t.avail));
    SameAccounted(w.(blocks := t.blocks, avail := t.avail), t, size);
  }

  lemma SameAccounted(s: Pool, t: Pool, size: nat)
    requires Accounted(s, size) && t.blocks == s.blocks && t.used == s.used && t.avail == s.avail
    ensures Accounted(t, size)
  {
    assert Free(t) == Free(s);
  }

  lemma WholeAccounted(s: Pool, size: nat, h: nat)
    requires Accounted(s, size) && h in Free(s)
    ensures h != size - HDR && Accounted(Whole(s, h), size)
  {
    assert Placed(s.blocks, size - HDR, h);
    MarkAccounted(s, size, h, Whole(s, h));
  }

  lemma TakeAccounted(s: Pool, size: nat, h: nat, n: nat)
    requires h in s.blocks.next && h != size - HDR && size >= HDR && Accounted(Whole(s, h), size) && Aligned(n)
    ensures Accounted(TakeBlock(s, size, h, n), size)
    ensures Splits(s.blocks, h, n) ==> h + HDR + n !in s.blocks.next
  {
    if Splits(s.blocks, h, n) {
      RestAccounted(Whole(s, h), size, h, n, TakeBlock(s, size, h, n));
    } else {
      SameAccounted(Whole(s, h), TakeBlock(s, size, h, n), size);
    }
  }

  lemma TakeCoalesced(s: Pool, size: nat, h: nat, n: nat)
    requires Coalesced(s) && h in Free(s) && (Splits(s.blocks, h, n) ==> h + HDR + n !in s.blocks.next)
    ensures Coalesced(TakeBlock(s, size, h, n))
  {
    var t := TakeBlock(s, size, h, n);
    forall c {:trigger NextUsed(t, c)} | c in t.blocks.next
      ensures NextUsed(t, c)
    {
      assert NextUsed(s, h);
      assert c in s.blocks.next ==> NextUsed(s, c);
    }
  }

  lemma TakeExact(s: Pool, size: nat, h: nat, n: nat)
    requires FreeExact(s) && h in Free(s)
             && (Splits(s.blocks, h, n) ==> h + HDR + n !in s.blocks.next && h + HDR + n !in s.used)
    ensures FreeExact(TakeBlock(s, size, h, n))
  {
    UnlinkedHas(s.free, h);
    var m, t := h + HDR + n, TakeBlock(s, size, h, n);
    assert m !in s.blocks.next ==> m !in s.free;
    forall b
      ensures b in t.free <==> b in Free(t)
    {
      assert b in s.free <==> b in Free(s);
    }
  }

  /** Block h, unused before, is now used for n bytes or little more. */
  ghost predicate HandedOut(s: Pool, t: Pool, h: nat, n: nat) {
    && h !in s.used && t.used == s.used + {h} && KeepsOthers(s, t, h)
    && h in t.blocks.next && n <= Room(t.blocks, h) < n + HDR + MINIALLOC
  }

  lemma TakeKeeps(s: Pool, size: nat, h: nat, n: nat)
    requires PoolInv(s, size) && h in s.free && Aligned(n) && h in s.blocks.next && Room(s.blocks, h) >= n
    ensures PoolInv(TakeBlock(s, size, h, n), size) && HandedOut(s, TakeBlock(s, size, h, n), h, n)
  {
    WholeAccounted(s, size, h);
    TakeAccounted(s, size, h, n);
    TakeCoalesced(s, size, h, n);
    TakeExact(s, size, h, n);
  }

  /** The data a caller gets: a block of at least the size asked for, not used before, and not much larger. NULL
      means that the size is not below the total of what is available, or that no unused block is large enough. */
  lemma AllocKeeps(s: Pool, size: nat, n: nat)
    requires PoolInv(s, size) && Aligned(n)
    ensures PoolInv(Alloc(s, size, n).0, size)
    ensures var (t, r) := Alloc(s, size, n);
            if r.At? then n < s.avail && r.x >= HDR && HandedOut(s, t, r.x - HDR, n)
            else t == s && (n >= s.avail || forall b :: b in s.blocks.next && b !in s.used ==> Room(s.blocks, b) < n)
  {
    var k := FirstFit(s, n, 0);
    assert forall b :: b in s.free <==> b in s.blocks.next && b !in s.used;
    if k < |s.free| {
      assert s.free[k] in s.free;
      if n < s.avail {
        TakeKeeps(s, size, s.free[k], n);
      }
    }
  }

  lemma RoomWithin(s: Pool, size: nat, b: nat)
    requires Accounted(s, size) && b in Free(s)
    ensures 0 <= Room(s.blocks, b) <= s.avail
  {
    assert Placed(s.blocks, size - HDR, b);
    SumWithout(s.blocks, Free(s), b);
  }

  /** Where some unused block is large enough, a request is refused exactly if it is for all that is available. */
  lemma FitsYetRefused(s: Pool, size: nat, n: nat, b: nat)
    requires PoolInv(s, size) && b in Free(s) && Room(s.blocks, b) >= n
    ensures Alloc(s, size, n).1.NoMemory? <==> n == s.avail
  {
    RoomWithin(s, size, b);
    assert b in s.free;
    assert forall c :: c in s.free ==> c in s.blocks.next;
  }

  /** So a pool from which nothing has been taken does not hand out the whole of its one block. */
  lemma FreshRefusesAll(size: nat)
    requires 2 * HDR <= size < WORD && size % 4 == 0
    ensures var s := Fresh(size);
            0 in Free(s) && Room(s.blocks, 0) == s.avail && Alloc(s, size, s.avail) == (s, NoMemory)
  {
    FreshInv(size);
  }

  // ---------- rt_memheap_free ----------

  function GiveUp(s: Pool, h: nat): Pool
    requires h in s.blocks.next
  {
    s.(used := s.used - {h}, avail := s.avail + Room(s.blocks, h))
  }

  /** The unused block h is merged with an unused one in front of it. */
  function MergeLeft(s: Pool, h: nat): (Pool, nat)
    requires h in s.blocks.next && h in s.blocks.prev
  {
    var p := s.blocks.prev[h];
    if p !in s.used then (s.(blocks := Drop(s.blocks, h), avail := s.avail + HDR), p) else (s, h)
  }

  function MergeRight(s: Pool, g: nat): Pool
    requires g in s.blocks.next && s.blocks.next[g] in s.blocks.next && s.blocks.next[g] in s.blocks.prev
  {
    var y := s.blocks.next[g];
    if y !in s.used then s.(blocks := Drop(s.blocks, y), avail := s.avail + HDR, free := Unlinked(s.free, y)) else s
  }

  /** Only block g may be unused in front of an unused one. */
  ghost predicate CoalescedBut(s: Pool, g: nat) {
    && (forall c {:trigger NextUsed(s, c)} :: c in s.blocks.next && c != g ==> NextUsed(s, c))
    && g in s.blocks.next && g !in s.used
  }

  lemma GiveUpAccounted(s: Pool, size: nat, h: nat)
    requires Accounted(s, size) && h in s.used && h != size - HDR
    ensures h in s.blocks.next && h in s.blocks.prev && Room(s.blocks, h) >= 0 && Accounted(GiveUp(s, h), size)
  {
    assert Placed(s.blocks, size - HDR, h);
    MarkAccounted(s, size, h, GiveUp(s, h));
  }

  /** There is an unused block in front only if h is not the first one. */
  lemma LeftOfFirst(s: Pool, size: nat, h: nat)
    requires Accounted(s, size) && h in s.blocks.next
    ensures h in s.blocks.prev && (s.blocks.prev[h] !in s.used ==> 0 < h)
    ensures s.blocks.prev[h] in s.blocks.next && s.blocks.next[s.blocks.prev[h]] == h
  {
    assert Placed(s.blocks, size - HDR, h) && Placed(s.blocks, size - HDR, size - HDR);
  }

  lemma LeftAccounted(s: Pool, size: nat, h: nat)
    requires Accounted(s, size) && h in s.used && h != size - HDR
    ensures h in s.blocks.next && h in s.blocks.prev
    ensures Accounted(MergeLeft(GiveUp(s, h), h).0, size)
  {
    GiveUpAccounted(s, size, h);
    var u := GiveUp(s, h);
    LeftOfFirst(u, size, h);
    var (t, g) := MergeLeft(u, h);
    if g != h {
      MergeAccounted(u, size, h, t);
    }
  }

  /** Block h is given up: g is the unused block that it is now, or is part of. */
  ghost predicate LeftDone(s: Pool, t: Pool, h: nat, g: nat) {
    && CoalescedBut(t, g) && t.free == s.free && t.used == s.used - {h} && KeepsOthers(s, t, h)
    && (forall b :: b in t.blocks.next && b !in t.used && (g == h ==> b != h) <==> b in t.free)
  }

  lemma LeftKeeps(s: Pool, size: nat, h: nat)
    requires Accounted(s, size) && Coalesced(s) && FreeExact(s) && h in s.used && h != size - HDR
    ensures h in s.blocks.next && h in s.blocks.prev
    ensures LeftDone(s, MergeLeft(GiveUp(s, h), h).0, h, MergeLeft(GiveUp(s, h), h).1)
  {
    LeftOfFirst(s, size, h);
    assert Placed(s.blocks, size - HDR, h);
    var (t, g) := MergeLeft(GiveUp(s, h), h);
    assert s.blocks.prev[h] != h by {
      Between0(s, size, h);
    }
    LeftCoalesced(s, size, h, t, g);
    forall b
      ensures b in t.blocks.next && b !in t.used && (g == h ==> b != h) <==> b in t.free
    {
      assert b in s.free <==> b in Free(s);
    }
  }

  lemma Between0(s: Pool, size: nat, h: nat)
    requires Accounted(s, size) && h in s.blocks.next && h != size - HDR
    ensures h in s.blocks.prev && s.blocks.prev[h] != h
  {
    assert Placed(s.blocks, size - HDR, h);
  }

  lemma LeftCoalesced(s: Pool, size: nat, h: nat, t: Pool, g: nat)
    requires Coalesced(s) && h in s.blocks.next && h in s.blocks.prev && h in s.used
    requires s.blocks.prev[h] in s.blocks.next && s.blocks.next[s.blocks.prev[h]] == h && s.blocks.prev[h] != h
    requires size >= HDR && (t, g) == MergeLeft(GiveUp(s, h), h)
    requires forall c {:trigger Placed(s.blocks, size - HDR, c)} :: c in s.blocks.next ==>
             Placed(s.blocks, size - HDR, c)
    ensures CoalescedBut(t, g)
  {
    forall c {:trigger NextUsed(t, c)} | c in t.blocks.next && c != g
      ensures NextUsed(t, c)
    {
      assert NextUsed(s, c) && Placed(s.blocks, size - HDR, c);
    }
  }

  lemma RightAccounted(s: Pool, size: nat, g: nat)
    requires Accounted(s, size) && g in s.blocks.next && g !in s.used
    ensures s.blocks.next[g] in s.blocks.next && s.blocks.next[g] in s.blocks.prev && g < s.blocks.next[g]
    ensures s.blocks.prev[s.blocks.next[g]] == g && Accounted(MergeRight(s, g), size)
  {
    assert Placed(s.blocks, size - HDR, g);
    var y := s.blocks.next[g];
    if y !in s.used {
      MergeAccounted(s, size, y, s.(blocks := Drop(s.blocks, y), avail := s.avail + HDR));
      SameAccounted(s.(blocks := Drop(s.blocks, y), avail := s.avail + HDR), MergeRight(s, g), size);
    }
  }

  lemma RightCoalesced(s: Pool, g: nat)
    requires CoalescedBut(s, g) && s.blocks.next[g] in s.blocks.next && s.blocks.next[g] in s.blocks.prev
             && s.blocks.prev[s.blocks.next[g]] == g
    requires g < s.blocks.next[g]
    ensures Coalesced(MergeRight(s, g)) && g in MergeRight(s, g).blocks.next
  {
    var t := MergeRight(s, g);
    forall c {:trigger NextUsed(t, c)} | c in t.blocks.next
      ensures NextUsed(t, c)
    {
      assert c != g ==> NextUsed(s, c);
      assert s.blocks.next[g] != g ==> NextUsed(s, s.blocks.next[g]);
    }
  }

  /** `rt_memheap_free`. */
  function FreeBlock(s: Pool, size: nat, h: nat): Pool
    requires Accounted(s, size) && h in s.used && h != size - HDR
  {
    LeftAccounted(s, size, h);
    LeftStays(s, size, h);
    var (t, g) := MergeLeft(GiveUp(s, h), h);
    RightAccounted(t, size, g);
    var u := MergeRight(t, g);
    if g == h then u.(free := [g] + u.free) else u
  }

  lemma LeftStays(s: Pool, size: nat, h: nat)
    requires Accounted(s, size) && h in s.used && h != size - HDR
    ensures h in s.blocks.next && h in s.blocks.prev
    ensures var (t, g) := MergeLeft(GiveUp(s, h), h); g in t.blocks.next && g !in t.used
  {
    LeftOfFirst(s, size, h);
    Between0(s, size, h);
  }

  /** Exactly the block freed is not used any more, and the others stay as they are. */
  lemma FreeKeeps(s: Pool, size: nat, h: nat)
    requires PoolInv(s, size) && h in s.used && h != size - HDR
    ensures var t := FreeBlock(s, size, h);
            PoolInv(t, size) && t.used == s.used - {h} && KeepsOthers(s, t, h) && t.avail >= s.avail
  {
    LeftAccounted(s, size, h);
    LeftKeeps(s, size, h);
    LeftStays(s, size, h);
    var (t, g) := MergeLeft(GiveUp(s, h), h);
    RightAccounted(t, size, g);
    RightCoalesced(t, g);
    var u := MergeRight(t, g);
    var v := FreeBlock(s, size, h);
    SameAccounted(u, v, size);
    SameCoalesced(u, v);
    FreeExactAfter(s, t, h, g, v);
    GiveUpAccounted(s, size, h);
    RightKeepsOthers(s, t, h, g, v);
  }

  lemma SameCoalesced(s: Pool, t: Pool)
    requires Coalesced(s) && t.blocks == s.blocks && t.used == s.used
    ensures Coalesced(t)
  {
    forall c {:trigger NextUsed(t, c)} | c in t.blocks.next
      ensures NextUsed(t, c)
    {
      assert NextUsed(s, c);
    }
  }

  lemma FreeExactAfter(s: Pool, t: Pool, h: nat, g: nat, v: Pool)
    requires LeftDone(s, t, h, g) && NoDup(s.free) && g in t.blocks.next && t.blocks.next[g] in t.blocks.next
             && t.blocks.next[g] in t.blocks.prev
    requires t.blocks.prev[t.blocks.next[g]] == g && g != t.blocks.next[g]
    requires var u := MergeRight(t, g); v == if g == h then u.(free := [g] + u.free) else u
    ensures FreeExact(v)
  {
    var y := t.blocks.next[g];
    UnlinkedHas(t.free, y);
    var u := MergeRight(t, g);
    assert NoDup(u.free);
    assert g == h ==> g !in u.free;
  }

  lemma RightKeepsOthers(s: Pool, t: Pool, h: nat, g: nat, v: Pool)
    requires LeftDone(s, t, h, g) && g in t.blocks.next && t.blocks.next[g] in t.blocks.next
             && t.blocks.next[g] in t.blocks.prev
    requires t.blocks.prev[t.blocks.next[g]] == g && v.blocks == MergeRight(t, g).blocks && v.used == t.used
    ensures KeepsOthers(s, v, h)
  {
  }

  // ---------- rt_memheap_realloc ----------

  /** The links of a used block h whose neighbour is unused. */
  ghost predicate UnusedBehind(s: Pool, h: nat) {
    && h in s.blocks.next && h in s.used && s.blocks.next[h] in s.blocks.next && s.blocks.next[h] in s.blocks.prev
    && s.blocks.prev[s.blocks.next[h]] == h && h < s.blocks.next[h] && s.blocks.next[h] !in s.used
  }

  lemma Behind(s: Pool, size: nat, h: nat)
    requires Accounted(s, size) && h in s.used && h != size - HDR
    ensures h in s.blocks.next && s.blocks.next[h] in s.blocks.next && Room(s.blocks, h) >= 0
    ensures s.blocks.next[h] !in s.used ==> UnusedBehind(s, h) && Room(s.blocks, s.blocks.next[h]) >= 0
  {
    assert Placed(s.blocks, size - HDR, h) && Placed(s.blocks, size - HDR, s.blocks.next[h]);
  }

  /** The test for growing in place adds in 32 bits. */
  predicate GrowTest(room: int, n: nat)
    requires n < WORD
  {
    room > (if n + MINIALLOC < WORD then n + MINIALLOC else n + MINIALLOC - WORD)
  }

  /** It is right exactly if the sum does not wrap, or there is hardly any room. */
  lemma GrowTestIsRight(room: nat, n: nat)
    requires room < WORD && n < WORD
    ensures (GrowTest(room, n) <==> room > n + MINIALLOC) <==> n + MINIALLOC < WORD || room <= n + MINIALLOC - WORD
  {
  }

  /** Where growing in place is decided rightly. */
  predicate DecidesRight(s: Pool, h: nat, n: nat)
    requires h in s.blocks.next && s.blocks.next[h] in s.blocks.next
  {
    || n + MINIALLOC < WORD || s.blocks.next[h] in s.used
    || Room(s.blocks, s.blocks.next[h]) + Room(s.blocks, h) <= n + MINIALLOC - WORD
  }

  /** The header behind n bytes of data in block h: `(char *)ptr + newsize`, in 32 bits. */
  function RestAt(h: nat, n: nat): nat
    requires n < WORD
  {
    if h + HDR + n < WORD then h + HDR + n else h + HDR + n - WORD
  }

  /** The unused block behind h begins later. */
  function Grow(s: Pool, size: nat, h: nat, n: nat): Pool
    requires UnusedBehind(s, h) && n < WORD
  {
    var x, m := s.blocks.next[h], RestAt(h, n);
    Charged(s.(blocks := SplitAt(Drop(s.blocks, x), h, m), free := [m] + Unlinked(s.free, x),
        avail := s.avail - (n - Room(s.blocks, h))), size)
  }

  /** The rest of block h becomes an unused block, together with an unused block behind it. */
  function Shrink(s: Pool, h: nat, n: nat): Pool
    requires h in s.blocks.next && s.blocks.next[h] in s.blocks.next
  {
    var y, m := s.blocks.next[h], h + HDR + n;
    var a := SplitAt(s.blocks, h, m);
    if y !in s.used then
      var b := Drop(a, y);
      s.(blocks := b, free := [m] + Unlinked(s.free, y),
          avail := s.avail - Room(s.blocks, y) + (if m in b.next then Room(b, m) else 0))
    else s.(blocks := a, free := [m] + s.free, avail := s.avail + Room(a, m))
  }

  /** Block h now has room for n bytes, and nothing else that is used has changed. */
  ghost predicate Resized(s: Pool, t: Pool, h: nat, n: nat) {
    t.used == s.used && KeepsOthers(s, t, h) && h in t.blocks.next && Room(t.blocks, h) == n
  }

  /** The unused block behind h becomes part of it. */
  function Swallow(s: Pool, h: nat): Pool
    requires UnusedBehind(s, h)
  {
    s.(blocks := Drop(s.blocks, s.blocks.next[h]), avail := s.avail - Room(s.blocks, s.blocks.next[h]))
  }

  lemma SwallowAccounted(s: Pool, size: nat, h: nat)
    requires Accounted(s, size) && UnusedBehind(s, h)
    ensures Accounted(Swallow(s, h), size)
    ensures var t := Swallow(s, h);
            && h in t.blocks.next && Room(t.blocks, h) == Room(s.blocks, h) + HDR + Room(s.blocks, s.blocks.next[h])
            && s.blocks.next[h] !in t.blocks.next && t.used == s.used
  {
    TakenOver(s, size, s.blocks.next[h], Swallow(s, h));
  }

  lemma GrowFits(s: Pool, size: nat, h: nat, n: nat)
    requires Accounted(s, size) && UnusedBehind(s, h) && h != size - HDR
    requires n + MINIALLOC < Room(s.blocks, s.blocks.next[h]) + Room(s.blocks, h)
    ensures h + HDR + n < size < WORD
  {
    assert Placed(s.blocks, size - HDR, s.blocks.next[h]);
    assert size - HDR in s.used;
  }

  lemma GrowAccounted(s: Pool, size: nat, h: nat, n: nat)
    requires Accounted(s, size) && UnusedBehind(s, h) && h != size - HDR && Aligned(n)
    requires n + MINIALLOC < Room(s.blocks, s.blocks.next[h]) + Room(s.blocks, h)
    ensures h + HDR + n < WORD && Accounted(Grow(s, size, h, n), size)
    ensures h + HDR + n !in Drop(s.blocks, s.blocks.next[h]).next && h + HDR + n !in s.used
  {
    SwallowAccounted(s, size, h);
    GrowFits(s, size, h, n);
    GrowRest(s, Swallow(s, h), size, h, n);
  }

  lemma GrowRest(s: Pool, w: Pool, size: nat, h: nat, n: nat)
    requires UnusedBehind(s, h) && w == Swallow(s, h) && Accounted(w, size) && h != size - HDR && Aligned(n)
    requires h in w.blocks.next && Splits(w.blocks, h, n) && w.used == s.used && h + HDR + n < WORD
    requires Room(w.blocks, h) == Room(s.blocks, h) + HDR + Room(s.blocks, s.blocks.next[h])
    ensures Accounted(Grow(s, size, h, n), size) && h + HDR + n !in w.blocks.next && h + HDR + n !in s.used
  {
    RestAccounted(w, size, h, n, Grow(s, size, h, n));
  }

  lemma GrowCoalesced(s: Pool, size: nat, h: nat, n: nat)
    requires Coalesced(s) && UnusedBehind(s, h) && h + HDR + n !in Drop(s.blocks, s.blocks.next[h]).next
             && h + HDR + n < WORD
    ensures Coalesced(Grow(s, size, h, n))
  {
    var t := Grow(s, size, h, n);
    forall c {:trigger NextUsed(t, c)} | c in t.blocks.next
      ensures NextUsed(t, c)
    {
      assert NextUsed(s, s.blocks.next[h]);
      assert c in s.blocks.next ==> NextUsed(s, c);
    }
  }

  lemma GrowExact(s: Pool, size: nat, h: nat, n: nat)
    requires FreeExact(s) && UnusedBehind(s, h) && h + HDR + n !in Drop(s.blocks, s.blocks.next[h]).next
             && h + HDR + n !in s.used && h + HDR + n < WORD
    ensures FreeExact(Grow(s, size, h, n))
  {
    var x, m, t := s.blocks.next[h], h + HDR + n, Grow(s, size, h, n);
    UnlinkedHas(s.free, x);
    assert m !in Unlinked(s.free, x);
    forall b
      ensures b in t.free <==> b in Free(t)
    {
      assert b in s.free <==> b in Free(s);
    }
  }

  lemma GrowResizes(s: Pool, size: nat, h: nat, n: nat)
    requires UnusedBehind(s, h) && h + HDR + n !in Drop(s.blocks, s.blocks.next[h]).next && h + HDR + n !in s.used
             && h + HDR + n < WORD
    ensures Resized(s, Grow(s, size, h, n), h, n)
  {
  }

  /** Growing in place. */
  lemma GrowKeeps(s: Pool, size: nat, h: nat, n: nat)
    requires PoolInv(s, size) && UnusedBehind(s, h) && h != size - HDR && Aligned(n)
    requires Room(s.blocks, h) <= n < WORD && n + MINIALLOC < Room(s.blocks, s.blocks.next[h]) + Room(s.blocks, h)
    ensures PoolInv(Grow(s, size, h, n), size) && Resized(s, Grow(s, size, h, n), h, n)
  {
    GrowAccounted(s, size, h, n);
    GrowCoalesced(s, size, h, n);
    GrowExact(s, size, h, n);
    GrowResizes(s, size, h, n);
  }

  lemma ShrinkAccounted(s: Pool, size: nat, h: nat, n: nat)
    requires Accounted(s, size) && h in s.used && h != size - HDR && Aligned(n) && h in s.blocks.next
             && s.blocks.next[h] in s.blocks.next
    requires n + HDR <= Room(s.blocks, h)
    ensures h + HDR + n !in s.blocks.next && Accounted(Shrink(s, h, n), size)
  {
    Behind(s, size, h);
    var y, m, t := s.blocks.next[h], h + HDR + n, Shrink(s, h, n);
    FourMore(h, n);
    var u := s.(blocks := SplitAt(s.blocks, h, m), avail := s.avail + (y - m - HDR));
    SplitAccounted(s, size, h, m, u);
    if y !in s.used {
      var v := u.(blocks := t.blocks, avail := t.avail);
      MergeAccounted(u, size, y, v);
      SameAccounted(v, t, size);
    } else {
      SameAccounted(u, t, size);
    }
  }

  lemma ShrinkCoalesced(s: Pool, h: nat, n: nat)
    requires Coalesced(s) && h in s.used && h in s.blocks.next && s.blocks.next[h] in s.blocks.next
    requires s.blocks.next[h] !in s.used ==> UnusedBehind(s, h)
    requires h + HDR + n !in s.blocks.next
    ensures Coalesced(Shrink(s, h, n))
  {
    var t := Shrink(s, h, n);
    forall c {:trigger NextUsed(t, c)} | c in t.blocks.next
      ensures NextUsed(t, c)
    {
      assert NextUsed(s, s.blocks.next[h]);
      assert c in s.blocks.next ==> NextUsed(s, c);
    }
  }

  lemma ShrinkExact(s: Pool, h: nat, n: nat)
    requires FreeExact(s) && h in s.used && h in s.blocks.next && s.blocks.next[h] in s.blocks.next
    requires s.blocks.next[h] !in s.used ==> UnusedBehind(s, h)
    requires h + HDR + n !in s.blocks.next && h + HDR + n !in s.used
    ensures FreeExact(Shrink(s, h, n))
  {
    var y, m, t := s.blocks.next[h], h + HDR + n, Shrink(s, h, n);
    UnlinkedHas(s.free, y);
    assert m !in s.free;
    forall b
      ensures b in t.free <==> b in Free(t)
    {
      assert b in s.free <==> b in Free(s);
    }
  }

  /** Shrinking in place. */
  lemma ShrinkKeeps(s: Pool, size: nat, h: nat, n: nat)
    requires PoolInv(s, size) && h in s.used && h != size - HDR && Aligned(n) && h in s.blocks.next
             && s.blocks.next[h] in s.blocks.next
    requires n + HDR <= Room(s.blocks, h)
    ensures PoolInv(Shrink(s, h, n), size) && Resized(s, Shrink(s, h, n), h, n)
  {
    Behind(s, size, h);
    ShrinkAccounted(s, size, h, n);
    ShrinkCoalesced(s, h, n);
    ShrinkExact(s, h, n);
    ShrinkResizes(s, h, n);
    MoreAvailable(s, size, h, n);
  }

  lemma ShrinkResizes(s: Pool, h: nat, n: nat)
    requires h in s.used && h in s.blocks.next && s.blocks.next[h] in s.blocks.next
    requires s.blocks.next[h] !in s.used ==> UnusedBehind(s, h)
    requires h + HDR + n !in s.blocks.next
    ensures Resized(s, Shrink(s, h, n), h, n)
  {
  }

  lemma MoreAvailable(s: Pool, size: nat, h: nat, n: nat)
    requires h in s.used && h in s.blocks.next && s.blocks.next[h] in s.blocks.next && n + HDR <= Room(s.blocks, h)
    requires s.blocks.next[h] !in s.used ==> UnusedBehind(s, h)
    requires h + HDR + n !in s.blocks.next
    ensures Shrink(s, h, n).avail >= s.avail
  {
  }

  /** What `rt_memheap_realloc` does without moving the data; n is the wanted size. */
  function InPlace(s: Pool, size: nat, h: nat, n: nat): Pool
    requires Accounted(s, size) && h in s.used && h != size - HDR && n < WORD
  {
    Behind(s, size, h);
    if n > Room(s.blocks, h) then
      if s.blocks.next[h] !in s.used && GrowTest(Room(s.blocks, s.blocks.next[h]) + Room(s.blocks, h), n)
      then Grow(s, size, h, n)
      else s
    else if n + HDR + MINIALLOC >= Room(s.blocks, h) then s
    else Shrink(s, h, n)
  }

  lemma WantedIs(size: nat)
    requires size < WORD
    ensures Wanted(size) >= MINIALLOC && Aligned(Wanted(size)) && Wanted(size) < WORD
            && Wanted(Wanted(size)) == Wanted(size)
    ensures size <= Wanted(size) <==> size <= WORD - 4
    ensures size > WORD - 4 ==> Wanted(size) == MINIALLOC
  {
    SmallHeap.AlignIs(size);
    SmallHeap.AlignIs(Wanted(size));
  }

  lemma InPlaceKeeps(s: Pool, size: nat, h: nat, n: nat)
    requires PoolInv(s, size) && h in s.used && h != size - HDR && n < WORD && Aligned(n)
    requires h in s.blocks.next && s.blocks.next[h] in s.blocks.next && DecidesRight(s, h, n)
    ensures h in s.blocks.next && PoolInv(InPlace(s, size, h, n), size)
    ensures var t := InPlace(s, size, h, n); t == s || Resized(s, t, h, n)
  {
    SmallerThanPool(s, size, h);
    Behind(s, size, h);
    if n > Room(s.blocks, h) {
      if s.blocks.next[h] !in s.used && GrowTest(Room(s.blocks, s.blocks.next[h]) + Room(s.blocks, h), n) {
        GrowKeeps(s, size, h, n);
      }
    } else if n + HDR + MINIALLOC < Room(s.blocks, h) {
      ShrinkKeeps(s, size, h, n);
    }
  }

  /** The data has to move if the block is too small and cannot grow. */
  predicate Moves(s: Pool, h: nat, n: nat)
    requires h in s.blocks.next && s.blocks.next[h] in s.blocks.next && n < WORD
  {
    n > Room(s.blocks, h) && !(s.blocks.next[h] !in s.used
        && GrowTest(Room(s.blocks, s.blocks.next[h]) + Room(s.blocks, h), n))
  }

  /** A new block, and the old one freed. */
  function Move(s: Pool, size: nat, h: nat, n: nat): (Pool, Pointer)
    requires PoolInv(s, size) && h in s.used && h != size - HDR && Aligned(n)
  {
    AllocKeeps(s, size, n);
    var (t, r) := Alloc(s, size, n);
    if r.At? then (FreeBlock(t, size, h), r) else (t, NoMemory)
  }

  /** NULL means that nothing has changed; otherwise there is a block of the wanted size, the old one if the
      address is the same, and the other blocks stay as they are. */
  ghost predicate ReallocDone(s: Pool, t: Pool, r: Pointer, h: nat, n: nat) {
    if r.NoMemory? then t == s else
      && r.x >= HDR && KeepsOthers(s, t, h) && t.used == s.used - {h} + {r.x - HDR}
      && r.x - HDR in t.blocks.next && Room(t.blocks, r.x - HDR) >= n
  }

  lemma FreeMoved(s: Pool, t: Pool, size: nat, h: nat, g: nat, n: nat)
    requires HandedOut(s, t, g, n) && PoolInv(t, size) && h in s.used && h != size - HDR
    ensures PoolInv(FreeBlock(t, size, h), size) && ReallocDone(s, FreeBlock(t, size, h), At(g + HDR), h, n)
  {
    FreeKeeps(t, size, h);
    MovedUsed(s, t, FreeBlock(t, size, h), h, g, n);
  }

  lemma Allocated(s: Pool, size: nat, n: nat) returns (t: Pool, r: Pointer, g: nat)
    requires PoolInv(s, size) && Aligned(n)
    ensures (t, r) == Alloc(s, size, n) && PoolInv(t, size)
    ensures r.At? ==> r == At(g + HDR) && HandedOut(s, t, g, n)
    ensures r.NoMemory? ==> t == s
  {
    var k := FirstFit(s, n, 0);
    t, r, g := s, NoMemory, 0;
    if n < s.avail && k < |s.free| {
      g := s.free[k];
      assert g in s.free && g in s.blocks.next;
      TakeKeeps(s, size, g, n);
      t, r := TakeBlock(s, size, g, n), At(g + HDR);
    }
  }

  lemma Moved(s: Pool, size: nat, h: nat, n: nat) returns (t: Pool, r: Pointer)
    requires PoolInv(s, size) && h in s.used && h != size - HDR && Aligned(n)
    ensures PoolInv(t, size) && ReallocDone(s, t, r, h, n) && r != At(h + HDR)
    ensures (t, r) == Move(s, size, h, n)
  {
    var g;
    t, r, g := Allocated(s, size, n);
    if r.NoMemory? {
      return;
    }
    FreeMoved(s, t, size, h, g, n);
    t := FreeBlock(t, size, h);
  }

  lemma MoveKeeps(s: Pool, size: nat, h: nat, n: nat)
    requires PoolInv(s, size) && h in s.used && h != size - HDR && Aligned(n)
    ensures var (t, r) := Move(s, size, h, n); PoolInv(t, size) && ReallocDone(s, t, r, h, n) && r != At(h + HDR)
  {
    var t, r := Moved(s, size, h, n);
  }

  /** `rt_memheap_realloc` of a used block, by the wanted size. */
  function Resize(s: Pool, size: nat, h: nat, n: nat): (Pool, Pointer)
    requires PoolInv(s, size) && h in s.used && h != size - HDR && n < WORD && Aligned(n)
  {
    Behind(s, size, h);
    if Moves(s, h, n) then Move(s, size, h, n) else (InPlace(s, size, h, n), At(h + HDR))
  }

  /** `rt_memheap_realloc` of a used block. */
  function Realloc(s: Pool, size: nat, h: nat, newsize: nat): (Pool, Pointer)
    requires PoolInv(s, size) && h in s.used && h != size - HDR && newsize < WORD
  {
    if newsize == 0 then (FreeBlock(s, size, h), NoMemory) else
      WantedIs(newsize);
      Resize(s, size, h, Wanted(newsize))
  }

  /** NULL, or what the caller of an allocation got. */
  predicate Handed(s: Pool, size: nat, p: Pointer) {
    p.At? ==> p.x >= HDR && p.x - HDR in s.used && p.x != size
  }

  /** `rt_memheap_free`. */
  function FreePointer(s: Pool, size: nat, p: Pointer): Pool
    requires PoolInv(s, size) && Handed(s, size, p)
  {
    if p.At? then FreeBlock(s, size, p.x - HDR) else s
  }

  /** `rt_memheap_realloc`. */
  function ReallocPointer(s: Pool, size: nat, p: Pointer, newsize: nat): (Pool, Pointer)
    requires PoolInv(s, size) && Handed(s, size, p) && newsize < WORD
  {
    if p.At? then Realloc(s, size, p.x - HDR, newsize)
    else if newsize == 0 then (s, NoMemory)
    else Alloc(s, size, Wanted(newsize))
  }

  predicate MayResize(s: Pool, h: nat, newsize: nat)
    requires newsize < WORD
  {
    && h in s.blocks.next && s.blocks.next[h] in s.blocks.next
    && (newsize == 0 || DecidesRight(s, h, Wanted(newsize)))
  }

  /** Growing the block behind p in place is decided rightly, if it comes to that. */
  predicate Resizable(s: Pool, p: Pointer, newsize: nat)
    requires newsize < WORD
  {
    p.At? ==> p.x >= HDR && MayResize(s, p.x - HDR, newsize)
  }

  lemma InPlaceDone(s: Pool, size: nat, h: nat, n: nat)
    requires PoolInv(s, size) && h in s.used && h != size - HDR && n < WORD && Aligned(n)
    requires h in s.blocks.next && s.blocks.next[h] in s.blocks.next && DecidesRight(s, h, n)
    ensures !Moves(s, h, n) ==> ReallocDone(s, InPlace(s, size, h, n), At(h + HDR), h, n)
  {
    Behind(s, size, h);
    InPlaceKeeps(s, size, h, n);
    StaysUsed(s, InPlace(s, size, h, n), h);
  }

  lemma ResizeKeeps(s: Pool, size: nat, h: nat, n: nat)
    requires PoolInv(s, size) && h in s.used && h != size - HDR && n < WORD && Aligned(n)
    requires h in s.blocks.next && s.blocks.next[h] in s.blocks.next && DecidesRight(s, h, n)
    ensures PoolInv(Resize(s, size, h, n).0, size)
            && ReallocDone(s, Resize(s, size, h, n).0, Resize(s, size, h, n).1, h, n)
  {
    InPlaceDone(s, size, h, n);
    if Moves(s, h, n) {
      MoveKeeps(s, size, h, n);
    } else {
      InPlaceKeeps(s, size, h, n);
    }
  }

  /** Otherwise the address of the new header wraps as well: it comes to lie over the header of block h itself. */
  lemma GrowsIntoHeader(s: Pool, size: nat, h: nat, n: nat)
    requires UnusedBehind(s, h) && HDR <= size && n < WORD && n + MINIALLOC >= WORD
    ensures h < RestAt(h, n) < h + HDR && !PoolInv(Grow(s, size, h, n), size)
  {
    assert !Placed(Grow(s, size, h, n).blocks, size - HDR, h);
  }

  /** A reallocation keeps the pool in order exactly if the sum in its test does not wrap, or the next block is used,
      or the room in both blocks is at most the wrapped sum. */
  lemma ResizeIsExact(s: Pool, size: nat, h: nat, n: nat)
    requires PoolInv(s, size) && h in s.used && h != size - HDR && n < WORD && Aligned(n)
    ensures h in s.blocks.next && s.blocks.next[h] in s.blocks.next
    ensures PoolInv(Resize(s, size, h, n).0, size) <==> DecidesRight(s, h, n)
  {
    Behind(s, size, h);
    if DecidesRight(s, h, n) {
      ResizeKeeps(s, size, h, n);
    } else {
      SmallerThanPool(s, size, h);
      GrowsIntoHeader(s, size, h, n);
    }
  }

  lemma SmallerThanPool(s: Pool, size: nat, h: nat)
    requires Accounted(s, size) && h in s.used && h != size - HDR
    ensures h in s.blocks.next && Room(s.blocks, h) + 2 * HDR <= size
  {
    assert Placed(s.blocks, size - HDR, h);
  }

  /** A reallocation that decides rightly keeps the pool in order, does what it should, and touches no other block. */
  lemma ReallocKeeps(s: Pool, size: nat, h: nat, newsize: nat)
    requires PoolInv(s, size) && h in s.used && h != size - HDR && 0 < newsize < WORD
    requires h in s.blocks.next && s.blocks.next[h] in s.blocks.next && DecidesRight(s, h, Wanted(newsize))
    ensures PoolInv(Realloc(s, size, h, newsize).0, size)
    ensures ReallocDone(s, Realloc(s, size, h, newsize).0, Realloc(s, size, h, newsize).1, h, Wanted(newsize))
  {
    WantedIs(newsize);
    ResizeKeeps(s, size, h, Wanted(newsize));
  }

  lemma StaysUsed(s: Pool, t: Pool, h: nat)
    requires h in s.used && t.used == s.used
    ensures t.used == s.used - {h} + {h}
  {
  }

  lemma MovedUsed(s: Pool, t: Pool, u: Pool, h: nat, g: nat, n: nat)
    requires h in s.used && HandedOut(s, t, g, n) && u.used == t.used - {h} && KeepsOthers(t, u, h)
    ensures u.used == s.used - {h} + {g} && KeepsOthers(s, u, h) && g in u.blocks.next && Room(u.blocks, g) >= n
  {
  }

  /** Used blocks do not overlap. */
  lemma UsedApart(s: Pool, size: nat, a: nat, b: nat)
    requires Accounted(s, size) && a in s.used && b in s.used && a < b
    ensures a in s.blocks.next && a + HDR + Room(s.blocks, a) <= b
  {
    assert Clear(s.blocks, size - HDR, a) && Placed(s.blocks, size - HDR, a) && Placed(s.blocks, size - HDR, b);
  }

  /** No header lies in the data of a block. */
  lemma HeadersOutsideData(s: Pool, size: nat, b: nat, c: nat)
    requires Accounted(s, size) && b in s.blocks.next && c in s.blocks.next && c != size - HDR
    ensures b + HDR <= c + HDR || s.blocks.next[c] <= b
  {
    assert Clear(s.blocks, size - HDR, c);
  }

  // ---------- runs ----------

  datatype PoolOp = AllocOp(size: nat) | FreeOp(h: nat) | ResizeOp(h: nat, newsize: nat)

  /** A call with arguments that it may get. */
  ghost predicate May(s: Pool, size: nat, op: PoolOp) {
    match op
    case AllocOp(n) => n < WORD
    case FreeOp(h) => h in s.used && h != size - HDR
    case ResizeOp(h, n) =>
      && h in s.used && h != size - HDR && 0 < n < WORD
      && h in s.blocks.next && s.blocks.next[h] in s.blocks.next && DecidesRight(s, h, Wanted(n))
  }

  ghost function StepOf(s: Pool, size: nat, op: PoolOp): (t: Pool)
    requires PoolInv(s, size)
    ensures PoolInv(t, size)
  {
    if !May(s, size, op) then s else
      match op
      case AllocOp(n) => WantedIs(n); AllocKeeps(s, size, Wanted(n)); Alloc(s, size, Wanted(n)).0
      case FreeOp(h) => FreeKeeps(s, size, h); FreeBlock(s, size, h)
      case ResizeOp(h, n) => WantedIs(n); InPlaceKeeps(s, size, h, Wanted(n)); InPlace(s, size, h, Wanted(n))
  }

  ghost function RunOf(s: Pool, size: nat, ops: seq<PoolOp>): (t: Pool)
    requires PoolInv(s, size)
    ensures PoolInv(t, size)
    decreases |ops|
  {
    if ops == [] then s else RunOf(StepOf(s, size, ops[0]), size, ops[1..])
  }

  lemma BlockInPlace(t: Pool, size: nat, b: nat)
    requires PoolInv(t, size) && b in t.blocks.next
    ensures var n := t.blocks.next[b];
            && n in t.blocks.next && n in t.blocks.prev && t.blocks.prev[n] == b
            && (if b == size - HDR then n == 0 && b in t.used else b + HDR <= n <= size - HDR)
  {
    assert Placed(t.blocks, size - HDR, b);
  }

  function OnFreeList(s: Pool): set<nat> {
    set b | b in s.free
  }

  lemma FreeListed(t: Pool, size: nat, b: nat)
    requires PoolInv(t, size) && b in t.blocks.next
    ensures NoDup(t.free) && (b in t.free <==> b !in t.used) && (b in t.free ==> t.blocks.next[b] !in t.free)
    ensures t.avail == Sum(t.blocks, OnFreeList(t))
  {
    assert NextUsed(t, b);
    assert b in t.free <==> b in Free(t);
    if b in t.free {
      var n := t.blocks.next[b];
      assert n in t.free <==> n in Free(t);
    }
    assert OnFreeList(t) == Free(t);
  }

  lemma RoomCovers(s: Pool, t: Pool, h: nat, n: nat)
    requires n < WORD && HandedOut(s, t, h, Wanted(n))
    ensures h in t.blocks.next && (Room(t.blocks, h) >= n <==> n <= WORD - 4)
  {
    WantedIs(n);
  }

  /** The block handed out holds what was asked for exactly if RT_ALIGN does not wrap: the three largest sizes become
      0, and then RT_MEMHEAP_MINIALLOC. */
  lemma AllocCovers(s: Pool, size: nat, n: nat, h: nat)
    requires PoolInv(s, size) && n < WORD && Alloc(s, size, Wanted(n)).1 == At(h + HDR)
    ensures var t := Alloc(s, size, Wanted(n)).0;
            h in t.blocks.next && (Room(t.blocks, h) >= n <==> n <= WORD - 4)
  {
    WantedIs(n);
    var t, r, g := Allocated(s, size, Wanted(n));
    RoomCovers(s, t, g, n);
  }

  /** After every run: the blocks lie one behind the other and their links agree; the free list holds exactly
      the unused ones, no two of which are neighbours; their data is what is available; and headers and data
      are the whole pool. */
  lemma RunKeepsPool(s: Pool, size: nat, ops: seq<PoolOp>, b: nat)
    requires PoolInv(s, size) && b in RunOf(s, size, ops).blocks.next
    ensures var t := RunOf(s, size, ops);
            var n := t.blocks.next[b];
            && n in t.blocks.next && n in t.blocks.prev && t.blocks.prev[n] == b
            && (if b == size - HDR then n == 0 && b in t.used else b + HDR <= n <= size - HDR)
            && NoDup(t.free) && (b in t.free <==> b !in t.used) && (b in t.free ==> n !in t.free)
            && t.avail == Sum(t.blocks, OnFreeList(t))
            && Sum(t.blocks, t.blocks.next.Keys) + HDR * |t.blocks.next| == size
  {
    BlockInPlace(RunOf(s, size, ops), size, b);
    FreeListed(RunOf(s, size, ops), size, b);
  }

  /** The most that was not available at any time of a run. */
  ghost function Peak(s: Pool, size: nat, ops: seq<PoolOp>): int
    requires PoolInv(s, size)
    decreases |ops|
  {
    if ops == [] then size - s.avail else
      var rest := Peak(StepOf(s, size, ops[0]), size, ops[1..]);
      if size - s.avail > rest then size - s.avail else rest
  }

  ghost predicate Peaked(s: Pool, t: Pool, size: nat) {
    t.top == if size - t.avail > s.top then size - t.avail else s.top
  }

  lemma StepPeaks(s: Pool, size: nat, op: PoolOp)
    requires PoolInv(s, size)
    ensures Peaked(s, StepOf(s, size, op), size)
  {
    if May(s, size, op) {
      match op
      case AllocOp(n) => AllocPeaks(s, size, Wanted(n));
      case FreeOp(h) => FreeKeeps(s, size, h);
      case ResizeOp(h, n) => InPlacePeaks(s, size, h, Wanted(n));
    }
  }

  lemma AllocPeaks(s: Pool, size: nat, n: nat)
    requires s.top >= size - s.avail
    ensures Peaked(s, Alloc(s, size, n).0, size)
  {
  }

  lemma InPlacePeaks(s: Pool, size: nat, h: nat, n: nat)
    requires PoolInv(s, size) && h in s.used && h != size - HDR && n < WORD && Aligned(n)
    ensures Peaked(s, InPlace(s, size, h, n), size)
  {
    Behind(s, size, h);
    if n + HDR + MINIALLOC < Room(s.blocks, h) {
      ShrinkAccounted(s, size, h, n);
      MoreAvailable(s, size, h, n);
    }
  }

  /** `max_used_size` is the running maximum of the pool size less the available size. */
  lemma {:induction false} TopIsPeak(s: Pool, size: nat, ops: seq<PoolOp>)
    requires PoolInv(s, size)
    ensures RunOf(s, size, ops).top == if Peak(s, size, ops) > s.top then Peak(s, size, ops) else s.top
    decreases |ops|
  {
    if ops != [] {
      StepPeaks(s, size, ops[0]);
      TopIsPeak(StepOf(s, size, ops[0]), size, ops[1..]);
      PeakCovers(StepOf(s, size, ops[0]), size, ops[1..]);
    }
  }

  lemma PeakCovers(s: Pool, size: nat, ops: seq<PoolOp>)
    requires PoolInv(s, size)
    ensures Peak(s, size, ops) >= size - s.avail
  {
  }

  lemma MoveAsRun(s: Pool, size: nat, h: nat, newsize: nat)
    requires PoolInv(s, size) && h in s.used && h != size - HDR && newsize < WORD && Aligned(Wanted(newsize))
    ensures var (t, r) := Move(s, size, h, Wanted(newsize));
            t == RunOf(s, size, if r.At? then [AllocOp(newsize), FreeOp(h)] else [])
  {
    AllocKeeps(s, size, Wanted(newsize));
    var (t, r) := Alloc(s, size, Wanted(newsize));
    if r.At? {
      assert StepOf(s, size, AllocOp(newsize)) == t;
      assert [AllocOp(newsize), FreeOp(h)][1..] == [FreeOp(h)];
      OneStep(t, size, FreeOp(h));
    }
  }

  /** A reallocation is a step in place, or an allocation followed by a free. */
  lemma ReallocAsRun(s: Pool, size: nat, h: nat, newsize: nat)
    requires PoolInv(s, size) && h in s.used && h != size - HDR && 0 < newsize < WORD
    requires h in s.blocks.next && s.blocks.next[h] in s.blocks.next && DecidesRight(s, h, Wanted(newsize))
    ensures var (t, r) := Realloc(s, size, h, newsize);
            t == RunOf(s, size, if r == At(h + HDR) then [ResizeOp(h, newsize)]
                                else if r.At? then [AllocOp(newsize), FreeOp(h)]
                                else [])
  {
    WantedIs(newsize);
    Behind(s, size, h);
    if Moves(s, h, Wanted(newsize)) {
      MoveKeeps(s, size, h, Wanted(newsize));
      MoveAsRun(s, size, h, newsize);
    } else {
      OneStep(s, size, ResizeOp(h, newsize));
    }
  }

  lemma OneStep(s: Pool, size: nat, op: PoolOp)
    requires PoolInv(s, size)
    ensures RunOf(s, size, [op]) == StepOf(s, size, op)
  {
    assert [op][1..] == [];
  }

  /** `rt_memheap_init`: one unused block, and the tail. */
  function Fresh(size: nat): Pool
    requires size >= 2 * HDR
  {
    var tail := size - HDR;
    Pool(Blocks(map[0 := tail, tail := 0], map[0 := tail, tail := 0]), {tail}, [0], size - 2 * HDR, 2 * HDR)
  }

  lemma FreshSums(size: nat)
    requires size >= 2 * HDR
    ensures var a, tail := Fresh(size).blocks, size - HDR;
            Sum(a, {0}) == size - 2 * HDR && Sum(a, {0, tail}) == size - 2 * HDR
  {
    var a, tail := Fresh(size).blocks, size - HDR;
    SumWith(a, {}, 0);
    assert Rooms(a, {}) == map[];
    assert {} + {0} == {0};
    assert Rooms(a, {0, tail}) == Rooms(a, {0})[tail := 0];
    TotalWith(Rooms(a, {0}), tail, 0);
  }

  lemma FreshTiled(size: nat)
    requires size >= 2 * HDR
    ensures Tiled(Fresh(size).blocks, size - HDR)
  {
    var a, tail := Fresh(size).blocks, size - HDR;
    assert Placed(a, tail, 0) && Placed(a, tail, tail) && Clear(a, tail, 0) && Clear(a, tail, tail);
  }

  lemma TailAligned(size: nat)
    requires size >= 2 * HDR && size % 4 == 0
    ensures Aligned(0) && Aligned(size - HDR)
  {
  }

  lemma FreshInv(size: nat)
    requires 2 * HDR <= size < WORD && size % 4 == 0
    ensures PoolInv(Fresh(size), size)
  {
    var s, tail := Fresh(size), size - HDR;
    FreshSums(size);
    FreshTiled(size);
    TailAligned(size);
    assert s.blocks.next.Keys == {0, tail};
    assert Free(s) == {0};
    assert |s.blocks.next| == |s.blocks.next.Keys| == 2;
  }
}
