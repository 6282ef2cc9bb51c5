/** `struct heap_mem` inside the heap's own bytes, and how the links spell out a block list. */
module HeapBytes {
  import opened HeapLayout

  newtype byte = x: int | 0 <= x < 256

  const HEAP_MAGIC: nat := 0x1ea0

  datatype Header = Header(magic: nat, used: nat, next: nat, prev: nat)

  // ---------- headers in the bytes ----------

  function Half(m: seq<byte>, p: nat): nat
    requires p + 2 <= |m|
  {
    m[p] as nat + 0x100 * m[p + 1] as nat
  }

  function Word(m: seq<byte>, p: nat): nat
    requires p + 4 <= |m|
  {
    m[p] as nat + 0x100 * m[p + 1] as nat + 0x1_0000 * m[p + 2] as nat + 0x100_0000 * m[p + 3] as nat
  }

  function HeaderAt(m: seq<byte>, p: nat): Header
    requires p + HEADER <= |m|
  {
    Header(Half(m, p), Half(m, p + 2), Word(m, p + 4), Word(m, p + 8))
  }

  /** The four bytes of a stored word add up to the word again. */
  lemma WordBytes(v: nat)
    requires v < WORD
    ensures v / 0x100_0000 < 0x100
    ensures v % 0x100 + 0x100 * (v / 0x100 % 0x100) + 0x1_0000 * (v / 0x1_0000 % 0x100)
            + 0x100_0000 * (v / 0x100_0000) == v
  {
    var a := v / 0x100;
    var b := a / 0x100;
    assert v / 0x1_0000 == b;
    assert v / 0x100_0000 == b / 0x100;
  }

  /** `h` is what the bytes say at the offsets it covers, and no two of those headers overlap. */
  ghost predicate Decodes(m: seq<byte>, h: map<nat, Header>) {
    && (forall p :: p in h ==> p + HEADER <= |m|)
    && (forall p {:trigger HeaderAt(m, p)} :: p in h ==> HeaderAt(m, p) == h[p])
    && (forall p, q :: p in h && q in h && p != q ==> p + HEADER <= q || q + HEADER <= p)
  }

  /** The headers no byte of which lies in [lo, hi). */
  function Forget(h: map<nat, Header>, lo: nat, hi: nat): map<nat, Header> {
    map q | q in h && (q + HEADER <= lo || hi <= q) :: h[q]
  }

  predicate OnlyBytes(before: seq<byte>, after: seq<byte>, lo: nat, hi: nat) {
    |after| == |before| && forall k :: 0 <= k < |before| && !(lo <= k < hi) ==> after[k] == before[k]
  }

  /** Headers elsewhere survive a write to [lo, hi). */
  lemma BytesWritten(before: seq<byte>, after: seq<byte>, h: map<nat, Header>, lo: nat, hi: nat)
    requires Decodes(before, h) && OnlyBytes(before, after, lo, hi)
    ensures Decodes(after, Forget(h, lo, hi))
  {
    forall q | q in Forget(h, lo, hi)
      ensures HeaderAt(after, q) == h[q]
    {
      assert HeaderAt(before, q) == h[q];
    }
  }

  lemma HeaderWritten(before: seq<byte>, after: seq<byte>, h: map<nat, Header>, p: nat, e: Header)
    requires Decodes(before, h) && p + HEADER <= |before|
    requires OnlyBytes(before, after, p, p + HEADER) && HeaderAt(after, p) == e
    requires forall q :: q in h && q != p ==> p + HEADER <= q || q + HEADER <= p
    ensures Decodes(after, h[p := e])
  {
    BytesWritten(before, after, h, p, p + HEADER);
    forall q | q in h && q != p
      ensures HeaderAt(after, q) == h[q]
    {
      assert q in Forget(h, p, p + HEADER);
    }
  }

  // ---------- links and block lists ----------

  predicate Links(h: map<nat, Header>, bs: seq<Block>, i: nat)
    requires i < |bs|
  {
    && bs[i].off in h
    && h[bs[i].off] == Header(HEAP_MAGIC, if bs[i].used then 1 else 0, bs[i].next, if i == 0 then 0 else bs[i - 1].off)
  }

  /** The headers spell out the list `bs` up to the sentinel at `end`. The sentinel is in use and
      points to itself; its back link goes stale and is not constrained. */
  ghost predicate Linked(h: map<nat, Header>, bs: seq<Block>, end: nat) {
    && bs != [] && Tiles(bs, 0, end)
    && (forall i :: 0 <= i < |bs| ==> Links(h, bs, i))
    && end in h && h[end].magic == HEAP_MAGIC && h[end].used == 1 && h[end].next == end
  }

  /** What the code finds when it follows the links at position i. */
  lemma LinksAt(h: map<nat, Header>, bs: seq<Block>, end: nat, i: nat)
    requires Linked(h, bs, end)
    ensures OffAt(bs, i, end) in h
    ensures i < |bs| ==> OffAt(bs, i + 1, end) in h
    ensures i < |bs| ==> Links(h, bs, i) && bs[i].next == OffAt(bs, i + 1, end)
    ensures i < |bs| ==> bs[i].off + HEADER <= bs[i].next <= end
    ensures 0 < i < |bs| ==> bs[i - 1].next == bs[i].off
  {
    if i < |bs| {
      assert Links(h, bs, i);
      Within(bs, 0, end, i);
      if i > 0 {
        assert Touch(bs, i);
      }
      if i + 1 < |bs| {
        assert Touch(bs, i + 1) && Links(h, bs, i + 1);
      }
    }
  }

  /** The link writes of a merge: the block at p now ends at nn. */
  function Relinked(h: map<nat, Header>, p: nat, nn: nat): map<nat, Header>
    requires p in h && nn in h
  {
    var h1 := h[p := h[p].(next := nn)];
    h1[nn := h1[nn].(prev := p)]
  }

  lemma RelinkedAt(h: map<nat, Header>, bs: seq<Block>, end: nat, i: nat, j: nat)
    requires Tiles(bs, 0, end) && i + 1 < |bs| && !bs[i + 1].used
    requires bs[i].off in h && bs[i + 1].next in h && bs[i].off < bs[i + 1].off < bs[i + 1].next
    requires j < |bs| - 1 && Links(h, bs, if j <= i then j else j + 1)
    ensures |MergeForward(bs, i)| == |bs| - 1
    ensures Links(Relinked(h, bs[i].off, bs[i + 1].next), MergeForward(bs, i), j)
  {
    var k := if j <= i then j else j + 1;
    if k < i {
      Ordered(bs, 0, end, k, i);
    } else if k == i + 2 {
      assert Touch(bs, k);
    } else if k > i + 2 {
      Ordered(bs, 0, end, i + 1, k);
      Ordered(bs, 0, end, i + 2, k);
      assert Touch(bs, i + 2);
    }
  }

  /** plug_holes links the headers up as the merged list. */
  lemma RelinkedLinked(h: map<nat, Header>, bs: seq<Block>, end: nat, i: nat)
    requires Linked(h, bs, end) && i + 1 < |bs| && !bs[i].used && !bs[i + 1].used
    ensures bs[i].off in h && bs[i + 1].next in h
    ensures Linked(Relinked(h, bs[i].off, bs[i + 1].next), MergeForward(bs, i), end)
  {
    LinksAt(h, bs, end, i);
    LinksAt(h, bs, end, i + 1);
    MergeForwardTiles(bs, 0, end, i);
    var h2, cs := Relinked(h, bs[i].off, bs[i + 1].next), MergeForward(bs, i);
    forall j | 0 <= j < |cs|
      ensures Links(h2, cs, j)
    {
      assert Links(h, bs, if j <= i then j else j + 1);
      RelinkedAt(h, bs, end, i, j);
    }
  }

  /** The header writes of a split at `at`, inside the data of the block at p. */
  function SplitHeaders(h: map<nat, Header>, p: nat, at: nat, end: nat): map<nat, Header>
    requires p in h
  {
    var nn := h[p].next;
    var h1 := Forget(h, at, at + HEADER)[at := Header(HEAP_MAGIC, 0, nn, p)];
    var h2 := if p in h1 then h1[p := h1[p].(next := at)] else h1;
    if nn != end && nn in h2 then h2[nn := h2[nn].(prev := at)] else h2
  }

  lemma SplitAt(h: map<nat, Header>, bs: seq<Block>, end: nat, i: nat, at: nat, j: nat)
    requires Tiles(bs, 0, end) && i < |bs| && bs[i].used
    requires bs[i].off + HEADER < at && at + HEADER <= bs[i].next
    requires Links(h, bs, i)
    requires j < |bs| && Links(h, bs, j)
    ensures Links(SplitHeaders(h, bs[i].off, at, end), Split(bs, i, at), if j <= i then j else j + 1)
  {
    Within(bs, 0, end, j);
    if j < i {
      Ordered(bs, 0, end, j, i);
    } else if j == i + 1 {
      assert Touch(bs, j);
    } else if j > i + 1 {
      assert Touch(bs, i + 1);
      Ordered(bs, 0, end, i, j);
      Ordered(bs, 0, end, i + 1, j);
    }
  }

  lemma SplitLinked(h: map<nat, Header>, bs: seq<Block>, end: nat, i: nat, at: nat)
    requires Linked(h, bs, end) && i < |bs| && bs[i].used
    requires at % ALIGN == 0 && bs[i].off + HEADER < at && at + HEADER <= bs[i].next
    ensures bs[i].off in h
    ensures Linked(SplitHeaders(h, bs[i].off, at, end), Split(bs, i, at), end)
  {
    LinksAt(h, bs, end, i);
    SplitTiles(bs, 0, end, i, at);
    var h2, cs := SplitHeaders(h, bs[i].off, at, end), Split(bs, i, at);
    forall j | 0 <= j < |cs|
      ensures Links(h2, cs, j)
    {
      if j != i + 1 {
        var k := if j <= i then j else j - 1;
        assert Links(h, bs, k);
        SplitAt(h, bs, end, i, at, k);
      } 
    }
  }

  function Marked(h: map<nat, Header>, p: nat, used: nat): map<nat, Header>
    requires p in h
  {
    h[p := h[p].(magic := HEAP_MAGIC, used := used)]
  }

  lemma MarkLinked(h: map<nat, Header>, bs: seq<Block>, end: nat, i: nat, used: bool)
    requires Linked(h, bs, end) && i < |bs| && (used ==> bs[i].Room() > 0)
    ensures bs[i].off in h
    ensures Linked(Marked(h, bs[i].off, if used then 1 else 0), MarkUsed(bs, i, used), end)
  {
    LinksAt(h, bs, end, i);
    MarkTiles(bs, 0, end, i, used);
    var h2, cs := Marked(h, bs[i].off, if used then 1 else 0), MarkUsed(bs, i, used);
    forall j | 0 <= j < |cs|
      ensures Links(h2, cs, j)
    {
      assert Links(h, bs, j);
      if j < i {
        Ordered(bs, 0, end, j, i);
      } else if i < j {
        Ordered(bs, 0, end, i, j);
      }
    }
  }

  // ---------- data ----------

  predicate SameBlock(b: Block, before: seq<byte>, after: seq<byte>) {
    forall k :: b.off + HEADER <= k < b.next && k < |before| && k < |after| ==> after[k] == before[k]
  }

  /** The data bytes of every live block of `bs` are as they were. */
  ghost predicate SameData(bs: seq<Block>, before: seq<byte>, after: seq<byte>) {
    |after| == |before|
    && forall j {:trigger SameBlock(bs[j], before, after)} ::
         0 <= j < |bs| && bs[j].used ==> SameBlock(bs[j], before, after)
  }

  /** Only headers at p, q and r may have changed. */
  predicate OnlyHeaders(before: seq<byte>, after: seq<byte>, p: nat, q: nat, r: nat) {
    |after| == |before|
    && forall k :: 0 <= k < |before| && !(p <= k < p + HEADER) && !(q <= k < q + HEADER) && !(r <= k < r + HEADER)
                   ==> after[k] == before[k]
  }

  /** A header at p covers no data byte of any block. */
  ghost predicate ClearOfData(bs: seq<Block>, p: nat) {
    forall j :: 0 <= j < |bs| ==> bs[j].next <= p || p <= bs[j].off
  }

  lemma BlockStartIsClear(bs: seq<Block>, end: nat, i: nat)
    requires Tiles(bs, 0, end)
    ensures ClearOfData(bs, OffAt(bs, i, end))
  {
    forall j | 0 <= j < |bs|
      ensures bs[j].next <= OffAt(bs, i, end) || OffAt(bs, i, end) <= bs[j].off
    {
      Within(bs, 0, end, j);
      if j < i < |bs| {
        Ordered(bs, 0, end, j, i);
      } else if i < j {
        Ordered(bs, 0, end, i, j);
      }
    }
  }

  /** Header writes at the starts of blocks i, i + 1 and i + 2, or at the sentinel, leave all data alone. */
  lemma HeaderWritesKeepData(bs: seq<Block>, end: nat, i: nat, before: seq<byte>, after: seq<byte>)
    requires Tiles(bs, 0, end)
    requires OnlyHeaders(before, after, OffAt(bs, i, end), OffAt(bs, i + 1, end), OffAt(bs, i + 2, end))
    ensures SameData(bs, before, after)
  {
    BlockStartIsClear(bs, end, i);
    BlockStartIsClear(bs, end, i + 1);
    BlockStartIsClear(bs, end, i + 2);
  }

  lemma SameDataFewer(bs: seq<Block>, cs: seq<Block>, before: seq<byte>, after: seq<byte>)
    requires SameData(bs, before, after) && UsedSet(cs) <= UsedSet(bs)
    ensures SameData(cs, before, after)
  {
    forall j | 0 <= j < |cs| && cs[j].used
      ensures SameBlock(cs[j], before, after)
    {
      assert cs[j] in UsedSet(bs);
      var i :| 0 <= i < |bs| && bs[i] == cs[j];
      assert SameBlock(bs[i], before, after);
    }
  }

  lemma SameDataTrans(bs: seq<Block>, a: seq<byte>, b: seq<byte>, c: seq<byte>)
    requires SameData(bs, a, b) && SameData(bs, b, c)
    ensures SameData(bs, a, c)
  {
    forall j | 0 <= j < |bs| && bs[j].used
      ensures SameBlock(bs[j], a, c)
    {
      assert SameBlock(bs[j], a, b) && SameBlock(bs[j], b, c);
    }
  }

  /** Bringing block i into use and then splitting it. */
  lemma SplitKeepsData(cs: seq<Block>, i: nat, at: nat, a: seq<byte>, b: seq<byte>, c: seq<byte>)
    requires i < |cs| && at <= cs[i].next && cs[i].used
    requires SameData(cs, a, b) && SameData(Split(cs, i, at), b, c)
    ensures SameData(Split(cs, i, at), a, c)
  {
    var ds := Split(cs, i, at);
    forall j | 0 <= j < |ds| && ds[j].used
      ensures SameBlock(ds[j], a, c)
    {
      assert SameBlock(ds[j], b, c) && SameBlock(cs[if j <= i then j else j - 1], a, b);
    }
  }

  /** Storing into the data of block i leaves every link in place. */
  lemma ForgetLinked(h: map<nat, Header>, bs: seq<Block>, end: nat, i: nat, lo: nat, hi: nat)
    requires Linked(h, bs, end) && i < |bs| && bs[i].off + HEADER <= lo && hi <= bs[i].next
    ensures Linked(Forget(h, lo, hi), bs, end)
  {
    forall j | 0 <= j < |bs|
      ensures Links(Forget(h, lo, hi), bs, j)
    {
      assert Links(h, bs, j);
      if j < i {
        Ordered(bs, 0, end, j, i);
      } else if i < j {
        Ordered(bs, 0, end, i, j);
      }
    }
    Within(bs, 0, end, i);
  }

  /** Different blocks of one list have disjoint extents. */
  lemma BlocksDisjoint(bs: seq<Block>, end: nat, b: Block, c: Block)
    requires Tiles(bs, 0, end) && b in bs && c in bs && b != c
    ensures b.next <= c.off || c.next <= b.off
  {
    var i :| 0 <= i < |bs| && bs[i] == b;
    var j :| 0 <= j < |bs| && bs[j] == c;
    if i < j {
      Ordered(bs, 0, end, i, j);
    } else {
      Ordered(bs, 0, end, j, i);
    }
  }

  lemma TwoBlocks(bs: seq<Block>, end: nat, j: nat, k: nat)
    requires Tiles(bs, 0, end) && j < |bs| && k < |bs| && j != k
    ensures bs[j] != bs[k] && (bs[j].next <= bs[k].off || bs[k].next <= bs[j].off)
    ensures bs[j].next <= end && bs[k].next <= end
  {
    Within(bs, 0, end, j);
    Within(bs, 0, end, k);
    if j < k {
      Ordered(bs, 0, end, j, k);
    } else {
      Ordered(bs, 0, end, k, j);
    }
  }

  predicate CarriedOver(before: seq<byte>, p: nat, after: seq<byte>, q: nat, n: nat) {
    p + n <= |before| && q + n <= |after| && forall t :: q <= t < q + n ==> after[t] == before[t - q + p]
  }

  /** A copy into the data of block k, then a free after which `ds` has kept its data: bystanders
      are as they were, and the copied bytes are still in place. */
  lemma MoveKeeps(cs: seq<Block>, ds: seq<Block>, es: seq<Block>, end: nat, k: nat, src: nat, n: nat,
                  m1: seq<byte>, m2: seq<byte>, m3: seq<byte>)
    requires Tiles(cs, 0, end) && k < |cs| && n <= cs[k].Room()
    requires OnlyBytes(m1, m2, cs[k].off + HEADER, cs[k].off + HEADER + n)
    requires CarriedOver(m1, src, m2, cs[k].off + HEADER, n)
    requires SameData(ds, m2, m3)
    requires cs[k] in UsedSet(ds) && UsedSet(es) <= UsedSet(ds) && UsedSet(es) <= UsedSet(cs) - {cs[k]}
    ensures SameData(es, m1, m3)
    ensures CarriedOver(m1, src, m3, cs[k].off + HEADER, n)
  {
    SameDataFewer(ds, es, m2, m3);
    forall j | 0 <= j < |es| && es[j].used
      ensures SameBlock(es[j], m1, m3)
    {
      assert es[j] in UsedSet(es) && SameBlock(es[j], m2, m3);
      BlocksDisjoint(cs, end, es[j], cs[k]);
    }
    var j :| 0 <= j < |ds| && ds[j] == cs[k];
    assert SameBlock(ds[j], m2, m3);
  }

  /** What the allocation before the copy left alone (m0 to m1) is as it was at the end. */
  lemma GrowData(cs: seq<Block>, es: seq<Block>, j: nat, dst: nat, n: nat, m0: seq<byte>, m1: seq<byte>, m3: seq<byte>)
    requires j < |cs| && cs[j].used && n <= cs[j].Room()
    requires UsedSet(es) <= UsedSet(cs) && SameData(cs, m0, m1) && SameData(es, m1, m3)
    requires CarriedOver(m1, cs[j].off + HEADER, m3, dst, n)
    ensures SameData(es, m0, m3)
    ensures CarriedOver(m0, cs[j].off + HEADER, m3, dst, n)
  {
    SameDataFewer(cs, es, m0, m1);
    SameDataTrans(es, m0, m1, m3);
    assert SameBlock(cs[j], m0, m1);
  }
}
