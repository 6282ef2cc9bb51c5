/** `mem.c`: the heap this firmware is built with. Headers live in the same bytes as the data they
    describe, and every link is read out of those bytes. */
module SmallHeap {
  import opened HeapLayout
  import opened HeapBytes

  /** An address relative to `heap_ptr`; it may lie outside the heap. */
  datatype Pointer = Null | Addr(off: int)

  /** RT_ALIGN(n, 4) in 32-bit arithmetic: it wraps to 0 for the three largest sizes. */
  function Align(n: nat): nat
    requires n < WORD
  {
    (n + ALIGN - 1) % WORD / ALIGN * ALIGN
  }

  /** What RT_ALIGN promises, and the three sizes for which it does not. */
  lemma AlignIs(n: nat)
    requires n < WORD
    ensures Align(n) % ALIGN == 0
    ensures if n <= WORD - ALIGN then n <= Align(n) < n + ALIGN else Align(n) == 0
  {
    if n > WORD - ALIGN {
      assert (n + ALIGN - 1) % WORD == n + ALIGN - 1 - WORD;
    }
  }

  function Max(a: int, b: int): int {
    if a < b then b else a
  }

  function Min(a: int, b: int): int {
    if a < b then a else b
  }

  /** The data size `rt_malloc` looks for, once the request is aligned. */
  function Want(aligned: nat): nat {
    Max(aligned, MIN_SIZE)
  }

  /** The block taken for an aligned request; |bs| when there is none. */
  function Choice(bs: seq<Block>, memSize: nat, aligned: nat): nat {
    if aligned > memSize then |bs| else FirstFit(bs, Want(aligned), memSize - Want(aligned))
  }

  /** The most that is in use during a call that takes a block for `aligned` bytes. */
  function HighWater(bs: seq<Block>, memSize: nat, aligned: nat): int {
    var k := Choice(bs, memSize, aligned);
    if k < |bs| then UsedSpan(Take(bs, k, Want(aligned))) else 0
  }

  /** rt_realloc neither keeps nor splits the block. */
  predicate TakesFresh(b: Block, size: nat) {
    b.Room() != size && b.Room() <= size + HEADER + MIN_SIZE
  }

  /** `max_mem` after rt_realloc of an aligned size. */
  function ReallocTop(bs: seq<Block>, memSize: nat, p: Pointer, size: nat, top: int): int {
    if size == 0 || size > memSize then top
    else if p.Null? then Max(top, HighWater(bs, memSize, size))
    else
      var i := LiveAt(bs, p.off - HEADER);
      if i < |bs| && TakesFresh(bs[i], size) then Max(top, HighWater(bs, memSize, size)) else top
  }

  class Heap {
    const memSize: nat
    const ram: array<byte>
    var lfree: nat
    var usedMem: nat
    var maxMem: nat
    ghost var headers: map<nat, Header>
    ghost var blocks: seq<Block>

    function End(): nat {
      memSize + HEADER
    }

    // ---------- the invariant ----------

    ghost predicate Stored()
      reads this`headers, ram
    {
      && ram.Length == memSize + 2 * HEADER <= WORD
      && Decodes(ram[..], headers)
    }

    ghost predicate Carries()
      reads this`headers, this`blocks, ram
    {
      Stored() && Linked(headers, blocks, End())
    }

    ghost predicate Valid()
      reads this, ram
    {
      && Carries()
      && memSize % ALIGN == 0
      && Coalesced(blocks)
      && lfree == LowestFree(blocks, End())
      && usedMem == UsedSpan(blocks)
      && usedMem <= maxMem
    }

    // ---------- rt_system_heap_init ----------

    constructor (size: nat)
      requires size % ALIGN == 0 && size + 2 * HEADER <= WORD
      ensures Valid() && fresh(ram) && memSize == size
      ensures blocks == [Block(0, End(), false)] && usedMem == 0 && maxMem == 0
    {
      memSize := size;
      ram := new byte[size + 2 * HEADER];
      lfree, usedMem, maxMem := 0, 0, 0;
      headers, blocks := map[], [Block(0, size + HEADER, false)];
      new;
      CreateHeader(0, Header(HEAP_MAGIC, 0, size + HEADER, 0));
      CreateHeader(End(), Header(HEAP_MAGIC, 1, size + HEADER, size + HEADER));
      assert Links(headers, blocks, 0);
      LowestIs(blocks, End(), 0);
      SpanStep(blocks, 0);
    }

    // ---------- reading and writing headers ----------

    method PutWord(p: nat, v: nat)
      requires p + 4 <= ram.Length && v < WORD
      modifies ram
      ensures Word(ram[..], p) == v && OnlyBytes(old(ram[..]), ram[..], p, p + 4)
    {
      WordBytes(v);
      ram[p] := (v % 0x100) as byte;
      ram[p + 1] := (v / 0x100 % 0x100) as byte;
      ram[p + 2] := (v / 0x1_0000 % 0x100) as byte;
      ram[p + 3] := (v / 0x100_0000) as byte;
    }

    method PutHalf(p: nat, v: nat)
      requires p + 2 <= ram.Length && v < 0x1_0000
      modifies ram
      ensures Half(ram[..], p) == v && OnlyBytes(old(ram[..]), ram[..], p, p + 2)
    {
      ram[p] := (v % 0x100) as byte;
      ram[p + 1] := (v / 0x100) as byte;
    }

    method ReadHeader(p: nat) returns (h: Header)
      requires Stored() && p in headers
      ensures h == headers[p]
    {
      h := HeaderAt(ram[..], p);
    }

    method SetNext(p: nat, v: nat)
      requires Stored() && p in headers && v < WORD
      modifies this`headers, ram
      ensures Stored() && headers == old(headers)[p := old(headers)[p].(next := v)]
      ensures OnlyBytes(old(ram[..]), ram[..], p, p + HEADER)
    {
      assert HeaderAt(ram[..], p) == headers[p];
      PutWord(p + 4, v);
      headers := headers[p := headers[p].(next := v)];
      HeaderWritten(old(ram[..]), ram[..], old(headers), p, headers[p]);
    }

    method SetPrev(p: nat, v: nat)
      requires Stored() && p in headers && v < WORD
      modifies this`headers, ram
      ensures Stored() && headers == old(headers)[p := old(headers)[p].(prev := v)]
      ensures OnlyBytes(old(ram[..]), ram[..], p, p + HEADER)
    {
      assert HeaderAt(ram[..], p) == headers[p];
      PutWord(p + 8, v);
      headers := headers[p := headers[p].(prev := v)];
      HeaderWritten(old(ram[..]), ram[..], old(headers), p, headers[p]);
    }

    /** `mem->used = used; mem->magic = HEAP_MAGIC`. */
    method Mark(p: nat, used: nat)
      requires Stored() && p in headers && used < 0x1_0000
      modifies this`headers, ram
      ensures Stored() && headers == Marked(old(headers), p, used)
      ensures OnlyBytes(old(ram[..]), ram[..], p, p + HEADER)
    {
      assert HeaderAt(ram[..], p) == headers[p];
      PutHalf(p + 2, used);
      PutHalf(p, HEAP_MAGIC);
      headers := Marked(headers, p, used);
      HeaderWritten(old(ram[..]), ram[..], old(headers), p, headers[p]);
    }

    /** A header is laid over bytes that were data, or a header gone out of use. */
    method CreateHeader(p: nat, h: Header)
      requires Stored() && p + HEADER <= ram.Length
      requires h.magic < 0x1_0000 && h.used < 0x1_0000 && h.next < WORD && h.prev < WORD
      modifies this`headers, ram
      ensures Stored() && headers == Forget(old(headers), p, p + HEADER)[p := h]
      ensures OnlyBytes(old(ram[..]), ram[..], p, p + HEADER)
    {
      PutHalf(p, h.magic);
      PutHalf(p + 2, h.used);
      PutWord(p + 4, h.next);
      PutWord(p + 8, h.prev);
      headers := Forget(headers, p, p + HEADER)[p := h];
      BytesWritten(old(ram[..]), ram[..], old(headers), p, p + HEADER);
      HeaderWritten(ram[..], ram[..], Forget(old(headers), p, p + HEADER), p, h);
    }

    // ---------- plug_holes ----------

    /** The link writes of one merge: the block at p swallows its right neighbour, which ends at nn. */
    method Merge(p: nat, nn: nat, ghost i: nat)
      requires Carries() && i + 1 < |blocks| && !blocks[i].used && !blocks[i + 1].used
      requires p == blocks[i].off && nn == blocks[i + 1].next
      modifies this`headers, this`blocks, ram
      ensures Carries() && blocks == MergeForward(old(blocks), i)
      ensures SameData(old(blocks), old(ram[..]), ram[..])
    {
      ghost var bs := blocks;
      LinksAt(headers, bs, End(), i);
      LinksAt(headers, bs, End(), i + 1);
      RelinkedLinked(headers, bs, End(), i);
      SetNext(p, nn);
      SetPrev(nn, p);
      blocks := MergeForward(bs, i);
      HeaderWritesKeepData(bs, End(), i, old(ram[..]), ram[..]);
    }

    method PlugForward(p: nat, ghost i: nat)
      requires Carries() && i < |blocks| && !blocks[i].used && p == blocks[i].off
      modifies this`headers, this`blocks, this`lfree, ram
      ensures Carries() && blocks == MergeForward(old(blocks), i)
      ensures lfree == if i + 1 < |old(blocks)| && !old(blocks[i + 1]).used && old(lfree) == old(blocks[i + 1]).off
                       then p else old(lfree)
      ensures SameData(old(blocks), old(ram[..]), ram[..])
    {
      LinksAt(headers, blocks, End(), i);
      LinksAt(headers, blocks, End(), i + 1);
      var mem := ReadHeader(p);
      var n := mem.next;
      var nmem := ReadHeader(n);
      if p != n && nmem.used == 0 && n != End() {
        Merge(p, nmem.next, i);
        if lfree == n {
          lfree := p;
        }
      }
    }

    method PlugBackward(p: nat, ghost i: nat)
      requires Carries() && i < |blocks| && !blocks[i].used && p == blocks[i].off
      modifies this`headers, this`blocks, this`lfree, ram
      ensures Carries() && blocks == MergeBackward(old(blocks), i)
      ensures lfree == if i > 0 && !old(blocks[i - 1]).used
              && old(lfree) == p then old(blocks[i - 1]).off else old(lfree)
      ensures SameData(old(blocks), old(ram[..]), ram[..])
    {
      LinksAt(headers, blocks, End(), i);
      var mem := ReadHeader(p);
      var q := mem.prev;
      if i > 0 {
        LinksAt(headers, blocks, End(), i - 1);
      }
      var pmem := ReadHeader(q);
      if q != p && pmem.used == 0 {
        Merge(q, mem.next, i - 1);
        if lfree == p {
          lfree := q;
        }
      }
    }

    method PlugHoles(p: nat, ghost i: nat)
      requires Carries() && i < |blocks| && !blocks[i].used && p == blocks[i].off
      modifies this`headers, this`blocks, this`lfree, ram
      ensures Carries() && blocks == Plug(old(blocks), i)
      ensures lfree == PlugLow(old(blocks), i, old(lfree))
      ensures SameData(old(blocks), old(ram[..]), ram[..])
    {
      PlugForward(p, i);
      MergeForwardLive(old(blocks), i);
      ghost var mid := ram[..];
      PlugBackward(p, i);
      SameDataFewer(MergeForward(old(blocks), i), old(blocks), mid, ram[..]);
      SameDataTrans(old(blocks), old(ram[..]), mid, ram[..]);
    }
  
    /** A block just gone out of use: it may be the lowest free one, and it is merged. `m0` is the
        memory at the start of the call in progress. */
    method Absorb(p: nat, ghost i: nat, ghost m0: seq<byte>)
      requires Carries() && i < |blocks| && !blocks[i].used && p == blocks[i].off
      requires SameData(blocks, m0, ram[..])
      modifies this`headers, this`blocks, this`lfree, ram
      ensures Carries() && blocks == Plug(old(blocks), i)
      ensures lfree == PlugLow(old(blocks), i, Min(old(lfree), p))
      ensures SameData(blocks, m0, ram[..])
    {
      if p < lfree {
        lfree := p;
      }
      PlugLive(blocks, i);
      PlugHoles(p, i);
      SameDataTrans(old(blocks), m0, old(ram[..]), ram[..]);
      SameDataFewer(old(blocks), blocks, m0, ram[..]);
    }

    // ---------- rt_malloc ----------

    /** The header writes of a split at `at`, inside the data of the block at p, which ends at nn. */
    method CutHeaders(p: nat, at: nat, nn: nat)
      requires Stored() && p in headers && nn in headers && nn == headers[p].next < WORD
      requires p + HEADER <= at && at + HEADER <= nn
      modifies this`headers, ram
      ensures Stored() && headers == SplitHeaders(old(headers), p, at, End())
      ensures OnlyHeaders(old(ram[..]), ram[..], p, at, nn)
    {
      CreateHeader(at, Header(HEAP_MAGIC, 0, nn, p));
      SetNext(p, at);
      if nn != memSize + HEADER {
        SetPrev(nn, at);
      }
    }

    /** The split: a new free header at `at`, inside the data of the block in use at p. */
    method Cut(p: nat, at: nat, ghost i: nat)
      requires Carries() && i < |blocks| && blocks[i].used && p == blocks[i].off
      requires at % ALIGN == 0 && p + HEADER < at && at + HEADER <= blocks[i].next
      modifies this`headers, this`blocks, ram
      ensures Carries() && blocks == Split(old(blocks), i, at)
      ensures SameData(blocks, old(ram[..]), ram[..])
    {
      LinksAt(headers, blocks, End(), i);
      SplitLinked(headers, blocks, End(), i, at);
      var mem := ReadHeader(p);
      CutHeaders(p, at, mem.next);
      blocks := Split(blocks, i, at);
      HeaderWritesKeepData(blocks, End(), i, old(ram[..]), ram[..]);
    }

    /** Block i goes into or out of use. */
    method SetInUse(p: nat, inUse: bool, ghost i: nat)
      requires Carries() && i < |blocks| && p == blocks[i].off && (inUse ==> blocks[i].Room() > 0)
      modifies this`headers, this`blocks, ram
      ensures Carries() && blocks == MarkUsed(old(blocks), i, inUse)
      ensures SameData(blocks, old(ram[..]), ram[..])
    {
      ghost var bs := blocks;
      LinksAt(headers, bs, End(), i);
      MarkLinked(headers, bs, End(), i, inUse);
      Mark(p, if inUse then 1 else 0);
      blocks := MarkUsed(bs, i, inUse);
      HeaderWritesKeepData(blocks, End(), i, old(ram[..]), ram[..]);
    }

    method Scan(want: nat) returns (ptr: nat, ghost k: nat)
      requires Valid() && MIN_SIZE <= want <= memSize
      ensures k == FirstFit(blocks, want, memSize - want)
      ensures k < |blocks| ==> ptr == blocks[k].off
      ensures k == |blocks| ==> ptr >= memSize - want
    {
      ptr := lfree;
      k := FirstFreeFrom(blocks, 0);
      while ptr < memSize - want
        invariant k <= |blocks| && ptr == OffAt(blocks, k, End())
        invariant FirstFit(blocks, want, memSize - want) == FirstFitFrom(blocks, want, memSize - want, k)
        decreases |blocks| - k
      {
        LinksAt(headers, blocks, End(), k);
        var mem := ReadHeader(ptr);
        if mem.used == 0 && mem.next - (ptr + HEADER) >= want {
          return;
        }
        ptr := mem.next;
        k := k + 1;
      }
      NoFitBeyond(blocks, 0, End(), want, memSize - want, k);
      k := |blocks|;
    }

    /** lfree moves on to the next free block. */
    method AdvanceLfree(ghost at: nat)
      requires Carries() && at < |blocks| && lfree == blocks[at].off && forall j :: 0 <= j < at ==> blocks[j].used
      modifies this`lfree
      ensures lfree == LowestFree(blocks, End())
    {
      ghost var k := at;
      LinksAt(headers, blocks, End(), k);
      var mem := ReadHeader(lfree);
      while mem.used != 0 && lfree != End()
        invariant k <= |blocks| && lfree == OffAt(blocks, k, End()) && lfree in headers && mem == headers[lfree]
        invariant forall j :: 0 <= j < k ==> blocks[j].used
        decreases |blocks| - k
      {
        LinksAt(headers, blocks, End(), k);
        LinksAt(headers, blocks, End(), k + 1);
        lfree := mem.next;
        mem := ReadHeader(lfree);
        k := k + 1;
      }
      LinksAt(headers, blocks, End(), k);
      LowestIs(blocks, End(), k);
    }
  
    /** A large block is brought into use and split. */
    method TakeSplit(ptr: nat, want: nat, ghost k: nat)
      requires Carries() && want > 0 && want % ALIGN == 0
      requires k < |blocks| && ptr == blocks[k].off && Splits(blocks[k], want)
      modifies this`headers, this`blocks, ram
      ensures Carries() && blocks == Split(old(blocks), k, ptr + HEADER + want)
      ensures SameData(blocks, old(ram[..]), ram[..])
    {
      ghost var bs := blocks;
      SetInUse(ptr, true, k);
      ghost var cs, mid := blocks, ram[..];
      Cut(ptr, ptr + HEADER + want, k);
      assert blocks == Split(bs, k, ptr + HEADER + want);
      SplitKeepsData(cs, k, ptr + HEADER + want, old(ram[..]), mid, ram[..]);
    }

    /** The part of rt_malloc that runs once a block has been found. */
    method TakeBlock(ptr: nat, want: nat, ghost k: nat)
      requires Valid() && want > 0 && want % ALIGN == 0
      requires k < |blocks| && ptr == blocks[k].off && Fits(blocks[k], want)
      modifies this`headers, this`blocks, this`usedMem, this`maxMem, ram
      ensures Carries() && blocks == Take(old(blocks), k, want)
      ensures usedMem == UsedSpan(blocks) && maxMem == Max(old(maxMem), usedMem)
      ensures SameData(blocks, old(ram[..]), ram[..])
    {
      LinksAt(headers, blocks, End(), k);
      TakeSpan(blocks, k, want);
      var mem := ReadHeader(ptr);
      if mem.next - (ptr + HEADER) >= want + HEADER + MIN_SIZE {
        TakeSplit(ptr, want, k);
        usedMem := usedMem + want + HEADER;
      } else {
        SetInUse(ptr, true, k);
        usedMem := usedMem + (mem.next - ptr);
      }
      maxMem := Max(maxMem, usedMem);
    }

    method TakeAndAdvance(ptr: nat, want: nat, ghost k: nat)
      requires Valid() && want > 0 && want % ALIGN == 0
      requires k < |blocks| && ptr == blocks[k].off && Fits(blocks[k], want)
      modifies this, ram
      ensures Valid() && blocks == Take(old(blocks), k, want)
      ensures maxMem == Max(old(maxMem), usedMem)
      ensures SameData(blocks, old(ram[..]), ram[..])
    {
      ghost var bs := blocks;
      TakeCanonical(bs, 0, End(), k, want);
      TakeLowest(bs, 0, End(), k, want);
      TakeBlock(ptr, want, k);
      if ptr == lfree {
        AdvanceLfree(k);
      }
    }

    /** rt_malloc from the point where the size is aligned; `k` is the block taken, |blocks| if none. */
    method MallocAligned(aligned: nat) returns (r: Pointer, ghost k: nat)
      requires Valid() && aligned % ALIGN == 0
      requires memSize >= MIN_SIZE || aligned > memSize
      modifies this, ram
      ensures Valid()
      ensures k == Choice(old(blocks), memSize, aligned)
      ensures k == |old(blocks)| ==> r.Null? && unchanged(this) && unchanged(ram)
      ensures k < |old(blocks)| ==> r == Addr(old(blocks)[k].off + HEADER) && Fits(old(blocks)[k], Want(aligned))
      ensures k < |old(blocks)| ==> blocks == Take(old(blocks), k, Want(aligned)) && maxMem == Max(old(maxMem), usedMem)
      ensures SameData(blocks, old(ram[..]), ram[..])
    {
      if aligned > memSize {
        return Null, |blocks|;
      }
      var want := if aligned < MIN_SIZE then MIN_SIZE else aligned;
      var ptr;
      ptr, k := Scan(want);
      if ptr >= memSize - want {
        return Null, k;
      }
      TakeAndAdvance(ptr, want, k);
      r := Addr(ptr + HEADER);
    }

    method Malloc(size: nat) returns (r: Pointer)
      requires Valid() && size < WORD
      requires memSize >= MIN_SIZE || size == 0 || Align(size) > memSize
      modifies this, ram
      ensures Valid()
      ensures var k := Choice(old(blocks), memSize, Align(size));
              if size == 0 || k == |old(blocks)| then
                r.Null? && unchanged(this) && unchanged(ram)
              else
                && r == Addr(old(blocks)[k].off + HEADER)
                && blocks == Take(old(blocks), k, Want(Align(size)))
                && maxMem == Max(old(maxMem), usedMem)
                && SameData(blocks, old(ram[..]), ram[..])
    {
      if size == 0 {
        return Null;
      }
      AlignIs(size);
      ghost var k;
      r, k := MallocAligned(Align(size));
    }

    // ---------- rt_free ----------

    ghost predicate IsLive(p: Pointer)
      reads this`blocks
    {
      p.Addr? && LiveAt(blocks, p.off - HEADER) < |blocks|
    }

    /** The list and the bytes once a block goes out of use; the counters are left to the caller. */
    method ReleaseBlock(mem: nat, ghost i: nat)
      requires Carries() && Coalesced(blocks) && lfree == LowestFree(blocks, End())
      requires i < |blocks| && blocks[i].used && mem == blocks[i].off
      modifies this`headers, this`blocks, this`lfree, ram
      ensures Carries() && Coalesced(blocks) && blocks == Release(old(blocks), i)
      ensures lfree == LowestFree(blocks, End())
      ensures UsedSpan(blocks) == UsedSpan(old(blocks)) - (old(blocks)[i].next - mem) >= 0
      ensures SameData(blocks, old(ram[..]), ram[..])
    {
      ReleaseFacts(blocks, End(), i);
      SetInUse(mem, false, i);
      Absorb(mem, i, old(ram[..]));
    }

    /** rt_free of the live block i, whose header is at `mem`. */
    method FreeBlock(mem: nat, ghost i: nat)
      requires Valid() && i < |blocks| && blocks[i].used && mem == blocks[i].off
      modifies this, ram
      ensures Valid() && blocks == Release(old(blocks), i) && maxMem == old(maxMem)
      ensures SameData(blocks, old(ram[..]), ram[..])
    {
      LinksAt(headers, blocks, End(), i);
      var h := ReadHeader(mem);
      ReleaseBlock(mem, i);
      usedMem := usedMem - (h.next - mem);
    }

    method Free(p: Pointer)
      requires Valid() && (p.Addr? ==> IsLive(p))
      modifies this, ram
      ensures Valid() && maxMem == old(maxMem)
      ensures p.Null? ==> unchanged(this) && unchanged(ram)
      ensures p.Addr? ==> blocks == Release(old(blocks), LiveAt(old(blocks), p.off - HEADER))
      ensures SameData(blocks, old(ram[..]), ram[..])
    {
      if p.Addr? {
        FreeBlock(p.off - HEADER, LiveAt(blocks, p.off - HEADER));
      }
    }

    // ---------- rt_realloc ----------

    method ShrinkBlock(mem: nat, size: nat, ghost i: nat)
      requires Carries() && Coalesced(blocks) && lfree == LowestFree(blocks, End())
      requires i < |blocks| && blocks[i].used && mem == blocks[i].off
      requires size > 0 && size % ALIGN == 0 && size + HEADER <= blocks[i].Room()
      modifies this`headers, this`blocks, this`lfree, ram
      ensures Carries() && Coalesced(blocks) && blocks == Shrink(old(blocks), i, size)
      ensures lfree == LowestFree(blocks, End())
      ensures UsedSpan(blocks) == UsedSpan(old(blocks)) - (old(blocks)[i].Room() - size) >= 0
      ensures SameData(blocks, old(ram[..]), ram[..])
    {
      var ptr2 := mem + HEADER + size;
      ShrinkFacts(blocks, End(), i, size, ptr2);
      ghost var cs := Split(blocks, i, ptr2);
      assert Plug(cs, i + 1) == Shrink(blocks, i, size);
      Cut(mem, ptr2, i);
      assert blocks == cs;
      Absorb(ptr2, i + 1, old(ram[..]));
    }

    /** `rt_memcpy` between two blocks. */
    method CopyBytes(dst: nat, src: nat, count: nat)
      requires dst + count <= ram.Length && src + count <= ram.Length
      requires src + count <= dst || dst + count <= src
      modifies ram
      ensures OnlyBytes(old(ram[..]), ram[..], dst, dst + count)
      ensures CarriedOver(old(ram[..]), src, ram[..], dst, count)
    {
      var n := 0;
      while n < count
        invariant n <= count
        invariant OnlyBytes(old(ram[..]), ram[..], dst, dst + n)
        invariant CarriedOver(old(ram[..]), src, ram[..], dst, n)
      {
        assert ram[..][src + n] == old(ram[..])[src + n];
        ram[dst + n] := ram[src + n];
        n := n + 1;
      }
    }

    /** A store into the data of block k: the headers and every other block survive it. */
    method CopyInto(dst: nat, src: nat, count: nat, ghost k: nat)
      requires Valid() && k < |blocks| && blocks[k].off + HEADER <= dst && dst + count <= blocks[k].next
      requires src + count <= ram.Length && (src + count <= dst || dst + count <= src)
      modifies this`headers, ram
      ensures Valid()
      ensures OnlyBytes(old(ram[..]), ram[..], dst, dst + count)
      ensures CarriedOver(old(ram[..]), src, ram[..], dst, count)
    {
      Within(blocks, 0, End(), k);
      ForgetLinked(headers, blocks, End(), k, dst, dst + count);
      CopyBytes(dst, src, count);
      BytesWritten(old(ram[..]), ram[..], headers, dst, dst + count);
      headers := Forget(headers, dst, dst + count);
    }

    /** rt_memcpy into block k, then rt_free of block j; `es` lists blocks that are neither. */
    method MoveData(p: nat, q: nat, count: nat, ghost j: nat, ghost k: nat, ghost es: seq<Block>)
      requires Valid() && j < |blocks| && k < |blocks| && blocks[j].used && blocks[k].used && j != k
      requires p == blocks[j].off + HEADER && q == blocks[k].off + HEADER
      requires count <= blocks[j].Room() && count <= blocks[k].Room()
      requires UsedSet(es) <= UsedSet(blocks) - {blocks[j], blocks[k]}
      modifies this, ram
      ensures Valid() && blocks == Release(old(blocks), j) && maxMem == old(maxMem)
      ensures SameData(es, old(ram[..]), ram[..])
      ensures CarriedOver(old(ram[..]), p, ram[..], q, count)
    {
      ghost var cs := blocks;
      OthersLive(cs, End(), j, k, es);
      TwoBlocks(cs, End(), j, k);
      CopyInto(q, p, count, k);
      ghost var m2 := ram[..];
      FreeBlock(p - HEADER, j);
      MoveKeeps(cs, blocks, es, End(), k, p, count, old(ram[..]), m2, ram[..]);
    }
  
    /** After rt_malloc has taken block k of the list `bs`, the data of its live block i moves there.
        `m0` is the memory before rt_malloc. */
    method Relocate(p: nat, q: nat, count: nat, size: nat, ghost i: nat, ghost k: nat, ghost bs: seq<Block>,
                    ghost m0: seq<byte>)
      requires Valid() && Canonical(bs, 0, End()) && i < |bs| && bs[i].used && k < |bs| && Fits(bs[k], Want(size))
      requires size % ALIGN == 0 && blocks == Take(bs, k, Want(size))
      requires p == bs[i].off + HEADER && q == bs[k].off + HEADER && count == Min(bs[i].Room(), size)
      requires SameData(blocks, m0, ram[..])
      modifies this, ram
      ensures Valid() && maxMem == old(maxMem)
      ensures MovedTo(bs, blocks, i, k, size, m0, ram[..])
    {
      GrowFacts(bs, End(), i, k, Want(size));
      ghost var j := LiveAt(blocks, bs[i].off);
      MoveData(p, q, count, j, k, MarkUsed(bs, i, false));
      GrowData(Take(bs, k, Want(size)), MarkUsed(bs, i, false), j, q, count, m0, old(ram[..]), ram[..]);
    }

    /** The expanding branch: rt_malloc, rt_memcpy, rt_free. */
    method Grow(p: nat, room: nat, size: nat, ghost i: nat) returns (r: Pointer)
      requires Valid() && i < |blocks| && blocks[i].used && p == blocks[i].off + HEADER && room == blocks[i].Room()
      requires 0 < size <= memSize && size % ALIGN == 0 && memSize >= MIN_SIZE
      modifies this, ram
      ensures Valid()
      ensures Regrown(old(blocks), blocks, memSize, i, size, r, old(ram[..]), ram[..])
      ensures maxMem == Max(old(maxMem), HighWater(old(blocks), memSize, size))
    {
      ghost var bs, k := blocks, 0;
      r, k := MallocAligned(size);
      if r.Addr? {
        Relocate(p, r.off, Min(room, size), size, i, k, bs, old(ram[..]));
      }
    }

    /** The shrinking branch. */
    method ResizeDown(mem: nat, size: nat, room: nat, ghost i: nat)
      requires Valid() && i < |blocks| && blocks[i].used && mem == blocks[i].off && room == blocks[i].Room()
      requires size > 0 && size % ALIGN == 0 && size + HEADER <= room
      modifies this, ram
      ensures Valid() && maxMem == old(maxMem)
      ensures blocks == Shrink(old(blocks), i, size) && SameData(blocks, old(ram[..]), ram[..])
    {
      ShrinkBlock(mem, size, i);
      usedMem := usedMem - (room - size);
    }

    /** rt_realloc of a live block to a size between 1 and mem_size_aligned. */
    method Resize(p: nat, size: nat, ghost i: nat) returns (r: Pointer)
      requires Valid() && i < |blocks| && blocks[i].used && p == blocks[i].off + HEADER
      requires 0 < size <= memSize && size % ALIGN == 0 && memSize >= MIN_SIZE
      modifies this, ram
      ensures Valid()
      ensures Resized(old(blocks), blocks, memSize, i, size, r, old(ram[..]), ram[..])
      ensures maxMem == if TakesFresh(old(blocks)[i], size)
              then Max(old(maxMem), HighWater(old(blocks), memSize, size)) else old(maxMem)
    {
      LinksAt(headers, blocks, End(), i);
      var h := ReadHeader(p - HEADER);
      var room := h.next - (p - HEADER) - HEADER;
      assert room == blocks[i].Room();
      if room == size {
        return Addr(p);
      }
      if size + HEADER + MIN_SIZE < room {
        ResizeDown(p - HEADER, size, room, i);
        return Addr(p);
      }
      r := Grow(p, room, size, i);
    }

    /** rt_realloc from the point where the size is aligned. */
    method ReallocAligned(p: Pointer, size: nat) returns (r: Pointer)
      requires Valid() && size % ALIGN == 0
      requires memSize >= MIN_SIZE || size == 0 || size > memSize
      requires p.Addr? ==> IsLive(p) || (size != 0 && !(0 <= p.off < End()))
      modifies this, ram
      ensures Valid()
      ensures ReallocDone(old(blocks), blocks, memSize, p, size, r, old(ram[..]), ram[..])
      ensures maxMem == ReallocTop(old(blocks), memSize, p, size, old(maxMem))
    {
      if size > memSize {
        return Null;
      }
      if size == 0 {
        Free(p);
        return Null;
      }
      if p.Null? {
        ghost var k;
        r, k := MallocAligned(size);
        return;
      }
      ghost var i := LiveAt(blocks, p.off - HEADER);
      LinksAt(headers, blocks, End(), i);
      if p.off < 0 || p.off >= End() {
        return p;
      }
      r := Resize(p.off, size, i);
    }

    method Realloc(p: Pointer, newsize: nat) returns (r: Pointer)
      requires Valid() && newsize < WORD
      requires memSize >= MIN_SIZE || Align(newsize) == 0 || Align(newsize) > memSize
      requires p.Addr? ==> IsLive(p) || (Align(newsize) != 0 && !(0 <= p.off < End()))
      modifies this, ram
      ensures Valid()
      ensures ReallocDone(old(blocks), blocks, memSize, p, Align(newsize), r, old(ram[..]), ram[..])
      ensures maxMem == ReallocTop(old(blocks), memSize, p, Align(newsize), old(maxMem))
    {
      AlignIs(newsize);
      r := ReallocAligned(p, Align(newsize));
    }
  }

  /** rt_system_heap_init: a heap between two addresses, if it has room for two headers. */
  method HeapInit(begin: nat, end: nat) returns (h: Heap?)
    requires begin < WORD && end < WORD
    ensures var lo, hi := Align(begin), end / ALIGN * ALIGN;
            if hi > 2 * HEADER && hi - 2 * HEADER >= lo then
              h != null && fresh(h) && fresh(h.ram) && h.Valid() && h.memSize == hi - lo - 2 * HEADER
              && h.blocks == [Block(0, h.End(), false)]
            else h == null
  {
    var lo, hi := Align(begin), end / ALIGN * ALIGN;
    AlignIs(begin);
    if hi > 2 * HEADER && hi - 2 * HEADER >= lo {
      h := new Heap(hi - lo - 2 * HEADER);
    } else {
      h := null;
    }
  }

  /** The live block i has moved to the block cut from k: the first bytes went along, and every other
      live block kept its data. */
  ghost predicate MovedTo(bs: seq<Block>, ds: seq<Block>, i: nat, k: nat, size: nat, before: seq<byte>,
                          after: seq<byte>)
    requires i < |bs| && k < |bs|
  {
    && ds == Moved(bs, i, k, Want(size))
    && bs[i].Room() >= 0
    && CarriedOver(before, bs[i].off + HEADER, after, bs[k].off + HEADER, Min(bs[i].Room(), size))
    && SameData(MarkUsed(bs, i, false), before, after)
  }

  ghost predicate Regrown(bs: seq<Block>, ds: seq<Block>, memSize: nat, i: nat, size: nat, r: Pointer,
                          before: seq<byte>, after: seq<byte>)
    requires i < |bs|
  {
    var k := Choice(bs, memSize, size);
    if k < |bs| then r == Addr(bs[k].off + HEADER) && MovedTo(bs, ds, i, k, size, before, after)
    else r.Null? && ds == bs && after == before
  }

  /** What rt_realloc promises for the live block i: the same block when the size is the same, its
      head when enough is left over to split off, otherwise a fresh block holding the old data. */
  ghost predicate Resized(bs: seq<Block>, ds: seq<Block>, memSize: nat, i: nat, size: nat, r: Pointer,
                          before: seq<byte>, after: seq<byte>)
    requires i < |bs|
  {
    if bs[i].Room() == size then
      r == Addr(bs[i].off + HEADER) && ds == bs && after == before
    else if size + HEADER + MIN_SIZE < bs[i].Room() then
      r == Addr(bs[i].off + HEADER) && ds == Shrink(bs, i, size) && SameData(ds, before, after)
    else
      Regrown(bs, ds, memSize, i, size, r, before, after)
  }

  ghost predicate ReallocDone(bs: seq<Block>, ds: seq<Block>, memSize: nat, p: Pointer, size: nat, r: Pointer,
                              before: seq<byte>, after: seq<byte>)
  {
    var i := if p.Addr? then LiveAt(bs, p.off - HEADER) else |bs|;
    if size > memSize then
      r.Null? && ds == bs && after == before
    else if size == 0 then
      r.Null? && SameData(ds, before, after) && ds == if i < |bs| then Release(bs, i) else bs
    else if p.Null? then
      var k := Choice(bs, memSize, size);
      && SameData(ds, before, after)
      && if k < |bs| then r == Addr(bs[k].off + HEADER) && ds == Take(bs, k, Want(size)) else r.Null? && ds == bs
    else if i == |bs| then
      r == p && ds == bs && after == before
    else
      Resized(bs, ds, memSize, i, size, r, before, after)
  }
}
