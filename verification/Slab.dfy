/** `rt_malloc` and `rt_free` of `slab.c` as they update the zone lists, the page map and the counters. */
module Slab {
  import opened LinkedNodes
  import PageLedger
  import opened PageRuns
  import opened Pages
  import opened SlabModel
  import opened ZoneModel

  class SlabHeap {
    const pages: PageAllocator
    const zonePages: nat
    const memusage: array<Usage>
    var zones: map<nat, Zone>
    var zoneArray: seq<seq<nat>>
    var zoneFree: seq<nat>
    var zoneFreeCnt: nat
    var usedMem: nat
    var maxMem: nat
    ghost var held: map<nat, nat>
    ghost var live: map<nat, nat>

    ghost predicate Shape()
      reads this, pages, pages.next, pages.count
    {
      pages.Valid() && pages.next.Length == memusage.Length && zoneFreeCnt == |zoneFree|
    }

    ghost function State(): SlabModel.Slab
      reads this, pages, memusage
    {
      SlabModel.Slab(PageLedger.Ledger(pages.runs, held), zones, zoneArray, zoneFree, memusage[..], usedMem, maxMem,
          live)
    }

    ghost predicate Valid()
      reads this, pages, pages.next, pages.count, memusage
    {
      Shape() && SlabInv(State(), zonePages) && zoneFreeCnt <= ZONE_RELEASE_THRESH
    }

    /** `rt_system_heap_init`, for a heap of `total` pages within a 32-bit address space. */
    constructor (total: nat)
      requires 0 < total <= 0x10_0000
      ensures Valid() && State() == FreshSlab(memusage[..]) && memusage.Length == total
      ensures zonePages * PAGE == ZoneSize(total * PAGE, 32768)
      ensures fresh(pages) && fresh(pages.next) && fresh(pages.count) && fresh(memusage)
    {
      var zoneSize := 32768;
      while zoneSize < 131072 && zoneSize * 2 < total * PAGE / 1024
        invariant zoneSize > 0 && ZoneSize(total * PAGE, zoneSize) == ZoneSize(total * PAGE, 32768)
        decreases 131072 - zoneSize
      {
        zoneSize := zoneSize * 2;
      }
      ZonePages(total * PAGE);
      zonePages := zoneSize / PAGE;
      pages := new PageAllocator(total);
      memusage := new Usage[total];
      zones, zoneArray, zoneFree, zoneFreeCnt := map[], seq(NZONES, _ => []), [], 0;
      usedMem, maxMem := 0, 0;
      held, live := map[], map[];
      new;
      FreshSlabInv(memusage[..], zonePages);
      var a := TakePages(PagesFor(4 * total));
      assert State() == FreshSlab(memusage[..]);
    }

    // ---------- pages ----------

    method TakePages(n: nat) returns (a: Address)
      requires Shape()
      modifies this`held, pages, pages.next, pages.count
      ensures Shape()
      ensures var (l, b) := PageLedger.Take(old(State().ledger), n); a == b && State() == old(State()).(ledger := l)
    {
      a := pages.PageAlloc(n);
      if a.Page? {
        held := held[a.p := n];
      }
    }

    method GivePages(p: nat, n: nat)
      requires Shape() && p in held && held[p] == n && pages.MayFree(p, n)
      modifies this`held, pages, pages.next, pages.count
      ensures Shape()
      ensures State() == old(State()).(ledger := PageLedger.Give(old(State().ledger), p))
    {
      pages.PageFree(p, n);
      held := held - {p};
    }

    /** The page map of a new zone. */
    method MarkPages(p: nat)
      requires p + zonePages <= memusage.Length
      modifies memusage
      ensures memusage[..] == Marked(old(memusage[..]), p, zonePages)
    {
      for off := 0 to zonePages
        invariant forall q :: 0 <= q < memusage.Length ==>
          memusage[q] == if p <= q < p + off then Small(q - p) else old(memusage[q])
      {
        memusage[p + off] := Small(off);
      }
    }

    method ClearPages(p: nat)
      requires p + zonePages <= memusage.Length
      modifies memusage
      ensures memusage[..] == Cleared(old(memusage[..]), p, zonePages)
    {
      for i := 0 to zonePages
        invariant forall q :: 0 <= q < memusage.Length ==>
          memusage[q] == if p <= q < p + i then Unused else old(memusage[q])
      {
        memusage[p + i] := Unused;
      }
    }

    method Charge(x: nat, n: nat)
      modifies this`usedMem, this`maxMem, this`live
      ensures State() == Charged(old(State()), x, n)
    {
      usedMem := usedMem + n;
      if usedMem > maxMem {
        maxMem := usedMem;
      }
      live := live[x := n];
    }

    // ---------- rt_malloc ----------

    method MallocLarge(size: nat) returns (r: Pointer)
      requires Shape() && forall n :: PageLedger.Take(State().ledger, n).1.Page? ==>
               PageLedger.Take(State().ledger, n).1.p < memusage.Length
      modifies this, pages, pages.next, pages.count, memusage
      ensures Shape() && (State(), r) == AllocLarge(old(State()), PagesFor(size))
    {
      var n := PagesFor(size);
      var a := TakePages(n);
      if a.Null? {
        return NoMemory;
      }
      memusage[a.p] := Large(n);
      Charge(a.p * PAGE, n * PAGE);
      r := At(a.p * PAGE);
    }

    /** A chunk from the first zone on the list. */
    method MallocChunk(zi: nat) returns (r: Pointer)
      requires Shape() && HasChunk(State(), zi)
      modifies this
      ensures Shape() && (State(), r) == FromZone(old(State()), zi)
    {
      var p := zoneArray[zi][0];
      var z := zones[p];
      z := z.(nfree := z.nfree - 1);
      if z.nfree == 0 {
        zoneArray := zoneArray[zi := zoneArray[zi][1..]];
      }
      var x;
      if z.uindex + 1 != z.nmax {
        z := z.(uindex := z.uindex + 1);
        x := Chunk(z, z.uindex);
      } else {
        x := z.chunks[0];
        z := z.(chunks := z.chunks[1..]);
      }
      zones := zones[p := z];
      Charge(x, z.size);
      r := At(x);
    }

    /** The first retired zone is put to use. */
    method MallocZone(zi: nat, size: nat) returns (r: Pointer)
      requires Shape() && zoneFree != [] && zi < |zoneArray| && size > 0 && Offset(size) + size <= zonePages * PAGE
      modifies this
      ensures Shape() && (State(), r) == Format(old(State()), zonePages, zi, size)
    {
      var p := zoneFree[0];
      zoneFree := zoneFree[1..];
      zoneFreeCnt := zoneFreeCnt - 1;
      var z := NewZone(p * PAGE, zonePages * PAGE, zi, size);
      zones := zones[p := z];
      zoneArray := zoneArray[zi := [p] + zoneArray[zi]];
      Charge(Chunk(z, 0), size);
      r := At(Chunk(z, 0));
    }
  
    /** `rt_malloc`. */
    method Malloc(size: nat) returns (r: Pointer)
      requires Valid()
      modifies this, pages, pages.next, pages.count, memusage
      ensures Valid() && (State(), r) == SlabModel.Malloc(old(State()), zonePages, size)
    {
      MallocKeeps(State(), zonePages, size);
      if size == 0 {
        r := NoMemory;
      } else if size >= Limit(zonePages) {
        LargeInMap();
        r := MallocLarge(size);
      } else {
        r := MallocSmall(size);
      }
    }

    method MallocSmall(size: nat) returns (r: Pointer)
      requires Shape() && SlabInv(State(), zonePages) && 0 < size < Limit(zonePages)
               && zoneFreeCnt <= ZONE_RELEASE_THRESH
      modifies this, pages, pages.next, pages.count, memusage
      ensures Shape() && (State(), r) == SlabModel.Malloc(old(State()), zonePages, size)
              && zoneFreeCnt <= ZONE_RELEASE_THRESH
    {
      SmallRequest(zonePages, size);
      var (zi, n) := ZoneIndex(size);
      if zoneArray[zi] != [] {
        HeadHasChunk(State(), zonePages, zi);
        r := MallocChunk(zi);
        return;
      }
      if zoneFree == [] {
        NewPages(State(), zonePages, zonePages);
        var ok := NewZonePages();
        if !ok {
          return NoMemory;
        }
      }
      r := MallocZone(zi, n);
    }

    lemma LargeInMap()
      requires Valid()
      ensures forall n :: PageLedger.Take(State().ledger, n).1.Page? ==>
              PageLedger.Take(State().ledger, n).1.p < memusage.Length
    {
      forall n: nat | PageLedger.Take(State().ledger, n).1.Page?
        ensures PageLedger.Take(State().ledger, n).1.p < memusage.Length
      {
        NewPages(State(), zonePages, n);
      }
    }

    /** Pages for a new zone, with their place in the page map. */
    method NewZonePages() returns (ok: bool)
      requires Shape() && zoneFree == []
      requires var a := PageLedger.Take(State().ledger, zonePages).1; a.Page? ==> a.p + zonePages <= memusage.Length
      modifies this, pages, pages.next, pages.count, memusage
      ensures Shape() && (ok <==> PageLedger.Take(old(State().ledger), zonePages).1.Page?)
      ensures var (l, a) := PageLedger.Take(old(State().ledger), zonePages);
              if ok then a.p + zonePages <= memusage.Length
                  && State() == AddZone(old(State()), zonePages, l, a.p, BLANK)
              else State() == old(State())
    {
      var a := TakePages(zonePages);
      ok := a.Page?;
      if ok {
        EnterZone(a.p);
      }
    }

    method EnterZone(p: nat)
      requires Shape() && p + zonePages <= memusage.Length
      modifies this`zones, this`zoneFree, this`zoneFreeCnt, memusage
      ensures Shape() && State() == AddZone(old(State()), zonePages, old(State()).ledger, p, BLANK)
    {
      MarkPages(p);
      zones := zones[p := BLANK];
      zoneFree, zoneFreeCnt := [p] + zoneFree, zoneFreeCnt + 1;
    }

    // ---------- rt_free ----------

    method FreePages(p: nat, n: nat)
      requires Shape() && p in held && held[p] == n && p < memusage.Length && n * PAGE <= usedMem && pages.MayFree(p, n)
      modifies this, pages, pages.next, pages.count, memusage
      ensures Shape() && State() == FreeLarge(old(State()), p)
    {
      memusage[p] := Large(0);
      usedMem := usedMem - n * PAGE;
      live := live - {p * PAGE};
      GivePages(p, n);
    }

    method FreeChunk(p: nat, x: nat)
      requires Shape() && p in zones && zones[p].index < |zoneArray| && zones[p].size <= usedMem
      modifies this
      ensures Shape() && State() == PutBack(old(State()), p, x)
    {
      var z := zones[p];
      z := z.(chunks := [x] + z.chunks);
      usedMem := usedMem - z.size;
      if z.nfree == 0 {
        zoneArray := zoneArray[z.index := [p] + zoneArray[z.index]];
      }
      zones := zones[p := z.(nfree := z.nfree + 1)];
      live := live - {x};
    }

    /** The zone is taken off its list, and joins the retired ones. */
    method RetireZone(p: nat)
      requires Shape() && p in zones && zones[p].index < |zoneArray| && p in zoneArray[zones[p].index]
      modifies this
      ensures Shape() && State() == Retire(old(State()), p)
    {
      var zi := zones[p].index;
      var l := zoneArray[zi];
      var k := 0;
      while l[k] != p
        invariant k < |l| && p !in l[..k]
        decreases |l| - k
      {
        k := k + 1;
        assert l[..k] == l[..k - 1] + [l[k - 1]];
        assert p in l[k..] by {
          assert l == l[..k] + l[k..];
        }
      }
      UnlinkedAt(l, k, p);
      zoneArray := zoneArray[zi := l[..k] + l[k + 1..]];
      zones := zones[p := zones[p].(magic := false)];
      zoneFree, zoneFreeCnt := [p] + zoneFree, zoneFreeCnt + 1;
    }

    method ReleaseZone()
      requires Shape() && zoneFree != [] && zoneFree[0] in held && held[zoneFree[0]] == zonePages
      requires zoneFree[0] + zonePages <= memusage.Length && pages.MayFree(zoneFree[0], zonePages)
      modifies this, pages, pages.next, pages.count, memusage
      ensures Shape() && State() == Release(old(State()), zonePages)
    {
      var p := zoneFree[0];
      zoneFree, zoneFreeCnt := zoneFree[1..], zoneFreeCnt - 1;
      ClearPages(p);
      zones := zones - {p};
      GivePages(p, zonePages);
    }

    /** `rt_free`, of a live allocation. */
    method Free(x: nat)
      requires Valid() && x in live
      modifies this, pages, pages.next, pages.count, memusage
      ensures Valid() && State() == Freed(old(State()), zonePages, x)
    {
      FreedKeeps(State(), zonePages, x);
      FreedTo(State(), zonePages, x);
      FreeKind(x, Freed(State(), zonePages, x));
    }

    method FreeKind(x: nat, ghost u: SlabModel.Slab)
      requires Shape() && FreesTo(State(), zonePages, x, u)
      modifies this, pages, pages.next, pages.count, memusage
      ensures Shape() && State() == u
    {
      match memusage[PageOf(x)]
      case Large(n) => FreePages(PageOf(x), n);
      case Small(k) => FreeSmall(PageOf(x) - k, x, u);
    }

    method FreeSmall(p: nat, x: nat, ghost u: SlabModel.Slab)
      requires Shape() && PutsTo(State(), zonePages, p, x, u)
      modifies this, pages, pages.next, pages.count, memusage
      ensures Shape() && State() == u
    {
      FreeChunk(p, x);
      AfterFree(p);
    }

    /** The zone may have become totally free. */
    method AfterFree(p: nat)
      requires Shape() && SlabInv(State(), zonePages) && p in zones && p !in zoneFree
      modifies this, pages, pages.next, pages.count, memusage
      ensures Shape() && State() == AfterPut(old(State()), zonePages, p)
    {
      assert ZoneBooks(State(), zonePages, p);
      var z := zones[p];
      if z.nfree == z.nmax && zoneArray[z.index] != [p] {
        assert Listed(State(), z.index);
        RetireKeeps(State(), zonePages, p);
        RetireZone(p);
        if zoneFreeCnt > ZONE_RELEASE_THRESH {
          ReleaseKeeps(State(), zonePages);
          assert ZoneMarked(State(), zonePages, p);
          PageLedger.BlockFits(State().ledger, memusage.Length, p);
          ReleaseZone();
        }
      }
    }
  }
}
