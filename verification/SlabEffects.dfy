/** Which memory a request to the slab allocator is served from, and what becomes of a zone when a chunk of it is
    freed. */
module SlabEffects {
  import opened LinkedNodes
  import opened PageLedger
  import opened PageRuns
  import opened SlabModel
  import opened ZoneModel

  /** Large requests are rounded up to whole pages, up to the end of the address space. */
  lemma PagesForIs(size: nat)
    requires 0 < size && size + (PAGE - 1) < 0x1_0000_0000
    ensures size <= PagesFor(size) * PAGE < size + PAGE
  {
  }

  /** Requests below a quarter of the zone size, and below 16 KB, are served from zones. */
  lemma LimitIs(zp: nat)
    requires zp == 8 || zp == 16 || zp == 32
    ensures 4 * Limit(zp) <= zp * PAGE && Limit(zp) <= 16 * 1024
    ensures 4 * Limit(zp) == zp * PAGE || Limit(zp) == 16 * 1024
  {
  }

  /** What is handed out for a request: whole pages, or a chunk of the smallest size that holds it. */
  function Granted(zp: nat, size: nat): nat
    requires size > 0
  {
    if size >= Limit(zp) then PagesFor(size) * PAGE else ZoneIndex(size).1
  }

  /** A large request takes pages and leaves all zones alone. */
  lemma LargeServes(s: Slab, zp: nat, size: nat)
    requires SlabInv(s, zp) && size >= Limit(zp) && size > 0
    ensures var (t, r) := Malloc(s, zp, size);
            r.At? ==>
              && r.x in t.live && t.live[r.x] == Granted(zp, size)
              && t.zones == s.zones && t.spare == s.spare && t.lists == s.lists
  {
  }

  /** The chunk comes from a zone that was there, and no zone is retired or taken out of retirement. */
  ghost predicate FromListed(s: Slab, t: Slab, r: Pointer) {
    r.At? && t.ledger == s.ledger && t.spare == s.spare && t.zones.Keys == s.zones.Keys
  }

  /** The chunk comes from the zone that was retired last. */
  ghost predicate FromRetired(s: Slab, t: Slab, r: Pointer) {
    r.At? && t.ledger == s.ledger && s.spare != [] && s.spare == [s.spare[0]] + t.spare && t.zones.Keys == s.zones.Keys
  }

  /** The chunk comes from a zone of new pages. */
  ghost predicate FromPages(s: Slab, t: Slab, r: Pointer) {
    r.At? ==> t.spare == s.spare && t.ledger != s.ledger
  }

  lemma ListedServes(s: Slab, zi: nat)
    requires HasChunk(s, zi)
    ensures var (t, r) := FromZone(s, zi);
            FromListed(s, t, r) && r.x in t.live && t.live[r.x] == s.zones[s.lists[zi][0]].size
  {
  }

  lemma RetiredServes(s: Slab, zp: nat, zi: nat, n: nat)
    requires s.spare != [] && zi < |s.lists| && n > 0 && Offset(n) + n <= zp * PAGE && s.spare[0] in s.zones
    ensures var (t, r) := Format(s, zp, zi, n); FromRetired(s, t, r) && r.x in t.live && t.live[r.x] == n
  {
  }

  lemma PagesServe(s: Slab, zp: nat, zi: nat, n: nat, l: Ledger, p: nat)
    requires zi < |s.lists| && n > 0 && Offset(n) + n <= zp * PAGE && p + zp <= |s.usage| && l != s.ledger
    ensures var (t, r) := Format(AddZone(s, zp, l, p, BLANK), zp, zi, n);
            FromPages(s, t, r) && r.At? && r.x in t.live && t.live[r.x] == n
  {
  }

  lemma ListedSize(s: Slab, zp: nat, size: nat)
    requires SlabInv(s, zp) && 0 < size < Limit(zp)
    ensures var (zi, n) := ZoneIndex(size);
            && zi < |s.lists| && n > 0 && Offset(n) + n <= zp * PAGE
            && (s.lists[zi] != [] ==> HasChunk(s, zi) && s.zones[s.lists[zi][0]].size == n)
            && (s.spare != [] ==> s.spare[0] in s.zones)
  {
    SmallRequest(zp, size);
    SmallestChunk(size);
    var zi := ZoneIndex(size).0;
    if s.lists[zi] != [] {
      HeadHasChunk(s, zp, zi);
    }
  }

  lemma LedgerGrows(l: Ledger, n: nat)
    requires Take(l, n).1.Page? && Take(l, n).1.p !in l.held
    ensures Take(l, n).0 != l
  {
  }

  /** A small request takes a chunk of the first listed zone of its size class; with none listed, the last retired zone
      is made one; and only with none retired are pages taken for a new one. */
  lemma SmallServes(s: Slab, zp: nat, size: nat)
    requires SlabInv(s, zp) && 0 < size < Limit(zp)
    ensures var (t, r) := Malloc(s, zp, size); var zi := ZoneIndex(size).0;
            && zi < |s.lists|
            && (r.At? ==> r.x in t.live && t.live[r.x] == Granted(zp, size))
            && if s.lists[zi] != [] then FromListed(s, t, r)
               else if s.spare != [] then FromRetired(s, t, r)
               else FromPages(s, t, r)
  {
    ListedSize(s, zp, size);
    var (zi, n) := ZoneIndex(size);
    if s.lists[zi] != [] {
      ListedServes(s, zi);
    } else if s.spare != [] {
      RetiredServes(s, zp, zi, n);
    } else {
      var (l, a) := Take(s.ledger, zp);
      if a.Page? {
        NewPages(s, zp, zp);
        LedgerGrows(s.ledger, zp);
        PagesServe(s, zp, zi, n, l, a.p);
      }
    }
  }

  // ---------- rt_free ----------

  /** The chunk at x is the last live one of its zone. */
  ghost predicate LastOfZone(s: Slab, zp: nat, x: nat)
    requires PageOf(x) < |s.usage|
  {
    LiveIn(s.live, HomeOf(s, x), zp) == {x}
  }

  /** Another zone of the same size class has chunks to hand out. */
  ghost predicate OthersReady(s: Slab, p: nat)
    requires p in s.zones
  {
    exists q :: q != p && q in s.zones && q !in s.spare && s.zones[q].index == s.zones[p].index && s.zones[q].nfree > 0
  }

  /** Zone p stays as it is, with one chunk more to hand out; or it is retired; or its pages go back. */
  ghost predicate Stays(s: Slab, t: Slab, p: nat) {
    t.spare == s.spare && t.ledger == s.ledger && p in t.zones
  }

  ghost predicate IsRetired(s: Slab, t: Slab, p: nat) {
    t.spare == [p] + s.spare && t.ledger == s.ledger && p in t.zones
  }

  ghost predicate IsReleased(s: Slab, t: Slab, p: nat) {
    t.spare == s.spare && p !in t.zones && p !in t.ledger.held
  }

  lemma IdleZone(z: Zone, y: Zone, live: set<nat>, x: nat)
    requires Books(z, live) && x in live && y == PutChunk(z, x)
    ensures y.nfree == y.nmax <==> live == {x}
  {
    PutKeepsBooks(z, live, x);
    FreeOrLive(y, live - {x});
    assert live - {x} == {} <==> live == {x};
  }

  lemma PutBackIdle(s: Slab, zp: nat, x: nat)
    requires SlabInv(s, zp) && x in s.live && PageOf(x) < |s.usage| && s.usage[PageOf(x)].Small?
    ensures var p := HomeOf(s, x);
            && p in s.zones && var y := PutChunk(s.zones[p], x); y.nfree == y.nmax <==> LastOfZone(s, zp, x)
  {
    var p := HomeOf(s, x);
    ChunkOf(s, zp, x);
    IdleZone(s.zones[p], PutChunk(s.zones[p], x), LiveIn(s.live, p, zp), x);
  }

  lemma PutBackOthers(s: Slab, t: Slab, p: nat, x: nat)
    requires ListsOk(s) && ListsOk(t) && p in s.zones && p !in s.spare && s.zones[p].index < NZONES
    requires t.zones == s.zones[p := PutChunk(s.zones[p], x)] && t.spare == s.spare
    ensures t.lists[s.zones[p].index] != [p] <==> OthersReady(s, p)
  {
    var zi := s.zones[p].index;
    assert Listed(t, zi);
    assert p in t.lists[zi];
    if t.lists[zi] != [p] {
      OtherMember(t.lists[zi], p);
      var q :| q in t.lists[zi] && q != p;
      assert q in s.zones && s.zones[q] == t.zones[q];
    }
    if OthersReady(s, p) {
      var q :| q != p && q in s.zones && q !in s.spare && s.zones[q].index == zi && s.zones[q].nfree > 0;
      assert q in t.lists[zi];
    }
  }

  lemma OtherMember(l: seq<nat>, p: nat)
    requires NoDup(l) && p in l
    ensures l == [p] || exists q :: q in l && q != p
  {
    if |l| == 1 {
      assert l == [l[0]];
    } else {
      assert l[0] in l && l[1] in l && l[0] != l[1];
    }
  }

  /** A zone is retired exactly if the freed chunk was its last live one and another zone of its size class can serve
      requests; with two zones retired already its pages go back at once. */
  lemma FreeRetires(s: Slab, zp: nat, x: nat)
    requires SlabInv(s, zp) && x in s.live && PageOf(x) < |s.usage| && s.usage[PageOf(x)].Small?
    ensures var p, t := HomeOf(s, x), Freed(s, zp, x);
            && p in s.zones
            && if LastOfZone(s, zp, x) && OthersReady(s, p) then
                 if |s.spare| < ZONE_RELEASE_THRESH then IsRetired(s, t, p) else IsReleased(s, t, p)
               else Stays(s, t, p)
  {
    var p := HomeOf(s, x);
    PutBackKeeps(s, zp, x);
    PutBackIdle(s, zp, x);
    PutBackOthers(s, PutBack(s, p, x), p, x);
    Retiring(PutBack(s, p, x), zp, p);
  }

  lemma Retiring(s: Slab, zp: nat, p: nat)
    requires SlabInv(s, zp) && p in s.zones && p !in s.spare && s.zones[p].index < |s.lists|
    ensures var t := AfterPut(s, zp, p);
            if s.zones[p].nfree == s.zones[p].nmax && s.lists[s.zones[p].index] != [p] then
              if |s.spare| < ZONE_RELEASE_THRESH then IsRetired(s, t, p) else IsReleased(s, t, p)
            else Stays(s, t, p)
  {
    if s.zones[p].nfree == s.zones[p].nmax {
      RetireKeeps(s, zp, p);
    }
  }

  /** The pages of a large allocation go back, and nothing happens to any zone. */
  lemma FreePages(s: Slab, zp: nat, x: nat)
    requires SlabInv(s, zp) && x in s.live && PageOf(x) < |s.usage| && s.usage[PageOf(x)].Large?
    ensures var t := Freed(s, zp, x);
            PageOf(x) in s.ledger.held && PageOf(x) !in t.ledger.held && t.zones == s.zones && t.spare == s.spare
  {
    FreeLargeKeeps(s, zp, x);
  }
}
