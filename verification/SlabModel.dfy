/** The slab allocator of `slab.c`: `rt_malloc` and `rt_free` over zones, retired zones and whole pages. */
module SlabModel {
  import opened LinkedNodes
  import opened MapSums
  import opened PageLedger
  import opened PageRuns
  import opened ZoneModel

  /** An entry of the page map `memusage`. */
  datatype Usage = Unused | Large(n: nat) | Small(k: nat)

  datatype Pointer = NoMemory | At(x: nat)

  /** The page allocator with what it has handed out, the zone headers by first page, the lists `zone_array` of
      zones to allocate from, the retired zones from `zone_free` on, the page map, the counters `used_mem` and
      `max_mem`, and the live allocations with their sizes. */
  datatype Slab = Slab(ledger: Ledger, zones: map<nat, Zone>, lists: seq<seq<nat>>, spare: seq<nat>,
                       usage: seq<Usage>, used: nat, top: nat, live: map<nat, nat>)

  // ---------- operations; zp is the number of pages in a zone ----------

  function Limit(zp: nat): nat {
    if zp * PAGE / 4 > 16384 then 16384 else zp * PAGE / 4
  }

  /** The pages of a large request, rounded up in 32 bits. */
  function PagesFor(size: nat): nat {
    if size + (PAGE - 1) >= 0x1_0000_0000 then 0 else (size + (PAGE - 1)) / PAGE
  }

  function PageOf(x: nat): nat {
    x / PAGE
  }

  function Charged(s: Slab, x: nat, n: nat): Slab {
    s.(used := s.used + n, top := if s.used + n > s.top then s.used + n else s.top, live := s.live[x := n])
  }

  function AllocLarge(s: Slab, n: nat): (Slab, Pointer) {
    var (l, a) := Take(s.ledger, n);
    if a.Null? || a.p >= |s.usage| then (s, NoMemory)
    else (Charged(s.(ledger := l, usage := s.usage[a.p := Large(n)]), a.p * PAGE, n * PAGE), At(a.p * PAGE))
  }

  /** There is a zone to take a chunk from, and it has one. */
  predicate HasChunk(s: Slab, zi: nat) {
    && zi < |s.lists| && s.lists[zi] != [] && s.lists[zi][0] in s.zones
    && var z := s.zones[s.lists[zi][0]]; z.nfree > 0 && (z.uindex + 1 == z.nmax ==> z.chunks != [])
  }

  function FromZone(s: Slab, zi: nat): (Slab, Pointer)
    requires HasChunk(s, zi)
  {
    var p := s.lists[zi][0];
    var (z, x) := TakeChunk(s.zones[p]);
    var l := if z.nfree == 0 then s.lists[zi := s.lists[zi][1..]] else s.lists;
    (Charged(s.(zones := s.zones[p := z], lists := l), x, z.size), At(x))
  }

  function Marked(usage: seq<Usage>, p: nat, zp: nat): (r: seq<Usage>)
    requires p + zp <= |usage|
    ensures |r| == |usage|
    ensures forall q :: 0 <= q < |r| ==> r[q] == if p <= q < p + zp then Small(q - p) else usage[q]
  {
    usage[..p] + seq(zp, k requires 0 <= k => Small(k)) + usage[p + zp..]
  }

  /** Pages for a new zone, its header still unwritten. */
  function AddZone(s: Slab, zp: nat, l: Ledger, p: nat, header: Zone): Slab
    requires p + zp <= |s.usage|
  {
    s.(ledger := l, usage := Marked(s.usage, p, zp), zones := s.zones[p := header], spare := [p] + s.spare)
  }

  /** The first retired zone is made a zone of chunks of the given size. */
  function Format(s: Slab, zp: nat, zi: nat, size: nat): (r: (Slab, Pointer))
    requires s.spare != [] && zi < |s.lists| && size > 0 && Offset(size) + size <= zp * PAGE
    ensures r.1.At?
  {
    var p := s.spare[0];
    var z := NewZone(p * PAGE, zp * PAGE, zi, size);
    var t := s.(zones := s.zones[p := z], lists := s.lists[zi := [p] + s.lists[zi]], spare := s.spare[1..]);
    (Charged(t, Chunk(z, 0), size), At(Chunk(z, 0)))
  }

  /** The pages of a large allocation go back; the map keeps the entry, with its counter cleared. */
  function FreeLarge(s: Slab, p: nat): Slab
    requires p in s.ledger.held && p < |s.usage| && s.ledger.held[p] * PAGE <= s.used
  {
    s.(ledger := Give(s.ledger, p), usage := s.usage[p := Large(0)], used := s.used - s.ledger.held[p] * PAGE,
        live := s.live - {p * PAGE})
  }

  /** A chunk goes back to zone p, which is listed again if it had none. */
  function PutBack(s: Slab, p: nat, x: nat): Slab
    requires p in s.zones && s.zones[p].index < |s.lists| && s.zones[p].size <= s.used
  {
    var z := s.zones[p];
    var l := if z.nfree == 0 then s.lists[z.index := [p] + s.lists[z.index]] else s.lists;
    s.(zones := s.zones[p := PutChunk(z, x)], lists := l, used := s.used - z.size, live := s.live - {x})
  }

  /** A zone without live chunks is retired. */
  function Retire(s: Slab, p: nat): Slab
    requires p in s.zones && s.zones[p].index < |s.lists|
  {
    var z := s.zones[p];
    s.(zones := s.zones[p := z.(magic := false)], lists := s.lists[z.index := Unlinked(s.lists[z.index], p)],
        spare := [p] + s.spare)
  }

  function Cleared(usage: seq<Usage>, p: nat, zp: nat): (r: seq<Usage>)
    requires p + zp <= |usage|
    ensures |r| == |usage|
    ensures forall q :: 0 <= q < |r| ==> r[q] == if p <= q < p + zp then Unused else usage[q]
  {
    usage[..p] + seq(zp, k => Unused) + usage[p + zp..]
  }

  /** The pages of the first retired zone go back. */
  function Release(s: Slab, zp: nat): Slab
    requires s.spare != [] && s.spare[0] in s.ledger.held && s.spare[0] + zp <= |s.usage|
  {
    var p := s.spare[0];
    s.(ledger := Give(s.ledger, p), usage := Cleared(s.usage, p, zp), zones := s.zones - {p}, spare := s.spare[1..])
  }

  // ---------- the invariant ----------

  /** The addresses of live allocations in the zone that begins at page p. */
  function LiveIn(live: map<nat, nat>, p: nat, zp: nat): set<nat> {
    set x | x in live && p * PAGE <= x < (p + zp) * PAGE
  }

  /** The page map says how far each page of a zone is behind the first. */
  ghost predicate ZoneMarked(s: Slab, zp: nat, p: nat) {
    && p in s.ledger.held && s.ledger.held[p] == zp && p + zp <= |s.usage|
    && forall q :: p <= q < p + zp ==> s.usage[q] == Small(q - p)
  }

  /** A zone header in use. */
  ghost predicate Shaped(z: Zone, p: nat, zp: nat) {
    && z.magic && z.index < NZONES && z.size == SizeOf(z.index) && 4 * z.size <= zp * PAGE
    && z.base == p * PAGE + Offset(z.size) && z.nmax >= 3 && p * PAGE + HEADER <= z.base
       && z.base + z.nmax * z.size <= (p + zp) * PAGE
  }

  ghost predicate ZoneBooks(s: Slab, zp: nat, p: nat) {
    p in s.zones && Shaped(s.zones[p], p, zp) && Books(s.zones[p], LiveIn(s.live, p, zp))
  }

  /** From the address of a live allocation, the page map leads to its zone, or to the size of its own pages. */
  ghost predicate Recovered(s: Slab, zp: nat, x: nat) {
    && x in s.live && PageOf(x) < |s.usage|
    && var p := PageOf(x);
       match s.usage[p]
       case Unused => false
       case Large(n) => x == p * PAGE && p in s.ledger.held && s.ledger.held[p] == n && p !in s.zones
           && s.live[x] == n * PAGE
       case Small(k) => k <= p && k < zp && p - k in s.zones && p - k !in s.spare && s.live[x] == s.zones[p - k].size
  }

  ghost predicate Listed(s: Slab, zi: nat) {
    && zi < |s.lists| && NoDup(s.lists[zi])
    && forall p: nat ::
         p in s.lists[zi] <==> p in s.zones && p !in s.spare && s.zones[p].index == zi && s.zones[p].nfree > 0
  }

  /** A zone is on the list of its size class exactly when it has a chunk to hand out and is not retired. */
  ghost predicate ListsOk(s: Slab) {
    && |s.lists| == NZONES && NoDup(s.spare)
    && (forall p :: p in s.spare ==> p in s.zones)
    && (forall zi: nat :: zi < NZONES ==> Listed(s, zi))
  }

  ghost predicate MarksOk(s: Slab, zp: nat) {
    forall p :: p in s.zones ==> ZoneMarked(s, zp, p)
  }

  ghost predicate BooksOk(s: Slab, zp: nat) {
    forall p :: p in s.zones && p !in s.spare ==> ZoneBooks(s, zp, p)
  }

  ghost predicate AllRecovered(s: Slab, zp: nat) {
    forall x :: x in s.live ==> Recovered(s, zp, x)
  }

  ghost predicate SlabInv(s: Slab, zp: nat) {
    && (zp == 8 || zp == 16 || zp == 32)
    && Shared(s.ledger, |s.usage|)
    && ListsOk(s) && MarksOk(s, zp) && BooksOk(s, zp) && AllRecovered(s, zp)
    && s.used == Total(s.live) <= s.top
  }

  // ---------- geography ----------

  lemma PageOfIn(x: nat, p: nat, n: nat)
    ensures p * PAGE <= x < (p + n) * PAGE <==> p <= PageOf(x) < p + n
  {
  }

  lemma LiveInWith(live: map<nat, nat>, x: nat, n: nat, p: nat, zp: nat)
    ensures LiveIn(live[x := n], p, zp) == LiveIn(live, p, zp) + (if p <= PageOf(x) < p + zp then {x} else {})
  {
    PageOfIn(x, p, zp);
  }

  lemma LiveInWithout(live: map<nat, nat>, x: nat, p: nat, zp: nat)
    ensures LiveIn(live - {x}, p, zp) == LiveIn(live, p, zp) - {x}
  {
  }

  lemma NotInSpare(s: Slab, zp: nat, p: nat, x: nat)
    requires Recovered(s, zp, x) && ZoneMarked(s, zp, p) && p in s.spare
    ensures !(p * PAGE <= x < (p + zp) * PAGE)
  {
    PageOfIn(x, p, zp);
  }

  /** No live allocation lies in a retired zone. */
  lemma SpareIsIdle(s: Slab, zp: nat, p: nat)
    requires AllRecovered(s, zp) && ZoneMarked(s, zp, p) && p in s.spare
    ensures LiveIn(s.live, p, zp) == {}
  {
    forall x | x in s.live
      ensures !(p * PAGE <= x < (p + zp) * PAGE)
    {
      NotInSpare(s, zp, p, x);
    }
  }

  /** Two blocks share no page. */
  lemma BlockOf(l: Ledger, total: nat, a: nat, b: nat, q: nat)
    requires Shared(l, total) && Within(l.held, a, q) && b in l.held && b != a
    ensures !(b <= q < b + l.held[b])
  {
    assert !Within(l.held, b, q);
  }

  /** The block of pages that a live allocation lies in. */
  function HomeOf(s: Slab, x: nat): nat
    requires PageOf(x) < |s.usage|
  {
    match s.usage[PageOf(x)]
    case Small(k) => if k <= PageOf(x) then PageOf(x) - k else 0
    case _ => PageOf(x)
  }

  lemma Home(s: Slab, zp: nat, x: nat)
    requires Recovered(s, zp, x) && MarksOk(s, zp) && Shared(s.ledger, |s.usage|)
    ensures Within(s.ledger.held, HomeOf(s, x), PageOf(x))
    ensures var b := HomeOf(s, x);
            if s.usage[PageOf(x)].Small? then b in s.zones && b !in s.spare && b <= PageOf(x) < b + zp
            else b !in s.zones
  {
    var b := HomeOf(s, x);
    if s.usage[PageOf(x)].Small? {
      assert ZoneMarked(s, zp, b);
    }
  }

  // ---------- a chunk from a zone ----------

  lemma HeadHasChunk(s: Slab, zp: nat, zi: nat)
    requires ListsOk(s) && BooksOk(s, zp) && zi < NZONES && s.lists[zi] != []
    ensures HasChunk(s, zi)
    ensures var p := s.lists[zi][0]; p !in s.spare && s.zones[p].index == zi && ZoneBooks(s, zp, p)
  {
    assert Listed(s, zi);
    var p := s.lists[zi][0];
    assert p in s.lists[zi];
    FreeOrLive(s.zones[p], LiveIn(s.live, p, zp));
  }

  /** The chunk taken is in the zone, and was not live. */
  lemma ChunkTaken(s: Slab, zp: nat, p: nat)
    requires ZoneBooks(s, zp, p) && s.zones[p].nfree > 0
    ensures var z := s.zones[p]; z.uindex + 1 == z.nmax ==> z.chunks != []
    ensures var (y, x) := TakeChunk(s.zones[p]);
            && x !in s.live && p <= PageOf(x) < p + zp
            && Shaped(y, p, zp) && Books(y, LiveIn(s.live[x := y.size], p, zp))
  {
    var z := s.zones[p];
    TakeKeepsBooks(z, LiveIn(s.live, p, zp));
    var (y, x) := TakeChunk(z);
    UsedInside(y, p, zp, LiveIn(s.live, p, zp) + {x}, x);
    LiveInWith(s.live, x, y.size, p, zp);
  }

  lemma UsedInside(z: Zone, p: nat, zp: nat, live: set<nat>, x: nat)
    requires Shaped(z, p, zp) && Books(z, live) && x in live
    ensures p <= PageOf(x) < p + zp && p * PAGE + HEADER <= x && x + z.size <= (p + zp) * PAGE
  {
    assert Used(z, x);
    var i: nat :| i <= z.uindex && x == Chunk(z, i);
    ChunkInside(z, i);
    PageOfIn(x, p, zp);
  }

  /** Only the books of zone p change. */
  lemma BooksFrame(s: Slab, t: Slab, zp: nat, p: nat)
    requires BooksOk(s, zp) && t.zones.Keys == s.zones.Keys && p in s.zones && p !in t.spare
    requires forall q :: q in t.zones && q != p && q !in t.spare ==>
      q !in s.spare && t.zones[q] == s.zones[q] && LiveIn(t.live, q, zp) == LiveIn(s.live, q, zp)
    requires ZoneBooks(t, zp, p)
    ensures BooksOk(t, zp)
  {
    forall q | q in t.zones && q !in t.spare
      ensures ZoneBooks(t, zp, q)
    {
      if q != p {
        assert ZoneBooks(s, zp, q);
      }
    }
  }

  /** The lists after a change to zone p of size class zi, and to no other zone. */
  lemma ListsFrame(s: Slab, t: Slab, p: nat, zi: nat)
    requires ListsOk(s) && zi < NZONES == |t.lists| && t.lists == s.lists[zi := t.lists[zi]]
    requires NoDup(t.lists[zi]) && NoDup(t.spare) && forall q :: q in t.spare ==> q in t.zones
    requires forall q: nat :: q != p ==> (q in t.zones <==> q in s.zones) && (q in t.spare <==> q in s.spare)
    requires forall q: nat :: q != p && q in t.zones ==> t.zones[q] == s.zones[q]
    requires p in s.zones && p !in s.spare ==> s.zones[p].index == zi
    requires p in t.zones && p !in t.spare ==> t.zones[p].index == zi
    requires forall q: nat :: q != p ==> (q in t.lists[zi] <==> q in s.lists[zi])
    requires p in t.lists[zi] <==> p in t.zones && p !in t.spare && t.zones[p].nfree > 0
    ensures ListsOk(t)
  {
    forall j: nat | j < NZONES
      ensures Listed(t, j)
    {
      assert Listed(s, j);
    }
  }

  /** `rt_malloc` takes a chunk from the first zone on a list. */
  lemma FromZoneLists(s: Slab, zp: nat, zi: nat)
    requires ListsOk(s) && BooksOk(s, zp) && zi < NZONES && HasChunk(s, zi)
    ensures ListsOk(FromZone(s, zi).0)
  {
    HeadHasChunk(s, zp, zi);
    var p, t := s.lists[zi][0], FromZone(s, zi).0;
    assert Listed(s, zi);
    assert s.lists[zi] == [p] + s.lists[zi][1..];
    ListsFrame(s, t, p, zi);
  }

  lemma ZonesApart(s: Slab, zp: nat, p: nat, q: nat, page: nat)
    requires Shared(s.ledger, |s.usage|) && ZoneMarked(s, zp, p) && ZoneMarked(s, zp, q) && p != q && p <= page < p + zp
    ensures !(q <= page < q + zp)
  {
    assert Within(s.ledger.held, p, page);
    BlockOf(s.ledger, |s.usage|, p, q, page);
  }

  lemma FromZoneBooks(s: Slab, zp: nat, zi: nat)
    requires Shared(s.ledger, |s.usage|) && ListsOk(s) && MarksOk(s, zp) && BooksOk(s, zp) && zi < NZONES
             && HasChunk(s, zi)
    ensures BooksOk(FromZone(s, zi).0, zp)
  {
    HeadHasChunk(s, zp, zi);
    var p, t := s.lists[zi][0], FromZone(s, zi).0;
    ChunkTaken(s, zp, p);
    OtherZones(s, t, zp, p, FromZone(s, zi).1.x);
    BooksFrame(s, t, zp, p);
  }

  /** A new address in zone p is no address in another zone. */
  lemma OtherZones(s: Slab, t: Slab, zp: nat, p: nat, x: nat)
    requires Shared(s.ledger, |s.usage|) && MarksOk(s, zp) && p in s.zones && p <= PageOf(x) < p + zp
    requires (x in t.live && t.live == s.live[x := t.live[x]]) || t.live == s.live - {x}
    ensures forall q :: q in s.zones && q != p ==> LiveIn(t.live, q, zp) == LiveIn(s.live, q, zp)
  {
    forall q | q in s.zones && q != p
      ensures LiveIn(t.live, q, zp) == LiveIn(s.live, q, zp)
    {
      assert ZoneMarked(s, zp, p) && ZoneMarked(s, zp, q);
      ZonesApart(s, zp, p, q, PageOf(x));
      PageOfIn(x, q, zp);
    }
  }

  /** Nothing has changed for a live allocation and the block it lies in. */
  lemma StillRecovered(s: Slab, t: Slab, zp: nat, y: nat)
    requires Recovered(s, zp, y) && y in t.live && t.live[y] == s.live[y]
    requires |t.usage| == |s.usage| && t.usage[PageOf(y)] == s.usage[PageOf(y)]
    requires var b := HomeOf(s, y);
             && (b in s.ledger.held ==> b in t.ledger.held && t.ledger.held[b] == s.ledger.held[b])
             && (b in t.zones <==> b in s.zones) && (b in t.spare ==> b in s.spare)
             && (b in s.zones ==> t.zones[b].size == s.zones[b].size)
    ensures Recovered(t, zp, y)
  {
  }

  /** In zone p, address x becomes live. */
  lemma ChunkRecovered(s: Slab, t: Slab, zp: nat, p: nat, x: nat)
    requires AllRecovered(s, zp) && ZoneMarked(s, zp, p) && p in s.zones && p !in s.spare && p <= PageOf(x) < p + zp
    requires t.usage == s.usage && t.ledger == s.ledger && t.spare == s.spare
    requires p in t.zones && t.zones == s.zones[p := t.zones[p]] && t.zones[p].size == s.zones[p].size
    requires t.live == s.live[x := s.zones[p].size]
    ensures AllRecovered(t, zp)
  {
    forall y | y in t.live
      ensures Recovered(t, zp, y)
    {
      if y != x {
        StillRecovered(s, t, zp, y);
      }
    }
  }

  lemma FromZoneKeeps(s: Slab, zp: nat, zi: nat)
    requires SlabInv(s, zp) && zi < NZONES && s.lists[zi] != []
    ensures HasChunk(s, zi)
    ensures var (t, r) := FromZone(s, zi);
            SlabInv(t, zp) && r.At? && r.x !in s.live && t.live == s.live[r.x := SizeOf(zi)]
  {
    HeadHasChunk(s, zp, zi);
    ChunkTaken(s, zp, s.lists[zi][0]);
    FromZoneLists(s, zp, zi);
    FromZoneBooks(s, zp, zi);
    var (t, r) := FromZone(s, zi);
    ChunkRecovered(s, t, zp, s.lists[zi][0], r.x);
    forall p | p in t.zones
      ensures ZoneMarked(t, zp, p)
    {
      assert ZoneMarked(s, zp, p);
    }
    TotalWith(s.live, r.x, SizeOf(zi));
  }

  // ---------- a zone made of a retired one ----------

  lemma Formatted(s: Slab, zp: nat, zi: nat, n: nat)
    requires s.spare != [] && zi < NZONES && n == SizeOf(zi) && zp >= 8 && 4 * n <= zp * PAGE
    requires LiveIn(s.live, s.spare[0], zp) == {}
    ensures Offset(n) + n <= zp * PAGE
    ensures var p := s.spare[0];
            var z := NewZone(p * PAGE, zp * PAGE, zi, n);
            var x := Chunk(z, 0);
            && Shaped(z, p, zp) && z.nfree > 0 && x !in s.live && p <= PageOf(x) < p + zp
            && Books(z, LiveIn(s.live[x := n], p, zp))
  {
    var p := s.spare[0];
    NewZoneFits(p * PAGE, zp * PAGE, zi, n);
    var z := NewZone(p * PAGE, zp * PAGE, zi, n);
    var x := Chunk(z, 0);
    FirstChunkBooks(z);
    UsedInside(z, p, zp, {x}, x);
    PageOfIn(x, p, zp);
    assert x !in LiveIn(s.live, p, zp);
    LiveInWith(s.live, x, n, p, zp);
  }

  lemma HeadOnce(l: seq<nat>)
    requires NoDup(l) && l != []
    ensures l == [l[0]] + l[1..] && l[0] in l && l[0] !in l[1..]
  {
  }

  /** What a fresh zone brings about: z is the zone of its first page p, and x its first chunk. */
  ghost predicate InFormat(s: Slab, t: Slab, zp: nat, p: nat, z: Zone, x: nat) {
    && s.spare == [p] + t.spare && p in s.spare && p !in t.spare && t.zones == s.zones[p := z]
       && t.live == s.live[x := z.size]
    && t.ledger == s.ledger && t.usage == s.usage
    && z.index < |s.lists| && t.lists == s.lists[z.index := [p] + s.lists[z.index]]
    && z.nfree > 0 && p <= PageOf(x) < p + zp
  }

  lemma FormatLists(s: Slab, t: Slab, zp: nat, p: nat, z: Zone, x: nat)
    requires ListsOk(s) && InFormat(s, t, zp, p, z, x)
    ensures ListsOk(t)
  {
    assert Listed(s, z.index);
    assert p !in s.lists[z.index];
    assert t.spare == s.spare[1..];
    ListsFrame(s, t, p, z.index);
  }

  lemma FormatRecovered(s: Slab, t: Slab, zp: nat, p: nat, z: Zone, x: nat)
    requires AllRecovered(s, zp) && ZoneMarked(s, zp, p) && p in s.zones && NoDup(s.spare)
             && InFormat(s, t, zp, p, z, x)
    ensures AllRecovered(t, zp)
  {
    forall y | y in t.live
      ensures Recovered(t, zp, y)
    {
      if y != x {
        StillRecovered(s, t, zp, y);
      }
    }
  }

  lemma FormatBooks(s: Slab, t: Slab, zp: nat, p: nat, z: Zone, x: nat)
    requires BooksOk(s, zp) && p in s.zones && NoDup(s.spare) && InFormat(s, t, zp, p, z, x)
    requires forall q :: q in s.zones && q != p ==> LiveIn(t.live, q, zp) == LiveIn(s.live, q, zp)
    requires Shaped(z, p, zp) && Books(z, LiveIn(t.live, p, zp))
    ensures BooksOk(t, zp)
  {
    BooksFrame(s, t, zp, p);
  }

  lemma FormatZones(s: Slab, zp: nat, zi: nat, n: nat)
    requires Shared(s.ledger, |s.usage|) && ListsOk(s) && MarksOk(s, zp) && BooksOk(s, zp) && AllRecovered(s, zp)
    requires s.spare != [] && zi < NZONES && n == SizeOf(zi) && zp >= 8 && 4 * n <= zp * PAGE
    ensures Offset(n) + n <= zp * PAGE && n > 0
    ensures var (t, r) := Format(s, zp, zi, n);
            ListsOk(t) && MarksOk(t, zp) && BooksOk(t, zp) && AllRecovered(t, zp) && r.x !in s.live
  {
    var p := s.spare[0];
    assert ZoneMarked(s, zp, p);
    SpareIsIdle(s, zp, p);
    Formatted(s, zp, zi, n);
    var z := NewZone(p * PAGE, zp * PAGE, zi, n);
    var (t, r) := Format(s, zp, zi, n);
    HeadOnce(s.spare);
    FormatLists(s, t, zp, p, z, r.x);
    FormatRecovered(s, t, zp, p, z, r.x);
    OtherZones(s, t, zp, p, r.x);
    FormatBooks(s, t, zp, p, z, r.x);
    SameMarks(s, t, zp);
  }

  lemma FormatKeeps(s: Slab, zp: nat, zi: nat, n: nat)
    requires SlabInv(s, zp) && s.spare != [] && zi < NZONES && n == SizeOf(zi) && 4 * n <= zp * PAGE
    ensures Offset(n) + n <= zp * PAGE && n > 0
    ensures var (t, r) := Format(s, zp, zi, n);
            SlabInv(t, zp) && r.x !in s.live && t.live == s.live[r.x := n]
  {
    FormatZones(s, zp, zi, n);
    TotalWith(s.live, Format(s, zp, zi, n).1.x, n);
  }

  lemma SameMarks(s: Slab, t: Slab, zp: nat)
    requires MarksOk(s, zp) && t.zones.Keys == s.zones.Keys && t.ledger == s.ledger && t.usage == s.usage
    ensures MarksOk(t, zp)
  {
    forall p | p in t.zones
      ensures ZoneMarked(t, zp, p)
    {
      assert p in s.zones.Keys;
      assert ZoneMarked(s, zp, p);
    }
  }

  // ---------- new pages ----------

  lemma ZonesHeld(s: Slab, zp: nat)
    requires MarksOk(s, zp)
    ensures forall p :: p in s.zones ==> p in s.ledger.held && s.ledger.held[p] == zp
  {
    forall p | p in s.zones
      ensures p in s.ledger.held && s.ledger.held[p] == zp
    {
      assert ZoneMarked(s, zp, p);
    }
  }

  /** Pages just taken belong to no zone and hold no live allocation. */
  lemma NewPages(s: Slab, zp: nat, n: nat)
    requires Shared(s.ledger, |s.usage|) && MarksOk(s, zp) && AllRecovered(s, zp)
    ensures var (l, a) := Take(s.ledger, n);
            Shared(l, |s.usage|) && (a.Null? ==> l == s.ledger) &&
            (a.Page? ==>
              && n > 0 && a.p + n <= |s.usage| && a.p !in s.zones && a.p !in s.ledger.held
                 && l.held == s.ledger.held[a.p := n]
              && (forall x :: x in s.live ==> !(a.p <= PageOf(x) < a.p + n))
              && (forall q :: q in s.zones ==> q + zp <= a.p || a.p + n <= q))
  {
    TakeKeeps(s.ledger, |s.usage|, n);
    var (l, a) := Take(s.ledger, n);
    if a.Page? {
      BlockFits(l, |s.usage|, a.p);
      ZonesHeld(s, zp);
      forall x | x in s.live
        ensures !(a.p <= PageOf(x) < a.p + n)
      {
        Home(s, zp, x);
        assert Within(l.held, HomeOf(s, x), PageOf(x));
        BlockOf(l, |s.usage|, HomeOf(s, x), a.p, PageOf(x));
      }
      forall q | q in s.zones
        ensures q + zp <= a.p || a.p + n <= q
      {
        BlocksApart(l, |s.usage|, q, a.p);
      }
    }
  }

  lemma AddZoneMarks(s: Slab, zp: nat, l: Ledger, p: nat, header: Zone)
    requires MarksOk(s, zp) && p !in s.zones && p + zp <= |s.usage| && l.held == s.ledger.held[p := zp]
    requires forall q :: q in s.zones ==> q + zp <= p || p + zp <= q
    ensures MarksOk(AddZone(s, zp, l, p, header), zp)
  {
    var t := AddZone(s, zp, l, p, header);
    forall q | q in t.zones
      ensures ZoneMarked(t, zp, q)
    {
      if q != p {
        assert ZoneMarked(s, zp, q);
      }
    }
  }

  lemma AddZoneLists(s: Slab, zp: nat, l: Ledger, p: nat, header: Zone)
    requires ListsOk(s) && p !in s.zones && p + zp <= |s.usage|
    ensures ListsOk(AddZone(s, zp, l, p, header))
  {
    assert Listed(s, 0);
    ListsFrame(s, AddZone(s, zp, l, p, header), p, 0);
  }

  lemma AddZoneBooks(s: Slab, zp: nat, l: Ledger, p: nat, header: Zone)
    requires BooksOk(s, zp) && p !in s.zones && p + zp <= |s.usage|
    ensures BooksOk(AddZone(s, zp, l, p, header), zp)
  {
    var t := AddZone(s, zp, l, p, header);
    forall q | q in t.zones && q !in t.spare
      ensures ZoneBooks(t, zp, q)
    {
      assert ZoneBooks(s, zp, q);
    }
  }

  lemma AddZoneRecovered(s: Slab, zp: nat, l: Ledger, p: nat, header: Zone)
    requires AllRecovered(s, zp) && MarksOk(s, zp) && p !in s.ledger.held && p + zp <= |s.usage|
             && l.held == s.ledger.held[p := zp]
    requires forall x :: x in s.live ==> !(p <= PageOf(x) < p + zp)
    ensures AllRecovered(AddZone(s, zp, l, p, header), zp)
  {
    var t := AddZone(s, zp, l, p, header);
    ZonesHeld(s, zp);
    forall x | x in t.live
      ensures Recovered(t, zp, x)
    {
      StillRecovered(s, t, zp, x);
    }
  }

  /** `rt_malloc` gets pages for a new zone and fills in the page map. */
  lemma AddZoneKeeps(s: Slab, zp: nat, header: Zone)
    requires SlabInv(s, zp) && Take(s.ledger, zp).1.Page?
    ensures var (l, a) := Take(s.ledger, zp); a.p + zp <= |s.usage| && SlabInv(AddZone(s, zp, l, a.p, header), zp)
  {
    NewPages(s, zp, zp);
    var (l, a) := Take(s.ledger, zp);
    AddZoneMarks(s, zp, l, a.p, header);
    AddZoneLists(s, zp, l, a.p, header);
    AddZoneBooks(s, zp, l, a.p, header);
    AddZoneRecovered(s, zp, l, a.p, header);
  }

  // ---------- large allocations ----------

  /** A block outside all zones: its use, its place in the page map and its being live concern no zone. */
  lemma OutsideZones(s: Slab, t: Slab, zp: nat, p: nat)
    requires ListsOk(s) && MarksOk(s, zp) && BooksOk(s, zp)
    requires t.zones == s.zones && t.lists == s.lists && t.spare == s.spare && |t.usage| == |s.usage|
    requires forall q :: q in s.zones ==> !(q <= p < q + zp)
    requires forall q: nat :: q < |s.usage| && q != p ==> t.usage[q] == s.usage[q]
    requires forall q :: q in s.zones ==> q in t.ledger.held && t.ledger.held[q] == zp
    requires forall x :: PageOf(x) != p ==> (x in t.live <==> x in s.live)
    ensures ListsOk(t) && MarksOk(t, zp) && BooksOk(t, zp)
  {
    forall zi: nat | zi < NZONES
      ensures Listed(t, zi)
    {
      assert Listed(s, zi);
    }
    forall q | q in t.zones
      ensures ZoneMarked(t, zp, q)
      ensures q !in t.spare ==> ZoneBooks(t, zp, q)
    {
      assert ZoneMarked(s, zp, q);
      OutsideZone(s, t, zp, p, q);
      assert q !in s.spare ==> ZoneBooks(s, zp, q);
    }
  }

  lemma OutsideZone(s: Slab, t: Slab, zp: nat, p: nat, q: nat)
    requires !(q <= p < q + zp) && forall x :: PageOf(x) != p ==> (x in t.live <==> x in s.live)
    ensures LiveIn(t.live, q, zp) == LiveIn(s.live, q, zp)
  {
    forall x: nat
      ensures x in LiveIn(t.live, q, zp) <==> x in LiveIn(s.live, q, zp)
    {
      PageOfIn(x, q, zp);
    }
  }

  lemma AllocLargeKeeps(s: Slab, zp: nat, n: nat)
    requires SlabInv(s, zp)
    ensures var (t, r) := AllocLarge(s, n);
            && SlabInv(t, zp)
            && (r.NoMemory? <==> Take(s.ledger, n).1.Null?) && (r.NoMemory? ==> t == s)
            && (r.At? ==> r.x !in s.live && r.x % PAGE == 0 && t.live == s.live[r.x := n * PAGE])
  {
    NewPages(s, zp, n);
    var (l, a) := Take(s.ledger, n);
    var (t, r) := AllocLarge(s, n);
    if a.Page? {
      assert PageOf(r.x) == a.p;
      ZonesHeld(s, zp);
      OutsideZones(s, t, zp, a.p);
      LargeRecovered(s, t, zp, a.p, n);
      TotalWith(s.live, r.x, n * PAGE);
    }
  }

  lemma LargeRecovered(s: Slab, t: Slab, zp: nat, p: nat, n: nat)
    requires AllRecovered(s, zp) && MarksOk(s, zp) && p !in s.ledger.held && p < |s.usage| && n > 0
    requires forall x :: x in s.live ==> !(p <= PageOf(x) < p + n)
    requires t.ledger.held == s.ledger.held[p := n] && t.zones == s.zones && t.spare == s.spare
    requires t.usage == s.usage[p := Large(n)] && t.live == s.live[p * PAGE := n * PAGE]
    ensures AllRecovered(t, zp)
  {
    ZonesHeld(s, zp);
    forall y | y in t.live
      ensures Recovered(t, zp, y)
    {
      if y != p * PAGE {
        StillRecovered(s, t, zp, y);
      }
    }
  }

  // ---------- rt_malloc ----------

  /** What a header holds before it is written. */
  const BLANK := Zone(false, 0, 0, 0, 0, 0, 0, [])

  lemma SmallRequest(zp: nat, size: nat)
    requires (zp == 8 || zp == 16 || zp == 32) && 0 < size < Limit(zp)
    ensures var (zi, n) := ZoneIndex(size);
            zi < NZONES && n == SizeOf(zi) && size <= n && 4 * n <= zp * PAGE && Offset(n) + n <= zp * PAGE
  {
    SmallestChunk(size);
    var (zi, n) := ZoneIndex(size);
    if zp == 8 && zi > 63 {
      SizesIncrease(62, zi - 1);
    }
    ThreeChunks(zp * PAGE, n);
  }

  function Malloc(s: Slab, zp: nat, size: nat): (Slab, Pointer)
    requires SlabInv(s, zp)
  {
    if size == 0 then (s, NoMemory)
    else if size >= Limit(zp) then AllocLarge(s, PagesFor(size))
    else
      SmallRequest(zp, size);
      var (zi, n) := ZoneIndex(size);
      if s.lists[zi] != [] then
        HeadHasChunk(s, zp, zi);
        FromZone(s, zi)
      else if s.spare != [] then Format(s, zp, zi, n)
      else
        var (l, a) := Take(s.ledger, zp);
        if a.Null? then (s, NoMemory)
        else
          NewPages(s, zp, zp);
          Format(AddZone(s, zp, l, a.p, BLANK), zp, zi, n)
  }

  /** The pages that a request needs when no zone can serve it. */
  function PagesNeeded(zp: nat, size: nat): nat {
    if size >= Limit(zp) then PagesFor(size) else zp
  }

  /** A zone can serve a small request. */
  ghost predicate ZoneReady(s: Slab, size: nat)
    requires size > 0
  {
    s.spare != [] || (ZoneIndex(size).0 < |s.lists| && s.lists[ZoneIndex(size).0] != [])
  }

  /** A new live block of at least the size asked for, and nothing else live has changed. */
  lemma MallocKeeps(s: Slab, zp: nat, size: nat)
    requires SlabInv(s, zp)
    ensures var (t, r) := Malloc(s, zp, size);
            && SlabInv(t, zp)
            && (r.At? ==>
                  r.x !in s.live && r.x in t.live && t.live == s.live[r.x := t.live[r.x]] && t.live[r.x] >= size > 0)
            && (r.NoMemory? ==> t == s)
            && (r.NoMemory? <==>
                  size == 0 || ((size >= Limit(zp) || !ZoneReady(s, size))
                      && Take(s.ledger, PagesNeeded(zp, size)).1.Null?))
  {
    if size == 0 {
    } else if size >= Limit(zp) {
      AllocLargeKeeps(s, zp, PagesFor(size));
    } else {
      SmallRequest(zp, size);
      var (zi, n) := ZoneIndex(size);
      if s.lists[zi] != [] {
        FromZoneKeeps(s, zp, zi);
      } else if s.spare != [] {
        FormatKeeps(s, zp, zi, n);
      } else if Take(s.ledger, zp).1.Page? {
        AddZoneKeeps(s, zp, BLANK);
        var (l, a) := Take(s.ledger, zp);
        FormatKeeps(AddZone(s, zp, l, a.p, BLANK), zp, zi, n);
      }
    }
  }

  /** The page allocator fails exactly when nowhere are so many pages free in a row. */
  lemma TakeFails(s: Slab, n: nat)
    requires Shared(s.ledger, |s.usage|) && n > 0
    ensures Take(s.ledger, n).1.Null? <==> forall p: nat :: !HasAll(s.ledger.runs, p, n)
  {
    forall p: nat
      ensures Take(s.ledger, n).1.Null? ==> !HasAll(s.ledger.runs, p, n)
    {
      AllocIsLowest(s.ledger.runs, n, p);
    }
    AllocIsLowest(s.ledger.runs, n, 0);
  }

  // ---------- rt_free ----------

  lemma FreeLargeZones(s: Slab, zp: nat, p: nat)
    requires Shared(s.ledger, |s.usage|) && ListsOk(s) && MarksOk(s, zp) && BooksOk(s, zp) && AllRecovered(s, zp)
    requires p in s.ledger.held && p < |s.usage| && s.ledger.held[p] * PAGE <= s.used && p !in s.zones
             && s.usage[p].Large?
    ensures var t := FreeLarge(s, p); ListsOk(t) && MarksOk(t, zp) && BooksOk(t, zp) && AllRecovered(t, zp)
  {
    ZonesHeld(s, zp);
    ZonesNotAt(s, zp, p);
    OutsideZones(s, FreeLarge(s, p), zp, p);
    LargeGone(s, FreeLarge(s, p), zp, p);
  }

  /** The pages of a large allocation are given back. */
  lemma FreeLargeKeeps(s: Slab, zp: nat, x: nat)
    requires SlabInv(s, zp) && x in s.live && PageOf(x) < |s.usage| && s.usage[PageOf(x)].Large?
    ensures PageOf(x) in s.ledger.held && s.ledger.held[PageOf(x)] * PAGE <= s.used && x == PageOf(x) * PAGE
    ensures SlabInv(FreeLarge(s, PageOf(x)), zp)
  {
    assert Recovered(s, zp, x);
    TotalWithout(s.live, x);
    GiveKeeps(s.ledger, |s.usage|, PageOf(x));
    FreeLargeZones(s, zp, PageOf(x));
  }

  lemma ZonesNotAt(s: Slab, zp: nat, p: nat)
    requires Shared(s.ledger, |s.usage|) && MarksOk(s, zp) && p in s.ledger.held && p !in s.zones
    ensures forall q :: q in s.zones ==> !(q <= p < q + zp)
  {
    ZonesHeld(s, zp);
    forall q | q in s.zones
      ensures !(q <= p < q + zp)
    {
      assert s.ledger.held[p] > 0;
      assert Within(s.ledger.held, p, p);
      BlockOf(s.ledger, |s.usage|, p, q, p);
    }
  }

  lemma LargeGone(s: Slab, t: Slab, zp: nat, p: nat)
    requires AllRecovered(s, zp) && MarksOk(s, zp) && Shared(s.ledger, |s.usage|) && p in s.ledger.held
             && p < |s.usage| && p !in s.zones
    requires s.usage[p].Large? && t.ledger.held == s.ledger.held - {p} && t.zones == s.zones && t.spare == s.spare
    requires t.usage == s.usage[p := Large(0)] && t.live == s.live - {p * PAGE}
    ensures AllRecovered(t, zp)
  {
    forall y | y in t.live
      ensures Recovered(t, zp, y)
    {
      assert Recovered(s, zp, y);
      Home(s, zp, y);
      StillRecovered(s, t, zp, y);
    }
  }

  lemma PutBackLists(s: Slab, p: nat, x: nat)
    requires ListsOk(s) && p in s.zones && p !in s.spare && s.zones[p].index < NZONES && s.zones[p].size <= s.used
    ensures ListsOk(PutBack(s, p, x))
  {
    var t, zi := PutBack(s, p, x), s.zones[p].index;
    assert Listed(s, zi);
    ListsFrame(s, t, p, zi);
  }

  lemma PutBackBooks(s: Slab, zp: nat, p: nat, x: nat)
    requires Shared(s.ledger, |s.usage|) && MarksOk(s, zp) && BooksOk(s, zp) && p in s.zones && p !in s.spare
    requires s.zones[p].index < |s.lists| && s.zones[p].size <= s.used && x in s.live && p <= PageOf(x) < p + zp
    ensures BooksOk(PutBack(s, p, x), zp)
  {
    var t := PutBack(s, p, x);
    assert ZoneBooks(s, zp, p);
    PageOfIn(x, p, zp);
    PutKeepsBooks(s.zones[p], LiveIn(s.live, p, zp), x);
    LiveInWithout(s.live, x, p, zp);
    OtherZones(s, t, zp, p, x);
    BooksFrame(s, t, zp, p);
  }

  lemma PutBackRecovered(s: Slab, zp: nat, p: nat, x: nat)
    requires AllRecovered(s, zp) && p in s.zones && s.zones[p].index < |s.lists| && s.zones[p].size <= s.used
    ensures AllRecovered(PutBack(s, p, x), zp)
  {
    var t := PutBack(s, p, x);
    forall y | y in t.live
      ensures Recovered(t, zp, y)
    {
      StillRecovered(s, t, zp, y);
    }
  }

  lemma PutBackZones(s: Slab, zp: nat, p: nat, x: nat)
    requires Shared(s.ledger, |s.usage|) && ListsOk(s) && MarksOk(s, zp) && BooksOk(s, zp) && AllRecovered(s, zp)
    requires p in s.zones && p !in s.spare && s.zones[p].size <= s.used && x in s.live && p <= PageOf(x) < p + zp
    ensures s.zones[p].index < |s.lists|
    ensures var t := PutBack(s, p, x); ListsOk(t) && MarksOk(t, zp) && BooksOk(t, zp) && AllRecovered(t, zp)
  {
    assert ZoneBooks(s, zp, p);
    PutBackLists(s, p, x);
    PutBackBooks(s, zp, p, x);
    PutBackRecovered(s, zp, p, x);
    SameMarks(s, PutBack(s, p, x), zp);
  }

  /** A chunk is put back into the zone that the page map leads to. */
  lemma PutBackKeeps(s: Slab, zp: nat, x: nat)
    requires SlabInv(s, zp) && x in s.live && PageOf(x) < |s.usage| && s.usage[PageOf(x)].Small?
    ensures var p := HomeOf(s, x);
            && p in s.zones && p !in s.spare && s.zones[p].index < |s.lists| && s.zones[p].size <= s.used
            && SlabInv(PutBack(s, p, x), zp)
  {
    Home(s, zp, x);
    assert Recovered(s, zp, x);
    TotalWithout(s.live, x);
    PutBackZones(s, zp, HomeOf(s, x), x);
  }

  lemma RetireLists(s: Slab, p: nat)
    requires ListsOk(s) && p in s.zones && p !in s.spare && s.zones[p].index < NZONES
    ensures ListsOk(Retire(s, p))
  {
    var t, zi := Retire(s, p), s.zones[p].index;
    assert Listed(s, zi);
    UnlinkedHas(s.lists[zi], p);
    ListsFrame(s, t, p, zi);
  }

  lemma RetireRecovered(s: Slab, zp: nat, p: nat)
    requires AllRecovered(s, zp) && MarksOk(s, zp) && p in s.zones && s.zones[p].index < |s.lists|
             && LiveIn(s.live, p, zp) == {}
    ensures AllRecovered(Retire(s, p), zp)
  {
    var t := Retire(s, p);
    forall y | y in t.live
      ensures Recovered(t, zp, y)
    {
      assert y !in LiveIn(s.live, p, zp);
      PageOfIn(y, p, zp);
      RetiredElsewhere(s, t, zp, p, y);
    }
  }

  lemma RetiredElsewhere(s: Slab, t: Slab, zp: nat, p: nat, y: nat)
    requires Recovered(s, zp, y) && !(p <= PageOf(y) < p + zp) && p in s.zones && s.zones[p].index < |s.lists|
             && t == Retire(s, p)
    ensures Recovered(t, zp, y)
  {
  }

  /** A zone is retired when all of its chunks have come back. */
  lemma RetireKeeps(s: Slab, zp: nat, p: nat)
    requires SlabInv(s, zp) && p in s.zones && p !in s.spare && s.zones[p].nfree == s.zones[p].nmax
    ensures s.zones[p].index < |s.lists| && SlabInv(Retire(s, p), zp)
  {
    assert ZoneBooks(s, zp, p);
    FreeOrLive(s.zones[p], LiveIn(s.live, p, zp));
    RetireLists(s, p);
    RetireRecovered(s, zp, p);
    var t := Retire(s, p);
    SameMarks(s, t, zp);
    forall q | q in t.zones && q !in t.spare
      ensures ZoneBooks(t, zp, q)
    {
      assert ZoneBooks(s, zp, q);
    }
  }

  lemma ReleaseMarks(s: Slab, zp: nat)
    requires Shared(s.ledger, |s.usage|) && MarksOk(s, zp)
    requires s.spare != [] && s.spare[0] in s.zones && s.spare[0] in s.ledger.held && s.spare[0] + zp <= |s.usage|
    ensures MarksOk(Release(s, zp), zp)
  {
    var t, p := Release(s, zp), s.spare[0];
    ZonesHeld(s, zp);
    forall q | q in t.zones
      ensures ZoneMarked(t, zp, q)
    {
      assert ZoneMarked(s, zp, q);
      BlocksApart(s.ledger, |s.usage|, q, p);
    }
  }

  lemma ReleaseBooks(s: Slab, zp: nat)
    requires BooksOk(s, zp) && s.spare != [] && s.spare[0] in s.ledger.held && s.spare[0] + zp <= |s.usage|
    ensures BooksOk(Release(s, zp), zp)
  {
    var t, p := Release(s, zp), s.spare[0];
    assert s.spare == [p] + t.spare;
    forall q | q in t.zones && q !in t.spare
      ensures ZoneBooks(t, zp, q)
    {
      assert ZoneBooks(s, zp, q);
    }
  }

  lemma ReleaseLists(s: Slab, zp: nat)
    requires ListsOk(s) && s.spare != [] && s.spare[0] in s.ledger.held && s.spare[0] + zp <= |s.usage|
    ensures ListsOk(Release(s, zp))
  {
    var t, p := Release(s, zp), s.spare[0];
    assert s.spare == [p] + t.spare;
    assert Listed(s, 0);
    ListsFrame(s, t, p, 0);
  }

  lemma ReleaseRecovered(s: Slab, zp: nat)
    requires Shared(s.ledger, |s.usage|) && MarksOk(s, zp) && AllRecovered(s, zp) && NoDup(s.spare)
    requires s.spare != [] && s.spare[0] in s.zones && s.spare[0] in s.ledger.held && s.ledger.held[s.spare[0]] == zp
    requires s.spare[0] + zp <= |s.usage|
    ensures AllRecovered(Release(s, zp), zp)
  {
    var t, p := Release(s, zp), s.spare[0];
    assert s.spare == [p] + t.spare;
    forall y | y in t.live
      ensures Recovered(t, zp, y)
    {
      Home(s, zp, y);
      assert HomeOf(s, y) != p;
      BlockOf(s.ledger, |s.usage|, HomeOf(s, y), p, PageOf(y));
      StillRecovered(s, t, zp, y);
    }
  }

  /** The pages of a retired zone are given back. */
  lemma ReleaseKeeps(s: Slab, zp: nat)
    requires SlabInv(s, zp) && s.spare != []
    ensures s.spare[0] in s.ledger.held && s.spare[0] + zp <= |s.usage| && SlabInv(Release(s, zp), zp)
  {
    assert ZoneMarked(s, zp, s.spare[0]);
    GiveKeeps(s.ledger, |s.usage|, s.spare[0]);
    ReleaseMarks(s, zp);
    ReleaseBooks(s, zp);
    ReleaseLists(s, zp);
    ReleaseRecovered(s, zp);
  }

  /** `rt_free`. */
  function Freed(s: Slab, zp: nat, x: nat): Slab
    requires SlabInv(s, zp) && x in s.live
  {
    assert Recovered(s, zp, x);
    var p := PageOf(x);
    if s.usage[p].Large? then
      FreeLargeKeeps(s, zp, x);
      FreeLarge(s, p)
    else
      PutBackKeeps(s, zp, x);
      AfterPut(PutBack(s, HomeOf(s, x), x), zp, HomeOf(s, x))
  }

  /** More than this many retired zones are not kept. */
  const ZONE_RELEASE_THRESH := 2

  /** Zone p is retired if nothing in it is live and another zone of its size class has chunks to hand out. */
  function AfterPut(s: Slab, zp: nat, p: nat): Slab
    requires SlabInv(s, zp) && p in s.zones && p !in s.spare
  {
    assert ZoneBooks(s, zp, p);
    var z := s.zones[p];
    if z.nfree == z.nmax && s.lists[z.index] != [p] then
      RetireKeeps(s, zp, p);
      AfterRetire(Retire(s, p), zp)
    else s
  }

  function AfterRetire(s: Slab, zp: nat): Slab
    requires SlabInv(s, zp)
  {
    if |s.spare| > ZONE_RELEASE_THRESH then
      ReleaseKeeps(s, zp);
      Release(s, zp)
    else s
  }

  lemma AfterRetireKeeps(s: Slab, zp: nat)
    requires SlabInv(s, zp)
    ensures var t := AfterRetire(s, zp);
            SlabInv(t, zp) && t.live == s.live
                && (|s.spare| <= ZONE_RELEASE_THRESH + 1 ==> |t.spare| <= ZONE_RELEASE_THRESH)
  {
    if |s.spare| > ZONE_RELEASE_THRESH {
      ReleaseKeeps(s, zp);
    }
  }

  lemma AfterPutKeeps(s: Slab, zp: nat, p: nat)
    requires SlabInv(s, zp) && p in s.zones && p !in s.spare
    ensures var t := AfterPut(s, zp, p);
            SlabInv(t, zp) && t.live == s.live
                && (|s.spare| <= ZONE_RELEASE_THRESH ==> |t.spare| <= ZONE_RELEASE_THRESH)
  {
    assert ZoneBooks(s, zp, p);
    var z := s.zones[p];
    if z.nfree == z.nmax && s.lists[z.index] != [p] {
      RetireKeeps(s, zp, p);
      AfterRetireKeeps(Retire(s, p), zp);
    }
  }

  /** What the page map tells about a freed allocation suffices for getting from s to u. */
  ghost predicate FreesTo(s: Slab, zp: nat, x: nat, u: Slab) {
    && PageOf(x) < |s.usage|
    && match s.usage[PageOf(x)]
       case Unused => false
       case Large(n) =>
         var p := PageOf(x);
         && p in s.ledger.held && s.ledger.held[p] == n > 0 && n * PAGE <= s.used
         && p + n <= |s.usage| && NoneFree(s.ledger.runs, p, n) && u == FreeLarge(s, p)
       case Small(k) => k <= PageOf(x) && PutsTo(s, zp, PageOf(x) - k, x, u)
  }

  ghost predicate PutsTo(s: Slab, zp: nat, p: nat, x: nat, u: Slab) {
    && p in s.zones && p !in s.spare && s.zones[p].index < |s.lists| && s.zones[p].size <= s.used
    && SlabInv(PutBack(s, p, x), zp) && u == AfterPut(PutBack(s, p, x), zp, p)
  }

  lemma FreedTo(s: Slab, zp: nat, x: nat)
    requires SlabInv(s, zp) && x in s.live
    ensures FreesTo(s, zp, x, Freed(s, zp, x))
  {
    assert Recovered(s, zp, x);
    if s.usage[PageOf(x)].Large? {
      FreeLargeKeeps(s, zp, x);
      BlockFits(s.ledger, |s.usage|, PageOf(x));
    } else {
      PutBackKeeps(s, zp, x);
      assert PutsTo(s, zp, HomeOf(s, x), x, Freed(s, zp, x));
    }
  }

  /** Nothing but the freed allocation is affected, and at most two retired zones are kept. */
  lemma FreedKeeps(s: Slab, zp: nat, x: nat)
    requires SlabInv(s, zp) && x in s.live
    ensures var t := Freed(s, zp, x);
            SlabInv(t, zp) && t.live == s.live - {x}
                && (|s.spare| <= ZONE_RELEASE_THRESH ==> |t.spare| <= ZONE_RELEASE_THRESH)
  {
    assert Recovered(s, zp, x);
    if s.usage[PageOf(x)].Large? {
      FreeLargeKeeps(s, zp, x);
    } else {
      PutBackKeeps(s, zp, x);
      AfterPutKeeps(PutBack(s, HomeOf(s, x), x), zp, HomeOf(s, x));
    }
  }

  // ---------- live allocations ----------

  lemma ChunkOf(s: Slab, zp: nat, x: nat)
    requires SlabInv(s, zp) && x in s.live && PageOf(x) < |s.usage| && s.usage[PageOf(x)].Small?
    ensures var p := HomeOf(s, x);
            && p in s.zones && Shaped(s.zones[p], p, zp) && Books(s.zones[p], LiveIn(s.live, p, zp))
            && x in LiveIn(s.live, p, zp) && s.live[x] == s.zones[p].size && Used(s.zones[p], x)
  {
    assert Recovered(s, zp, x);
    Home(s, zp, x);
    assert ZoneBooks(s, zp, HomeOf(s, x));
    PageOfIn(x, HomeOf(s, x), zp);
  }

  /** A live allocation lies in the pages of one block, and behind the header if that is a zone. */
  lemma LiveInBlock(s: Slab, zp: nat, x: nat)
    requires SlabInv(s, zp) && x in s.live
    ensures PageOf(x) < |s.usage|
    ensures var b := HomeOf(s, x);
            && b in s.ledger.held && b * PAGE <= x && x + s.live[x] <= (b + s.ledger.held[b]) * PAGE
            && (b in s.zones ==> b * PAGE + HEADER <= x)
  {
    assert Recovered(s, zp, x);
    Home(s, zp, x);
    if s.usage[PageOf(x)].Small? {
      ChunkOf(s, zp, x);
      var b := HomeOf(s, x);
      UsedInside(s.zones[b], b, zp, LiveIn(s.live, b, zp), x);
      ZonesHeld(s, zp);
    }
  }

  /** Live allocations do not overlap. */
  lemma LiveApart(s: Slab, zp: nat, x: nat, y: nat)
    requires SlabInv(s, zp) && x in s.live && y in s.live && x != y
    ensures x + s.live[x] <= y || y + s.live[y] <= x
  {
    LiveInBlock(s, zp, x);
    LiveInBlock(s, zp, y);
    var a, b := HomeOf(s, x), HomeOf(s, y);
    if a != b {
      BlocksApart(s.ledger, |s.usage|, a, b);
    } else {
      InSameBlock(s, zp, x, y);
    }
  }

  lemma UsedApart(z: Zone, x: nat, y: nat)
    requires Used(z, x) && Used(z, y) && x != y
    ensures x + z.size <= y || y + z.size <= x
  {
    var i: nat :| i <= z.uindex && x == Chunk(z, i);
    var j: nat :| j <= z.uindex && y == Chunk(z, j);
    if i < j {
      ChunksApart(z, i, j);
    } else {
      ChunksApart(z, j, i);
    }
  }

  lemma InSameBlock(s: Slab, zp: nat, x: nat, y: nat)
    requires SlabInv(s, zp) && x in s.live && y in s.live && x != y && PageOf(x) < |s.usage| && PageOf(y) < |s.usage|
    requires HomeOf(s, x) == HomeOf(s, y)
    ensures x + s.live[x] <= y || y + s.live[y] <= x
  {
    assert Recovered(s, zp, x) && Recovered(s, zp, y);
    if s.usage[PageOf(x)].Small? {
      ChunkOf(s, zp, x);
      ChunkOf(s, zp, y);
      UsedApart(s.zones[HomeOf(s, x)], x, y);
    }
  }

  lemma SizesAreEights(zi: nat)
    ensures SizeOf(zi) % 8 == 0
  {
  }

  lemma UsedAligned(z: Zone, at: nat, x: nat)
    requires z.size > 0 && z.base == at + Offset(z.size) && z.size % 8 == 0 && at % PAGE == 0 && Used(z, x)
    ensures x % 8 == 0
  {
    var i: nat :| i <= z.uindex && x == Chunk(z, i);
    ChunkAligned(z, at, i);
  }

  lemma PageAligned(p: nat)
    ensures p * PAGE % PAGE == 0 && p * PAGE % 8 == 0
  {
    Divides(p * PAGE, PAGE, p, 0);
    Divides(p * PAGE, 8, 512 * p, 0);
  }

  /** Live allocations are aligned to 8 bytes. */
  lemma LiveAligned(s: Slab, zp: nat, x: nat)
    requires SlabInv(s, zp) && x in s.live
    ensures x % 8 == 0
  {
    assert Recovered(s, zp, x);
    PageAligned(HomeOf(s, x));
    if s.usage[PageOf(x)].Small? {
      ChunkOf(s, zp, x);
      SizesAreEights(s.zones[HomeOf(s, x)].index);
      UsedAligned(s.zones[HomeOf(s, x)], HomeOf(s, x) * PAGE, x);
    }
  }

  // ---------- runs ----------

  datatype SlabOp = MallocOp(size: nat) | FreeOp(x: nat)

  /** One call; what is freed has to be live. */
  ghost function StepOf(s: Slab, zp: nat, op: SlabOp): (t: Slab)
    requires SlabInv(s, zp)
    ensures SlabInv(t, zp)
  {
    match op
    case MallocOp(size) => MallocKeeps(s, zp, size); Malloc(s, zp, size).0
    case FreeOp(x) => if x in s.live then FreedKeeps(s, zp, x); Freed(s, zp, x) else s
  }

  ghost function RunOf(s: Slab, zp: nat, ops: seq<SlabOp>): (t: Slab)
    requires SlabInv(s, zp)
    ensures SlabInv(t, zp)
    decreases |ops|
  {
    if ops == [] then s else RunOf(StepOf(s, zp, ops[0]), zp, ops[1..])
  }

  /** The most that was in use at any time of a run. */
  ghost function Peak(s: Slab, zp: nat, ops: seq<SlabOp>): nat
    requires SlabInv(s, zp)
    decreases |ops|
  {
    if ops == [] then s.used else
      var rest := Peak(StepOf(s, zp, ops[0]), zp, ops[1..]);
      if s.used > rest then s.used else rest
  }

  lemma TopAfterPut(s: Slab, zp: nat, p: nat)
    requires SlabInv(s, zp) && p in s.zones && p !in s.spare
    ensures AfterPut(s, zp, p).top == s.top && AfterPut(s, zp, p).used == s.used
  {
    assert ZoneBooks(s, zp, p);
  }

  lemma TopAfterFree(s: Slab, zp: nat, x: nat)
    requires SlabInv(s, zp) && x in s.live
    ensures Freed(s, zp, x).top == s.top && Freed(s, zp, x).used <= s.used
  {
    assert Recovered(s, zp, x);
    if s.usage[PageOf(x)].Small? {
      PutBackKeeps(s, zp, x);
      TopAfterPut(PutBack(s, HomeOf(s, x), x), zp, HomeOf(s, x));
    }
  }

  /** The counters are charged together. */
  ghost predicate Peaked(s: Slab, t: Slab) {
    t.top == if t.used > s.top then t.used else s.top
  }

  lemma TopAfterMalloc(s: Slab, zp: nat, size: nat)
    requires SlabInv(s, zp)
    ensures Peaked(s, Malloc(s, zp, size).0)
  {
    if size == 0 {
    } else if size >= Limit(zp) {
      AllocLargePeaks(s, PagesFor(size));
    } else {
      SmallRequest(zp, size);
      var (zi, n) := ZoneIndex(size);
      if s.lists[zi] != [] {
        HeadHasChunk(s, zp, zi);
        FromZonePeaks(s, zi);
      } else if s.spare != [] {
        FormatPeaks(s, zp, zi, n);
      } else if Take(s.ledger, zp).1.Page? {
        NewPages(s, zp, zp);
        var (l, a) := Take(s.ledger, zp);
        FormatPeaks(AddZone(s, zp, l, a.p, BLANK), zp, zi, n);
      }
    }
  }

  lemma AllocLargePeaks(s: Slab, n: nat)
    requires s.used <= s.top
    ensures Peaked(s, AllocLarge(s, n).0)
  {
  }

  lemma FromZonePeaks(s: Slab, zi: nat)
    requires HasChunk(s, zi)
    ensures Peaked(s, FromZone(s, zi).0)
  {
  }

  lemma FormatPeaks(s: Slab, zp: nat, zi: nat, n: nat)
    requires s.spare != [] && zi < |s.lists| && n > 0 && Offset(n) + n <= zp * PAGE
    ensures Peaked(s, Format(s, zp, zi, n).0)
  {
  }

  lemma TopAfterStep(s: Slab, zp: nat, op: SlabOp)
    requires SlabInv(s, zp)
    ensures Peaked(s, StepOf(s, zp, op))
  {
    match op
    case MallocOp(size) => TopAfterMalloc(s, zp, size);
    case FreeOp(x) => if x in s.live { TopAfterFree(s, zp, x); }
  }

  /** `max_mem` is the running maximum of `used_mem`. */
  lemma {:induction false} TopIsPeak(s: Slab, zp: nat, ops: seq<SlabOp>)
    requires SlabInv(s, zp)
    ensures RunOf(s, zp, ops).top == if Peak(s, zp, ops) > s.top then Peak(s, zp, ops) else s.top
    decreases |ops|
  {
    if ops != [] {
      TopAfterStep(s, zp, ops[0]);
      TopIsPeak(StepOf(s, zp, ops[0]), zp, ops[1..]);
      PeakIsUsed(StepOf(s, zp, ops[0]), zp, ops[1..]);
    }
  }

  lemma PeakIsUsed(s: Slab, zp: nat, ops: seq<SlabOp>)
    requires SlabInv(s, zp)
    ensures Peak(s, zp, ops) >= s.used
  {
  }

  /** After every run the books are exact. */
  lemma RunKeepsBooks(s: Slab, zp: nat, ops: seq<SlabOp>, p: nat)
    requires SlabInv(s, zp) && p in RunOf(s, zp, ops).zones
    ensures var t := RunOf(s, zp, ops);
            var z := t.zones[p];
            if p in t.spare then LiveIn(t.live, p, zp) == {} else
              && z.nfree == (z.nmax - 1 - z.uindex) + |z.chunks| && z.nfree + |LiveIn(t.live, p, zp)| == z.nmax
              && z.index < |t.lists| && (p in t.lists[z.index] <==> z.nfree > 0)
  {
    var t := RunOf(s, zp, ops);
    assert ZoneMarked(t, zp, p);
    if p in t.spare {
      SpareIsIdle(t, zp, p);
    } else {
      assert ZoneBooks(t, zp, p);
      FreeOrLive(t.zones[p], LiveIn(t.live, p, zp));
      assert Listed(t, t.zones[p].index);
    }
  }

  // ---------- the start ----------

  /** The loop of `rt_system_heap_init` that doubles the zone size. */
  function ZoneSize(limit: nat, size: nat): nat
    decreases 131072 - size
  {
    if 0 < size < 131072 && size * 2 < limit / 1024 then ZoneSize(limit, size * 2) else size
  }

  lemma ZonePages(limit: nat)
    ensures var zp := ZoneSize(limit, 32768) / PAGE; zp == 8 || zp == 16 || zp == 32
    ensures ZoneSize(limit, 32768) % PAGE == 0
  {
  }

  /** A heap whose first pages hold the page map, with 4 bytes for each page. */
  function FreshSlab(usage: seq<Usage>): Slab {
    var l := Take(Ledger([Run(0, |usage|)], map[]), PagesFor(4 * |usage|)).0;
    Slab(l, map[], seq(NZONES, _ => []), [], usage, 0, 0, map[])
  }

  lemma FreshSlabInv(usage: seq<Usage>, zp: nat)
    requires usage != [] && (zp == 8 || zp == 16 || zp == 32)
    ensures SlabInv(FreshSlab(usage), zp)
  {
    FreshHeap(|usage|);
    TakeKeeps(Ledger([Run(0, |usage|)], map[]), |usage|, PagesFor(4 * |usage|));
    var s := FreshSlab(usage);
    forall zi: nat | zi < NZONES
      ensures Listed(s, zi)
    {
    }
  }

  /** The page map fits into the heap: 2 to the 20 pages are the whole address space. */
  lemma PageMapFits(total: nat)
    requires 0 < total <= 0x10_0000
    ensures Take(Ledger([Run(0, total)], map[]), PagesFor(4 * total)).1 == Page(0)
  {
    assert 0 < PagesFor(4 * total) <= total;
    assert FirstFit([Run(0, total)], PagesFor(4 * total), 0) == 0;
  }
}
