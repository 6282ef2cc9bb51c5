/** The zones of `slab.c`: size classes, and the books of one zone of chunks. */
module ZoneModel {
  import opened LinkedNodes

  const PAGE := 4096
  const NZONES := 72
  /** The size of the zone header. */
  const HEADER := 36

  // ---------- size classes ----------

  /** `(n + mask) & ~mask`, for a mask of one less than the unit. */
  function RoundUp(n: nat, unit: nat): nat
    requires unit > 0
  {
    (n + (unit - 1)) / unit * unit
  }

  /** `zoneindex`: the zone index, and the size that the request is rounded up to. */
  function ZoneIndex(n: nat): (nat, nat)
    requires 0 < n
  {
    if n < 128 then (RoundUp(n, 8) / 8 - 1, RoundUp(n, 8))
    else if n < 256 then (RoundUp(n, 16) / 16 + 7, RoundUp(n, 16))
    else if n < 8192 then
      if n < 512 then (RoundUp(n, 32) / 32 + 15, RoundUp(n, 32))
      else if n < 1024 then (RoundUp(n, 64) / 64 + 23, RoundUp(n, 64))
      else if n < 2048 then (RoundUp(n, 128) / 128 + 31, RoundUp(n, 128))
      else if n < 4096 then (RoundUp(n, 256) / 256 + 39, RoundUp(n, 256))
      else (RoundUp(n, 512) / 512 + 47, RoundUp(n, 512))
    else if n < 16384 then (RoundUp(n, 1024) / 1024 + 55, RoundUp(n, 1024))
    else (0, n)
  }

  /** The chunk sizes in order: sixteen steps of 8, then eight steps each of 16, 32, and so on up to 1024. */
  function SizeOf(zi: nat): nat {
    if zi < 16 then (zi + 1) * 8
    else if zi < 24 then (zi - 7) * 16
    else if zi < 32 then (zi - 15) * 32
    else if zi < 40 then (zi - 23) * 64
    else if zi < 48 then (zi - 31) * 128
    else if zi < 56 then (zi - 39) * 256
    else if zi < 64 then (zi - 47) * 512
    else (zi - 55) * 1024
  }

  lemma SizesIncrease(i: nat, j: nat)
    requires i < j
    ensures SizeOf(i) < SizeOf(j)
  {
  }

  lemma Steps(n: nat, unit: nat)
    requires 0 < n && unit > 0
    ensures var q := RoundUp(n, unit) / unit;
            q > 0 && RoundUp(n, unit) == q * unit && q * unit - unit < n <= q * unit
  {
    var x := n + (unit - 1);
    var q := x / unit;
    assert x == unit * q + x % unit;
    Divides(q * unit, unit, q, 0);
  }

  lemma Divides(x: nat, unit: nat, q: nat, r: nat)
    requires unit > 0 && r < unit && x == unit * q + r
    ensures x / unit == q && x % unit == r
  {
    var p := x / unit;
    assert x == unit * p + x % unit;
    Product(unit, p, q);
    Product(unit, q, p);
  }

  lemma {:induction false} Product(unit: nat, p: nat, q: nat)
    ensures p < q ==> unit * p + unit <= unit * q
    decreases q
  {
    if p < q {
      Product(unit, p, q - 1);
      assert unit * q == unit * (q - 1) + unit;
    }
  }

  /** A request gets the smallest chunk size that holds it. */
  lemma SmallestChunk(n: nat)
    requires 0 < n < 16384
    ensures var (zi, size) := ZoneIndex(n);
            zi < NZONES && size == SizeOf(zi) && n <= size && (zi > 0 ==> SizeOf(zi - 1) < n)
  {
    if n < 128 {
      Steps(n, 8);
    } else if n < 256 {
      Steps(n, 16);
    } else if n < 512 {
      Steps(n, 32);
    } else if n < 1024 {
      Steps(n, 64);
    } else if n < 2048 {
      Steps(n, 128);
    } else if n < 4096 {
      Steps(n, 256);
    } else if n < 8192 {
      Steps(n, 512);
    } else {
      Steps(n, 1024);
    }
  }

  /** The chunk sizes on either side of n belong to one index only. */
  lemma OneIndex(n: nat, i: nat, j: nat)
    requires n <= SizeOf(i) && n <= SizeOf(j) && (i > 0 ==> SizeOf(i - 1) < n) && (j > 0 ==> SizeOf(j - 1) < n)
    ensures i == j
  {
    if i < j - 1 {
      SizesIncrease(i, j - 1);
    }
    if j < i - 1 {
      SizesIncrease(j, i - 1);
    }
  }

  lemma SmallestIs(n: nat, zi: nat)
    requires 0 < n < 16384 && zi < NZONES && n <= SizeOf(zi) && (zi > 0 ==> SizeOf(zi - 1) < n)
    ensures ZoneIndex(n) == (zi, SizeOf(zi))
  {
    SmallestChunk(n);
    OneIndex(n, ZoneIndex(n).0, zi);
  }

  /** At most 7 bytes are lost, or less than an eighth of the request. */
  lemma LittleIsLost(n: nat)
    requires 0 < n < 16384
    ensures ZoneIndex(n).1 - n < 8 || 8 * (ZoneIndex(n).1 - n) < n
  {
    SmallestChunk(n);
  }

  /** Rounding twice is rounding once, as `rt_realloc` relies on when it passes a rounded size on; only that of a
      request beyond 15360 bytes is too large for a chunk. */
  lemma RoundedStays(n: nat)
    requires 0 < n < 16384
    ensures var (zi, size) := ZoneIndex(n); size > 0 && (ZoneIndex(size) == (zi, size) <==> n <= 15360)
  {
    SmallestChunk(n);
    var (zi, size) := ZoneIndex(n);
    if size < 16384 {
      SmallestIs(size, zi);
    }
  }

  // ---------- the first chunk ----------

  predicate PowerOfTwo(n: nat) {
    if n == 0 then false else if n == 1 then true else n % 2 == 0 && PowerOfTwo(n / 2)
  }

  /** `n | (n - 1)`, worked out from the lowest bit up: an odd n has the same upper bits as n - 1. */
  function Smear(n: nat): nat
    requires n > 0
  {
    if n % 2 == 1 then n else 2 * Smear(n / 2) + 1
  }

  /** The test in `rt_malloc` singles out the powers of two. */
  lemma {:induction false} SmearTest(n: nat)
    requires n > 0
    ensures Smear(n) + 1 == 2 * n <==> PowerOfTwo(n)
  {
    if n % 2 == 0 {
      SmearTest(n / 2);
    }
  }

  /** Where the chunks of a zone begin. */
  function Offset(size: nat): nat
    requires size > 0
  {
    if Smear(size) + 1 == 2 * size then RoundUp(HEADER, size) else RoundUp(HEADER, 8)
  }

  /** What the chunks of a zone have to be aligned to, counted from its beginning. */
  function Unit(size: nat): (unit: nat)
    requires size > 0
    ensures unit > 0
  {
    if PowerOfTwo(size) then size else 8
  }

  lemma UpFromHeader(unit: nat)
    requires unit > 0
    ensures HEADER <= RoundUp(HEADER, unit) < HEADER + unit && RoundUp(HEADER, unit) % unit == 0
    ensures unit >= HEADER ==> RoundUp(HEADER, unit) == unit
  {
    Steps(HEADER, unit);
    var q := RoundUp(HEADER, unit) / unit;
    Divides(q * unit, unit, q, 0);
    if unit >= HEADER {
      Product(unit, 1, q);
    }
  }

  lemma OffsetFrom(size: nat)
    requires size > 0
    ensures Offset(size) == RoundUp(HEADER, Unit(size))
  {
    SmearTest(size);
  }

  /** Behind the header: at the chunk size itself, or within the first 72 bytes. */
  lemma OffsetIs(size: nat)
    requires size > 0
    ensures HEADER <= Offset(size) && (Offset(size) == size || Offset(size) <= 72)
  {
    OffsetFrom(size);
    UpFromHeader(Unit(size));
  }

  /** At the first multiple of the unit. */
  lemma OffsetMultiple(size: nat)
    requires size > 0
    ensures Offset(size) % Unit(size) == 0 && Offset(size) < HEADER + Unit(size)
  {
    OffsetFrom(size);
    UpFromHeader(Unit(size));
  }

  /** A zone of chunks of up to a quarter of its size holds at least three. */
  lemma ThreeChunks(zoneSize: nat, size: nat)
    requires zoneSize >= 32768 && 8 <= size && 4 * size <= zoneSize
    ensures Offset(size) + 3 * size <= zoneSize
  {
    OffsetIs(size);
  }

  // ---------- the books of a zone ----------

  /** The in-band header of a zone. `chunks` is the list of free chunks from `z_freechunk` on, which runs through
      the chunks themselves. */
  datatype Zone = Zone(magic: bool, index: nat, size: nat, base: nat, nmax: nat, nfree: nat, uindex: nat,
                       chunks: seq<nat>)

  /** The address of chunk i. */
  function Chunk(z: Zone, i: nat): nat {
    z.base + i * z.size
  }

  /** A zone formatted at address `at`, its first chunk handed out. */
  function NewZone(at: nat, zoneSize: nat, zi: nat, size: nat): Zone
    requires size > 0 && Offset(size) + size <= zoneSize
  {
    var nmax := (zoneSize - Offset(size)) / size;
    Zone(true, zi, size, at + Offset(size), nmax, nmax - 1, 0, [])
  }

  /** The chunk that `rt_malloc` takes from a zone: a never-used one while there is one, then free ones. */
  function TakeChunk(z: Zone): (Zone, nat)
    requires z.nfree > 0 && (z.uindex + 1 == z.nmax ==> z.chunks != [])
  {
    if z.uindex + 1 != z.nmax then (z.(nfree := z.nfree - 1, uindex := z.uindex + 1), Chunk(z, z.uindex + 1))
    else (z.(nfree := z.nfree - 1, chunks := z.chunks[1..]), z.chunks[0])
  }

  function PutChunk(z: Zone, x: nat): Zone {
    z.(nfree := z.nfree + 1, chunks := [x] + z.chunks)
  }

  /** Address x is that of a chunk that has been used before. */
  ghost predicate Used(z: Zone, x: nat) {
    exists i: nat :: i <= z.uindex && x == Chunk(z, i)
  }

  /** The used chunks are live or on the free list, never both; `nfree` counts what is left to hand out. */
  ghost predicate Books(z: Zone, live: set<nat>) {
    && z.size > 0 && z.uindex < z.nmax
    && z.nfree == (z.nmax - 1 - z.uindex) + |z.chunks|
    && |live| + |z.chunks| == z.uindex + 1
    && NoDup(z.chunks)
    && (forall x :: x in live ==> x !in z.chunks)
    && (forall x :: x in live || x in z.chunks <==> Used(z, x))
  }

  /** Everything not live can be handed out. */
  lemma FreeOrLive(z: Zone, live: set<nat>)
    requires Books(z, live)
    ensures z.nfree + |live| == z.nmax
    ensures z.nfree > 0 && z.uindex + 1 == z.nmax ==> z.chunks != []
    ensures z.nfree == z.nmax <==> live == {}
  {
    if |live| == 0 {
      assert live == {};
    }
  }

  lemma ChunkInside(z: Zone, i: nat)
    requires z.size > 0 && i < z.nmax
    ensures z.base <= Chunk(z, i) && Chunk(z, i) + z.size <= z.base + z.nmax * z.size
  {
    Product(z.size, i, z.nmax);
  }

  /** Two chunks do not overlap. */
  lemma ChunksApart(z: Zone, i: nat, j: nat)
    requires i < j
    ensures Chunk(z, i) + z.size <= Chunk(z, j)
  {
    Product(z.size, i, j);
  }

  lemma UsedGrows(z: Zone, y: Zone, x: nat)
    requires z.size > 0 && y.size == z.size && y.base == z.base && y.uindex == z.uindex + 1
    ensures Used(y, x) <==> Used(z, x) || x == Chunk(z, z.uindex + 1)
    ensures !Used(z, Chunk(z, z.uindex + 1))
  {
    if Used(z, x) {
      var i: nat :| i <= z.uindex && x == Chunk(z, i);
      assert x == Chunk(y, i);
    }
    if x == Chunk(z, z.uindex + 1) {
      assert x == Chunk(y, y.uindex);
    }
    if Used(y, x) {
      var i: nat :| i <= y.uindex && x == Chunk(y, i);
      assert x == Chunk(z, i);
    }
    if Used(z, Chunk(z, z.uindex + 1)) {
      var i: nat :| i <= z.uindex && Chunk(z, z.uindex + 1) == Chunk(z, i);
      ChunksApart(z, i, z.uindex + 1);
    }
  }

  /** The same chunks have been used. */
  lemma SameUsed(z: Zone, y: Zone, x: nat)
    requires y.size == z.size && y.base == z.base && y.uindex == z.uindex
    ensures Used(y, x) <==> Used(z, x)
  {
    if Used(z, x) {
      var i: nat :| i <= z.uindex && x == Chunk(z, i);
      assert x == Chunk(y, i);
    }
    if Used(y, x) {
      var i: nat :| i <= y.uindex && x == Chunk(y, i);
      assert x == Chunk(z, i);
    }
  }

  /** Taking a chunk keeps the books, and the chunk was not live. */
  lemma TakeKeepsBooks(z: Zone, live: set<nat>)
    requires Books(z, live) && z.nfree > 0
    ensures z.uindex + 1 == z.nmax ==> z.chunks != []
    ensures var (y, x) := TakeChunk(z); x !in live && Books(y, live + {x})
  {
    FreeOrLive(z, live);
    var (y, x) := TakeChunk(z);
    if z.uindex + 1 != z.nmax {
      forall a: nat
        ensures Used(y, a) <==> Used(z, a) || a == x
      {
        UsedGrows(z, y, a);
      }
      UsedGrows(z, y, x);
    } else {
      forall a: nat
        ensures Used(y, a) <==> Used(z, a)
        ensures a in z.chunks <==> a == x || a in y.chunks
      {
        SameUsed(z, y, a);
        assert z.chunks == [x] + y.chunks;
      }
      assert x !in y.chunks;
    }
  }

  /** So does putting a live one back. */
  lemma PutKeepsBooks(z: Zone, live: set<nat>, x: nat)
    requires Books(z, live) && x in live
    ensures Books(PutChunk(z, x), live - {x})
  {
    var y := PutChunk(z, x);
    forall a: nat
      ensures Used(y, a) <==> Used(z, a)
      ensures a in y.chunks <==> a == x || a in z.chunks
    {
      SameUsed(z, y, a);
    }
  }

  lemma Quotient(room: nat, size: nat)
    requires size > 0 && 3 * size <= room
    ensures room / size >= 3 && (room / size) * size <= room
  {
    var q := room / size;
    assert room == size * q + room % size;
    Product(size, q + 1, 4);
    Product(size, q, 3);
  }

  /** All chunks of a new zone lie behind the header and inside the zone. */
  lemma NewZoneFits(at: nat, zoneSize: nat, zi: nat, size: nat)
    requires zoneSize >= 32768 && 8 <= size && 4 * size <= zoneSize
    ensures Offset(size) + 3 * size <= zoneSize
    ensures var z := NewZone(at, zoneSize, zi, size);
            z.nmax >= 3 && at + HEADER <= z.base && z.base + z.nmax * z.size <= at + zoneSize
  {
    ThreeChunks(zoneSize, size);
    OffsetIs(size);
    RoomForChunks(at, zoneSize, Offset(size), size);
  }

  lemma RoomForChunks(at: nat, zoneSize: nat, off: nat, size: nat)
    requires size > 0 && off + 3 * size <= zoneSize
    ensures var nmax := (zoneSize - off) / size; nmax >= 3 && at + off + nmax * size <= at + zoneSize
  {
    Quotient(zoneSize - off, size);
  }

  /** Neither in front of the first chunk nor behind the last one is there room for another. */
  lemma NewZoneIsFull(at: nat, zoneSize: nat, zi: nat, size: nat)
    requires zoneSize >= 32768 && 8 <= size && 4 * size <= zoneSize
    ensures Offset(size) + 3 * size <= zoneSize
    ensures var z := NewZone(at, zoneSize, zi, size);
            && z.base + (z.nmax + 1) * z.size > at + zoneSize && z.base < at + HEADER + Unit(size)
            && z.index == zi && z.size == size && z.nfree == z.nmax - 1 && Books(z, {Chunk(z, 0)})
  {
    NewZoneFits(at, zoneSize, zi, size);
    OffsetMultiple(size);
    LastChunk(zoneSize - Offset(size), size);
    FirstChunkBooks(NewZone(at, zoneSize, zi, size));
  }

  lemma LastChunk(room: nat, size: nat)
    requires size > 0
    ensures (room / size + 1) * size > room
  {
    var q := room / size;
    assert room == size * q + room % size;
    assert (q + 1) * size == size * q + size;
  }

  /** A new zone has its first chunk live. */
  lemma FirstChunkBooks(z: Zone)
    requires z.size > 0 && z.nmax > 0 && z.nfree == z.nmax - 1 && z.uindex == 0 && z.chunks == []
    ensures Books(z, {Chunk(z, 0)})
  {
    forall x: nat
      ensures Used(z, x) <==> x == Chunk(z, 0)
    {
      assert x == Chunk(z, 0) ==> Used(z, x);
    }
  }

  lemma Shifted(at: nat, off: nat, i: nat, unit: nat, k: nat)
    requires unit > 0 && off % unit == 0
    ensures (at + off + i * (unit * k)) % unit == at % unit
  {
    var q, o := at / unit, off / unit;
    assert at == unit * q + at % unit && off == unit * o;
    assert i * (unit * k) == unit * (i * k);
    assert at + off + i * (unit * k) == unit * (q + o + i * k) + at % unit;
    Divides(at + off + i * (unit * k), unit, q + o + i * k, at % unit);
  }

  lemma MultipleOfMultiple(n: nat, unit: nat, k: nat)
    requires unit > 0 && k > 0 && n % (unit * k) == 0
    ensures n % unit == 0
  {
    var q := n / (unit * k);
    assert n == unit * k * q;
    assert unit * k * q == unit * (k * q);
    Divides(n, unit, k * q, 0);
  }

  /** The chunks begin at a multiple of 8 behind the zone's address. */
  lemma OffsetAligned(size: nat)
    requires size > 0 && size % 8 == 0
    ensures Offset(size) % 8 == 0
  {
    OffsetMultiple(size);
    if PowerOfTwo(size) {
      assert size == 8 * (size / 8);
      MultipleOfMultiple(Offset(size), 8, size / 8);
    }
  }

  lemma AlignedToEight(at: nat, off: nat, i: nat, k: nat, x: nat)
    requires at % PAGE == 0 && off % 8 == 0 && x == at + off + i * (8 * k)
    ensures x % 8 == 0
  {
    MultipleOfMultiple(at, 8, 512);
    Shifted(at, off, i, 8, k);
  }

  /** Chunks are aligned to 8 bytes. */
  lemma ChunkAligned(z: Zone, at: nat, i: nat)
    requires z.size > 0 && z.base == at + Offset(z.size) && z.size % 8 == 0 && at % PAGE == 0
    ensures Chunk(z, i) % 8 == 0
  {
    OffsetAligned(z.size);
    var k, off := z.size / 8, Offset(z.size);
    assert 8 * k == z.size;
    AlignedToEight(at, off, i, k, Chunk(z, i));
  }

  /** Those of a size that is a power of two are aligned to their size exactly when the zone is. */
  lemma PowerAligned(z: Zone, at: nat, i: nat)
    requires z.size > 0 && z.base == at + Offset(z.size) && PowerOfTwo(z.size)
    ensures Chunk(z, i) % z.size == 0 <==> at % z.size == 0
  {
    OffsetMultiple(z.size);
    Shifted(at, Offset(z.size), i, z.size, 1);
  }

  /** Zones are only aligned to pages. Where the heap begins at a multiple of 8192, from which the addresses here are
      counted, no 8192-byte chunk of a zone that begins at the second page is aligned to 8192. */
  lemma LargeChunkMisaligned(z: Zone, i: nat)
    requires z.size == SizeOf(63) && z.base == PAGE + Offset(z.size)
    ensures PowerOfTwo(z.size) && Chunk(z, i) % z.size != 0
  {
    assert PowerOfTwo(8192) by {
      assert PowerOfTwo(64);
      assert PowerOfTwo(512);
    }
    PowerAligned(z, PAGE, i);
  }
}
