/** rtt/src/slab.c: the zone, an array of equal chunks behind a header, and its list of freed chunks. */
module Zones {
  import opened Tiles
  import opened Sequences

  const PAGE := 4096

  /** sizeof(slab_zone) */
  const HEADER := 36

  /** struct slab_zone: z_zoneindex, z_chunksize, the offset of z_baseptr, z_nmax, z_nfree, z_uindex, z_freechunk. */
  datatype Zone = Zone(index: nat, size: nat, off: nat, nmax: nat, nfree: nat, uindex: nat, chunks: seq<nat>)

  /** Which chunks are given out, and which are on the free list, by their numbers. */
  datatype Book = Book(held: set<nat>, spare: seq<nat>)

  /** The address of the i-th chunk of the zone that starts at page z. */
  function ChunkAt(z: nat, zn: Zone, i: nat): nat { z * PAGE + zn.off + i * zn.size }

  ghost predicate Numbered(z: nat, zn: Zone, b: Book, k: nat)
    requires k < |b.spare| && k < |zn.chunks|
  {
    zn.chunks[k] == ChunkAt(z, zn, b.spare[k])
  }

  ghost predicate Layout(zn: Zone, zoneSize: nat) {
    && zn.size > 0 && zn.off >= HEADER && 0 < zn.nmax && zn.off + zn.nmax * zn.size <= zoneSize && zn.uindex < zn.nmax
  }

  /** The counters of a zone: never used chunks and freed ones are free, all others are given out. */
  ghost predicate ZoneInv(z: nat, zn: Zone, b: Book, zoneSize: nat) {
    && Layout(zn, zoneSize)
    && Distinct(b.spare) && |b.spare| == |zn.chunks|
    && (forall k {:trigger Numbered(z, zn, b, k)} :: 0 <= k < |b.spare| ==> Numbered(z, zn, b, k))
    && (forall i :: i in b.spare ==> i <= zn.uindex && i !in b.held)
    && (forall i :: i in b.held ==> i <= zn.uindex)
    && |b.spare| + |b.held| == zn.uindex + 1
    && zn.nfree == zn.nmax - 1 - zn.uindex + |zn.chunks|
  }

  lemma Free(z: nat, zn: Zone, b: Book, zoneSize: nat)
    requires ZoneInv(z, zn, b, zoneSize)
    ensures zn.nfree == zn.nmax - |b.held|
    ensures zn.nfree == zn.nmax <==> b.held == {}
  {}

  // ---- where chunks lie

  lemma MulMono(i: nat, j: nat, s: nat)
    requires i <= j
    ensures i * s <= j * s && (i < j ==> i * s + s <= j * s)
  {
    if i < j {
      var d := j - i - 1;
      assert j * s == (i + 1 + d) * s == i * s + s + d * s;
    }
  }

  /** A chunk lies behind the header, inside the zone. */
  lemma ChunkInside(z: nat, zn: Zone, zoneSize: nat, i: nat)
    requires Layout(zn, zoneSize) && i < zn.nmax
    ensures z * PAGE + HEADER <= ChunkAt(z, zn, i) && ChunkAt(z, zn, i) + zn.size <= z * PAGE + zoneSize
  {
    MulMono(i, zn.nmax, zn.size);
  }

  /** Different chunks of a zone do not overlap. */
  lemma ChunksApart(z: nat, zn: Zone, i: nat, j: nat)
    requires i < j && zn.size > 0
    ensures ChunkAt(z, zn, i) + zn.size <= ChunkAt(z, zn, j)
  {
    MulMono(i, j, zn.size);
  }

  /** The page of a chunk tells its distance from the start of the zone. */
  lemma ChunkPage(z: nat, zn: Zone, pages: nat, i: nat)
    requires Layout(zn, pages * PAGE) && i < zn.nmax
    ensures z <= ChunkAt(z, zn, i) / PAGE < z + pages
  {
    ChunkInside(z, zn, pages * PAGE, i);
    PageOf(ChunkAt(z, zn, i), z, pages);
  }

  lemma PageOf(a: nat, z: nat, pages: nat)
    requires z * PAGE <= a < z * PAGE + pages * PAGE
    ensures z <= a / PAGE < z + pages
  {}

  // ---- a new zone

  predicate PowerOfTwo(n: nat)
    requires n > 0
  {
    n == 1 || (n % 2 == 0 && PowerOfTwo(n / 2))
  }

  /** What rt_malloc writes into the header of a zone that it starts. */
  function FreshZone(index: nat, size: nat, zoneSize: nat): Zone
    requires size > 0 && Offset(size) <= zoneSize
  {
    var nmax := (zoneSize - Offset(size)) / size;
    Zone(index, size, Offset(size), nmax, if nmax > 0 then nmax - 1 else 0, 0, [])
  }

  function Offset(size: nat): nat
    requires size > 0
  {
    Align(HEADER, if PowerOfTwo(size) then size else 8)
  }

  lemma Quotient(n: nat, d: nat)
    requires d > 0
    ensures n / d * d <= n < (n / d + 1) * d
    ensures n >= d ==> n / d > 0
  {
    assert n == n / d * d + n % d;
  }

  /**
   * A new zone has given out its first chunk. Its chunks start at the first place behind the header that is aligned to
   * their size, or to 8 if that is no power of two, and fill the zone.
   */
  lemma FreshInv(z: nat, index: nat, size: nat, zoneSize: nat)
    requires size > 0 && Offset(size) + size <= zoneSize
    ensures ZoneInv(z, FreshZone(index, size, zoneSize), Book({0}, []), zoneSize)
    ensures var zn := FreshZone(index, size, zoneSize);
            && zn.size == size && zn.index == index && zn.off + (zn.nmax + 1) * size > zoneSize
            && LeastMultiple(zn.off, HEADER, if PowerOfTwo(size) then size else 8)
  {
    Quotient(zoneSize - Offset(size), size);
    AlignExactly(HEADER, if PowerOfTwo(size) then size else 8, Offset(size));
  }

  function Times(k: int, n: nat): int { k * n }

  /** a is aligned to n. */
  ghost predicate Multiple(a: nat, n: nat) { exists k: nat :: Times(k, n) == a }

  lemma AddTimes(j: int, k: int, n: nat)
    ensures Times(j, n) + Times(k, n) == Times(j + k, n)
    ensures Times(j, n) - Times(k, n) == Times(j - k, n)
  {}

  lemma TimesSign(k: int, n: nat)
    requires n > 0 && Times(k, n) >= 0
    ensures k >= 0
  {
    if k < 0 { MulMono(1, -k, n); }
  }

  /** A chunk whose size is a power of two is aligned to it exactly when its zone is. */
  lemma AlignedExactly(z: nat, zn: Zone, i: nat)
    requires zn.size > 0 && PowerOfTwo(zn.size) && zn.off == Offset(zn.size)
    ensures Multiple(ChunkAt(z, zn, i), zn.size) <==> Multiple(z * PAGE, zn.size)
  {
    var size := zn.size;
    var o := AlignMultiple(HEADER, size);
    var a := ChunkAt(z, zn, i);
    assert Times(o, size) == zn.off && Times(i, size) == i * size;
    AddTimes(o, i, size);
    assert a == z * PAGE + Times(o + i, size);
    if Multiple(a, size) {
      var k: nat :| Times(k, size) == a;
      AddTimes(k, o + i, size);
      TimesSign(k - (o + i), size);
      var r: nat := k - (o + i);
      assert Times(r, size) == z * PAGE;
    }
    if Multiple(z * PAGE, size) {
      var k: nat :| Times(k, size) == z * PAGE;
      AddTimes(k, o + i, size);
      var r: nat := k + (o + i);
      assert Times(r, size) == a;
    }
  }

  lemma {:induction false} Gap(n: nat, p: nat)
    requires n > 0 && p > 0 && PowerOfTwo(n) && PowerOfTwo(p)
    ensures n <= p || n >= 2 * p
    decreases p
  {
    if n > 1 && p > 1 { Gap(n / 2, p / 2); }
  }

  lemma {:induction false} Divides(n: nat, p: nat) returns (c: nat)
    requires n > 0 && p > 0 && PowerOfTwo(n) && PowerOfTwo(p) && n <= p
    ensures p == Times(c, n)
    decreases p - n
  {
    Gap(n, p);
    Gap(p, n);
    if n == p {
      c := 1;
    } else {
      var d := Divides(2 * n, p);
      c := 2 * d;
      assert Times(d, 2 * n) == Times(2 * d, n);
    }
  }

  /** Page addresses are aligned to all powers of two up to the size of a page. */
  lemma SmallAligned(p: nat, size: nat)
    requires 0 < size <= PAGE && PowerOfTwo(size)
    ensures Multiple(p * PAGE, size)
  {
    hide *;
    PageIsPower();
    var c := Divides(size, PAGE);
    PageMultiple(p, size, c);
  }

  /** They are aligned to a larger power of two exactly if the number of the page is aligned to so many pages. */
  lemma LargeAligned(p: nat, size: nat)
    requires size >= PAGE && PowerOfTwo(size)
    ensures Multiple(p * PAGE, size) <==> Multiple(p, size / PAGE)
  {
    hide PowerOfTwo;
    PageIsPower();
    var c := Divides(PAGE, size);
    assert size == c * PAGE && size / PAGE == c;
    forall k: nat
      ensures Times(k, size) == p * PAGE <==> Times(k, c) == p
    {
      Associate(k, c, PAGE);
      SamePages(Times(k, c), p);
    }
  }

  lemma SamePages(a: int, b: int)
    ensures a * PAGE == b * PAGE <==> a == b
  {}

  lemma PageMultiple(z: nat, size: nat, c: nat)
    requires Times(c, size) == PAGE
    ensures Multiple(z * PAGE, size)
  {
    Associate(z, c, size);
    var k: nat := z * c;
    assert Times(k, size) == z * Times(c, size);
  }

  lemma Associate(z: nat, c: nat, n: nat)
    ensures z * c * n == z * (c * n)
  {}

  lemma PageIsPower()
    ensures PowerOfTwo(PAGE)
  {
    assert PowerOfTwo(64);
    assert PowerOfTwo(512) && PowerOfTwo(1024) && PowerOfTwo(2048);
  }

  // ---- giving out and taking back

  /** The zone after it gave out a chunk, and the chunk. */
  function TakeChunk(z: nat, zn: Zone): (Zone, nat)
    requires zn.uindex + 1 != zn.nmax || zn.chunks != []
  {
    var less := zn.(nfree := if zn.nfree > 0 then zn.nfree - 1 else 0);
    if zn.uindex + 1 != zn.nmax then (less.(uindex := zn.uindex + 1), ChunkAt(z, zn, zn.uindex + 1))
    else (less.(chunks := zn.chunks[1..]), zn.chunks[0])
  }

  /** The number of that chunk. */
  ghost function Taken(zn: Zone, b: Book): nat
    requires zn.uindex + 1 != zn.nmax || b.spare != []
  {
    if zn.uindex + 1 != zn.nmax then zn.uindex + 1 else b.spare[0]
  }

  ghost function TakenBook(zn: Zone, b: Book): Book
    requires zn.uindex + 1 != zn.nmax || b.spare != []
  {
    Book(b.held + {Taken(zn, b)}, if zn.uindex + 1 != zn.nmax then b.spare else b.spare[1..])
  }

  lemma TakeInv(z: nat, zn: Zone, b: Book, zoneSize: nat)
    requires ZoneInv(z, zn, b, zoneSize) && zn.nfree > 0
    ensures (zn.uindex + 1 != zn.nmax || zn.chunks != []) && (zn.uindex + 1 != zn.nmax || b.spare != [])
    ensures var (zn', a) := TakeChunk(z, zn);
            && ZoneInv(z, zn', TakenBook(zn, b), zoneSize)
            && a == ChunkAt(z, zn, Taken(zn, b)) && Taken(zn, b) !in b.held && Taken(zn, b) < zn.nmax
            && zn'.nfree == zn.nfree - 1
  {
    var (zn', a) := TakeChunk(z, zn);
    var b' := TakenBook(zn, b);
    if zn.uindex + 1 == zn.nmax {
      assert Numbered(z, zn, b, 0);
      assert b.spare[0] in b.spare && b.spare[0] !in b.spare[1..];
      assert forall i :: i in b.spare[1..] ==> i in b.spare;
    }
    forall k | 0 <= k < |b'.spare|
      ensures |b'.spare| == |zn'.chunks| && Numbered(z, zn', b', k)
    {
      if zn.uindex + 1 != zn.nmax {
        assert Numbered(z, zn, b, k);
      } else {
        assert Numbered(z, zn, b, k + 1);
      }
    }
  }

  lemma PutInv(z: nat, zn: Zone, b: Book, zoneSize: nat, i: nat)
    requires ZoneInv(z, zn, b, zoneSize) && i in b.held
    ensures ZoneInv(z, zn.(nfree := zn.nfree + 1, chunks := [ChunkAt(z, zn, i)] + zn.chunks),
                    Book(b.held - {i}, [i] + b.spare), zoneSize)
  {
    var zn' := zn.(nfree := zn.nfree + 1, chunks := [ChunkAt(z, zn, i)] + zn.chunks);
    var b' := Book(b.held - {i}, [i] + b.spare);
    assert forall j :: j in b'.spare <==> j == i || j in b.spare;
    forall k | 0 <= k < |b'.spare|
      ensures |b'.spare| == |zn'.chunks| && Numbered(z, zn', b', k)
    {
      if k > 0 { assert Numbered(z, zn, b, k - 1); }
    }
  }
}
