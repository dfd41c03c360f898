/** rtt/src/slab.c: rt_malloc and rt_free over zones and pages. */
module Slab {
  import opened Wrappers
  import opened Sequences
  import opened ZoneClasses
  import opened Tiles
  import opened Zones
  import opened SlabState
  import PageList
  import Pages

  const ZALLOC_ZONE_LIMIT := 16384

  class Slab {
    const pages: Pages.PageHeap
    const zoneSize: nat
    const zonePages: nat
    const zoneLimit: nat
    var usage: UsageMap
    var zones: ZoneMap
    var lists: seq<seq<nat>>
    var zoneFree: seq<nat>
    var zoneFreeCnt: nat
    var usedMem: nat
    var maxMem: nat
    ghost var books: Books
    ghost var live: LiveMap

    ghost function View(): State
      reads this, pages
    {
      State(zones, books, lists, zoneFree, usage, live, pages.live)
    }

    ghost predicate Sizes() {
      0 < zonePages <= 32 && zoneSize == zonePages * PAGE && (zoneLimit == 8192 || zoneLimit == 16384) && 4 * zoneLimit <= zoneSize
    }

    ghost predicate Valid()
      reads this, pages
    {
      && pages.Valid() && Sizes() && |lists| == NZONES && zoneFreeCnt == |zoneFree| && Ok(View(), zonePages)
      && usedMem == Total(live) && usedMem <= maxMem
    }

    /** rt_system_heap_init past its checks: the zone size follows the size of the heap in bytes. */
    constructor (start: nat, npages: nat)
      requires npages > 0
      ensures Valid() && live == map[] && usedMem == 0 && fresh(pages)
      ensures zonePages == (if npages <= 16384 then 8 else if npages <= 32768 then 16 else 32)
      ensures zoneLimit == if npages <= 16384 then 8192 else 16384
      ensures (UsagePages(npages) - 1) * PAGE < 4 * npages <= UsagePages(npages) * PAGE
      ensures pages.list == Usable(start, npages) && zoneFree == [] && forall k :: 0 <= k < NZONES ==> lists[k] == []
    {
      var size, limsize := 32 * 1024, npages * PAGE;
      while size < 128 * 1024 && size * 2 < limsize / 1024
        invariant size == 32768 || (size == 65536 && npages > 16384) || (size == 131072 && npages > 32768)
        decreases 131072 - size
      {
        size := size * 2;
      }
      var limit := size / 4;
      if limit > ZALLOC_ZONE_LIMIT { limit := ZALLOC_ZONE_LIMIT; }
      zoneSize, zoneLimit, zonePages := size, limit, size / PAGE;
      usage, zones, lists, zoneFree, zoneFreeCnt := map[], map[], seq(NZONES, _ => []), [], 0;
      usedMem, maxMem := 0, 0;
      books, live := map[], map[];
      pages := new Pages.PageHeap(start, npages);
      new;
      var all := pages.list;
      FirstPages(start, npages);
      var memusage := pages.PageAlloc(UsagePages(npages));
      RestOfPages(start, npages, all, pages.list, memusage);
      RunsDisjoint(pages.list, pages.live, pages.base, pages.total);
    }

    /** The statistics of rt_malloc. */
    method Count(n: nat)
      modifies this`usedMem, this`maxMem
      ensures usedMem == old(usedMem) + n && maxMem == Max(old(maxMem), usedMem)
    {
      usedMem := usedMem + n;
      if usedMem > maxMem { maxMem := usedMem; }
    }

    /** Whole pages for a request of at least the zone limit. */
    method MallocLarge(size: nat) returns (r: Option<nat>)
      requires Valid() && size > 0
      modifies this, pages
      ensures Valid() && zones == old(zones) && lists == old(lists) && zoneFree == old(zoneFree)
      ensures r.None? <==> !exists p :: PageList.RunFree(old(pages.list), p, PageCount(size))
      ensures r.None? ==> live == old(live) && usedMem == old(usedMem)
      ensures maxMem == Max(old(maxMem), usedMem)
      ensures r.Some? ==> usedMem == old(usedMem) + PageCount(size) * PAGE
      ensures r.Some? ==> (PageCount(size) - 1) * PAGE < size <= PageCount(size) * PAGE
      ensures r.Some? ==> r.value !in old(live) && live == old(live)[r.value := Large(PageCount(size))]
      ensures r.Some? ==> r.value == r.value / PAGE * PAGE && LowestRun(old(pages.list), r.value / PAGE, PageCount(size))
    {
      hide Ok;
      var n := PageCount(size);
      PageCountIs(size);
      ghost var before, runs := View(), pages.live;
      var p := pages.PageAlloc(n);
      if p.None? { return None; }
      NotLive(old(pages.list), runs, pages.base, pages.total, p.value, n);
      RunsDisjoint(pages.list, pages.live, pages.base, pages.total);
      LargeStep(before, zonePages, p.value, n);
      TotalMore(live, p.value * PAGE, Large(n));
      usage := usage[p.value := Usage(LARGE, n)];
      Count(n * PAGE);
      live := live[p.value * PAGE := Large(n)];
      r := Some(p.value * PAGE);
    }

    /** A chunk of the first zone of the class. */
    method TakeFromZone(k: nat) returns (a: nat)
      requires Valid() && k < NZONES && lists[k] != []
      modifies this`zones, this`lists, this`usedMem, this`maxMem, this`books, this`live
      ensures Valid() && a !in old(live) && old(lists)[k][0] in old(zones)
      ensures exists i :: live == old(live)[a := Chunk(old(lists)[k][0], i, ClassSize(k))]
      ensures var z := old(lists)[k][0]; var zn := old(zones)[z];
              if zn.uindex + 1 != zn.nmax then a == ChunkAt(z, zn, zn.uindex + 1) else zn.chunks != [] && a == zn.chunks[0]
      ensures usedMem == old(usedMem) + ClassSize(k) && maxMem == Max(old(maxMem), usedMem)
    {
      hide Ok, Sizes, TakeChunk, Total, ClassSize, TakenBook;
      var z := lists[k][0];
      ghost var s := View();
      TakeStep(s, zonePages, k, z);
      ghost var i, b := Taken(zones[z], books[z]), TakenBook(zones[z], books[z]);
      TakeChunkIs(z, zones[z]);
      var zn := zones[z];
      zn := zn.(nfree := zn.nfree - 1);
      if zn.nfree == 0 { lists := lists[k := lists[k][1..]]; }
      if zn.uindex + 1 != zn.nmax {
        zn := zn.(uindex := zn.uindex + 1);
        a := z * PAGE + zn.off + zn.uindex * zn.size;
      } else {
        a := zn.chunks[0];
        zn := zn.(chunks := zn.chunks[1..]);
      }
      TotalMore(live, a, Chunk(z, i, zn.size));
      zones, books, live := zones[z := zn], books[z := b], live[a := Chunk(z, i, zn.size)];
      Count(zn.size);
    }

    /** A run of pages for a zone, with memusage set for each of its pages; it counts as a free zone for now. */
    method GetZone() returns (r: Option<nat>)
      requires Valid() && zoneFree == []
      modifies this`usage, this`zoneFree, this`zoneFreeCnt, pages
      ensures Valid()
      ensures r.None? <==> !exists p :: PageList.RunFree(old(pages.list), p, zonePages)
      ensures zoneFree == if r.Some? then [r.value] else []
      ensures r.Some? ==> LowestRun(old(pages.list), r.value, zonePages)
    {
      hide Ok, PageList.RunFree, PageList.Carved, PageList.Covers, Disjoint, Total, Pages.Partition;
      ghost var s, runs, n := View(), pages.live, zonePages;
      var z := pages.PageAlloc(zonePages);
      if z.None? { return None; }
      NotLive(old(pages.list), runs, pages.base, pages.total, z.value, n);
      RunsDisjoint(pages.list, pages.live, pages.base, pages.total);
      var off := 0;
      while off < zonePages
        modifies this`usage
        invariant off <= zonePages && SmallRun(usage, z.value, off)
        invariant forall q: nat :: q in s.usage && !PageList.InRun(q, z.value, n) ==> q in usage && usage[q] == s.usage[q]
      {
        usage := usage[z.value + off := Usage(SMALL, off)];
        off := off + 1;
      }
      PagesStep(s, n, z.value, usage);
      assert [z.value] + [] == [z.value];
      zoneFree, zoneFreeCnt := [z.value], 1;
      r := z;
    }

    /** A free zone is started for the class and gives out its first chunk. */
    method StartZone(k: nat) returns (a: nat)
      requires Valid() && k < NZONES && zoneFree != [] && ClassSize(k) <= zoneLimit
      modifies this`zones, this`lists, this`zoneFree, this`zoneFreeCnt, this`usedMem, this`maxMem, this`books, this`live
      ensures Valid() && a !in old(live) && live == old(live)[a := Chunk(old(zoneFree)[0], 0, ClassSize(k))]
      ensures usedMem == old(usedMem) + ClassSize(k) && maxMem == Max(old(maxMem), usedMem)
    {
      hide Ok, FreshZone, Offset, ClassSize, ChunkAt, Total;
      var z, size := zoneFree[0], ClassSize(k);
      ZoneRoom(k, zoneLimit, zoneSize);
      NewStep(View(), zonePages, k, z);
      zoneFree, zoneFreeCnt := zoneFree[1..], zoneFreeCnt - 1;
      var zn := FreshZone(k, size, zoneSize);
      a := ChunkAt(z, zn, 0);
      TotalMore(live, a, Chunk(z, 0, zn.size));
      lists := lists[k := [z] + lists[k]];
      zones, books, live := zones[z := zn], books[z := Book({0}, [])], live[a := Chunk(z, 0, zn.size)];
      Count(size);
    }

    /**
     * rt_malloc: what it gives out is large enough and was not given out. It fails exactly for size 0 and when
     * neither a zone of the class, nor a free zone, nor a run of free pages can be found.
     */
    method Malloc(size: nat) returns (r: Option<nat>)
      requires Valid()
      modifies this, pages
      ensures Valid()
      ensures r.None? <==> size == 0 || !Available(size, zoneLimit, zonePages, old(lists), old(zoneFree), old(pages.list))
      ensures r.None? ==> live == old(live) && usedMem == old(usedMem)
      ensures maxMem == Max(old(maxMem), usedMem)
      ensures r.Some? ==> r.value % 8 == 0 && r.value in live && usedMem == old(usedMem) + Bytes(live[r.value])
      ensures r.Some? ==> r.value !in old(live) && r.value in live && live == old(live)[r.value := live[r.value]]
                          && size <= Bytes(live[r.value])
      ensures r.Some? ==> From(live[r.value], r.value, size, zoneLimit, zonePages, old(lists), old(zoneFree), old(pages.list))
      ensures r.Some? && size > 0 && PowerOfTwo(size) ==>
                (Multiple(r.value, size)
                 <==> size <= PAGE || AlignedOrigin(size, zoneLimit, zonePages, old(lists), old(zoneFree), old(pages.list)))
    {
      hide Ok, ClassSize, PageCount, LowestRun, PowerOfTwo, Multiple, AlignedOrigin;
      ghost var ls, zf, ps := lists, zoneFree, pages.list;
      if size == 0 { return None; }
      if size >= zoneLimit {
        PageCountIs(size);
        r := MallocLarge(size);
        if r.Some? { LiveAtEight(View(), zonePages, r.value); }
        if r.Some? && PowerOfTwo(size) {
          LiveAligned(View(), zonePages, r.value, size);
          OneOrigin(live[r.value], r.value, size, zoneLimit, zonePages, ls, zf, ps);
        }
        return;
      }
      ZoneIndexExact(size);
      SmallClass(size, zoneLimit);
      var (k, bytes) := ZoneIndex(size);
      var a;
      if lists[k] != [] {
        a := TakeFromZone(k);
      } else {
        if zoneFree == [] {
          var z := GetZone();
          if z.None? { return None; }
        }
        a := StartZone(k);
      }
      LiveAtEight(View(), zonePages, a);
      if PowerOfTwo(size) {
        LiveAligned(View(), zonePages, a, size);
        OneOrigin(live[a], a, size, zoneLimit, zonePages, ls, zf, ps);
      }
      r := Some(a);
    }

    // ---- rt_free

    /** A large allocation: its first page tells the number of pages. */
    method FreeLarge(a: nat)
      requires Valid() && a in live && live[a].Large?
      modifies this`usage, this`usedMem, this`live, pages
      ensures Valid() && live == old(live) - {a} && usedMem == old(usedMem) - Bytes(old(live)[a])
    {
      hide Ok;
      LargeIs(View(), zonePages, a);
      ghost var s, m := View(), live[a].n;
      var p := a / PAGE;
      LargeFreeStep(s, zonePages, p, m);
      TotalLess(live, a);
      var n := usage[p].size;
      usage := usage[p := Usage(usage[p].kind, 0)];
      usedMem := usedMem - n * PAGE;
      live := live - {a};
      pages.PageFree(p, n);
    }

    /** A chunk: memusage of its page leads to its zone, which takes it back. */
    method PutChunk(a: nat) returns (z: nat)
      requires Valid() && a in live && live[a].Chunk?
      modifies this`zones, this`lists, this`usedMem, this`books, this`live
      ensures Valid() && live == old(live) - {a} && z == old(live)[a].z && usedMem == old(usedMem) - Bytes(old(live)[a])
      ensures z in old(zones) && z in zones && zones[z].index < NZONES && z in lists[zones[z].index]
      ensures var zn := old(zones)[z];
              && zones[z] == zn.(nfree := zn.nfree + 1, chunks := [a] + zn.chunks)
              && (z !in old(lists)[zn.index] ==> lists[zn.index] == [z] + old(lists)[zn.index])
              && (z in old(lists)[zn.index] ==> lists[zn.index] == old(lists)[zn.index])
    {
      hide Ok, ChunkAt;
      ghost var s, l := View(), live[a];
      UsageLeads(s, zonePages, a);
      z := a / PAGE - usage[a / PAGE].size;
      PutStep(s, zonePages, l.z, l.i, a, l.size);
      ListedIff(s, zonePages, l.z);
      TotalLess(live, a);
      ghost var b := Book(books[z].held - {l.i}, [l.i] + books[z].spare);
      var zn := zones[z];
      zn := zn.(chunks := [a] + zn.chunks);
      usedMem := usedMem - zn.size;
      if zn.nfree == 0 { lists := lists[zn.index := [z] + lists[zn.index]]; }
      zn := zn.(nfree := zn.nfree + 1);
      zones, books, live := zones[z := zn], books[z := b], live - {a};
    }

    /** A zone without chunks given out is put on the list of free zones. */
    method Retire(z: nat)
      requires Valid() && z in zones && zones[z].index < NZONES && zones[z].nfree == zones[z].nmax
      modifies this`zones, this`lists, this`zoneFree, this`zoneFreeCnt, this`books
      ensures Valid() && zoneFree == [z] + old(zoneFree) && zones == old(zones) - {z}
    {
      hide Ok, Without;
      RetireStep(View(), zonePages, z);
      var k := zones[z].index;
      lists := lists[k := Without(lists[k], z)];
      zones, books := zones - {z}, books - {z};
      zoneFree, zoneFreeCnt := [z] + zoneFree, zoneFreeCnt + 1;
    }

    /** The first free zone goes back to the page allocator. */
    method Release()
      requires Valid() && zoneFree != []
      modifies this`usage, this`zoneFree, this`zoneFreeCnt, pages
      ensures Valid() && zoneFree == old(zoneFree)[1..]
    {
      hide Ok;
      var z := zoneFree[0];
      ghost var s, n := View(), zonePages;
      var i := 0;
      while i < zonePages
        modifies this`usage
        invariant i <= zonePages
        invariant forall q: nat :: q in s.usage && !PageList.InRun(q, z, n) ==> q in usage && usage[q] == s.usage[q]
      {
        usage := usage[z + i := Usage(FREE, 0)];
        i := i + 1;
      }
      ReleaseStep(s, n, z, usage);
      zoneFree, zoneFreeCnt := zoneFree[1..], zoneFreeCnt - 1;
      pages.PageFree(z, zonePages);
    }

    /** rt_free of what rt_malloc gave out. */
    method Free(a: nat)
      requires Valid() && a in live
      modifies this, pages
      ensures Valid() && live == old(live) - {a} && usedMem == old(usedMem) - Bytes(old(live)[a])
      ensures old(live)[a].Large? ==> zones == old(zones) && zoneFree == old(zoneFree)
      ensures old(live)[a].Chunk? ==> old(live)[a].z in old(zones) && old(zones)[old(live)[a].z].index < NZONES
      ensures old(live)[a].Chunk? ==>
                var z := old(live)[a].z;
                var zn := old(zones)[z];
                if zn.nfree + 1 == zn.nmax && exists y :: y in old(lists)[zn.index] && y != z then
                  z !in zones && zoneFree == if |old(zoneFree)| < ZONE_RELEASE_THRESH then [z] + old(zoneFree) else old(zoneFree)
                else z in zones && zones[z].nfree == zn.nfree + 1 && zoneFree == old(zoneFree)
    {
      hide Ok;
      UsageKind(View(), zonePages, a);
      if usage[a / PAGE].kind.LARGE? {
        FreeLarge(a);
        return;
      }
      var z := PutChunk(a);
      OneOnList(View(), zonePages, zones[z].index, z);
      if zones[z].nfree == zones[z].nmax && lists[zones[z].index] != [z] {
        Retire(z);
        if zoneFreeCnt > ZONE_RELEASE_THRESH { Release(); }
      }
    }
  }

  const ZONE_RELEASE_THRESH := 2

  /** What rt_malloc can give out for a size. */
  ghost predicate Available(size: nat, zoneLimit: nat, zonePages: nat, lists: seq<seq<nat>>, zoneFree: seq<nat>,
                            list: seq<PageList.Block>)
    requires 0 < size && zoneLimit <= 16384 && |lists| == NZONES
  {
    if size >= zoneLimit then exists p :: PageList.RunFree(list, p, PageCount(size))
    else
      ZoneIndexExact(size);
      lists[ZoneIndex(size).0] != [] || zoneFree != [] || exists p :: PageList.RunFree(list, p, zonePages)
  }

  /** The first run of n free pages. */
  ghost predicate LowestRun(list: seq<PageList.Block>, p: int, n: nat) {
    PageList.RunFree(list, p, n) && forall q :: PageList.RunFree(list, q, n) ==> p <= q
  }

  /** The page at which the zone or the run of pages starts. */
  function FirstPage(l: Live, a: nat): nat { match l case Chunk(z, _, _) => z case Large(_) => a / PAGE }

  /**
   * Where rt_malloc takes a size from, by the page it starts at: the first run of whole pages; or the first zone of the
   * class, or else the first free zone, or else a zone on the first run of pages.
   */
  ghost predicate Origin(p: nat, size: nat, zoneLimit: nat, zonePages: nat, lists: seq<seq<nat>>, zoneFree: seq<nat>,
                         list: seq<PageList.Block>)
    requires |lists| == NZONES
  {
    if size >= zoneLimit then LowestRun(list, p, PageCount(size))
    else
      && 0 < size < 16384 && ZoneIndex(size).0 < NZONES
      && var zones := lists[ZoneIndex(size).0];
         if zones != [] then p == zones[0] else if zoneFree != [] then p == zoneFree[0] else LowestRun(list, p, zonePages)
  }

  /** What is given out for a size comes from there. */
  ghost predicate From(l: Live, a: nat, size: nat, zoneLimit: nat, zonePages: nat, lists: seq<seq<nat>>, zoneFree: seq<nat>,
                       list: seq<PageList.Block>)
    requires |lists| == NZONES
  {
    && Origin(FirstPage(l, a), size, zoneLimit, zonePages, lists, zoneFree, list)
    && if size >= zoneLimit then l == Large(PageCount(size)) && a == a / PAGE * PAGE
       else l.Chunk? && l.size == ClassSize(ZoneIndex(size).0)
  }

  /** Its number is a multiple of the number of pages of the size. */
  ghost predicate AlignedOrigin(size: nat, zoneLimit: nat, zonePages: nat, lists: seq<seq<nat>>, zoneFree: seq<nat>,
                                list: seq<PageList.Block>)
    requires |lists| == NZONES
  {
    exists p: nat :: Origin(p, size, zoneLimit, zonePages, lists, zoneFree, list) && Multiple(p, size / PAGE)
  }

  /** There is one such page, and what is given out comes from it. */
  lemma OneOrigin(l: Live, a: nat, size: nat, zoneLimit: nat, zonePages: nat, lists: seq<seq<nat>>, zoneFree: seq<nat>,
                  list: seq<PageList.Block>)
    requires |lists| == NZONES && From(l, a, size, zoneLimit, zonePages, lists, zoneFree, list)
    ensures AlignedOrigin(size, zoneLimit, zonePages, lists, zoneFree, list) <==> Multiple(FirstPage(l, a), size / PAGE)
  {
    hide Multiple, PageList.RunFree, ClassSize, PageCount;
    assert Origin(FirstPage(l, a), size, zoneLimit, zonePages, lists, zoneFree, list);
    assert forall p: nat :: Origin(p, size, zoneLimit, zonePages, lists, zoneFree, list) ==> p == FirstPage(l, a);
  }

  // ---- the alignment of what is given out

  /** The class of a power of two from 8 on wastes nothing. */
  lemma PowerClass(n: nat)
    requires 0 < n < 16384 && PowerOfTwo(n)
    ensures ZoneIndex(n).1 == if n < 8 then 8 else n
  {
    hide PowerOfTwo;
    Powers(n);
  }

  lemma {:induction false} Powers(n: nat)
    requires 0 < n < 16384 && PowerOfTwo(n)
    ensures n == 1 || n == 2 || n == 4 || n == 8 || n == 16 || n == 32 || n == 64 || n == 128 || n == 256 || n == 512
            || n == 1024 || n == 2048 || n == 4096 || n == 8192
  {
    if n > 1 { Powers(n / 2); }
  }

  lemma MultipleTrans(a: nat, m: nat, n: nat)
    requires Multiple(a, m) && Multiple(m, n)
    ensures Multiple(a, n)
  {
    var j: nat :| Times(j, m) == a;
    var k: nat :| Times(k, n) == m;
    Associate(j, k, n);
    var i: nat := j * k;
    assert Times(i, n) == a;
  }

  /**
   * What is given out for a power of two is aligned to it exactly if that is at most a page, or the page at which the
   * zone or run starts is aligned to so many pages.
   */
  lemma LiveAligned(s: State, n: nat, a: nat, size: nat)
    requires Ok(s, n) && a in s.live && size > 0 && PowerOfTwo(size)
    requires s.live[a].Chunk? ==> size < 16384 && s.live[a].size == ZoneIndex(size).1
    ensures Multiple(a, size) <==> size <= PAGE || Multiple(FirstPage(s.live[a], a), size / PAGE)
  {
    var l := s.live[a];
    var p := FirstPage(l, a);
    LiveInRun(s, n, a);
    if size <= PAGE { SmallAligned(p, size); } else { LargeAligned(p, size); }
    if l.Chunk? {
      PowerClass(size);
      ZoneOffset(s, n, l.z);
      hide *;
      SizesOf(s, n, a);
      if size >= 8 {
        AlignedExactly(l.z, s.zones[l.z], l.i);
      } else {
        EightIsPower();
        AlignedExactly(l.z, s.zones[l.z], l.i);
        SmallAligned(l.z, 8);
        var c := Divides(size, 8);
        MultipleBy(8, size, c);
        MultipleTrans(a, 8, size);
      }
    }
  }

  /** Everything given out is aligned to 8 bytes. */
  lemma LiveAtEight(s: State, n: nat, a: nat)
    requires Ok(s, n) && a in s.live
    ensures a % 8 == 0
  {
    hide Ok, Offset, ChunkAt, FirstPage;
    if s.live[a].Chunk? {
      SizesOf(s, n, a);
      ZoneOffset(s, n, s.live[a].z);
      var k := EightDivides(s, n, s.live[a].z);
      OffsetAtEight(k * 8);
      Eighths(s.live[a].z, s.zones[s.live[a].z], s.live[a].i, k);
    } else {
      LargeIs(s, n, a);
      PageAtEight(a / PAGE);
    }
  }

  lemma PageAtEight(p: nat)
    ensures p * PAGE % 8 == 0
  {}

  lemma EightDivides(s: State, n: nat, z: nat) returns (k: nat)
    requires Ok(s, n) && z in s.zones
    ensures s.zones[z].size == k * 8
  {
    hide Ok, ZoneInv, Offset;
    BookOf(s, n, z);
    k := ClassEight(s.zones[z].index);
  }

  lemma ClassEight(i: nat) returns (k: nat)
    ensures ClassSize(i) == k * 8
  {
    k := if i < 16 then i + 1 else if i < 24 then (i - 7) * 2 else if i < 32 then (i - 15) * 4
         else if i < 40 then (i - 23) * 8 else if i < 48 then (i - 31) * 16 else if i < 56 then (i - 39) * 32
         else if i < 64 then (i - 47) * 64 else (i - 55) * 128;
  }

  lemma Eighths(z: nat, zn: Zone, i: nat, k: nat)
    requires zn.size == k * 8 && zn.off % 8 == 0
    ensures ChunkAt(z, zn, i) % 8 == 0
  {
    var o := zn.off / 8;
    Associate(i, k, 8);
    assert ChunkAt(z, zn, i) == (z * 512 + o + i * k) * 8;
  }

  lemma OffsetAtEight(size: nat)
    requires size > 0 && size % 8 == 0
    ensures Offset(size) % 8 == 0
  {
    var m := if PowerOfTwo(size) then size else 8;
    var k := AlignMultiple(HEADER, m);
    var c := m / 8;
    Associate(k, c, 8);
    assert m == c * 8;
    hide Align, PowerOfTwo;
    assert k * m == (k * c) * 8;
  }

  /** A request is rounded up to 8 bytes, or to an eighth of the largest power of two that it reaches. */
  lemma ClassGrain(n: nat, g: nat)
    requires 0 < n < 16384 && g > 0 && PowerOfTwo(g) && if n < 128 then g == 8 else 8 * g <= n < 16 * g
    ensures LeastMultiple(ZoneIndex(n).1, n, g)
  {
    Powers(g);
    ZoneIndexExact(n);
    hide PowerOfTwo;
  }

  lemma MultipleBy(a: nat, n: nat, c: nat)
    requires a == Times(c, n)
    ensures Multiple(a, n)
  {}

  lemma EightIsPower()
    ensures PowerOfTwo(8)
  {
    assert PowerOfTwo(2) && PowerOfTwo(4);
  }

  lemma ZoneOffset(s: State, n: nat, z: nat)
    requires Ok(s, n) && z in s.zones
    ensures s.zones[z].size > 0 && s.zones[z].off == Offset(s.zones[z].size)
  {
    assert ZoneOk(z, s.zones[z], s.books[z], n * PAGE);
  }

  lemma SizesOf(s: State, n: nat, a: nat)
    requires Ok(s, n) && a in s.live && s.live[a].Chunk?
    ensures var l := s.live[a]; l.z in s.zones && s.zones[l.z].size == l.size && a == ChunkAt(l.z, s.zones[l.z], l.i)
    ensures FirstPage(s.live[a], a) == s.live[a].z && PAGE >= 8
  {
    assert LiveOk(a, s.live[a], s.zones, s.books, s.free, s.usage, s.runs);
  }

  // ---- the pages of a new heap

  /** The pages of memusage, four bytes for every page of the heap. */
  function UsagePages(npages: nat): nat { (npages * 4 + PAGE - 1) / PAGE }

  /** What is left. */
  function Usable(start: nat, npages: nat): seq<PageList.Block> {
    if UsagePages(npages) < npages then [PageList.Block(start + UsagePages(npages), npages - UsagePages(npages))] else []
  }

  lemma FirstPages(start: nat, npages: nat)
    requires npages > 0
    ensures 0 < UsagePages(npages) <= npages
    ensures PageList.RunFree([PageList.Block(start, npages)], start, UsagePages(npages))
  {
    forall q | PageList.InRun(q, start, UsagePages(npages))
      ensures PageList.Covers([PageList.Block(start, npages)], q)
    {
      PageList.CoversOne(PageList.Block(start, npages), q);
    }
  }

  lemma RestOfPages(start: nat, npages: nat, all: seq<PageList.Block>, rest: seq<PageList.Block>, r: Option<nat>)
    requires npages > 0 && all == [PageList.Block(start, npages)] && PageList.Ordered(rest) && r.Some?
    requires LowestRun(all, r.value, UsagePages(npages)) && PageList.Carved(all, rest, r.value, UsagePages(npages))
    ensures rest == Usable(start, npages)
  {
    var u, free := UsagePages(npages), Usable(start, npages);
    FirstPages(start, npages);
    assert PageList.InRun(r.value, r.value, u);
    PageList.CoversOne(all[0], r.value);
    forall q
      ensures PageList.Covers(rest, q) <==> PageList.Covers(free, q)
    {
      PageList.CoversOne(all[0], q);
      if free != [] { PageList.CoversOne(free[0], q); }
    }
    PageList.Canonical(rest, free);
  }

  lemma UsableRuns(start: nat, npages: nat, p: int, n: nat)
    requires UsagePages(npages) + n <= npages && n > 0
    ensures PageList.RunFree(Usable(start, npages), start + UsagePages(npages), n)
    ensures PageList.RunFree(Usable(start, npages), p, n) ==> start + UsagePages(npages) <= p
  {
    var b := Usable(start, npages)[0];
    forall q
      ensures PageList.Covers(Usable(start, npages), q) <==> PageList.InRun(q, b.addr, b.pages)
    {
      PageList.CoversOne(b, q);
    }
    assert PageList.InRun(p, p, n);
  }

  lemma TwoPagesIsPower()
    ensures PowerOfTwo(8192)
  {
    PageIsPower();
    assert 8192 / 2 == PAGE;
  }

  /** The first request of a heap, for two pages, is aligned to them exactly if the first page after memusage is even. */
  method FirstTwoPages(start: nat, npages: nat) returns (heap: Slab, r: Option<nat>)
    requires npages >= UsagePages(npages) + 32
    ensures fresh(heap) && heap.Valid() && r.Some? && r.value in heap.live
    ensures Multiple(r.value, 8192) <==> Multiple(start + UsagePages(npages), 2)
  {
    hide Ok, Multiple, PowerOfTwo, PageList.RunFree;
    var first := start + UsagePages(npages);
    heap := new Slab(start, npages);
    TwoPagesIsPower();
    ZoneIndexExact(8192);
    assert PageCount(8192) == 2 && ZoneIndex(8192).0 < NZONES;
    UsableRuns(start, npages, 0, 2);
    UsableRuns(start, npages, 0, heap.zonePages);
    ghost var list, ls, zf, n := heap.pages.list, heap.lists, heap.zoneFree, heap.zonePages;
    r := heap.Malloc(8192);
    ghost var p := FirstPage(heap.live[r.value], r.value);
    OneOrigin(heap.live[r.value], r.value, 8192, heap.zoneLimit, n, ls, zf, list);
    UsableRuns(start, npages, p, 2);
    UsableRuns(start, npages, p, n);
  }

  /** For instance in a heap of 64 pages that starts at an even page: memusage takes one page, the request the next two. */
  method Misaligned() returns (heap: Slab, r: Option<nat>)
    ensures fresh(heap) && heap.Valid() && r.Some? && r.value in heap.live && PowerOfTwo(8192) && !Multiple(r.value, 8192)
  {
    TwoPagesIsPower();
    assert UsagePages(64) == 1;
    forall k: nat
      ensures Times(k, 2) != 3
    {
    }
    assert !Multiple(3, 2);
    heap, r := FirstTwoPages(2, 64);
  }

  lemma ListedIff(s: State, n: nat, z: nat)
    requires Ok(s, n) && z in s.zones && s.zones[z].index < NZONES && |s.lists| == NZONES
    ensures z in s.lists[s.zones[z].index] <==> s.zones[z].nfree > 0
  {}

  lemma OneOnList(s: State, n: nat, k: nat, z: nat)
    requires Ok(s, n) && k < NZONES == |s.lists| && z in s.lists[k]
    ensures s.lists[k] != [z] <==> exists y :: y in s.lists[k] && y != z
  {
    var l := s.lists[k];
    assert Distinct(l);
    hide Ok;
    if l != [z] && |l| > 1 {
      assert l[0] != l[1] && l[0] in l && l[1] in l;
    }
  }

  lemma TakeChunkIs(z: nat, zn: Zone)
    requires zn.nfree > 0 && (zn.uindex + 1 != zn.nmax || zn.chunks != [])
    ensures var less := zn.(nfree := zn.nfree - 1);
            TakeChunk(z, zn) ==
            if zn.uindex + 1 != zn.nmax then
              (less.(uindex := zn.uindex + 1), z * PAGE + zn.off + (zn.uindex + 1) * zn.size)
            else (less.(chunks := zn.chunks[1..]), zn.chunks[0])
  {}

  /** Below the zone limit, a zone has room for two chunks at least. */
  lemma ZoneRoom(k: nat, zoneLimit: nat, zoneSize: nat)
    requires k < NZONES && ClassSize(k) <= zoneLimit && 4 * zoneLimit <= zoneSize && zoneLimit >= 8192
    ensures ClassSize(k) > 0 && Offset(ClassSize(k)) + 2 * ClassSize(k) <= zoneSize
  {}

  lemma SmallClass(size: nat, zoneLimit: nat)
    requires 0 < size < zoneLimit && (zoneLimit == 8192 || zoneLimit == 16384)
    ensures ZoneIndex(size).1 <= zoneLimit
  {
    if zoneLimit == 8192 { LeastClass(size, 63); }
    ZoneIndexExact(size);
    Grows(ZoneIndex(size).0, 63);
  }

  lemma LargeIs(s: State, n: nat, a: nat)
    requires Ok(s, n) && a in s.live && s.live[a].Large?
    ensures a == a / PAGE * PAGE && a / PAGE in s.usage && s.usage[a / PAGE] == Usage(LARGE, s.live[a].n)
  {
    assert LiveOk(a, s.live[a], s.zones, s.books, s.free, s.usage, s.runs);
  }

  /** memusage leads from every chunk back to the zone it came from. */
  lemma UsageLeads(s: State, n: nat, a: nat)
    requires Ok(s, n) && a in s.live && s.live[a].Chunk?
    ensures a / PAGE in s.usage && s.usage[a / PAGE].kind.SMALL? && a / PAGE - s.usage[a / PAGE].size == s.live[a].z
  {
    hide ZonesOk, ListsOk, RunsOk, LivesOk, Disjoint, ChunkAt;
    LiveInRun(s, n, a);
    BookOf(s, n, s.live[a].z);
    assert PageList.InRun(a / PAGE, s.live[a].z, n);
  }

  /** And it tells large allocations from chunks. */
  lemma UsageKind(s: State, n: nat, a: nat)
    requires Ok(s, n) && a in s.live
    ensures a / PAGE in s.usage && (s.usage[a / PAGE].kind.LARGE? <==> s.live[a].Large?)
  {
    if s.live[a].Large? { LargeIs(s, n, a); } else { UsageLeads(s, n, a); }
  }

  /** An allocation lies in the run of pages that holds its first byte. */
  lemma LiveInside(s: State, n: nat, a: nat) returns (z: nat)
    requires Ok(s, n) && a in s.live
    ensures z in s.runs && z * PAGE <= a && a + Bytes(s.live[a]) <= (z + s.runs[z]) * PAGE
    ensures s.live[a].Chunk? ==> z == s.live[a].z && z in s.zones
    ensures s.live[a].Large? ==> a == z * PAGE && z !in s.zones
  {
    hide ZonesOk, ListsOk, RunsOk, LivesOk, Disjoint, ChunkAt;
    LiveInRun(s, n, a);
    match s.live[a] {
      case Chunk(w, i, _) =>
        z := w;
        BookOf(s, n, z);
        LiveChunk(s, n, a);
        ChunkInside(z, s.zones[z], n * PAGE, i);
        ChunkRun(s, n, z, i);
      case Large(_) =>
        z := a / PAGE;
    }
  }

  /** Allocations do not overlap. */
  lemma LivesApart(s: State, n: nat, a: nat, b: nat)
    requires Ok(s, n) && a in s.live && b in s.live && a < b
    ensures a + Bytes(s.live[a]) <= b
  {
    hide ZonesOk, ListsOk, RunsOk, LivesOk, ChunkAt;
    var z := LiveInside(s, n, a);
    var w := LiveInside(s, n, b);
    if z == w {
      SameZone(s, n, a, b);
    } else {
      RunOrder(s.runs, if z < w then z else w, if z < w then w else z);
    }
  }

  lemma RunOrder(runs: Runs, a: nat, b: nat)
    requires Disjoint(runs) && a in runs && b in runs && a < b
    ensures a + runs[a] <= b
  {
    assert PageList.InRun(b, b, runs[b]);
    if a + runs[a] > b { OneRun(runs, a, b, b); }
  }

  lemma SameZone(s: State, n: nat, a: nat, b: nat)
    requires Ok(s, n) && a in s.live && b in s.live && a < b && s.live[a].Chunk? && s.live[b].Chunk? && s.live[a].z == s.live[b].z
    ensures a + Bytes(s.live[a]) <= b
  {
    hide ZonesOk, ListsOk, RunsOk, LivesOk, Disjoint, ChunkAt;
    LiveChunk(s, n, a);
    LiveChunk(s, n, b);
    var z, i, j := s.live[a].z, s.live[a].i, s.live[b].i;
    SizePositive(s, n, z);
    if i < j { ChunksApart(z, s.zones[z], i, j); }
    if j < i { ChunksApart(z, s.zones[z], j, i); }
  }

  /** size rounded up to pages. */
  function PageCount(size: nat): nat { (size + PAGE - 1) / PAGE }

  lemma PageCountIs(size: nat)
    requires size > 0
    ensures PageCount(size) > 0 && PageCount(size) * PAGE >= size && PageCount(size) * PAGE < size + PAGE
  {}

  lemma RunsDisjoint(list: seq<PageList.Block>, live: Runs, base: nat, total: nat)
    requires Pages.Partition(list, live, base, total)
    ensures Disjoint(live)
  {
    forall a, b, q: int | a in live && b in live && PageList.InRun(q, a, live[a]) && PageList.InRun(q, b, live[b])
      ensures a == b
    {
      assert PageList.InRun(q, a, live[a]) && PageList.InRun(q, b, live[b]);
    }
  }

  /** A run of free pages is not a run handed out. */
  lemma NotLive(list: seq<PageList.Block>, live: Runs, base: nat, total: nat, p: nat, n: nat)
    requires Pages.Partition(list, live, base, total) && PageList.RunFree(list, p, n) && n > 0
    ensures p !in live
  {
    assert PageList.InRun(p, p, n) && PageList.Covers(list, p);
    if p in live { assert PageList.InRun(p, p, live[p]) && Pages.Held(live, p); }
  }
}
