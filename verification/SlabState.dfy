/** rtt/src/slab.c: zones, zone lists, memusage and allocations, and the steps that change them. */
module SlabState {
  import opened Sequences
  import opened ZoneClasses
  import opened Zones
  import PageList

  // ---- memusage and the allocations it is to tell apart

  datatype Kind = FREE | SMALL | LARGE

  /** struct memusage: the pages of a large allocation, or the distance of a page from the start of its zone. */
  datatype Usage = Usage(kind: Kind, size: nat)

  type UsageMap = map<nat, Usage>

  /** What an address given out stands for: chunk i of the zone at page z, or n pages. */
  datatype Live = Chunk(z: nat, i: nat, size: nat) | Large(n: nat)

  type LiveMap = map<nat, Live>

  type ZoneMap = map<nat, Zone>

  type Books = map<nat, Book>

  type Runs = map<int, nat>

  function Bytes(l: Live): nat { match l case Chunk(_, _, size) => size case Large(n) => n * PAGE }

  /** The bytes of all allocations. */
  ghost function Total(live: LiveMap): nat
    decreases |live|
  {
    if live == map[] then 0
    else
      var a: nat :| a in live;
      Bytes(live[a]) + Total(live - {a})
  }

  lemma {:induction false} TotalLess(live: LiveMap, a: nat)
    requires a in live
    ensures Total(live) == Bytes(live[a]) + Total(live - {a})
    decreases |live|
  {
    var b: nat :| b in live && Total(live) == Bytes(live[b]) + Total(live - {b});
    if a != b {
      TotalLess(live - {b}, a);
      TotalLess(live - {a}, b);
      assert live - {b} - {a} == live - {a} - {b};
    }
  }

  lemma TotalMore(live: LiveMap, a: nat, l: Live)
    requires a !in live
    ensures Total(live[a := l]) == Total(live) + Bytes(l)
  {
    TotalLess(live[a := l], a);
    assert live[a := l] - {a} == live;
  }

  // ---- the invariant

  ghost predicate ZonesOk(zones: ZoneMap, books: Books, zoneSize: nat) {
    && zones.Keys == books.Keys
    && forall z :: z in zones ==> ZoneOk(z, zones[z], books[z], zoneSize)
  }

  ghost predicate ZoneOk(z: nat, zn: Zone, b: Book, zoneSize: nat) {
    && ZoneInv(z, zn, b, zoneSize) && zn.index < NZONES && zn.size == ClassSize(zn.index) && zn.nmax > 1
    && zn.size > 0 && zn.off == Offset(zn.size)
  }

  /** A zone is on the list of its class exactly while it has free chunks. */
  ghost predicate ListsOk(lists: seq<seq<nat>>, zones: ZoneMap) {
    && |lists| == NZONES && (forall k :: 0 <= k < NZONES ==> Distinct(lists[k]))
    && forall k, z :: 0 <= k < NZONES ==> (z in lists[k] <==> z in zones && zones[z].index == k && zones[z].nfree > 0)
  }

  ghost predicate SmallRun(usage: UsageMap, z: nat, n: nat) {
    forall k :: z <= k < z + n ==> k in usage && usage[k] == Usage(SMALL, k - z)
  }

  /** Zones, in use or free, are runs of pages that memusage leads back to their start. */
  ghost predicate RunOk(usage: UsageMap, runs: Runs, z: nat, n: nat) {
    z in runs && runs[z] == n && SmallRun(usage, z, n)
  }

  ghost predicate RunsOk(zones: ZoneMap, free: seq<nat>, usage: UsageMap, runs: Runs, n: nat) {
    && Distinct(free) && (forall z :: z in free ==> z !in zones && RunOk(usage, runs, z, n))
    && forall z :: z in zones ==> RunOk(usage, runs, z, n)
  }

  ghost predicate LiveOk(a: nat, l: Live, zones: ZoneMap, books: Books, free: seq<nat>, usage: UsageMap, runs: Runs) {
    match l
    case Chunk(z, i, size) =>
      z in zones && z in books && i in books[z].held && a == ChunkAt(z, zones[z], i) && size == zones[z].size
    case Large(n) =>
      var p := a / PAGE;
      a == p * PAGE && p in runs && runs[p] == n && p !in zones && p !in free && p in usage && usage[p] == Usage(LARGE, n)
  }

  ghost predicate HeldOk(z: nat, i: nat, zones: ZoneMap, live: LiveMap)
    requires z in zones
  {
    var a := ChunkAt(z, zones[z], i); a in live && live[a] == Chunk(z, i, zones[z].size)
  }

  /** What has been given out and not been taken back is what the books of the zones, and memusage, say. */
  ghost predicate LivesOk(live: LiveMap, zones: ZoneMap, books: Books, free: seq<nat>, usage: UsageMap, runs: Runs) {
    && (forall a :: a in live ==> LiveOk(a, live[a], zones, books, free, usage, runs))
    && forall z, i {:trigger HeldOk(z, i, zones, live)} :: z in zones && z in books && i in books[z].held ==> HeldOk(z, i, zones, live)
  }

  /** Runs of pages do not overlap. */
  ghost predicate Disjoint(runs: Runs) {
    && (forall a :: a in runs ==> runs[a] > 0)
    && forall a, b, q :: a in runs && b in runs && PageList.InRun(q, a, runs[a]) && PageList.InRun(q, b, runs[b]) ==> a == b
  }

  datatype State = State(zones: ZoneMap, books: Books, lists: seq<seq<nat>>, free: seq<nat>, usage: UsageMap,
                         live: LiveMap, runs: Runs)

  ghost predicate Ok(s: State, n: nat) {
    && n > 0 && ZonesOk(s.zones, s.books, n * PAGE) && ListsOk(s.lists, s.zones)
    && RunsOk(s.zones, s.free, s.usage, s.runs, n) && LivesOk(s.live, s.zones, s.books, s.free, s.usage, s.runs)
    && Disjoint(s.runs)
  }

  /** The address of a chunk of a zone lies in the run of the zone. */
  lemma ChunkRun(s: State, n: nat, z: nat, i: nat)
    requires Ok(s, n) && z in s.zones && i < s.zones[z].nmax
    ensures z in s.runs && s.runs[z] == n && PageList.InRun(ChunkAt(z, s.zones[z], i) / PAGE, z, n)
  {
    assert ZoneOk(z, s.zones[z], s.books[z], n * PAGE) && RunOk(s.usage, s.runs, z, n);
    ChunkPage(z, s.zones[z], n, i);
    hide ZoneInv;
  }

  /** Only the zone itself and its own chunks lie in its run. */
  lemma LiveInRun(s: State, n: nat, a: nat)
    requires Ok(s, n) && a in s.live
    ensures match s.live[a]
            case Chunk(z, i, _) =>
              z in s.zones && z in s.runs && PageList.InRun(a / PAGE, z, s.runs[z]) && i < s.zones[z].nmax && a == ChunkAt(z, s.zones[z], i)
            case Large(m) => a == a / PAGE * PAGE && a / PAGE in s.runs && s.runs[a / PAGE] == m && a / PAGE !in s.zones && a / PAGE !in s.free
  {
    assert LiveOk(a, s.live[a], s.zones, s.books, s.free, s.usage, s.runs);
    match s.live[a] {
      case Chunk(z, i, _) =>
        assert ZoneOk(z, s.zones[z], s.books[z], n * PAGE);
        assert i < s.zones[z].nmax by { HeldBound(z, s.zones[z], s.books[z], n * PAGE, i); }
        ChunkRun(s, n, z, i);
      case Large(_) =>
    }
    hide ZonesOk, ListsOk, RunsOk, LivesOk, Disjoint, ZoneInv;
  }

  lemma HeldBound(z: nat, zn: Zone, b: Book, zoneSize: nat, i: nat)
    requires ZoneInv(z, zn, b, zoneSize) && i in b.held
    ensures i < zn.nmax
  {}

  // ---- large allocations

  /** Pages of one run are not pages of another one. */
  lemma RunsApart(runs: Runs, a: int, b: int, q: nat)
    requires Disjoint(runs) && a in runs && b in runs && a != b && PageList.InRun(q, b, runs[b])
    ensures !PageList.InRun(q, a, runs[a])
  {}

  /** A zone's part of memusage does not change with pages outside its run. */
  lemma RunFrame(usage: UsageMap, usage': UsageMap, runs: Runs, runs': Runs, z: nat, n: nat)
    requires RunOk(usage, runs, z, n) && z in runs' && runs'[z] == n
    requires forall q: nat :: PageList.InRun(q, z, n) && q in usage ==> q in usage' && usage'[q] == usage[q]
    ensures RunOk(usage', runs', z, n)
  {
    forall k | z <= k < z + n
      ensures k in usage' && usage'[k] == Usage(SMALL, k - z)
    {
      assert PageList.InRun(k, z, n) && k in usage;
    }
  }

  /** Memusage and runs change at page p only, which belongs to no zone. */
  lemma RunsFrame(s: State, n: nat, usage': UsageMap, runs': Runs, p: nat)
    requires RunsOk(s.zones, s.free, s.usage, s.runs, n)
    requires p in runs' && Disjoint(runs') && p !in s.zones && p !in s.free
    requires forall z :: z in s.runs && z != p ==> z in runs' && runs'[z] == s.runs[z]
    requires forall q :: q in s.usage && q != p ==> q in usage' && usage'[q] == s.usage[q]
    ensures RunsOk(s.zones, s.free, usage', runs', n)
  {
    forall z | z in s.zones || z in s.free
      ensures RunOk(usage', runs', z, n)
    {
      assert RunOk(s.usage, s.runs, z, n) && z != p && z in runs';
      assert PageList.InRun(p, p, runs'[p]);
      RunsApart(runs', z, p, p);
      RunFrame(s.usage, usage', s.runs, runs', z, n);
    }
    hide RunOk, Disjoint;
  }

  lemma LargeLives(s: State, n: nat, p: nat, m: nat)
    requires LivesOk(s.live, s.zones, s.books, s.free, s.usage, s.runs)
    requires p !in s.runs && p !in s.zones && p !in s.free && p * PAGE !in s.live
    ensures LivesOk(s.live[p * PAGE := Large(m)], s.zones, s.books, s.free, s.usage[p := Usage(LARGE, m)], s.runs[p := m])
  {
    var a, r, u := p * PAGE, s.runs[p := m], s.usage[p := Usage(LARGE, m)];
    var live := s.live[a := Large(m)];
    assert a / PAGE == p;
    forall b | b in live
      ensures LiveOk(b, live[b], s.zones, s.books, s.free, u, r)
    {
      if b != a { assert LiveOk(b, s.live[b], s.zones, s.books, s.free, s.usage, s.runs); }
    }
    forall z, i | z in s.zones && z in s.books && i in s.books[z].held
      ensures HeldOk(z, i, s.zones, live)
    {
      assert HeldOk(z, i, s.zones, s.live);
    }
  }

  lemma FreshRun(s: State, n: nat, p: nat)
    requires Ok(s, n) && p !in s.runs
    ensures p !in s.zones && p !in s.free
  {
    forall z | z in s.zones || z in s.free
      ensures z in s.runs
    {
      assert RunOk(s.usage, s.runs, z, n);
    }
  }

  lemma LargeStep(s: State, n: nat, p: nat, m: nat)
    requires Ok(s, n) && p !in s.runs && m > 0 && Disjoint(s.runs[p := m])
    ensures p * PAGE !in s.live
    ensures Ok(s.(usage := s.usage[p := Usage(LARGE, m)], runs := s.runs[p := m], live := s.live[p * PAGE := Large(m)]), n)
  {
    hide ZonesOk, ListsOk, RunsOk, LivesOk, Disjoint;
    FreshRun(s, n, p);
    assert p * PAGE / PAGE == p;
    if p * PAGE in s.live {
      LiveInRun(s, n, p * PAGE);
      OutsideRuns(s.runs, p, m);
    }
    RunsFrame(s, n, s.usage[p := Usage(LARGE, m)], s.runs[p := m], p);
    LargeLives(s, n, p, m);
  }

  lemma OutsideRuns(runs: Runs, p: nat, m: nat)
    requires p !in runs && m > 0 && Disjoint(runs[p := m])
    ensures forall a :: a in runs ==> !PageList.InRun(p, a, runs[a])
  {
    var r := runs[p := m];
    forall a | a in runs
      ensures !PageList.InRun(p, a, runs[a])
    {
      assert PageList.InRun(p, p, r[p]) && r[a] == runs[a] && a != p;
      RunsApart(r, a, p, p);
    }
  }

  lemma LargeFreeRuns(s: State, n: nat, p: nat, usage': UsageMap)
    requires RunsOk(s.zones, s.free, s.usage, s.runs, n) && Disjoint(s.runs) && p in s.runs && p !in s.zones && p !in s.free
    requires forall q :: q in s.usage && q != p ==> q in usage' && usage'[q] == s.usage[q]
    ensures RunsOk(s.zones, s.free, usage', s.runs - {p}, n)
  {
    forall z | z in s.zones || z in s.free
      ensures RunOk(usage', s.runs - {p}, z, n)
    {
      assert RunOk(s.usage, s.runs, z, n) && PageList.InRun(p, p, s.runs[p]);
      RunsApart(s.runs, z, p, p);
      RunFrame(s.usage, usage', s.runs, s.runs - {p}, z, n);
    }
    hide RunOk, Disjoint;
  }

  lemma LargeFreeLives(s: State, n: nat, p: nat, u: Usage)
    requires LivesOk(s.live, s.zones, s.books, s.free, s.usage, s.runs)
    requires p * PAGE in s.live && s.live[p * PAGE].Large?
    ensures LivesOk(s.live - {p * PAGE}, s.zones, s.books, s.free, s.usage[p := u], s.runs - {p})
  {
    var a := p * PAGE;
    forall b | b in s.live && b != a
      ensures LiveOk(b, s.live[b], s.zones, s.books, s.free, s.usage[p := u], s.runs - {p})
    {
      assert LiveOk(b, s.live[b], s.zones, s.books, s.free, s.usage, s.runs);
    }
    forall z, i | z in s.zones && z in s.books && i in s.books[z].held
      ensures HeldOk(z, i, s.zones, s.live - {a})
    {
      assert HeldOk(z, i, s.zones, s.live);
    }
  }

  lemma LargeFreeStep(s: State, n: nat, p: nat, m: nat)
    requires Ok(s, n) && p * PAGE in s.live && s.live[p * PAGE] == Large(m)
    ensures p in s.runs && s.runs[p] == m && p in s.usage && s.usage[p] == Usage(LARGE, m)
    ensures Ok(s.(usage := s.usage[p := Usage(LARGE, 0)], runs := s.runs - {p}, live := s.live - {p * PAGE}), n)
  {
    hide ZonesOk, ListsOk, RunsOk;
    assert p * PAGE / PAGE == p;
    assert LiveOk(p * PAGE, s.live[p * PAGE], s.zones, s.books, s.free, s.usage, s.runs);
    LargeFreeRuns(s, n, p, s.usage[p := Usage(LARGE, 0)]);
    LargeFreeLives(s, n, p, Usage(LARGE, 0));
    hide LivesOk;
  }

  // ---- giving out a chunk of a zone, and taking it back

  /** A chunk that is not given out has an address that is not given out. */
  lemma ChunkUnused(s: State, n: nat, z: nat, i: nat)
    requires Ok(s, n) && z in s.zones && i < s.zones[z].nmax && i !in s.books[z].held
    ensures ChunkAt(z, s.zones[z], i) !in s.live
  {
    hide ZonesOk, ListsOk, RunsOk, Disjoint, ChunkAt;
    var a := ChunkAt(z, s.zones[z], i);
    if a in s.live {
      LiveInRun(s, n, a);
      ChunkRun(s, n, z, i);
      assert LiveOk(a, s.live[a], s.zones, s.books, s.free, s.usage, s.runs);
      SameAddress(s, n, z, i, a);
    }
  }

  /** An address given out that is the address of a chunk is that chunk. */
  lemma SameAddress(s: State, n: nat, z: nat, i: nat, a: nat)
    requires Ok(s, n) && z in s.zones && i < s.zones[z].nmax && a == ChunkAt(z, s.zones[z], i) && a in s.live
    ensures s.live[a].Chunk? && s.live[a].z == z && s.live[a].i == i
  {
    hide ZonesOk, ListsOk, RunsOk, LivesOk, Disjoint, ChunkAt;
    LiveInRun(s, n, a);
    ChunkRun(s, n, z, i);
    SizePositive(s, n, z);
    match s.live[a] {
      case Chunk(w, j, _) =>
        OneRun(s.runs, z, w, a / PAGE);
        if i < j { ChunksApart(z, s.zones[z], i, j); }
        if j < i { ChunksApart(z, s.zones[z], j, i); }
      case Large(m) =>
        LargePage(s, n, a);
        OneRun(s.runs, z, a / PAGE, a / PAGE);
    }
  }

  lemma SizePositive(s: State, n: nat, z: nat)
    requires Ok(s, n) && z in s.zones
    ensures s.zones[z].size > 0
  {
    assert ZoneOk(z, s.zones[z], s.books[z], n * PAGE);
  }

  lemma LargePage(s: State, n: nat, a: nat)
    requires Ok(s, n) && a in s.live && s.live[a].Large?
    ensures a / PAGE in s.runs && PageList.InRun(a / PAGE, a / PAGE, s.runs[a / PAGE])
  {
    assert LiveOk(a, s.live[a], s.zones, s.books, s.free, s.usage, s.runs);
  }

  lemma OneRun(runs: Runs, a: int, b: int, q: nat)
    requires Disjoint(runs) && a in runs && b in runs && PageList.InRun(q, a, runs[a]) && PageList.InRun(q, b, runs[b])
    ensures a == b
  {}

  /** A zone changes, but not where its chunks lie, and one more of them, at a, is given out. */
  lemma GrowLives(s: State, z: nat, zn: Zone, b: Book, i: nat, a: nat)
    requires LivesOk(s.live, s.zones, s.books, s.free, s.usage, s.runs) && z in s.zones && z in s.books
    requires zn.size == s.zones[z].size && zn.off == s.zones[z].off && b.held == s.books[z].held + {i}
    requires a == ChunkAt(z, zn, i) && a !in s.live
    ensures LivesOk(s.live[a := Chunk(z, i, zn.size)], s.zones[z := zn], s.books[z := b], s.free, s.usage, s.runs)
  {
    hide ChunkAt;
    assert forall j :: ChunkAt(z, zn, j) == ChunkAt(z, s.zones[z], j) by { SameChunks(z, zn, s.zones[z]); }
    var live, zones, books := s.live[a := Chunk(z, i, zn.size)], s.zones[z := zn], s.books[z := b];
    forall c | c in live
      ensures LiveOk(c, live[c], zones, books, s.free, s.usage, s.runs)
    {
      if c != a { assert LiveOk(c, s.live[c], s.zones, s.books, s.free, s.usage, s.runs); }
    }
    forall w, j | w in zones && w in books && j in books[w].held
      ensures HeldOk(w, j, zones, live)
    {
      if w != z || j != i { assert HeldOk(w, j, s.zones, s.live); }
    }
  }

  lemma SameChunks(z: nat, a: Zone, b: Zone)
    requires a.size == b.size && a.off == b.off
    ensures forall j :: ChunkAt(z, a, j) == ChunkAt(z, b, j)
  {}

  /** ... or one of them is taken back. */
  lemma LessLives(s: State, n: nat, z: nat, zn: Zone, b: Book, i: nat, a: nat)
    requires Ok(s, n) && z in s.zones && z in s.books
    requires zn.size == s.zones[z].size && zn.off == s.zones[z].off && b.held == s.books[z].held - {i}
    requires a in s.live && s.live[a].Chunk? && s.live[a].z == z && s.live[a].i == i
    ensures LivesOk(s.live - {a}, s.zones[z := zn], s.books[z := b], s.free, s.usage, s.runs)
  {
    hide ChunkAt, ZonesOk, ListsOk, RunsOk, Disjoint;
    SameChunks(z, zn, s.zones[z]);
    var live, zones, books := s.live - {a}, s.zones[z := zn], s.books[z := b];
    assert LiveOk(a, s.live[a], s.zones, s.books, s.free, s.usage, s.runs);
    forall c | c in live
      ensures LiveOk(c, live[c], zones, books, s.free, s.usage, s.runs)
    {
      assert LiveOk(c, s.live[c], s.zones, s.books, s.free, s.usage, s.runs);
    }
    forall w, j | w in zones && w in books && j in books[w].held
      ensures HeldOk(w, j, zones, live)
    {
      assert HeldOk(w, j, s.zones, s.live);
    }
  }

  // ---- the lists of zones with free chunks

  /** The list of class k is replaced; zone z is on it exactly if it is to be. */
  lemma ListsStep(lists: seq<seq<nat>>, zones: ZoneMap, zones': ZoneMap, k: nat, l: seq<nat>, z: nat, on: bool)
    requires ListsOk(lists, zones) && k < NZONES && Distinct(l)
    requires forall w :: w in l <==> (w in lists[k] && w != z) || (w == z && on)
    requires forall w: nat :: w != z ==> (w in zones <==> w in zones') && (w in zones ==> zones'[w] == zones[w])
    requires (z in zones ==> zones[z].index == k) && (z in zones' ==> zones'[z].index == k)
    requires on <==> z in zones' && zones'[z].nfree > 0
    ensures ListsOk(lists[k := l], zones')
  {
    var m := lists[k := l];
    forall j, w | 0 <= j < NZONES
      ensures w in m[j] <==> w in zones' && zones'[w].index == j && zones'[w].nfree > 0
    {
      assert w in lists[j] <==> w in zones && zones[w].index == j && zones[w].nfree > 0;
    }
  }

  lemma SameLists(lists: seq<seq<nat>>, zones: ZoneMap, z: nat, zn: Zone)
    requires ListsOk(lists, zones) && z in zones && zn.index == zones[z].index && (zn.nfree > 0 <==> zones[z].nfree > 0)
    ensures ListsOk(lists, zones[z := zn])
  {}

  lemma OnList(lists: seq<seq<nat>>, zones: ZoneMap, k: nat, z: nat)
    requires ListsOk(lists, zones) && k < NZONES
    ensures Distinct(lists[k]) && (z in lists[k] <==> z in zones && zones[z].index == k && zones[z].nfree > 0)
  {}

  // ---- the steps of rt_malloc and rt_free on zones

  /** The state after chunk i at address a of zone z is given out. */
  function Gave(s: State, z: nat, zn: Zone, b: Book, lists: seq<seq<nat>>, i: nat, a: nat): State {
    s.(zones := s.zones[z := zn], books := s.books[z := b], lists := lists, live := s.live[a := Chunk(z, i, zn.size)])
  }

  lemma BookOf(s: State, n: nat, z: nat)
    requires Ok(s, n) && z in s.zones
    ensures z in s.books && ZoneOk(z, s.zones[z], s.books[z], n * PAGE) && RunOk(s.usage, s.runs, z, n)
    ensures s.zones[z].index < NZONES
  {}

  lemma ZonesStep(s: State, n: nat, z: nat, zn: Zone, b: Book)
    requires ZonesOk(s.zones, s.books, n * PAGE) && ZoneOk(z, zn, b, n * PAGE)
    ensures ZonesOk(s.zones[z := zn], s.books[z := b], n * PAGE)
  {
    hide ZoneOk;
  }

  lemma RunsSame(s: State, n: nat, z: nat, zn: Zone)
    requires RunsOk(s.zones, s.free, s.usage, s.runs, n) && z in s.zones
    ensures RunsOk(s.zones[z := zn], s.free, s.usage, s.runs, n)
  {
    hide RunOk;
  }

  /** The first zone of a class gives out a chunk, and leaves the list with its last one. */
  lemma TakeStep(s: State, n: nat, k: nat, z: nat)
    requires Ok(s, n) && k < NZONES == |s.lists| && s.lists[k] != [] && s.lists[k][0] == z
    ensures z in s.zones && z in s.books && s.zones[z].nfree > 0 && s.zones[z].index == k && s.zones[z].size == ClassSize(k)
    ensures s.zones[z].uindex + 1 != s.zones[z].nmax || s.zones[z].chunks != []
    ensures s.zones[z].uindex + 1 != s.zones[z].nmax || s.books[z].spare != []
    ensures var (zn, a) := TakeChunk(z, s.zones[z]);
            var lists := if zn.nfree == 0 then s.lists[k := s.lists[k][1..]] else s.lists;
            && a !in s.live && zn.size == s.zones[z].size
            && Ok(Gave(s, z, zn, TakenBook(s.zones[z], s.books[z]), lists, Taken(s.zones[z], s.books[z]), a), n)
  {
    hide ZonesOk, ListsOk, RunsOk, LivesOk, Disjoint, ZoneInv, RunOk, ChunkAt;
    assert z in s.lists[k];
    OnList(s.lists, s.zones, k, z);
    BookOf(s, n, z);
    var was, b := s.zones[z], s.books[z];
    TakeInv(z, was, b, n * PAGE);
    var (zn, a) := TakeChunk(z, was);
    var i := Taken(was, b);
    ChunkUnused(s, n, z, i);
    SameChunks(z, zn, was);
    ZonesStep(s, n, z, zn, TakenBook(was, b));
    RunsSame(s, n, z, zn);
    GrowLives(s, z, zn, TakenBook(was, b), i, a);
    if zn.nfree == 0 {
      TailMembers(s.lists[k]);
      ListsStep(s.lists, s.zones, s.zones[z := zn], k, s.lists[k][1..], z, false);
    } else {
      SameLists(s.lists, s.zones, z, zn);
    }
  }

  lemma TailMembers(l: seq<nat>)
    requires l != [] && Distinct(l)
    ensures Distinct(l[1..]) && forall w :: w in l[1..] <==> w in l && w != l[0]
  {
    assert l[0] !in l[1..];
    assert forall w :: w in l <==> w == l[0] || w in l[1..];
  }

  lemma FrontMembers(l: seq<nat>, z: nat)
    requires z !in l && Distinct(l)
    ensures Distinct([z] + l) && forall w :: w in [z] + l <==> w in l || w == z
  {}

  /** The chunk at a goes back to its zone, which goes back to its list if it had no free chunk. */
  lemma PutStep(s: State, n: nat, z: nat, i: nat, a: nat, size: nat)
    requires Ok(s, n) && a in s.live && s.live[a] == Chunk(z, i, size) && |s.lists| == NZONES
    ensures z in s.zones && z in s.books && i in s.books[z].held && s.zones[z].size == size && s.zones[z].index < NZONES
    ensures var zn := s.zones[z].(nfree := s.zones[z].nfree + 1, chunks := [a] + s.zones[z].chunks);
            var k := zn.index;
            var lists := if s.zones[z].nfree == 0 then s.lists[k := [z] + s.lists[k]] else s.lists;
            var b := Book(s.books[z].held - {i}, [i] + s.books[z].spare);
            && Ok(s.(zones := s.zones[z := zn], books := s.books[z := b], lists := lists, live := s.live - {a}), n)
            && z in lists[k]
  {
    hide ZonesOk, ListsOk, RunsOk, LivesOk, Disjoint, ZoneInv, RunOk, ChunkAt;
    LiveChunk(s, n, a);
    BookOf(s, n, z);
    var was, b, k := s.zones[z], s.books[z], s.zones[z].index;
    PutInv(z, was, b, n * PAGE, i);
    var zn, b' := was.(nfree := was.nfree + 1, chunks := [a] + was.chunks), Book(b.held - {i}, [i] + b.spare);
    ZonesStep(s, n, z, zn, b');
    RunsSame(s, n, z, zn);
    LessLives(s, n, z, zn, b', i, a);
    OnList(s.lists, s.zones, k, z);
    if was.nfree == 0 {
      FrontMembers(s.lists[k], z);
      ListsStep(s.lists, s.zones, s.zones[z := zn], k, [z] + s.lists[k], z, true);
    } else {
      SameLists(s.lists, s.zones, z, zn);
    }
  }

  lemma LiveChunk(s: State, n: nat, a: nat)
    requires Ok(s, n) && a in s.live && s.live[a].Chunk?
    ensures var l := s.live[a];
            l.z in s.zones && l.z in s.books && l.i in s.books[l.z].held && a == ChunkAt(l.z, s.zones[l.z], l.i)
            && l.size == s.zones[l.z].size
  {
    assert LiveOk(a, s.live[a], s.zones, s.books, s.free, s.usage, s.runs);
  }

  /** A zone without chunks given out leaves its list for the list of free zones. */
  lemma RetireStep(s: State, n: nat, z: nat)
    requires Ok(s, n) && z in s.zones && s.zones[z].nfree == s.zones[z].nmax && |s.lists| == NZONES
    ensures s.zones[z].index < NZONES
    ensures var k := s.zones[z].index;
            Ok(s.(zones := s.zones - {z}, books := s.books - {z}, lists := s.lists[k := Without(s.lists[k], z)],
                  free := [z] + s.free), n)
  {
    hide ZonesOk, ListsOk, RunsOk, LivesOk, Disjoint, ZoneInv, RunOk, ChunkAt, Without;
    BookOf(s, n, z);
    var k, zones, books := s.zones[z].index, s.zones - {z}, s.books - {z};
    Free(z, s.zones[z], s.books[z], n * PAGE);
    assert s.books[z].held == {};
    OnList(s.lists, s.zones, k, z);
    WithoutMembers(s.lists[k], z);
    ListsStep(s.lists, s.zones, zones, k, Without(s.lists[k], z), z, false);
    RetireZones(s, n, z);
    RetireRuns(s, n, z);
    RetireLives(s, z);
  }

  lemma RetireZones(s: State, n: nat, z: nat)
    requires ZonesOk(s.zones, s.books, n * PAGE)
    ensures ZonesOk(s.zones - {z}, s.books - {z}, n * PAGE)
  {
    hide ZoneOk;
  }

  lemma RetireRuns(s: State, n: nat, z: nat)
    requires RunsOk(s.zones, s.free, s.usage, s.runs, n) && z in s.zones
    ensures RunsOk(s.zones - {z}, [z] + s.free, s.usage, s.runs, n)
  {
    hide RunOk;
    assert forall w :: w in [z] + s.free <==> w == z || w in s.free;
  }

  lemma RetireLives(s: State, z: nat)
    requires LivesOk(s.live, s.zones, s.books, s.free, s.usage, s.runs)
    requires z in s.zones && z in s.books && s.books[z].held == {}
    ensures LivesOk(s.live, s.zones - {z}, s.books - {z}, [z] + s.free, s.usage, s.runs)
  {
    var zones, books := s.zones - {z}, s.books - {z};
    assert forall w :: w in [z] + s.free <==> w == z || w in s.free;
    forall c | c in s.live
      ensures LiveOk(c, s.live[c], zones, books, [z] + s.free, s.usage, s.runs)
    {
      assert LiveOk(c, s.live[c], s.zones, s.books, s.free, s.usage, s.runs);
    }
    forall w, j | w in zones && w in books && j in books[w].held
      ensures HeldOk(w, j, zones, s.live)
    {
      assert HeldOk(w, j, s.zones, s.live);
    }
  }

  // ---- the list of free zones

  /** A run of pages becomes a free zone; memusage is set for its pages. */
  lemma PagesStep(s: State, n: nat, z: nat, usage: UsageMap)
    requires Ok(s, n) && z !in s.runs && Disjoint(s.runs[z := n]) && SmallRun(usage, z, n)
    requires forall q: nat :: q in s.usage && !PageList.InRun(q, z, n) ==> q in usage && usage[q] == s.usage[q]
    ensures Ok(s.(free := [z] + s.free, runs := s.runs[z := n], usage := usage), n)
  {
    hide ZonesOk, ListsOk, LivesOk, RunOk, Disjoint;
    var r := s.runs[z := n];
    FreshRun(s, n, z);
    assert forall w :: w in [z] + s.free <==> w == z || w in s.free;
    forall w | w in s.zones || w in s.free
      ensures RunOk(usage, r, w, n)
    {
      assert RunOk(s.usage, s.runs, w, n);
      OtherRun(s, n, z, usage, w);
    }
    assert RunOk(usage, r, z, n) by { NewRun(usage, r, z, n); }
    PagesLives(s, n, z, usage);
  }

  lemma NewRun(usage: UsageMap, r: Runs, z: nat, n: nat)
    requires z in r && r[z] == n && SmallRun(usage, z, n)
    ensures RunOk(usage, r, z, n)
  {}

  lemma OtherRun(s: State, n: nat, z: nat, usage: UsageMap, w: nat)
    requires RunOk(s.usage, s.runs, w, n) && z !in s.runs && Disjoint(s.runs[z := n])
    requires forall q: nat :: q in s.usage && !PageList.InRun(q, z, n) ==> q in usage && usage[q] == s.usage[q]
    ensures RunOk(usage, s.runs[z := n], w, n)
  {
    var r := s.runs[z := n];
    assert w != z && w in r && r[w] == n;
    forall q: nat | PageList.InRun(q, w, n) && q in s.usage
      ensures q in usage && usage[q] == s.usage[q]
    {
      RunsApart(r, z, w, q);
    }
    RunFrame(s.usage, usage, s.runs, r, w, n);
  }

  lemma PagesLives(s: State, n: nat, z: nat, usage: UsageMap)
    requires LivesOk(s.live, s.zones, s.books, s.free, s.usage, s.runs) && n > 0
    requires z !in s.runs && Disjoint(s.runs) && Disjoint(s.runs[z := n])
    requires forall q: nat :: q in s.usage && !PageList.InRun(q, z, n) ==> q in usage && usage[q] == s.usage[q]
    ensures LivesOk(s.live, s.zones, s.books, [z] + s.free, usage, s.runs[z := n])
  {
    var r := s.runs[z := n];
    assert forall w :: w in [z] + s.free <==> w == z || w in s.free;
    forall c | c in s.live
      ensures LiveOk(c, s.live[c], s.zones, s.books, [z] + s.free, usage, r)
    {
      assert LiveOk(c, s.live[c], s.zones, s.books, s.free, s.usage, s.runs);
      if s.live[c].Large? {
        var p := c / PAGE;
        assert PageList.InRun(p, p, r[p]);
        RunsApart(r, z, p, p);
      }
    }
  }

  /** A free zone becomes a zone of class k that has given out its first chunk. */
  lemma NewStep(s: State, n: nat, k: nat, z: nat)
    requires Ok(s, n) && k < NZONES == |s.lists| && s.free != [] && s.free[0] == z
    requires ClassSize(k) > 0 && Offset(ClassSize(k)) + 2 * ClassSize(k) <= n * PAGE
    ensures var zn := FreshZone(k, ClassSize(k), n * PAGE); var a := ChunkAt(z, zn, 0);
            && a !in s.live && zn.size == ClassSize(k)
            && Ok(s.(zones := s.zones[z := zn], books := s.books[z := Book({0}, [])], lists := s.lists[k := [z] + s.lists[k]],
                     free := s.free[1..], live := s.live[a := Chunk(z, 0, zn.size)]), n)
  {
    hide ZonesOk, ListsOk, RunsOk, LivesOk, Disjoint, RunOk, ChunkAt, ZoneInv, FreshZone, Offset, ClassSize;
    var zn, b := FreshZone(k, ClassSize(k), n * PAGE), Book({0}, []);
    FreshOk(z, k, n * PAGE);
    assert z in s.free;
    FreeZone(s, n, z);
    var a := ChunkAt(z, zn, 0);
    FreshChunk(s, n, z, zn, b);
    ZonesStep(s, n, z, zn, b);
    OnList(s.lists, s.zones, k, z);
    FrontMembers(s.lists[k], z);
    ListsStep(s.lists, s.zones, s.zones[z := zn], k, [z] + s.lists[k], z, true);
    NewRuns(s, n, z, zn);
    NewLives(s, z, zn, a);
  }

  lemma FreshOk(z: nat, k: nat, zoneSize: nat)
    requires k < NZONES && ClassSize(k) > 0 && Offset(ClassSize(k)) + 2 * ClassSize(k) <= zoneSize
    ensures var zn := FreshZone(k, ClassSize(k), zoneSize);
            && ZoneOk(z, zn, Book({0}, []), zoneSize) && ZoneInv(z, zn, Book({0}, []), zoneSize)
            && zn.index == k && zn.size == ClassSize(k) && zn.nfree > 0
  {
    hide ZoneInv, ClassSize, Offset;
    FreshInv(z, k, ClassSize(k), zoneSize);
    TwoChunks(zoneSize - Offset(ClassSize(k)), ClassSize(k));
  }

  lemma TwoChunks(n: nat, d: nat)
    requires d > 0 && n >= 2 * d
    ensures n / d >= 2
  {
    assert n == n / d * d + n % d;
    if n / d < 2 { MulMono(n / d, 1, d); }
  }

  lemma FreeZone(s: State, n: nat, z: nat)
    requires Ok(s, n) && z in s.free
    ensures z !in s.zones && RunOk(s.usage, s.runs, z, n) && Distinct(s.free)
  {}

  lemma FreshChunk(s: State, n: nat, z: nat, zn: Zone, b: Book)
    requires Ok(s, n) && z in s.free && ZoneInv(z, zn, b, n * PAGE)
    ensures ChunkAt(z, zn, 0) !in s.live
  {
    hide ZonesOk, ListsOk, RunsOk, LivesOk, Disjoint, ChunkAt;
    var a := ChunkAt(z, zn, 0);
    ChunkPage(z, zn, n, 0);
    FreeZone(s, n, z);
    if a in s.live {
      LiveInRun(s, n, a);
      match s.live[a] {
        case Chunk(w, _, _) => OneRun(s.runs, z, w, a / PAGE);
        case Large(_) =>
          LargePage(s, n, a);
          OneRun(s.runs, z, a / PAGE, a / PAGE);
      }
    }
  }

  lemma NewRuns(s: State, n: nat, z: nat, zn: Zone)
    requires RunsOk(s.zones, s.free, s.usage, s.runs, n) && s.free != [] && s.free[0] == z
    ensures RunsOk(s.zones[z := zn], s.free[1..], s.usage, s.runs, n)
  {
    hide RunOk;
    assert z in s.free;
    TailMembers(s.free);
  }

  lemma NewLives(s: State, z: nat, zn: Zone, a: nat)
    requires LivesOk(s.live, s.zones, s.books, s.free, s.usage, s.runs) && s.free != [] && s.free[0] == z
    requires z !in s.zones && a == ChunkAt(z, zn, 0) && a !in s.live && Distinct(s.free)
    ensures LivesOk(s.live[a := Chunk(z, 0, zn.size)], s.zones[z := zn], s.books[z := Book({0}, [])], s.free[1..], s.usage, s.runs)
  {
    hide ChunkAt;
    TailMembers(s.free);
    assert z in s.free;
    var live, zones, books := s.live[a := Chunk(z, 0, zn.size)], s.zones[z := zn], s.books[z := Book({0}, [])];
    forall c | c in live
      ensures LiveOk(c, live[c], zones, books, s.free[1..], s.usage, s.runs)
    {
      if c != a { assert LiveOk(c, s.live[c], s.zones, s.books, s.free, s.usage, s.runs); }
    }
    forall w, j | w in zones && w in books && j in books[w].held
      ensures HeldOk(w, j, zones, live)
    {
      if w != z { assert HeldOk(w, j, s.zones, s.live); }
    }
  }

  /** The first free zone goes back to the page allocator; memusage is cleared for its pages. */
  lemma ReleaseStep(s: State, n: nat, z: nat, usage: UsageMap)
    requires Ok(s, n) && s.free != [] && s.free[0] == z
    requires forall q: nat :: q in s.usage && !PageList.InRun(q, z, n) ==> q in usage && usage[q] == s.usage[q]
    ensures z in s.runs && s.runs[z] == n
    ensures Ok(s.(free := s.free[1..], runs := s.runs - {z}, usage := usage), n)
  {
    hide ZonesOk, ListsOk, RunOk, Disjoint;
    assert z in s.free;
    FreeZone(s, n, z);
    RunIs(s.usage, s.runs, z, n);
    TailMembers(s.free);
    var r := s.runs - {z};
    forall w | w in s.zones || w in s.free[1..]
      ensures RunOk(usage, r, w, n)
    {
      assert RunOk(s.usage, s.runs, w, n) && w != z;
      KeptRun(s, n, z, usage, w);
    }
    ReleaseLives(s, n, z, usage);
    LessDisjoint(s.runs, z);
  }

  lemma RunIs(usage: UsageMap, runs: Runs, z: nat, n: nat)
    requires RunOk(usage, runs, z, n)
    ensures z in runs && runs[z] == n
  {}

  lemma LessDisjoint(runs: Runs, z: nat)
    requires Disjoint(runs)
    ensures Disjoint(runs - {z})
  {}

  lemma KeptRun(s: State, n: nat, z: nat, usage: UsageMap, w: nat)
    requires RunOk(s.usage, s.runs, w, n) && RunOk(s.usage, s.runs, z, n) && w != z && Disjoint(s.runs)
    requires forall q: nat :: q in s.usage && !PageList.InRun(q, z, n) ==> q in usage && usage[q] == s.usage[q]
    ensures RunOk(usage, s.runs - {z}, w, n)
  {
    forall q: nat | PageList.InRun(q, w, n) && q in s.usage
      ensures q in usage && usage[q] == s.usage[q]
    {
      RunsApart(s.runs, z, w, q);
    }
    RunFrame(s.usage, usage, s.runs, s.runs - {z}, w, n);
  }

  lemma ReleaseLives(s: State, n: nat, z: nat, usage: UsageMap)
    requires LivesOk(s.live, s.zones, s.books, s.free, s.usage, s.runs) && Disjoint(s.runs)
    requires s.free != [] && s.free[0] == z && z in s.runs && s.runs[z] == n
    requires forall q: nat :: q in s.usage && !PageList.InRun(q, z, n) ==> q in usage && usage[q] == s.usage[q]
    ensures LivesOk(s.live, s.zones, s.books, s.free[1..], usage, s.runs - {z})
  {
    assert z in s.free;
    assert forall w :: w in s.free[1..] ==> w in s.free;
    forall c | c in s.live
      ensures LiveOk(c, s.live[c], s.zones, s.books, s.free[1..], usage, s.runs - {z})
    {
      assert LiveOk(c, s.live[c], s.zones, s.books, s.free, s.usage, s.runs);
      if s.live[c].Large? {
        var p := c / PAGE;
        assert PageList.InRun(p, p, s.runs[p]);
        RunsApart(s.runs, z, p, p);
      }
    }
  }
}
