/** rtt/src/slab.c: the page allocator under the slab. */
module Pages {
  import opened Wrappers
  import opened PageList

  class PageHeap {
    /** rt_page_list. */
    var list: seq<Block>

    /** The pool, and the runs handed out. */
    ghost const base: nat
    ghost const total: nat
    ghost var live: map<int, nat>

    ghost predicate Valid()
      reads this
    {
      Ordered(list) && Partition(list, live, base, total)
    }

    /** rt_page_init. */
    constructor (addr: nat, npages: nat)
      requires npages > 0
      ensures Valid() && base == addr && total == npages && live == map[]
      ensures list == [Block(addr, npages)]
    {
      list := [Block(addr, npages)];
      base := addr;
      total := npages;
      live := map[];
      new;
      forall q ensures Covers(list, q) <==> InRun(q, addr, npages) { CoversOne(Block(addr, npages), q); }
    }

    /** rt_page_alloc: first fit; it fails exactly when no such run of free pages exists. */
    method PageAlloc(npages: nat) returns (r: Option<nat>)
      requires Valid()
      modifies this
      ensures Valid()
      ensures npages == 0 ==> r == None
      ensures npages > 0 ==> (r == None <==> !exists p :: RunFree(old(list), p, npages))
      ensures r == None ==> list == old(list) && live == old(live)
      ensures r.Some? ==> RunFree(old(list), r.value, npages) && Carved(old(list), list, r.value, npages)
                          && live == old(live)[r.value := npages]
      ensures r.Some? ==> forall p :: RunFree(old(list), p, npages) ==> r.value <= p
    {
      if npages == 0 { return None; }
      var i := 0;
      while i < |list|
        invariant 0 <= i <= |list| && list == old(list) && live == old(live) && Valid()
        invariant forall k :: 0 <= k < i ==> list[k].pages < npages
      {
        var b := list[i];
        if b.pages >= npages {
          ghost var a, c := list[..i], list[i + 1..];
          assert list == a + [b] + c;
          BlockRun(list, b, npages);
          NotBefore(list, i, npages);
          if b.pages > npages {
            CarveBlock(a, b, c, npages);
            list := list[..i] + [Block(b.addr + npages, b.pages - npages)] + list[i + 1..];
          } else {
            DropBlock(a, b, c);
            list := list[..i] + list[i + 1..];
          }
          live := live[b.addr := npages];
          AfterAlloc(old(list), old(live), list, live, base, total, b.addr, npages);
          return Some(b.addr);
        }
        i := i + 1;
      }
      NoRun(list, npages);
      r := None;
    }

    /** rt_page_free, for a run that is not free; the RT_ASSERT of its loop is checked on the way. */
    method PageFree(addr: nat, npages: nat)
      requires Valid() && npages > 0 && addr in live && live[addr] == npages
      modifies this
      ensures Valid()
      ensures Extended(old(list), list, addr, npages) && live == old(live) - {addr}
    {
      HeldNotFree(list, live, base, total, addr);
      list := Insert(addr, npages);
      live := live - {addr};
      AfterFree(old(list), old(live), list, live, base, total, addr, npages);
    }

    /** The loop of rt_page_free: where the run joins the list, and with which neighbours it merges. */
    method Insert(addr: nat, npages: nat) returns (list': seq<Block>)
      requires Ordered(list) && npages > 0 && RunTaken(list, addr, npages)
      ensures Ordered(list') && Extended(list, list', addr, npages)
    {
      var i := 0;
      hide *;
      EndOf(list, 0);
      while i < |list|
        invariant 0 <= i <= |list| && End(list[..i]) < addr
      {
        var b := list[i];
        EndOf(list, i);
        EndOf(list, i + 1);
        Apart(list, i, addr, npages);
        assert b.addr > addr || b.addr + b.pages <= addr;
        ghost var a := list[..i];
        assert list == a + [b] + list[i + 1..];
        if b.addr + b.pages == addr {
          if i + 1 < |list| && addr + npages == list[i + 1].addr {
            var next := list[i + 1];
            assert list == a + [b, next] + list[i + 2..];
            MergeBoth(a, b, next, list[i + 2..], addr, npages);
            return list[..i] + [Block(b.addr, b.pages + npages + next.pages)] + list[i + 2..];
          }
          if i + 1 < |list| { NextApart(list, i, addr, npages); }
          MergeBefore(a, b, list[i + 1..], addr, npages);
          return list[..i] + [Block(b.addr, b.pages + npages)] + list[i + 1..];
        }
        if b.addr == addr + npages {
          MergeAfter(a, b, list[i + 1..], addr, npages);
          return list[..i] + [Block(addr, npages + b.pages)] + list[i + 1..];
        }
        if b.addr > addr + npages { break; }
        i := i + 1;
      }
      assert list == list[..i] + list[i..];
      InsertAlone(list[..i], list[i..], addr, npages);
      list' := list[..i] + [Block(addr, npages)] + list[i..];
    }
  }

  ghost predicate Held(live: map<int, nat>, q: int) {
    exists a :: a in live && InRun(q, a, live[a])
  }

  /** Free pages and handed-out runs partition the pool. */
  ghost predicate Partition(list: seq<Block>, live: map<int, nat>, base: nat, total: nat) {
    && (forall q :: InRun(q, base, total) <==> Covers(list, q) || Held(live, q))
    && (forall q :: !(Covers(list, q) && Held(live, q)))
    && (forall a, b, q :: a in live && b in live && InRun(q, a, live[a]) && InRun(q, b, live[b]) ==> a == b)
    && (forall a :: a in live ==> live[a] > 0)
  }

  lemma AfterAlloc(
      list: seq<Block>, live: map<int, nat>, list': seq<Block>, live': map<int, nat>, base: nat, total: nat, p: int, n: nat)
    requires Partition(list, live, base, total) && n > 0 && RunFree(list, p, n)
    requires Carved(list, list', p, n) && live' == live[p := n]
    ensures Partition(list', live', base, total)
  {
    assert InRun(p, p, n) && Covers(list, p) && !Held(live, p);
    assert p !in live;
    forall q ensures Held(live', q) <==> Held(live, q) || InRun(q, p, n) {
      if Held(live, q) { var a :| a in live && InRun(q, a, live[a]); assert a in live' && live'[a] == live[a]; }
      if InRun(q, p, n) { assert p in live'; }
    }
    forall a, b, q | a in live' && b in live' && InRun(q, a, live'[a]) && InRun(q, b, live'[b]) ensures a == b {
      assert InRun(q, p, n) ==> Covers(list, q);
      assert a in live && InRun(q, a, live[a]) ==> Held(live, q);
      assert b in live && InRun(q, b, live[b]) ==> Held(live, q);
    }
  }

  lemma AfterFree(
      list: seq<Block>, live: map<int, nat>, list': seq<Block>, live': map<int, nat>, base: nat, total: nat, p: int, n: nat)
    requires Partition(list, live, base, total) && p in live && live[p] == n
    requires Extended(list, list', p, n) && live' == live - {p}
    ensures Partition(list', live', base, total)
  {
    forall q ensures Held(live, q) <==> Held(live', q) || InRun(q, p, n) {
      if Held(live, q) { var a :| a in live && InRun(q, a, live[a]); assert a == p || a in live'; }
      if Held(live', q) { var a :| a in live' && InRun(q, a, live'[a]); assert a in live; }
    }
    forall q ensures !(Held(live', q) && InRun(q, p, n)) {
      if Held(live', q) { var a :| a in live' && InRun(q, a, live'[a]); assert a in live && a != p; }
    }
  }

  lemma HeldNotFree(list: seq<Block>, live: map<int, nat>, base: nat, total: nat, p: int)
    requires Partition(list, live, base, total) && p in live
    ensures RunTaken(list, p, live[p])
  {
    forall q | InRun(q, p, live[p]) ensures !Covers(list, q) { assert Held(live, q); }
  }

  /** A run that is not free lies entirely before or entirely after every block. */
  lemma Apart(list: seq<Block>, i: nat, p: int, n: nat)
    requires Ordered(list) && i < |list| && n > 0 && RunTaken(list, p, n)
    ensures p + n <= list[i].addr || list[i].addr + list[i].pages <= p
  {
    var b := list[i];
    assert b in list;
    if p < b.addr + b.pages && b.addr < p + n {
      var q := if p < b.addr then b.addr else p;
      assert InRun(q, b.addr, b.pages) && InRun(q, p, n);
      assert Covers(list, q);
      assert false;
    }
  }

  lemma NextApart(list: seq<Block>, i: nat, p: int, n: nat)
    requires Ordered(list) && i + 1 < |list| && n > 0 && RunTaken(list, p, n)
    requires list[i].addr + list[i].pages == p
    ensures p + n <= list[i + 1].addr
  {
    Apart(list, i + 1, p, n);
    assert list[i + 1] in list && list[i].addr + list[i].pages < list[i + 1].addr;
  }

  lemma EndOf(list: seq<Block>, i: nat)
    requires i <= |list|
    ensures End(list[..i]) == if i == 0 then -1 else list[i - 1].addr + list[i - 1].pages
  {}

  lemma MergeBoth(a: seq<Block>, b: Block, next: Block, c: seq<Block>, p: int, n: nat)
    requires Ordered(a + [b, next] + c) && n > 0
    requires b.addr + b.pages == p && p + n == next.addr
    ensures var joined := Block(b.addr, b.pages + n + next.pages);
            Ordered(a + [joined] + c) && Extended(a + [b, next] + c, a + [joined] + c, p, n)
  {
    assert a + [b, next] + c == a + [b] + ([next] + c) && a + [b, next] + c == (a + [b]) + [next] + c;
    OthersApart(a, b, [next] + c);
    OthersApart(a + [b], next, c);
    forall q ensures Covers([b, next], q) <==> InRun(q, b.addr, b.pages) || InRun(q, next.addr, next.pages) {
      assert [b, next] == [b] + [next];
      CoversSplit([b], [next], q);
      CoversOne(b, q);
      CoversOne(next, q);
    }
    JoinBlocks(a, [b, next], c, Block(b.addr, b.pages + n + next.pages), p, n);
  }

  lemma MergeBefore(a: seq<Block>, b: Block, c: seq<Block>, p: int, n: nat)
    requires Ordered(a + [b] + c) && n > 0 && b.addr + b.pages == p
    requires c != [] ==> p + n < c[0].addr
    ensures var joined := Block(b.addr, b.pages + n);
            Ordered(a + [joined] + c) && Extended(a + [b] + c, a + [joined] + c, p, n)
  {
    OthersApart(a, b, c);
    forall q ensures Covers([b], q) <==> InRun(q, b.addr, b.pages) { CoversOne(b, q); }
    JoinBlocks(a, [b], c, Block(b.addr, b.pages + n), p, n);
  }

  lemma MergeAfter(a: seq<Block>, b: Block, c: seq<Block>, p: nat, n: nat)
    requires Ordered(a + [b] + c) && n > 0 && b.addr == p + n && End(a) < p
    ensures var joined := Block(p, n + b.pages);
            Ordered(a + [joined] + c) && Extended(a + [b] + c, a + [joined] + c, p, n)
  {
    OthersApart(a, b, c);
    forall q ensures Covers([b], q) <==> InRun(q, b.addr, b.pages) { CoversOne(b, q); }
    JoinBlocks(a, [b], c, Block(p, n + b.pages), p, n);
  }

  lemma InsertAlone(a: seq<Block>, c: seq<Block>, p: nat, n: nat)
    requires Ordered(a + c) && n > 0 && End(a) < p
    requires c != [] ==> p + n < c[0].addr
    ensures Ordered(a + [Block(p, n)] + c) && Extended(a + c, a + [Block(p, n)] + c, p, n)
  {
    SplitOrdered(a, c);
    JoinBlocks(a, [], c, Block(p, n), p, n);
    assert a + [] + c == a + c;
  }

  /** If every block before block i is too small, no fitting run starts before it. */
  lemma NotBefore(list: seq<Block>, i: nat, n: nat)
    requires Ordered(list) && i < |list| && n > 0
    requires forall k :: 0 <= k < i ==> list[k].pages < n
    ensures forall p :: RunFree(list, p, n) ==> list[i].addr <= p
  {
    forall p | RunFree(list, p, n) ensures list[i].addr <= p {
      var b := RunInBlock(list, p, n);
      var k :| 0 <= k < |list| && list[k] == b;
      assert list[i] in list;
    }
  }

  lemma NoRun(list: seq<Block>, n: nat)
    requires Ordered(list) && n > 0
    requires forall k :: 0 <= k < |list| ==> list[k].pages < n
    ensures forall p :: !RunFree(list, p, n)
  {
    forall p ensures !RunFree(list, p, n) {
      if RunFree(list, p, n) {
        var b := RunInBlock(list, p, n);
        assert false;
      }
    }
  }
}
