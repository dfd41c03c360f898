/** What a free-page list means: the set of pages it covers, and why a coalesced list is unique. */
module PageList {
  /** struct rt_page_head: a run of free pages, by page number. */
  datatype Block = Block(addr: nat, pages: nat)

  ghost predicate InRun(p: int, addr: int, n: int) {
    addr <= p < addr + n
  }

  ghost predicate Covers(list: seq<Block>, p: int) {
    exists b :: b in list && InRun(p, b.addr, b.pages)
  }

  /** Sorted by address, disjoint, and coalesced: a gap lies between any two blocks. */
  ghost predicate Ordered(list: seq<Block>) {
    && (forall b :: b in list ==> b.pages > 0)
    && (forall i, j :: 0 <= i < j < |list| ==> list[i].addr + list[i].pages < list[j].addr)
  }

  /** n contiguous free pages start at p. */
  ghost predicate RunFree(list: seq<Block>, p: int, n: nat) {
    forall q :: InRun(q, p, n) ==> Covers(list, q)
  }

  ghost predicate RunTaken(list: seq<Block>, p: int, n: nat) {
    forall q :: InRun(q, p, n) ==> !Covers(list, q)
  }

  /** list' is list without the pages of the run. */
  ghost predicate Carved(list: seq<Block>, list': seq<Block>, p: int, n: nat) {
    forall q :: Covers(list', q) <==> Covers(list, q) && !InRun(q, p, n)
  }

  /** list' is list together with the pages of the run. */
  ghost predicate Extended(list: seq<Block>, list': seq<Block>, p: int, n: nat) {
    forall q :: Covers(list', q) <==> Covers(list, q) || InRun(q, p, n)
  }

  lemma CoversSplit(a: seq<Block>, b: seq<Block>, p: int)
    ensures Covers(a + b, p) <==> Covers(a, p) || Covers(b, p)
  {
    if Covers(a, p) { var x :| x in a && InRun(p, x.addr, x.pages); assert x in a + b; }
    if Covers(b, p) { var x :| x in b && InRun(p, x.addr, x.pages); assert x in a + b; }
  }

  lemma CoversHead(list: seq<Block>, p: int)
    requires list != []
    ensures Covers(list, p) <==> InRun(p, list[0].addr, list[0].pages) || Covers(list[1..], p)
  {
    assert list == [list[0]] + list[1..];
    CoversSplit([list[0]], list[1..], p);
    assert Covers([list[0]], p) <==> InRun(p, list[0].addr, list[0].pages) by {
      assert list[0] in [list[0]];
    }
  }

  /** Nothing is covered from the end of the first block up to the start of the next. */
  lemma HeadRun(list: seq<Block>)
    requires Ordered(list) && list != []
    ensures Ordered(list[1..]) && list[0].pages > 0
    ensures Covers(list, list[0].addr) && !Covers(list, list[0].addr + list[0].pages)
    ensures forall p :: list[0].addr <= p < list[0].addr + list[0].pages ==> Covers(list, p)
    ensures forall p :: p < list[0].addr ==> !Covers(list, p)
    ensures forall p :: p <= list[0].addr + list[0].pages ==> !Covers(list[1..], p)
  {
    assert list[0] in list;
    forall b | b in list[1..] ensures b.addr > list[0].addr + list[0].pages {
      var i :| 0 < i < |list| && list[i] == b;
    }
    forall p ensures Covers(list, p) <==> InRun(p, list[0].addr, list[0].pages) || Covers(list[1..], p) {
      CoversHead(list, p);
    }
  }

  /** A coalesced list is determined by the pages it covers. */
  lemma {:induction false} Canonical(a: seq<Block>, b: seq<Block>)
    requires Ordered(a) && Ordered(b)
    requires forall p :: Covers(a, p) <==> Covers(b, p)
    ensures a == b
  {
    if a == [] || b == [] {
      if a != [] { HeadRun(a); }
      if b != [] { HeadRun(b); }
    } else {
      SameHead(a, b);
      SameTail(a, b);
      hide Covers;
      Canonical(a[1..], b[1..]);
      assert a == [a[0]] + a[1..] && b == [b[0]] + b[1..];
    }
  }

  lemma SameTail(a: seq<Block>, b: seq<Block>)
    requires Ordered(a) && Ordered(b) && a != [] && b != [] && a[0] == b[0]
    requires forall p :: Covers(a, p) <==> Covers(b, p)
    ensures Ordered(a[1..]) && Ordered(b[1..]) && forall p :: Covers(a[1..], p) <==> Covers(b[1..], p)
  {
    HeadRun(a);
    HeadRun(b);
    forall p ensures Covers(a[1..], p) <==> Covers(b[1..], p) {
      CoversHead(a, p);
      CoversHead(b, p);
      assert Covers(a, p) <==> Covers(b, p);
    }
  }

  lemma SameHead(a: seq<Block>, b: seq<Block>)
    requires Ordered(a) && Ordered(b) && a != [] && b != []
    requires forall p :: Covers(a, p) <==> Covers(b, p)
    ensures a[0] == b[0]
  {
    HeadRun(a);
    HeadRun(b);
    assert Covers(b, a[0].addr) && Covers(a, b[0].addr);
    assert a[0].addr == b[0].addr;
    assert !Covers(b, a[0].addr + a[0].pages) && !Covers(a, b[0].addr + b[0].pages);
  }

  /** A run of free pages lies inside one block. */
  lemma {:induction false} RunInBlock(list: seq<Block>, p: int, n: nat) returns (b: Block)
    requires Ordered(list) && RunFree(list, p, n) && n > 0
    ensures b in list && b.addr <= p && p + n <= b.addr + b.pages
  {
    assert InRun(p, p, n) && Covers(list, p);
    HeadRun(list);
    var e := list[0].addr + list[0].pages;
    if p < e {
      b := list[0];
      assert !Covers(list, e) && !InRun(e, p, n);
    } else {
      forall q | InRun(q, p, n) ensures Covers(list[1..], q) { CoversHead(list, q); }
      b := RunInBlock(list[1..], p, n);
    }
  }

  lemma BlockRun(list: seq<Block>, b: Block, n: nat)
    requires b in list && n <= b.pages
    ensures RunFree(list, b.addr, n)
  {
    forall q | InRun(q, b.addr, n) ensures Covers(list, q) { assert InRun(q, b.addr, b.pages); }
  }

  // ---- the three edits of the list

  /** The end of the last block, or a bound below every address. */
  function End(list: seq<Block>): int {
    if list == [] then -1 else list[|list| - 1].addr + list[|list| - 1].pages
  }

  lemma GlueOrdered(a: seq<Block>, c: seq<Block>)
    requires Ordered(a) && Ordered(c)
    requires c != [] ==> End(a) < c[0].addr
    ensures Ordered(a + c)
  {
    forall i, j | 0 <= i < |a| && 0 <= j < |c| ensures a[i].addr + a[i].pages < c[j].addr {
      assert a[|a| - 1] in a && c[0] in c;
      assert i == |a| - 1 || a[i].addr + a[i].pages < a[|a| - 1].addr;
      assert j == 0 || c[0].addr + c[0].pages < c[j].addr;
    }
  }

  lemma SplitOrdered(a: seq<Block>, c: seq<Block>)
    requires Ordered(a + c)
    ensures Ordered(a) && Ordered(c)
    ensures forall x, y :: x in a && y in c ==> x.addr + x.pages < y.addr
    ensures c != [] ==> End(a) < c[0].addr
  {
    var l := a + c;
    assert forall i :: 0 <= i < |a| ==> l[i] == a[i];
    assert forall i :: 0 <= i < |c| ==> l[|a| + i] == c[i];
    assert forall x :: x in a || x in c ==> x in l;
  }

  /** The pages of one block lie in no other block, and not next to one. */
  lemma OthersApart(a: seq<Block>, b: Block, c: seq<Block>)
    requires Ordered(a + [b] + c)
    ensures Ordered(a) && Ordered(c) && b.pages > 0 && End(a) < b.addr
    ensures c != [] ==> b.addr + b.pages < c[0].addr
    ensures forall q :: Covers(a, q) ==> q < b.addr - 1
    ensures forall q :: Covers(c, q) ==> q > b.addr + b.pages
  {
    assert a + [b] + c == a + ([b] + c);
    assert b in a + [b] + c && b in [b] + c && b in [b];
    SplitOrdered(a, [b] + c);
    SplitOrdered([b], c);
  }

  lemma CoversThree(a: seq<Block>, m: seq<Block>, c: seq<Block>, q: int)
    ensures Covers(a + m + c, q) <==> Covers(a, q) || Covers(m, q) || Covers(c, q)
  {
    CoversSplit(a + m, c, q);
    CoversSplit(a, m, q);
  }

  lemma CoversOne(b: Block, q: int)
    ensures Covers([b], q) <==> InRun(q, b.addr, b.pages)
  {
    assert b in [b];
  }

  /** Taking the first n pages of a block off the list. */
  lemma CarveBlock(a: seq<Block>, b: Block, c: seq<Block>, n: nat)
    requires Ordered(a + [b] + c) && 0 < n < b.pages
    ensures var rest := Block(b.addr + n, b.pages - n);
            Ordered(a + [rest] + c) && Carved(a + [b] + c, a + [rest] + c, b.addr, n)
  {
    var rest := Block(b.addr + n, b.pages - n);
    OthersApart(a, b, c);
    JoinOrder(a, c, rest);
    forall q ensures Covers(a + [rest] + c, q) <==> Covers(a + [b] + c, q) && !InRun(q, b.addr, n) {
      CoversThree(a, [rest], c, q);
      CoversThree(a, [b], c, q);
      CoversOne(b, q);
      CoversOne(rest, q);
    }
  }

  /** Taking a whole block off the list. */
  lemma DropBlock(a: seq<Block>, b: Block, c: seq<Block>)
    requires Ordered(a + [b] + c)
    ensures Ordered(a + c) && Carved(a + [b] + c, a + c, b.addr, b.pages)
  {
    OthersApart(a, b, c);
    GlueOrdered(a, c);
    forall q ensures Covers(a + c, q) <==> Covers(a + [b] + c, q) && !InRun(q, b.addr, b.pages) {
      CoversThree(a, [b], c, q);
      CoversSplit(a, c, q);
      CoversOne(b, q);
    }
  }

  /** Replacing the blocks m between a and c by one block that also covers the run. */
  lemma JoinBlocks(a: seq<Block>, m: seq<Block>, c: seq<Block>, joined: Block, p: int, n: nat)
    requires Ordered(a) && Ordered(c) && joined.pages > 0
    requires End(a) < joined.addr && (c != [] ==> joined.addr + joined.pages < c[0].addr)
    requires forall q :: InRun(q, joined.addr, joined.pages) <==> Covers(m, q) || InRun(q, p, n)
    ensures Ordered(a + [joined] + c) && Extended(a + m + c, a + [joined] + c, p, n)
  {
    JoinOrder(a, c, joined);
    forall q ensures Covers(a + [joined] + c, q) <==> Covers(a + m + c, q) || InRun(q, p, n) {
      CoversThree(a, m, c, q);
      CoversThree(a, [joined], c, q);
      CoversOne(joined, q);
    }
  }

  lemma JoinOrder(a: seq<Block>, c: seq<Block>, b: Block)
    requires Ordered(a) && Ordered(c) && b.pages > 0
    requires End(a) < b.addr && (c != [] ==> b.addr + b.pages < c[0].addr)
    ensures Ordered(a + [b] + c)
  {
    assert Ordered([b]);
    GlueOrdered(a, [b]);
    GlueOrdered(a + [b], c);
  }

  /** Allocating a run and freeing it again restores the list itself, not only its pages. */
  lemma AllocFreeRestores(list: seq<Block>, mid: seq<Block>, list': seq<Block>, p: int, n: nat)
    requires Ordered(list) && Ordered(mid) && Ordered(list')
    requires RunFree(list, p, n) && Carved(list, mid, p, n) && Extended(mid, list', p, n)
    ensures list' == list
  {
    forall q ensures Covers(list', q) <==> Covers(list, q) {
      assert Covers(mid, q) <==> Covers(list, q) && !InRun(q, p, n);
    }
    Canonical(list', list);
  }

  /** Two runs may be freed in either order. */
  lemma FreeOrderIrrelevant(
      list: seq<Block>, x: seq<Block>, xy: seq<Block>, y: seq<Block>, yx: seq<Block>, p: int, n: nat, q: int, m: nat)
    requires Ordered(list) && Ordered(x) && Ordered(y) && Ordered(xy) && Ordered(yx)
    requires Extended(list, x, p, n) && Extended(x, xy, q, m)
    requires Extended(list, y, q, m) && Extended(y, yx, p, n)
    ensures xy == yx
  {
    forall k ensures Covers(xy, k) <==> Covers(yx, k) {
      assert Covers(x, k) <==> Covers(list, k) || InRun(k, p, n);
    }
    Canonical(xy, yx);
  }
}
