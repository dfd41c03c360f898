/** rtt/src/memheap.c: the circular chain of the blocks of a pool, and the circular list of the free ones. */
module MemheapChain {
  import opened Tiles
  import opened Rings
  import opened Sequences

  /** struct rt_memheap_item without the links of the free list. */
  datatype Item = Item(used: bool, next: nat, prev: nat)

  type Items = map<nat, Item>

  // ---- the chain of blocks

  ghost predicate Same(m: Items, t: Blocks, p: nat)
    requires p in t
  {
    p in m && m[p].used == t[p].used && m[p].next == t[p].next
  }

  /** The block after p, which may be the end of the pool, points back to it. */
  ghost predicate Back(m: Items, t: Blocks, p: nat)
    requires p in t
  {
    t[p].next in m && m[t[p].next].prev == p
  }

  /** The chain is the tiling, closed to a circle by the end of the pool. */
  ghost predicate Chain(m: Items, t: Blocks, end: nat) {
    && (forall p {:trigger Same(m, t, p)} :: p in t ==> Same(m, t, p))
    && (forall p {:trigger Back(m, t, p)} :: p in t ==> Back(m, t, p))
    && end in m && end !in t && m[end].used && m[end].next == 0
    && 0 in m && m[0].prev == end
  }

  /** One step along the chain. */
  lemma ChainStep(m: Items, t: Blocks, hdr: nat, end: nat, p: nat)
    requires Tiling(t, hdr, end) && Chain(m, t, end) && p in t
    ensures Same(m, t, p) && Back(m, t, p) && p + hdr <= t[p].next <= end && p < t[p].next
    ensures if t[p].next in t then Same(m, t, t[p].next) else t[p].next == end && m[end].used
  {
    assert Same(m, t, p) && Back(m, t, p) && Linked(t, end, p);
    if t[p].next in t { assert Same(m, t, t[p].next); }
  }

  /** One step back: the block before, or from the first block the end of the pool. */
  lemma ChainBack(m: Items, t: Blocks, hdr: nat, end: nat, p: nat)
    requires Tiling(t, hdr, end) && Chain(m, t, end) && p in t
    ensures p in m && m[p].prev in m && m[p].prev != p && end !in t
    ensures if p == 0 then m[p].prev == end && m[end].used
            else m[p].prev in t && t[m[p].prev].next == p && m[m[p].prev].used == t[m[p].prev].used
  {
    assert Same(m, t, p);
    if p != 0 {
      var r := Holder(t, hdr, end, p - 1, 0);
      assert Back(m, t, r) && Same(m, t, r);
    }
  }

  lemma MarkChain(m: Items, t: Blocks, end: nat, p: nat, used: bool)
    requires Chain(m, t, end) && p in t && p in m
    ensures Chain(m[p := m[p].(used := used)], Mark(t, p, used), end)
  {
    var g, u := m[p := m[p].(used := used)], Mark(t, p, used);
    forall q | q in u
      ensures Same(g, u, q) && Back(g, u, q)
    {
      assert Same(m, t, q) && Back(m, t, q);
    }
  }

  // ---- cutting a block

  /** The writes that cut the block at p at c, in their order. */
  function CutItems(m: Items, p: nat, c: nat, front: bool): Items
    requires p in m && m[p].next in m
  {
    var n := m[p].next;
    var m1 := m[c := Item(false, n, p)];
    var m2 := m1[n := m1[n].(prev := c)];
    m2[p := m2[p].(next := c, used := front)]
  }

  ghost predicate Cut(m: Items, g: Items, t: Blocks, u: Blocks, p: nat, c: nat, n: nat, front: bool) {
    && p in t && t[p].next == n && p < c < n && c !in t && p in m && n in m
    && (forall q :: q in u <==> q in t || q == c)
    && u[p] == Block(c, front) && u[c] == Block(n, false) && (forall q :: q in t && q != p ==> u[q] == t[q])
    && (forall q :: q in m ==> q in g) && c in g
    && g[c] == Item(false, n, p) && g[p] == m[p].(next := c, used := front) && g[n] == m[n].(prev := c)
    && (forall q :: q in m && q != p && q != c && q != n ==> g[q] == m[q])
  }

  lemma CutFacts(m: Items, t: Blocks, hdr: nat, end: nat, p: nat, c: nat, front: bool)
    requires Tiling(t, hdr, end) && Chain(m, t, end) && p in t && p + hdr <= c && c + hdr <= t[p].next
    ensures p in m && m[p].next == t[p].next && m[p].next in m
    ensures Cut(m, CutItems(m, p, c, front), t, Split(t, p, c, front, false), p, c, t[p].next, front)
  {
    hide Chain, Tiling;
    ChainStep(m, t, hdr, end, p);
    Between(t, hdr, end, p, c);
  }

  lemma Between(t: Blocks, hdr: nat, end: nat, p: nat, c: nat)
    requires Tiling(t, hdr, end) && p in t
    ensures hdr > 0 && (p < c < t[p].next ==> c !in t)
  {}

  lemma CutSame(m: Items, g: Items, t: Blocks, u: Blocks, p: nat, c: nat, n: nat, front: bool, q: nat)
    requires Cut(m, g, t, u, p, c, n, front) && q in u && (q in t ==> Same(m, t, q))
    ensures Same(g, u, q)
  {}

  lemma CutBack(m: Items, g: Items, t: Blocks, u: Blocks, hdr: nat, end: nat, p: nat, c: nat, n: nat, front: bool, q: nat)
    requires Cut(m, g, t, u, p, c, n, front) && q in u && Tiling(t, hdr, end) && end !in t
    requires q in t ==> Back(m, t, q)
    ensures Back(g, u, q)
  {
    if q in t && q != p {
      if t[q].next == n { OnePredecessor(t, hdr, end, p, q); }
      assert Linked(t, end, q);
      assert t[q].next != c by { Between(t, hdr, end, p, c); if t[q].next == end { assert t[p].next <= end; } }
    }
    hide Tiling;
  }

  lemma SplitChain(m: Items, t: Blocks, hdr: nat, end: nat, p: nat, c: nat, front: bool)
    requires Tiling(t, hdr, end) && Chain(m, t, end) && p in t && p + hdr <= c && c + hdr <= t[p].next
    ensures p in m && m[p].next == t[p].next && m[p].next in m
    ensures Chain(CutItems(m, p, c, front), Split(t, p, c, front, false), end)
  {
    CutFacts(m, t, hdr, end, p, c, front);
    var g, u, n := CutItems(m, p, c, front), Split(t, p, c, front, false), t[p].next;
    assert end in g && end !in u && g[end].used && g[end].next == 0 && 0 in g && g[0].prev == end by {
      ChainStep(m, t, hdr, end, p);
      hide CutItems, Split, Tiling;
    }
    hide CutItems, Split, Cut;
    forall q | q in u
      ensures Same(g, u, q) && Back(g, u, q)
    {
      assert q in t ==> Same(m, t, q) && Back(m, t, q);
      hide Same, Back, Chain, Tiling;
      CutSame(m, g, t, u, p, c, n, front, q);
      CutBack(m, g, t, u, hdr, end, p, c, n, front, q);
    }
  }

  // ---- joining two blocks

  /** The writes by which the block at p takes in the one after it. */
  function JoinedItems(m: Items, p: nat): Items
    requires p in m && m[p].next in m && m[m[p].next].next in m
  {
    var nn := m[m[p].next].next;
    var m1 := m[p := m[p].(next := nn)];
    m1[nn := m1[nn].(prev := p)]
  }

  ghost predicate Joining(m: Items, g: Items, t: Blocks, u: Blocks, p: nat, n: nat, nn: nat) {
    && p in t && t[p].next == n && n in t && t[n].next == nn && p < n < nn && p in m && nn in m
    && (forall q :: q in u <==> q in t && q != n)
    && u[p] == Block(nn, t[p].used) && (forall q :: q in u && q != p ==> u[q] == t[q])
    && (forall q :: q in m ==> q in g)
    && g[p] == m[p].(next := nn) && g[nn] == m[nn].(prev := p)
    && (forall q :: q in m && q != p && q != nn ==> g[q] == m[q])
  }

  lemma JoinFacts(m: Items, t: Blocks, hdr: nat, end: nat, p: nat)
    requires Tiling(t, hdr, end) && Chain(m, t, end) && p in t && t[p].next in t
    ensures p in m && m[p].next == t[p].next && m[p].next in m
    ensures m[t[p].next].next == t[t[p].next].next && t[t[p].next].next in m
    ensures var n := t[p].next; Joining(m, JoinedItems(m, p), t, Join(t, p), p, n, t[n].next)
  {
    hide Chain, Tiling;
    ChainStep(m, t, hdr, end, p);
    ChainStep(m, t, hdr, end, t[p].next);
  }

  lemma JoinedSame(m: Items, g: Items, t: Blocks, u: Blocks, p: nat, n: nat, nn: nat, q: nat)
    requires Joining(m, g, t, u, p, n, nn) && q in u && Same(m, t, q)
    ensures Same(g, u, q)
  {}

  lemma JoinedBack(m: Items, g: Items, t: Blocks, u: Blocks, hdr: nat, end: nat, p: nat, n: nat, nn: nat, q: nat)
    requires Joining(m, g, t, u, p, n, nn) && q in u && Tiling(t, hdr, end) && Back(m, t, q)
    ensures Back(g, u, q)
  {
    if q != p {
      if t[q].next == n { OnePredecessor(t, hdr, end, p, q); }
      if t[q].next == nn { OnePredecessor(t, hdr, end, n, q); }
      assert t[q].next == p ==> g[p].prev == m[p].prev;
    }
    hide Tiling;
  }

  lemma JoinChain(m: Items, t: Blocks, hdr: nat, end: nat, p: nat)
    requires Tiling(t, hdr, end) && Chain(m, t, end) && p in t && t[p].next in t
    ensures p in m && m[p].next == t[p].next && m[p].next in m
    ensures m[t[p].next].next == t[t[p].next].next && t[t[p].next].next in m
    ensures Chain(JoinedItems(m, p), Join(t, p), end)
  {
    JoinFacts(m, t, hdr, end, p);
    var g, u, n := JoinedItems(m, p), Join(t, p), t[p].next;
    assert end in g && end !in u && g[end].used && g[end].next == 0 && 0 in g && g[0].prev == end by {
      hide JoinedItems, Join;
    }
    assert forall q :: q in u ==> q in t by { hide JoinedItems, Join; }
    hide JoinedItems, Join, Joining;
    forall q | q in u
      ensures Same(g, u, q) && Back(g, u, q)
    {
      assert Same(m, t, q) && Back(m, t, q);
      hide Same, Back, Chain, Tiling;
      JoinedSame(m, g, t, u, p, n, t[n].next, q);
      JoinedBack(m, g, t, u, hdr, end, p, n, t[n].next, q);
    }
  }

  // ---- the list of free blocks

  /** The writes that put x at the front of the list with head h. */
  function PushLinks(l: Links, h: nat, x: nat): Links
    requires h in l && l[h].next in l
  {
    var f := l[h].next;
    var l1 := l[x := Link(f, h)];
    var l2 := l1[f := l1[f].(prev := x)];
    l2[h := l2[h].(next := x)]
  }

  lemma PushRing(l: Links, h: nat, s: seq<nat>, x: nat)
    requires Ring(l, h, s) && x !in s && x != h
    ensures h in l && l[h].next in l && (l[h].next == h || l[h].next in s)
    ensures Ring(PushLinks(l, h, x), h, [x] + s)
  {
    assert Joined(l, h, s, 0);
    var f := Node(h, s, 1);
    var k, m := l[x := Link(f, h)], PushLinks(l, h, x);
    assert Spliced(k, m, h, f, x);
    assert Ring(k, h, s) by { RingFrame(l, k, h, s); }
    assert s[..0] + [x] + s[0..] == [x] + s;
    hide Spliced, Ring, PushLinks;
    SpliceRing(k, m, h, s, 0, x);
  }

  /** The writes that take x out of its list. */
  function DropLinks(l: Links, x: nat): Links
    requires x in l && l[x].next in l && l[x].prev in l
  {
    var a, b := l[x].prev, l[x].next;
    var l1 := l[b := l[b].(prev := a)];
    l1[a := l1[a].(next := b)]
  }

  lemma DropRing(l: Links, h: nat, s: seq<nat>, x: nat)
    requires Ring(l, h, s) && x in s
    ensures x in l && l[x].next in l && l[x].prev in l
    ensures (l[x].next == h || l[x].next in s) && (l[x].prev == h || l[x].prev in s)
    ensures Ring(DropLinks(l, x), h, Without(s, x))
    ensures forall y :: y in Without(s, x) <==> y in s && y != x
  {
    WithoutMembers(s, x);
    var k := WithoutAt(s, x);
    assert Joined(l, h, s, k) && Joined(l, h, s, k + 1);
    var a, b := Node(h, s, k), Node(h, s, k + 2);
    NodeInjective(h, s, k + 1, k);
    NodeInjective(h, s, k + 1, k + 2);
    assert Unlinked(l, DropLinks(l, x), a, b, x);
    hide Unlinked, Ring, DropLinks;
    UnlinkRing(l, DropLinks(l, x), h, s, k);
  }

  /** The list holds the free blocks and no others. */
  ghost predicate Lists(fl: seq<nat>, t: Blocks) { forall x :: x in fl <==> x in t && !t[x].used }

  /** The list holds the free blocks, but the block at p only if it is not still to be inserted. */
  ghost predicate ListsBut(fl: seq<nat>, t: Blocks, p: nat, insert: bool) {
    forall x :: x in fl <==> x in t && !t[x].used && (insert ==> x != p)
  }

  lemma SplitLists(fl: seq<nat>, t: Blocks, hdr: nat, end: nat, p: nat, c: nat)
    requires Tiling(t, hdr, end) && Lists(fl, t) && p in t && p + hdr <= c && c + hdr <= t[p].next
    ensures c !in fl && c !in t
    ensures forall gl :: (forall x :: x in gl <==> x in fl && x != p) ==> Lists([c] + gl, Split(t, p, c, true, false))
  {
    Between(t, hdr, end, p, c);
    var u := Split(t, p, c, true, false);
    assert u[p].used && !u[c].used && (forall x :: x in u <==> x in t || x == c) && forall x :: x in t && x != p ==> u[x] == t[x];
    hide Split, Tiling;
    assert t[p].used ==> p !in fl;
  }

  lemma MarkLists(fl: seq<nat>, t: Blocks, p: nat)
    requires Lists(fl, t) && p in t
    ensures t[p].used ==> p !in fl && ListsBut(fl, Mark(t, p, false), p, true)
    ensures forall gl :: (forall x :: x in gl <==> x in fl && x != p) ==> Lists(gl, Mark(t, p, true))
  {}

  /** The block at p has become free, and is taken in by the free block before it. */
  lemma LeftLists(fl: seq<nat>, t: Blocks, hdr: nat, end: nat, p: nat, q: nat)
    requires Tiling(t, hdr, end) && ListsBut(fl, t, p, true) && p in t && q in t && t[q].next == p && !t[q].used
    ensures ListsBut(fl, Join(t, q), q, false)
  {
    JoinTiling(t, hdr, end, q);
    assert !Join(t, q)[q].used && q != p;
    hide Join, Tiling;
  }

  lemma RightLists(fl: seq<nat>, t: Blocks, hdr: nat, end: nat, p: nat, insert: bool)
    requires Tiling(t, hdr, end) && ListsBut(fl, t, p, insert) && p in t && t[p].next in t && !t[t[p].next].used && !t[p].used
    ensures t[p].next in fl
    ensures forall gl :: (forall x :: x in gl <==> x in fl && x != t[p].next) ==> ListsBut(gl, Join(t, p), p, insert)
  {
    JoinTiling(t, hdr, end, p);
    assert !Join(t, p)[p].used;
    NextApart(t, hdr, end, p);
    hide Join, Tiling;
  }

  lemma NextApart(t: Blocks, hdr: nat, end: nat, p: nat)
    requires Tiling(t, hdr, end) && p in t
    ensures p < t[p].next
  {}

  lemma InsertLists(fl: seq<nat>, t: Blocks, p: nat)
    requires ListsBut(fl, t, p, true) && p in t && !t[p].used
    ensures p !in fl && Lists([p] + fl, t)
  {}

  // ---- the search

  /** The first block of the list with room for size bytes. */
  ghost function FirstRoom(fl: seq<nat>, t: Blocks, hdr: nat, size: nat): nat
    requires forall x :: x in fl ==> x in t
    ensures var r := FirstRoom(fl, t, hdr, size); r <= |fl|
    ensures var r := FirstRoom(fl, t, hdr, size); r < |fl| ==> fl[r] + hdr + size <= t[fl[r]].next
    ensures var r := FirstRoom(fl, t, hdr, size); forall i :: 0 <= i < r ==> t[fl[i]].next < fl[i] + hdr + size
  {
    if fl == [] || fl[0] + hdr + size <= t[fl[0]].next then 0 else 1 + FirstRoom(fl[1..], t, hdr, size)
  }
}
