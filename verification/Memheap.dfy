/** rtt/src/memheap.c: allocation, release and resizing in a pool. */
module Memheap {
  import opened Wrappers
  import opened Tiles
  import opened Payloads
  import opened Rings
  import opened MemheapChain
  import opened Sequences

  const MINIALLOC := 12

  class Pool {
    const align: nat
    const hdr: nat
    const poolSize: nat
    const data: array<byte>
    var item: Items
    var link: Links
    var available: int
    var maxUsed: int
    ghost var t: Blocks
    ghost var fl: seq<nat>

    /** The offset of the used block without payload. */
    function End(): nat
      requires hdr <= poolSize
    {
      poolSize - hdr
    }

    ghost predicate Ready() { align > 0 && 0 < hdr && 2 * hdr <= poolSize && data.Length == poolSize }

    /** Chain and free list, before the free list holds exactly the free blocks again; its head is free_header. */
    ghost predicate Linked()
      reads this
    {
      Ready() && Tiling(t, hdr, End()) && Chain(item, t, End()) && Ring(link, poolSize, fl)
    }

    ghost predicate Valid()
      reads this
    {
      && Linked() && Coalesced(t) && Lists(fl, t)
      && available == Sum(t, FreePayload(hdr), End(), 0) && poolSize - available <= maxUsed
    }

    /** rt_memheap_init: one free block, in the free list, and the end of the pool. */
    constructor (size: nat, align: nat, hdr: nat)
      requires align > 0 && hdr > 0 && 2 * hdr <= Down(size, align)
      ensures Valid() && poolSize == Down(size, align) && this.hdr == hdr && this.align == align && fresh(data)
      ensures t == map[0 := Block(poolSize - hdr, false)] && available == poolSize - 2 * hdr
      ensures maxUsed == 2 * hdr
    {
      this.align, this.hdr := align, hdr;
      var pool := Down(size, align);
      poolSize := pool;
      data := new byte[pool](_ => 0);
      available, maxUsed := pool - 2 * hdr, 2 * hdr;
      var end := pool - hdr;
      item := map[0 := Item(false, end, end), end := Item(true, 0, 0)];
      link := map[pool := Link(0, 0), 0 := Link(pool, pool)];
      t, fl := map[0 := Block(end, false)], [0];
      new;
      FreshPool(item, link, t, hdr, End(), poolSize);
    }

    /**
     * A write to the header at o. The payloads of the tiling u are still those of the bytes d, u having a block,
     * or the end, at o.
     */
    method Touch(o: nat, ghost d: seq<byte>, ghost u: Blocks)
      requires Ready() && Tiling(u, hdr, End()) && (o in u || o == End()) && Kept(d, data[..], u, hdr)
      modifies data
      ensures Kept(d, data[..], u, hdr)
    {
      ghost var e := data[..];
      InPool(u, hdr, End(), o);
      forall k | o <= k < o + hdr { data[k] := 0; }
      KeptHeader(e, data[..], u, hdr, End(), o);
      KeptTrans(d, e, data[..], u, hdr);
    }

    /** The block at x is put at the front of the free list. */
    method PushFree(x: nat, ghost d: seq<byte>, ghost u: Blocks)
      requires Linked() && x !in fl && x != poolSize && x in u && forall y :: y in fl ==> y in u
      requires Tiling(u, hdr, End()) && Kept(d, data[..], u, hdr)
      modifies this`link, this`fl, data
      ensures Linked() && fl == [x] + old(fl) && Kept(d, data[..], u, hdr)
    {
      hide Tiling, Kept, Chain, Ring;
      PushRing(link, poolSize, fl, x);
      var f := link[poolSize].next;
      link := link[x := Link(f, poolSize)];
      link := link[f := link[f].(prev := x)];
      link := link[poolSize := link[poolSize].(next := x)];
      Touch(x, d, u);
      if f != poolSize { Touch(f, d, u); }
      fl := [x] + fl;
    }

    /** The block at x is taken out of the free list; its own links are left or cleared. */
    method DropFree(x: nat, ghost d: seq<byte>, ghost u: Blocks)
      requires Linked() && x in fl && forall y :: y in fl && y != x ==> y in u
      requires Tiling(u, hdr, End()) && Kept(d, data[..], u, hdr)
      modifies this`link, this`fl, data
      ensures Linked() && fl == Without(old(fl), x) && (forall y :: y in fl <==> y in old(fl) && y != x)
      ensures Kept(d, data[..], u, hdr)
    {
      hide Tiling, Kept, Chain, Ring;
      DropRing(link, poolSize, fl, x);
      NotOwnNeighbour(link, poolSize, fl, x);
      var a, b := link[x].prev, link[x].next;
      link := link[b := link[b].(prev := a)];
      link := link[a := link[a].(next := b)];
      if b != poolSize { Touch(b, d, u); }
      if a != poolSize { Touch(a, d, u); }
      fl := Without(fl, x);
    }

    /** Setting or clearing the used bit of the magic. */
    method SetUsed(p: nat, used: bool, ghost d: seq<byte>, ghost u: Blocks)
      requires Linked() && p in t && p in u && Tiling(u, hdr, End()) && Kept(d, data[..], u, hdr)
      modifies this`item, this`t, data
      ensures Linked() && t == Mark(old(t), p, used) && Kept(d, data[..], u, hdr)
      ensures p in old(item) && item == old(item)[p := old(item)[p].(used := used)]
    {
      hide Tiling, Kept, Chain, Ring, Mark;
      MarkTiling(t, hdr, End(), p, used);
      ChainStep(item, t, hdr, End(), p);
      MarkChain(item, t, End(), p, used);
      item := item[p := item[p].(used := used)];
      Touch(p, d, u);
      t := Mark(t, p, used);
    }

    /** A new free block at c behind the block at p, which is used. */
    method CutBlock(p: nat, c: nat, ghost d: seq<byte>, ghost u: Blocks)
      requires Linked() && p in t && p + hdr <= c && c + hdr <= t[p].next
      requires p in u && c in u && (t[p].next in u || t[p].next == End())
      requires Tiling(u, hdr, End()) && Kept(d, data[..], u, hdr)
      modifies this`item, this`t, data
      ensures Linked() && t == Split(old(t), p, c, true, false) && Kept(d, data[..], u, hdr)
    {
      hide Tiling, Kept, Chain, Ring, Split;
      SplitTiling(t, hdr, End(), p, c, true, false);
      SplitChain(item, t, hdr, End(), p, c, true);
      var n := item[p].next;
      item := item[c := Item(false, n, p)];
      item := item[n := item[n].(prev := c)];
      item := item[p := item[p].(next := c, used := true)];
      Touch(c, d, u);
      Touch(n, d, u);
      Touch(p, d, u);
      t := Split(t, p, c, true, false);
    }

    /** The block at p takes in the one after it. */
    method JoinNext(p: nat, ghost d: seq<byte>, ghost u: Blocks)
      requires Linked() && p in t && t[p].next in t && p in u
      requires t[t[p].next].next in u || t[t[p].next].next == End()
      requires Tiling(u, hdr, End()) && Kept(d, data[..], u, hdr)
      modifies this`item, this`t, data
      ensures Linked() && t == Join(old(t), p) && Kept(d, data[..], u, hdr)
    {
      hide Tiling, Kept, Chain, Ring, Join;
      JoinTiling(t, hdr, End(), p);
      JoinChain(item, t, hdr, End(), p);
      var n := item[p].next;
      var nn := item[n].next;
      item := item[p := item[p].(next := nn)];
      item := item[nn := item[nn].(prev := p)];
      Touch(nn, d, u);
      Touch(p, d, u);
      t := Join(t, p);
    }

    // ---- rt_memheap_alloc

    /** The size a request is rounded up to. */
    function Rounded(size: nat): nat
      requires align > 0
    {
      var s := Align(size, align);
      if s < MINIALLOC then MINIALLOC else s
    }

    /** m is the least multiple of the alignment not below the size. */
    lemma RoundedExactly(size: nat, m: int)
      requires align > 0 && LeastMultiple(m, size, align)
      ensures Rounded(size) == Max(m, MINIALLOC) >= size
    {
      AlignExactly(size, align, m);
    }

    lemma AllRounded(size: nat)
      requires align > 0
      ensures Rounded(size) >= size
      ensures forall m :: LeastMultiple(m, size, align) ==> Rounded(size) == Max(m, MINIALLOC)
    {
      forall m | LeastMultiple(m, size, align) ensures Rounded(size) == Max(m, MINIALLOC) {
        RoundedExactly(size, m);
      }
    }

    method Take(n: int)
      modifies this`available, this`maxUsed
      ensures available == old(available) - n && maxUsed == Max(old(maxUsed), poolSize - available)
    {
      available := available - n;
      if poolSize - available > maxUsed { maxUsed := poolSize - available; }
    }

    /** The search of the free list, from its head on. */
    method Search(size: nat) returns (r: Option<nat>)
      requires Valid() && size > 0
      ensures AllBlocks(fl, t)
      ensures var k := FirstRoom(fl, t, hdr, size); r == if k < |fl| then Some(fl[k]) else None
    {
      hide Tiling, Sum, Coalesced, Align, Chain;
      ListRing(link, poolSize, fl, 0);
      var p, freeSize := link[poolSize].next, 0;
      ghost var i := 0;
      ghost var k := FirstRoom(fl, t, hdr, size);
      while p != poolSize && freeSize < size
        invariant i <= |fl| && p == Node(poolSize, fl, i + 1)
        invariant if freeSize < size then i <= k else i < |fl| && k == i
        decreases |fl| - i, if freeSize < size then 1 else 0
      {
        assert i < |fl| && p == fl[i] && p in fl;
        ChainStep(item, t, hdr, End(), p);
        freeSize := item[p].next - p - hdr;
        if freeSize < size {
          ListRing(link, poolSize, fl, i + 1);
          p := link[p].next;
          i := i + 1;
        }
      }
      r := if freeSize >= size then Some(p) else None;
    }

    /** The block at p is cut, and its front given out. */
    method AllocFront(p: nat, size: nat)
      requires Valid() && p in t && !t[p].used && p + hdr + size + hdr <= t[p].next
      modifies this, data
      ensures Valid() && t == Split(old(t), p, p + hdr + size, true, false) && Kept(old(data[..]), data[..], old(t), hdr)
      ensures maxUsed == Max(old(maxUsed), poolSize - available) && available == old(available) - size - hdr
    {
      hide Tiling, Kept, Chain, Ring, Split, Join, Mark, Sum, Coalesced, Lists, ListsBut, Align;
      var c, end := p + hdr + size, End();
      ghost var d, t0, u, fl0 := data[..], t, Split(t, p, c, true, false), fl;
      SplitTiling(t, hdr, end, p, c, true, false);
      SplitMembers(t, hdr, end, p, c);
      SplitApart(t, hdr, end, p, c);
      SplitLists(fl, t, hdr, end, p, c);
      SumSplit(t, FreePayload(hdr), hdr, end, p, c, true, false);
      ListIs(fl, t, p);
      KeptSelf(d, u, hdr);
      CutBlock(p, c, d, u);
      DropFree(p, d, u);
      PushFree(c, d, u);
      KeptSplitBack(d, data[..], t0, hdr, end, p, c);
      Take(size + hdr);
    }

    /** The block at p is given out as a whole. */
    method AllocWhole(p: nat)
      requires Valid() && p in t && !t[p].used
      modifies this, data
      ensures Valid() && t == Mark(old(t), p, true) && Kept(old(data[..]), data[..], old(t), hdr)
      ensures maxUsed == Max(old(maxUsed), poolSize - available)
      ensures available == old(available) - (old(t)[p].next - p - hdr)
    {
      hide Tiling, Kept, Chain, Ring, Split, Join, Mark, Sum, Coalesced, Lists, ListsBut, Align;
      ghost var d, t0, end := data[..], t, End();
      ChainStep(item, t, hdr, end, p);
      MarkApart(t, hdr, end, p);
      MarkLists(fl, t, p);
      SumMark(t, FreePayload(hdr), hdr, end, p, true);
      ListIs(fl, t, p);
      KeptSelf(d, t, hdr);
      Take(item[p].next - p - hdr);
      DropFree(p, d, t);
      SetUsed(p, true, d, t0);
    }

    /**
     * rt_memheap_alloc, by offset of the payload: the first block of the free list with room, and nothing exactly
     * when the size is not below the available size or no free block has room.
     */
    method Alloc(request: nat) returns (r: Option<nat>)
      requires Valid()
      modifies this, data
      ensures Valid() && AllBlocks(old(fl), old(t))
      ensures var k := FirstRoom(old(fl), old(t), hdr, Rounded(request));
              if Rounded(request) < old(available) && k < |old(fl)| then
                r == Some(old(fl)[k] + hdr) && t == Allocated(old(t), hdr, MINIALLOC, Rounded(request), old(fl)[k])
              else r == None && t == old(t) && fl == old(fl) && available == old(available)
      ensures forall m :: LeastMultiple(m, request, align) ==> Rounded(request) == Max(m, MINIALLOC)
      ensures r.Some? ==> RoomGiven(old(t), t, hdr, r.value - hdr, request, r.value + Rounded(request) + hdr + MINIALLOC)
      ensures r.Some? ==> Charged(old(t), t, hdr, r.value - hdr, old(available) - available)
      ensures maxUsed == Max(old(maxUsed), poolSize - available)
      ensures Kept(old(data[..]), data[..], old(t), hdr)
    {
      hide Tiling, Chain, Ring, Split, Mark, Sum, Coalesced, Align, Kept, Allocated, RoomGiven, LeastMultiple, Charged;
      KeptSelf(data[..], t, hdr);
      var size := Rounded(request);
      AllRounded(request);
      var p := Search(size);
      if size >= available || p.None? { return None; }
      ListIs(fl, t, p.value);
      AllocatedCases(t, hdr, MINIALLOC, size, p.value);
      AllocatedCharge(t, hdr, MINIALLOC, size, p.value);
      GivenRoom(t, hdr, End(), MINIALLOC, size, p.value, request);
      ChainStep(item, t, hdr, End(), p.value);
      var freeSize := item[p.value].next - p.value - hdr;
      if freeSize >= size + hdr + MINIALLOC {
        AllocFront(p.value, size);
      } else {
        AllocWhole(p.value);
      }
      r := Some(p.value + hdr);
    }

    // ---- rt_memheap_free

    /** The merge with the block before, from where the available bytes are counted on. */
    method MergeLeft(p: nat, ghost d: seq<byte>, ghost u: Blocks) returns (h: nat, insert: bool)
      requires Linked() && p in t && !t[p].used && ApartBut(t, p) && ListsBut(fl, t, p, true)
      requires available == Sum(t, FreePayload(hdr), End(), 0)
      requires u == t && Kept(d, data[..], u, hdr)
      modifies this`item, this`t, this`available, data
      ensures Linked() && h in t && !t[h].used && ApartFrom(t, h) && ListsBut(fl, t, h, insert)
      ensures available == Sum(t, FreePayload(hdr), End(), 0)
      ensures available == old(available) + if insert then 0 else hdr
      ensures Kept(d, data[..], u, hdr) && Kept(d, data[..], t, hdr) && Rest(old(t), t, p)
      ensures p in old(item) && old(item)[p].prev in old(item)
      ensures var q := old(item)[p].prev;
              if old(item)[q].used then t == old(t) && h == p && insert
              else q in old(t) && q != p && old(t)[q].next == p && !old(t)[q].used && t == Join(old(t), q) && h == q && !insert
    {
      hide Tiling, Kept, Chain, Ring, Split, Join, Mark, Sum, Coalesced, Lists, ListsBut, Align, Forward, ApartBut, ApartFrom;
      var end := End();
      ChainBack(item, t, hdr, end, p);
      ChainStep(item, t, hdr, end, p);
      var q := item[p].prev;
      h, insert := p, true;
      RestSelf(t, p);
      if !item[q].used {
        available := available + hdr;
        SumJoin(t, FreePayload(hdr), hdr, end, q);
        LeftJoin(t, hdr, end, p, q);
        LeftLists(fl, t, hdr, end, p, q);
        JoinRest(t, q, p);
        JoinNext(q, d, u);
        KeptJoin(d, data[..], u, hdr, end, q);
        h, insert := q, false;
      } else {
        LeftNone(t, hdr, end, p, q);
      }
    }

    /** The merge with the block after, and the insertion into the free list. */
    method MergeRight(h: nat, insert: bool, ghost d: seq<byte>)
      requires Linked() && h in t && !t[h].used && ApartFrom(t, h) && ListsBut(fl, t, h, insert)
      requires available == Sum(t, FreePayload(hdr), End(), 0) && poolSize - available <= maxUsed
      requires Kept(d, data[..], t, hdr)
      modifies this`item, this`link, this`t, this`fl, this`available, data
      ensures Valid() && t == Forward(old(t), h) && Kept(d, data[..], t, hdr) && Rest(old(t), t, h)
      ensures available == old(available) + if NextFree(old(t), h) then hdr else 0
    {
      hide Tiling, Kept, Chain, Ring, Split, Join, Mark, Sum, Coalesced, Lists, ListsBut, Align, Forward, ApartBut, ApartFrom;
      ghost var end, u := End(), t;
      ChainStep(item, t, hdr, end, h);
      RightApart(t, hdr, end, h);
      ForwardCases(t, h);
      RestSelf(t, h);
      var n := item[h].next;
      if !item[n].used {
        available := available + hdr;
        SumJoin(t, FreePayload(hdr), hdr, end, h);
        RightLists(fl, t, hdr, end, h, insert);
        JoinRest(t, h, h);
        JoinMembers(t, hdr, end, h);
        ChainStep(item, t, hdr, end, n);
        ListsButIs(fl, t, h, insert);
        JoinNext(h, d, u);
        DropFree(n, d, u);
        KeptJoin(d, data[..], u, hdr, end, h);
      }
      if insert {
        InsertLists(fl, t, h);
        ListsButIs(fl, t, h, insert);
        NotHead(t, hdr, end, h);
        PushFree(h, d, t);
      } else {
        AllLists(fl, t, h);
      }
    }

    /** rt_memheap_free: the block is joined with the free blocks on both sides. */
    method Free(p: nat)
      requires Valid() && p in t && t[p].used
      modifies this`item, this`link, this`t, this`fl, this`available, data
      ensures Valid()
      ensures available == old(available) + (old(t)[p].next - p - hdr) + (if NextFree(old(t), p) then hdr else 0)
                           + if PreviousFree(old(t), p) then hdr else 0
      ensures p in old(item) && old(item)[p].prev in old(item) && t == Released(old(t), p, old(item)[p].prev)
      ensures Rest(old(t), t, p) && NoneElse(old(t), t, p) && Kept(old(data[..]), data[..], t, hdr)
    {
      hide Tiling, Kept, Chain, Ring, Split, Join, Mark, Sum, Coalesced, Lists, ListsBut, Align, Forward, ApartBut, ApartFrom, Rest, NoneElse;
      hide NextFree, PreviousFree;
      ghost var end, d, u, t0 := End(), data[..], Mark(t, p, false), t;
      ChainStep(item, t, hdr, end, p);
      ChainBack(item, t, hdr, end, p);
      MarkTiling(t, hdr, end, p, false);
      MarkApart(t, hdr, end, p);
      MarkLists(fl, t, p);
      MarkShape(t, hdr, end, p);
      SumMark(t, FreePayload(hdr), hdr, end, p, false);
      KeptSelf(d, u, hdr);
      ghost var q := item[p].prev;
      SetUsed(p, false, d, u);
      available := available + (item[p].next - p - hdr);
      PreviousIs(t0, hdr, end, p, q);
      var h, insert := MergeLeft(p, d, u);
      NextFreeSame(t0, hdr, end, p, u, t, h);
      ghost var v := t;
      MergeRight(h, insert, d);
      ReleasedRest(t0, hdr, end, p, q, u, v, t, h);
      ReleasedOnly(t0, p, q);
    }

    // ---- rt_memheap_realloc

    /** The next block is free and large enough: the used block grows into it. */
    method Grow(p: nat, newsize: nat)
      requires Valid() && p in t && t[p].used && t[p].next in t && !t[t[p].next].used
      requires t[p].next < p + hdr + newsize && p + hdr + newsize + hdr <= t[t[p].next].next
      modifies this, data
      ensures Valid() && p in Join(old(t), p) && t == Split(Join(old(t), p), p, p + hdr + newsize, true, false)
      ensures Resized(old(data[..]), old(t), data[..], t, hdr, p, p, newsize)
    {
      hide Tiling, Kept, Chain, Ring, Split, Join, Mark, Sum, Coalesced, Lists, ListsBut, Align, Forward, ApartBut, ApartFrom, Rest;
      hide Resized;
      ghost var end, d, t0 := End(), data[..], t;
      var c := p + hdr + newsize;
      GrownApart(t, hdr, end, p, c);
      GrownShape(t, hdr, end, p, c);
      ghost var u := Split(Join(t, p), p, c, true, false);
      GrownSum(t, hdr, end, p, c);
      GrownLists(fl, t, hdr, end, p, c);
      ChainStep(item, t, hdr, end, p);
      ChainStep(item, t, hdr, end, t[p].next);
      ListIs(fl, t, t[p].next);
      KeptSelf(d, u, hdr);
      var oldsize, n := item[p].next - p - hdr, item[p].next;
      Take(newsize - oldsize);
      DropFree(n, d, u);
      JoinNext(p, d, u);
      CutBlock(p, c, d, u);
      PushFree(c, d, u);
      ResizedGrown(d, t0, data[..], u, hdr, end, p, newsize);
    }

    /** What was cut off at c joins a free block after it, which leaves the free list. */
    method JoinAfter(c: nat, ghost d: seq<byte>)
      requires Linked() && c in t && !t[c].used && ListsBut(fl, t, c, true) && Tiling(Forward(t, c), hdr, End())
      requires Kept(d, data[..], t, hdr)
      requires available == Sum(t, FreePayload(hdr), End(), 0) - (t[c].next - c - hdr)
      modifies this`item, this`link, this`t, this`fl, this`available, data
      ensures Linked() && t == Forward(old(t), c) && c in t && ListsBut(fl, t, c, true) && Kept(d, data[..], t, hdr)
      ensures available == Sum(t, FreePayload(hdr), End(), 0) - (t[c].next - c - hdr)
      ensures Sum(t, FreePayload(hdr), End(), 0) >= Sum(old(t), FreePayload(hdr), End(), 0)
    {
      hide Tiling, Kept, Chain, Ring, Split, Join, Mark, Sum, Coalesced, Lists, ListsBut, Align, Forward, ApartBut, ApartFrom, Rest, Resized;
      ghost var end, u := End(), t;
      ForwardCases(t, c);
      ChainStep(item, t, hdr, end, c);
      var n := item[c].next;
      if !item[n].used {
        ChainStep(item, t, hdr, end, n);
        available := available - (item[n].next - n - hdr);
        SumJoin(t, FreePayload(hdr), hdr, end, c);
        RightLists(fl, t, hdr, end, c, true);
        JoinMembers(t, hdr, end, c);
        ListsButIs(fl, t, c, true);
        JoinNext(c, d, u);
        DropFree(n, d, u);
        KeptJoin(d, data[..], u, hdr, end, c);
      }
    }

    /** The used block is cut; what is left over joins a free block after it. */
    method Shrink(p: nat, newsize: nat)
      requires Valid() && p in t && t[p].used && p + hdr + newsize + hdr <= t[p].next
      modifies this, data
      ensures Valid() && available >= old(available) && p + hdr + newsize in Split(old(t), p, p + hdr + newsize, true, false)
      ensures t == Forward(Split(old(t), p, p + hdr + newsize, true, false), p + hdr + newsize)
      ensures Resized(old(data[..]), old(t), data[..], t, hdr, p, p, newsize)
    {
      hide Tiling, Kept, Chain, Ring, Split, Join, Mark, Sum, Coalesced, Lists, ListsBut, Align, Forward, ApartBut, ApartFrom, Rest, Resized;
      ghost var end, d, t0 := End(), data[..], t;
      var c := p + hdr + newsize;
      ghost var u := Split(t, p, c, true, false);
      SplitTiling(t, hdr, end, p, c, true, false);
      SplitMembers(t, hdr, end, p, c);
      ShortApart(t, hdr, end, p, c);
      ShortSum(t, hdr, end, p, c);
      SplitLists(fl, t, hdr, end, p, c);
      CutLists(fl, t, hdr, end, p, c);
      ShortOthers(t0, hdr, end, p, c);
      KeptSelf(d, u, hdr);
      CutBlock(p, c, d, u);
      JoinAfter(c, d);
      ForwardFree(u, c);
      InsertLists(fl, t, c);
      ListsButIs(fl, t, c, true);
      PushFree(c, d, t);
      ChainStep(item, t, hdr, end, c);
      available := available + (item[c].next - c - hdr);
      ResizedShrunk(d, t0, data[..], t, hdr, end, p, newsize);
    }

    /** Moving a used block: a new one is allocated, the payload copied, the old one released. */
    method Move(p: nat, newsize: nat) returns (r: Option<nat>)
      requires Valid() && p in t && t[p].used
      modifies this, data
      ensures Valid()
      ensures r.None? ==> t == old(t) && fl == old(fl) && available == old(available) && Kept(old(data[..]), data[..], t, hdr)
      ensures r.None? <==> Rounded(newsize) >= old(available) || NoRoom(old(t), hdr, Rounded(newsize))
      ensures r.Some? ==> r.value >= hdr && Resized(old(data[..]), old(t), data[..], t, hdr, p, r.value - hdr, newsize)
      ensures AllBlocks(old(fl), old(t))
      ensures r.Some? ==> FirstIs(old(fl), old(t), hdr, Rounded(newsize), r.value - hdr) && Only(old(t), t, p, r.value - hdr)
    {
      hide Tiling, Kept, Chain, Ring, Split, Join, Mark, Sum, Coalesced, Lists, ListsBut, Align, Forward, ApartBut, ApartFrom, Rest, Resized;
      hide Copied, Beside, Allocated, NoRoom, Only, NoneElse, RoomGiven, LeastMultiple, Charged, NextFree, PreviousFree;
      ghost var end, d, t0 := End(), data[..], t;
      ChainStep(item, t, hdr, end, p);
      RoomExists(fl, t, hdr, Rounded(newsize));
      var oldsize := item[p].next - p - hdr;
      r := Alloc(newsize);
      if r.None? { return; }
      ghost var q, u, e := r.value - hdr, t, data[..];
      ListIsAt(old(fl), t0, q);
      AllocatedBeside(t0, hdr, end, Rounded(newsize), newsize, q, p);
      BesideKeeps(t0, u, hdr, end, p, q, newsize);
      var n := Min(oldsize, newsize);
      Copy(data, r.value, p + hdr, n);
      ghost var f := data[..];
      Free(p);
      RelocatedResized(d, t0, e, u, f, data[..], t, hdr, end, p, q, newsize, n);
      MoveOnly(t0, u, t, hdr, MINIALLOC, Rounded(newsize), p, q);
    }

    /**
     * rt_memheap_realloc: size 0 releases, a larger size grows into the next block or moves, a much smaller one
     * cuts. The block begins with what it held; a refused request leaves the pool as it was.
     */
    method Realloc(ptr: Option<nat>, request: nat) returns (r: Option<nat>)
      requires Valid() && (ptr.Some? ==> ptr.value >= hdr && ptr.value - hdr in t && t[ptr.value - hdr].used)
      modifies this, data
      ensures Valid()
      ensures AllBlocks(old(fl), old(t))
      ensures request == 0 ==> r.None? && Kept(old(data[..]), data[..], t, hdr)
      ensures request == 0 && ptr.None? ==> t == old(t)
      ensures request == 0 && ptr.Some? ==> Rest(old(t), t, ptr.value - hdr) && NoneElse(old(t), t, ptr.value - hdr)
      ensures request > 0 && ptr.Some? ==>
                Resettled(old(t), old(fl), old(available), t, hdr, ptr.value - hdr, Rounded(request), Rounded(Rounded(request)), r)
      ensures request > 0 && r.None? ==> t == old(t) && available == old(available) && Kept(old(data[..]), data[..], t, hdr)
      ensures request > 0 && ptr.None? ==>
                (r.None? <==> Rounded(Rounded(request)) >= old(available) || NoRoom(old(t), hdr, Rounded(Rounded(request))))
      ensures request > 0 && ptr.None? && r.Some? ==>
                GivenOut(old(t), old(fl), t, hdr, Rounded(Rounded(request)), r.value - hdr) && Kept(old(data[..]), data[..], old(t), hdr)
      ensures request > 0 && ptr.Some? && r.Some? ==> r.value >= hdr
      ensures request > 0 && ptr.Some? && r.Some? ==>
                Resized(old(data[..]), old(t), data[..], t, hdr, ptr.value - hdr, r.value - hdr, Rounded(request))
    {
      hide Tiling, Kept, Chain, Ring, Split, Join, Mark, Sum, Coalesced, Lists, ListsBut, Align, Forward, Rest, Resized, Released, NoRoom, Allocated;
      hide Only, NoneElse, RoomGiven, LeastMultiple, Charged, NextFree, PreviousFree;
      KeptSelf(data[..], t, hdr);
      RoomExists(fl, t, hdr, Rounded(Rounded(request)));
      if request == 0 {
        if ptr.Some? { Free(ptr.value - hdr); }
        return None;
      }
      var newsize := Rounded(request);
      if ptr.None? {
        r := Alloc(newsize);
        return;
      }
      var p := ptr.value - hdr;
      ChainStep(item, t, hdr, End(), p);
      var n, oldsize := item[p].next, item[p].next - p - hdr;
      if newsize > oldsize {
        if !item[n].used {
          ChainStep(item, t, hdr, End(), n);
          var nextsize := item[n].next - n - hdr;
          if nextsize + oldsize > newsize + MINIALLOC {
            Grow(p, newsize);
            return ptr;
          }
        }
        r := Move(p, newsize);
      } else if newsize + hdr + MINIALLOC >= oldsize {
        ResizedLess(data[..], t, hdr, End(), p, newsize);
        r := ptr;
      } else {
        Shrink(p, newsize);
        r := ptr;
      }
    }
  }

  lemma ResizedLess(d: seq<byte>, t: Blocks, hdr: nat, end: nat, p: nat, n: nat)
    requires Tiling(t, hdr, end) && p in t && t[p].used && end <= |d| && p + hdr + n <= t[p].next
    ensures Resized(d, t, d, t, hdr, p, p, n)
  {}

  /** No free block has room for size bytes. */
  ghost predicate NoRoom(t: Blocks, hdr: nat, size: nat) {
    forall p :: p in t && !t[p].used ==> t[p].next < p + hdr + size
  }

  lemma RoomExists(fl: seq<nat>, t: Blocks, hdr: nat, size: nat)
    requires Lists(fl, t)
    ensures AllBlocks(fl, t)
    ensures FirstRoom(fl, t, hdr, size) == |fl| <==> NoRoom(t, hdr, size)
  {
    assert AllBlocks(fl, t);
    var k := FirstRoom(fl, t, hdr, size);
    if k < |fl| {
      assert fl[k] in fl;
    } else {
      forall p | p in t && !t[p].used
        ensures t[p].next < p + hdr + size
      {
        assert p in fl;
        var i :| 0 <= i < |fl| && fl[i] == p;
      }
    }
  }

  lemma ListIsAt(fl: seq<nat>, t: Blocks, q: nat)
    requires Lists(fl, t) && q in fl
    ensures q in t && !t[q].used
  {}

  lemma CutLists(fl: seq<nat>, t: Blocks, hdr: nat, end: nat, p: nat, c: nat)
    requires Tiling(t, hdr, end) && Lists(fl, t) && p in t && t[p].used && p + hdr <= c && c + hdr <= t[p].next
    ensures ListsBut(fl, Split(t, p, c, true, false), c, true)
  {
    hide Tiling, Split;
    SplitMembers(t, hdr, end, p, c);
    SplitShape(t, hdr, end, p, c);
  }

  lemma ShortSum(t: Blocks, hdr: nat, end: nat, p: nat, c: nat)
    requires Tiling(t, hdr, end) && p in t && t[p].used && p + hdr <= c && c + hdr <= t[p].next
    ensures Sum(Split(t, p, c, true, false), FreePayload(hdr), end, 0) == Sum(t, FreePayload(hdr), end, 0) + (t[p].next - c - hdr)
    ensures c in Split(t, p, c, true, false) && Split(t, p, c, true, false)[c] == Block(t[p].next, false)
  {
    hide Tiling, Sum;
    SumSplit(t, FreePayload(hdr), hdr, end, p, c, true, false);
    SplitMembers(t, hdr, end, p, c);
  }

  lemma ForwardFree(t: Blocks, p: nat)
    requires p in t && !t[p].used
    ensures p in Forward(t, p) && !Forward(t, p)[p].used
  {}

  lemma ShortOthers(t: Blocks, hdr: nat, end: nat, p: nat, m: nat)
    requires Tiling(t, hdr, end) && p in t && t[p].used && p + hdr <= m && m + hdr <= t[p].next
    ensures m in Split(t, p, m, true, false)
    ensures var u := Forward(Split(t, p, m, true, false), m);
            p in u && u[p] == Block(m, true) && forall x :: x in t && t[x].used && x != p ==> x in u && u[x] == t[x]
  {
    hide Tiling, Split;
    SplitShape(t, hdr, end, p, m);
    SplitTiling(t, hdr, end, p, m, true, false);
    var s := Split(t, p, m, true, false);
    if s[m].next in s && !s[s[m].next].used { JoinTiling(s, hdr, end, m); }
  }

  lemma AllocatedBeside(t: Blocks, hdr: nat, end: nat, size: nat, n: nat, q: nat, p: nat)
    requires Tiling(t, hdr, end) && q in t && !t[q].used && q + hdr + size <= t[q].next && p in t && t[p].used && n <= size
    ensures Beside(t, Allocated(t, hdr, MINIALLOC, size, q), hdr, end, p, q, n)
  {
    hide Tiling;
    PairApart(t, hdr, end, p, q);
    ChainBounds(t, hdr, end, q);
    Between(t, hdr, end, q, q + hdr + size);
  }

  lemma ChainBounds(t: Blocks, hdr: nat, end: nat, p: nat)
    requires Tiling(t, hdr, end) && p in t
    ensures hdr > 0 && p + hdr <= t[p].next <= end
  {}

  function Released(t: Blocks, p: nat, q: nat): Blocks
    requires p in t
  {
    var m := Mark(t, p, false);
    if q in m && !m[q].used && m[q].next == p && p != q && m[q].next in m then
      var j := Join(m, q);
      if q in j then Forward(j, q) else j
    else Forward(m, p)
  }

  /** Releasing a block makes no block used. */
  lemma ReleasedOnly(t: Blocks, p: nat, q: nat)
    requires p in t
    ensures NoneElse(t, Released(t, p, q), p)
  {
    var m := Mark(t, p, false);
    MarkOnly(t, p);
    hide Mark, Join;
    if q in m && !m[q].used && m[q].next == p && p != q && m[q].next in m {
      JoinOnly(m, q);
      var j := Join(m, q);
      if j[q].next in j { JoinOnly(j, q); }
    } else if m[p].next in m {
      JoinOnly(m, p);
    }
  }

  /** p is the first block of the list with room for size bytes. */
  ghost predicate FirstIs(fl: seq<nat>, t: Blocks, hdr: nat, size: nat, p: nat)
    requires AllBlocks(fl, t)
  {
    var k := FirstRoom(fl, t, hdr, size); k < |fl| && fl[k] == p
  }

  /** The first block with room has been given out, whole or in part. */
  ghost predicate GivenOut(t: Blocks, fl: seq<nat>, u: Blocks, hdr: nat, size: nat, p: int)
    requires AllBlocks(fl, t)
  {
    p >= 0 && FirstIs(fl, t, hdr, size, p) && p in t && u == Allocated(t, hdr, MINIALLOC, size, p)
  }

  /**
   * What rt_memheap_realloc decides for the used block at p: it grows into the free block after it, moves to the
   * first free block with room for moved bytes, stays, or is cut.
   */
  ghost predicate Resettled(t: Blocks, fl: seq<nat>, available: int, u: Blocks, hdr: nat, p: nat, newsize: nat, moved: nat, r: Option<nat>)
    requires p in t && AllBlocks(fl, t)
  {
    var n := t[p].next;
    var oldsize := n - p - hdr;
    if newsize > oldsize && n in t && !t[n].used && t[n].next - n - hdr + oldsize > newsize + MINIALLOC then
      r == Some(p + hdr) && p in Join(t, p) && u == Split(Join(t, p), p, p + hdr + newsize, true, false)
    else if newsize > oldsize then
      && (r.None? <==> moved >= available || NoRoom(t, hdr, moved))
      && (r.Some? ==> r.value >= hdr && FirstIs(fl, t, hdr, moved, r.value - hdr) && Only(t, u, p, r.value - hdr))
    else if newsize + hdr + MINIALLOC >= oldsize then
      r == Some(p + hdr) && u == t
    else
      var s := Split(t, p, p + hdr + newsize, true, false);
      r == Some(p + hdr) && p + hdr + newsize in s && u == Forward(s, p + hdr + newsize)
  }

  lemma MarkShape(t: Blocks, hdr: nat, end: nat, p: nat)
    requires Tiling(t, hdr, end) && p in t && t[p].used
    ensures var u := Mark(t, p, false);
            p in u && u[p] == Block(t[p].next, false) && (forall x :: x in u <==> x in t)
            && (forall x :: x in t && x != p ==> u[x] == t[x]) && Rest(t, u, p) && p < t[p].next
  {}

  /** From t to u the block at p was given out for n available bytes: its payload, and its header if it was cut. */
  ghost predicate Charged(t: Blocks, u: Blocks, hdr: nat, p: nat, n: int) {
    p in t && p in u && n == u[p].next - p - if u[p].next < t[p].next then 0 else hdr
  }

  lemma AllocatedCharge(t: Blocks, hdr: nat, min: nat, size: nat, p: nat)
    requires p in t && p < t[p].next && hdr > 0
    ensures Charged(t, Allocated(t, hdr, min, size, p), hdr, p,
                    if t[p].next - (p + hdr) >= size + hdr + min then size + hdr else t[p].next - p - hdr)
  {
    AllocatedNext(t, hdr, min, size, p);
    hide Allocated;
  }

  /** The blocks beside p that are free. */
  predicate NextFree(t: Blocks, p: nat)
    requires p in t
  {
    t[p].next in t && !t[t[p].next].used
  }

  ghost predicate PreviousFree(t: Blocks, p: nat) { exists q :: Precedes(t, q, p) && !t[q].used }

  ghost predicate Precedes(t: Blocks, q: nat, p: nat) { q in t && t[q].next == p }

  lemma PreviousIs(t: Blocks, hdr: nat, end: nat, p: nat, q: nat)
    requires Tiling(t, hdr, end) && p in t
    ensures p == 0 ==> !PreviousFree(t, p)
    ensures Precedes(t, q, p) ==> (PreviousFree(t, p) <==> !t[q].used)
  {
    forall x | Precedes(t, x, p)
      ensures p != 0 && (Precedes(t, q, p) ==> x == q)
    {
      assert Linked(t, end, x);
    }
  }

  /** Whether the next block is free is the same after the merge with the block before. */
  lemma NextFreeSame(t: Blocks, hdr: nat, end: nat, p: nat, u: Blocks, v: Blocks, h: nat)
    requires Tiling(t, hdr, end) && p in t && t[p].used && p in u && u == Mark(t, p, false) && h in v
    requires (v == u && h == p) || (h in u && h != p && u[h].next == p && v == Join(u, h))
    ensures NextFree(v, h) <==> NextFree(t, p)
  {
    assert Linked(t, end, p);
  }

  /** u is t with p marked free, v after the left merge, w after the right one. */
  lemma ReleasedRest(t: Blocks, hdr: nat, end: nat, p: nat, q: nat, u: Blocks, v: Blocks, w: Blocks, h: nat)
    requires p in t && p in u && u == Mark(t, p, false) && h in v && w == Forward(v, h) && Rest(t, u, p) && Rest(u, v, p)
    requires Rest(v, w, h) && !v[h].used
    requires if q in u && !u[q].used && u[q].next == p && p != q then v == Join(u, q) && h == q else v == u && h == p
    ensures w == Released(t, p, q) && Rest(t, w, p)
  {
    hide Mark, Join, Forward;
  }

  lemma GrownShape(t: Blocks, hdr: nat, end: nat, p: nat, c: nat)
    requires Tiling(t, hdr, end) && p in t && t[p].used && t[p].next in t
    requires t[p].next < c && c + hdr <= t[t[p].next].next
    ensures var n, j, u := t[p].next, Join(t, p), Split(Join(t, p), p, c, true, false);
            && p in j && j[p] == Block(t[n].next, true) && n !in j && c !in j && c !in t
            && (forall x :: x in j <==> x in t && x != n) && (forall x :: x in u <==> x in j || x == c)
            && u[p] == Block(c, true) && u[c] == Block(t[n].next, false) && c < end && p < n && p + hdr <= n
            && (forall x :: x in t && x != p && x != n ==> x in u && u[x] == t[x])
            && (t[n].next in u || t[n].next == end)
  {
    var n := t[p].next;
    NotInside(t, n, c);
    assert Linked(t, end, n);
    JoinMembers(t, hdr, end, p);
  }

  lemma GrownSum(t: Blocks, hdr: nat, end: nat, p: nat, c: nat)
    requires Tiling(t, hdr, end) && p in t && t[p].used && t[p].next in t && !t[t[p].next].used
    requires t[p].next < c && c + hdr <= t[t[p].next].next
    ensures p in Join(t, p)
    ensures Sum(Split(Join(t, p), p, c, true, false), FreePayload(hdr), end, 0)
            == Sum(t, FreePayload(hdr), end, 0) - (c - t[p].next)
  {
    hide Tiling, Join, Split, Sum;
    JoinTiling(t, hdr, end, p);
    GrownShape(t, hdr, end, p, c);
    SumJoin(t, FreePayload(hdr), hdr, end, p);
    SumSplit(Join(t, p), FreePayload(hdr), hdr, end, p, c, true, false);
  }

  lemma GrownLists(fl: seq<nat>, t: Blocks, hdr: nat, end: nat, p: nat, c: nat)
    requires Tiling(t, hdr, end) && Lists(fl, t) && p in t && t[p].used && t[p].next in t
    requires t[p].next < c && c + hdr <= t[t[p].next].next
    ensures p in Join(t, p) && c !in fl
    ensures forall gl :: (forall x :: x in gl <==> x in fl && x != t[p].next) ==>
              Lists([c] + gl, Split(Join(t, p), p, c, true, false))
  {
    hide Tiling, Join, Split;
    GrownShape(t, hdr, end, p, c);
  }

  lemma ResizedGrown(d: seq<byte>, t: Blocks, e: seq<byte>, u: Blocks, hdr: nat, end: nat, p: nat, n: nat)
    requires Tiling(t, hdr, end) && Tiling(u, hdr, end) && end <= |d| && p in t && t[p].used && p + hdr <= t[p].next
    requires t[p].next < p + hdr + n && p in u && u[p] == Block(p + hdr + n, true) && Kept(d, e, u, hdr)
    requires forall x :: x in t && x != p && t[x].used ==> x in u && u[x] == t[x]
    ensures Resized(d, t, e, u, hdr, p, p, n)
  {
    assert u[p].next <= end;
    hide Tiling;
    Begin(d, e, u, hdr, p, t[p].next - p - hdr);
    forall x | x in t && t[x].used && x != p && x + hdr <= t[x].next <= |d|
      ensures Payload(d, t, hdr, x) == Payload(e, u, hdr, x)
    {
      assert Payload(d, u, hdr, x) == Payload(e, u, hdr, x);
    }
  }

  lemma RestSelf(t: Blocks, p: nat)
    ensures Rest(t, t, p)
  {}

  lemma ForwardCases(t: Blocks, p: nat)
    requires p in t
    ensures Forward(t, p) == if t[p].next in t && !t[t[p].next].used then Join(t, p) else t
  {
    hide Join;
  }

  lemma JoinMembers(t: Blocks, hdr: nat, end: nat, p: nat)
    requires Tiling(t, hdr, end) && p in t && t[p].next in t
    ensures p in Join(t, p) && Join(t, p)[p] == Block(t[t[p].next].next, t[p].used) && p < t[p].next
    ensures forall q :: q in Join(t, p) <==> q in t && q != t[p].next
  {}

  lemma ListsButIs(fl: seq<nat>, t: Blocks, p: nat, insert: bool)
    requires ListsBut(fl, t, p, insert)
    ensures forall x :: x in fl ==> x in t && !t[x].used
  {}

  lemma AllLists(fl: seq<nat>, t: Blocks, p: nat)
    requires ListsBut(fl, t, p, false)
    ensures Lists(fl, t)
  {}

  lemma NotHead(t: Blocks, hdr: nat, end: nat, p: nat)
    requires Tiling(t, hdr, end) && p in t
    ensures p < end
  {}

  lemma FreshPool(m: Items, l: Links, t: Blocks, hdr: nat, end: nat, list: nat)
    requires 0 < hdr <= end < list && t == map[0 := Block(end, false)]
    requires m == map[0 := Item(false, end, end), end := Item(true, 0, 0)]
    requires l == map[list := Link(0, 0), 0 := Link(list, list)]
    ensures Tiling(t, hdr, end) && Chain(m, t, end) && Coalesced(t) && Ring(l, list, [0]) && Lists([0], t)
    ensures Sum(t, FreePayload(hdr), end, 0) == end - hdr
  {
    assert Tiles.Linked(t, end, 0) && Same(m, t, 0) && Back(m, t, 0) && Apart(t, 0);
    assert Sum(t, FreePayload(hdr), end, end) == 0;
    assert Joined(l, list, [0], 0) && Joined(l, list, [0], 1);
  }

  ghost predicate AllBlocks(fl: seq<nat>, t: Blocks) { forall x :: x in fl ==> x in t }

  lemma ListRing(l: Links, h: nat, s: seq<nat>, i: nat)
    requires Ring(l, h, s) && i <= |s|
    ensures h in l && (i > 0 ==> s[i - 1] in l) && l[Node(h, s, i)].next == Node(h, s, i + 1)
    ensures Node(h, s, i + 1) == h <==> i == |s|
  {
    assert Joined(l, h, s, i);
    assert i < |s| ==> s[i] in s;
  }

  lemma ListIs(fl: seq<nat>, t: Blocks, p: nat)
    requires Lists(fl, t)
    ensures (p in fl <==> p in t && !t[p].used) && forall x :: x in fl ==> x in t && !t[x].used
  {}

  lemma SplitMembers(t: Blocks, hdr: nat, end: nat, p: nat, c: nat)
    requires Tiling(t, hdr, end) && p in t && p + hdr <= c && c + hdr <= t[p].next
    ensures var u := Split(t, p, c, true, false);
            && p in u && c in u && (forall x :: x in t ==> x in u) && (t[p].next in u || t[p].next == end)
            && u[p] == Block(c, true) && u[c] == Block(t[p].next, false) && (forall x :: x in t && x != p ==> u[x] == t[x])
            && c < end && hdr > 0 && p < c < t[p].next
  {
    assert Linked(t, end, p);
    NotInside(t, p, c);
  }

  lemma InPool(t: Blocks, hdr: nat, end: nat, o: nat)
    requires Tiling(t, hdr, end) && (o in t || o == end)
    ensures o + hdr <= end + hdr
  {}

  lemma NotOwnNeighbour(l: Links, h: nat, s: seq<nat>, x: nat)
    requires Ring(l, h, s) && x in s
    ensures x in l && l[x].next != x && l[x].prev != x
  {
    var k := WithoutAt(s, x);
    assert Joined(l, h, s, k) && Joined(l, h, s, k + 1);
    NodeInjective(h, s, k + 1, k);
    NodeInjective(h, s, k + 1, k + 2);
  }

  // ---- when rt_memheap_alloc fails

  /** The payload of a free block is part of the available bytes. */
  lemma {:induction false} RoomIsAvailable(t: Blocks, hdr: nat, end: nat, p: nat, q: nat)
    requires Tiling(t, hdr, end) && p in t && q in t && q <= p && !t[p].used
    ensures t[p].next - p - hdr <= Sum(t, FreePayload(hdr), end, q)
    ensures t[p].next - p - hdr == Sum(t, FreePayload(hdr), end, q) ==>
              forall x :: x in t && q <= x && x != p && !t[x].used ==> t[x].next == x + hdr
    decreases end - q
  {
    assert Tiles.Linked(t, end, q);
    if q == p {
      OthersEmpty(t, hdr, end, t[p].next);
    } else {
      RoomIsAvailable(t, hdr, end, p, t[q].next);
      assert Sum(t, FreePayload(hdr), end, t[q].next) >= t[p].next - p - hdr;
    }
  }

  lemma {:induction false} OthersEmpty(t: Blocks, hdr: nat, end: nat, q: nat)
    requires Tiling(t, hdr, end) && (q in t || q == end)
    ensures 0 <= Sum(t, FreePayload(hdr), end, q)
    ensures Sum(t, FreePayload(hdr), end, q) == 0 ==> forall x :: x in t && q <= x && !t[x].used ==> t[x].next == x + hdr
    decreases end - q
  {
    if q in t {
      assert Tiles.Linked(t, end, q);
      OthersEmpty(t, hdr, end, t[q].next);
    }
  }

  /**
   * A pool refuses a request although a free block has room for it exactly when the request is for all available
   * bytes: the block then fits exactly and is the only free block with a payload.
   */
  lemma RefusedWithRoom(t: Blocks, hdr: nat, end: nat, size: nat, p: nat)
    requires Tiling(t, hdr, end) && p in t && !t[p].used && p + hdr + size <= t[p].next
    ensures size >= Sum(t, FreePayload(hdr), end, 0) <==> size == Sum(t, FreePayload(hdr), end, 0)
    ensures size >= Sum(t, FreePayload(hdr), end, 0) ==> t[p].next == p + hdr + size
    ensures size >= Sum(t, FreePayload(hdr), end, 0) ==>
              forall x :: x in t && x != p && !t[x].used ==> t[x].next == x + hdr
  {
    RoomIsAvailable(t, hdr, end, p, 0);
  }

  /** For instance, the one block of a fresh pool has room for all the available bytes, and is never given out whole. */
  lemma WholeRefused(hdr: nat, end: nat)
    requires 0 < hdr <= end
    ensures var t := map[0 := Block(end, false)];
            && Tiling(t, hdr, end) && !NoRoom(t, hdr, end - hdr) && Sum(t, FreePayload(hdr), end, 0) == end - hdr
            && forall size: nat :: NoRoom(t, hdr, size) <==> size > end - hdr
  {
    var t := map[0 := Block(end, false)];
    assert 0 in t && !t[0].used;
    assert Linked(t, end, 0);
    assert Sum(t, FreePayload(hdr), end, end) == 0;
  }

  /** The first request to a fresh pool is refused exactly from the size of its one block on. */
  method FirstRequest(size: nat, align: nat, hdr: nat, request: nat) returns (pool: Pool, r: Option<nat>)
    requires align > 0 && hdr > 0 && 2 * hdr <= Down(size, align)
    ensures fresh(pool) && pool.Valid() && pool.align == align && pool.poolSize == Down(size, align)
    ensures r.None? <==> pool.Rounded(request) >= pool.poolSize - 2 * hdr
    ensures forall m :: LeastMultiple(m, request, align) ==>
              (r.None? <==> Max(m, MINIALLOC) >= pool.poolSize - 2 * hdr)
  {
    hide Tiling, Kept, Chain, Ring, Sum, Coalesced, Lists, Align, NoRoom, Allocated;
    pool := new Pool(size, align, hdr);
    WholeRefused(hdr, pool.poolSize - hdr);
    RoomExists(pool.fl, pool.t, hdr, pool.Rounded(request));
    r := pool.Alloc(request);
  }
}
