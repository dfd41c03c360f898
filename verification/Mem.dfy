/** rtt/src/mem.c: the first-fit heap with headers in the memory itself, next and prev offsets, and lfree. */
module Mem {
  import opened Wrappers
  import opened Tiles
  import opened Payloads
  import opened HeapHeaders

  // ---- the heap

  ghost predicate Sound(h: Headers, t: Blocks, hdr: nat, end: nat, lfree: nat) {
    Tiling(t, hdr, end) && Describes(h, t, end) && FreeOrEnd(t, end, lfree)
  }

  class Heap {
    const align: nat
    const hdr: nat
    const memSize: nat
    const data: array<byte>
    var head: Headers
    var lfree: nat
    var usedMem: int
    var maxMem: int
    ghost var t: Blocks

    /** The offset of heap_end. */
    function End(): nat { memSize + hdr }

    ghost predicate Ready() {
      && align > 0 && hdr > 0 && data.Length == End() + hdr && Align(MIN_SIZE, align) <= memSize
      && Whole(hdr, align) && Whole(memSize, align)
    }

    ghost predicate Valid()
      reads this
    {
      && Ready() && Sound(head, t, hdr, End(), lfree) && Coalesced(t) && Grid(t, align)
      && usedMem == Sum(t, UsedBytes, End(), 0) && usedMem <= maxMem
    }

    /** rt_system_heap_init, past its check: one free block, and the end marker. Sizes are cut or rounded to align. */
    constructor (memSize: nat, align: nat, hdr: nat)
      requires align > 0 && hdr > 0 && Align(MIN_SIZE, align) <= memSize && Whole(hdr, align) && Whole(memSize, align)
      ensures Valid() && fresh(data) && this.memSize == memSize && this.align == align && this.hdr == hdr
      ensures t == map[0 := Block(memSize + hdr, false)] && usedMem == 0 && Lowest(t, lfree)
    {
      this.memSize, this.align, this.hdr := memSize, align, hdr;
      data := new byte[memSize + 2 * hdr](_ => 0);
      var end := memSize + hdr;
      head := map[0 := Header(HEAP_MAGIC, false, end, 0), end := Header(HEAP_MAGIC, true, end, end)];
      lfree, usedMem, maxMem := 0, 0, 0;
      t := map[0 := Block(end, false)];
      new;
      OneBlock(head, t, hdr, End());
    }

    /**
     * A header is stored in the memory itself. The payloads of the tiling u are still those of the bytes d, u
     * having a block, or the end, at o.
     */
    method Put(o: nat, h: Header, ghost d: seq<byte>, ghost u: Blocks)
      requires Ready() && Tiling(u, hdr, End()) && (o in u || o == End()) && Kept(d, data[..], u, hdr)
      modifies this`head, data
      ensures head == old(head)[o := h] && Kept(d, data[..], u, hdr)
    {
      ghost var e := data[..];
      assert o in u ==> o + hdr <= u[o].next <= End();
      head := head[o := h];
      forall k | o <= k < o + hdr { data[k] := 0; }
      KeptHeader(e, data[..], u, hdr, End(), o);
      KeptTrans(d, e, data[..], u, hdr);
    }

    /** The forward half of plug_holes, and with p the previous block its backward half. */
    method TakeIn(p: nat)
      requires Ready() && Sound(head, t, hdr, End(), lfree) && p in t && !t[p].used
      requires t[p].next in t && !t[t[p].next].used
      modifies this`head, this`t, this`lfree, data
      ensures Sound(head, t, hdr, End(), lfree) && t == Join(old(t), p)
      ensures p in old(head) && p in head && head[p].prev == old(head)[p].prev
      ensures lfree == JoinLfree(old(t), p, old(lfree))
      ensures Lowest(old(t), old(lfree)) ==> Lowest(t, lfree)
      ensures Sum(t, UsedBytes, End(), 0) == Sum(old(t), UsedBytes, End(), 0)
      ensures Kept(old(data[..]), data[..], t, hdr)
    {
      var end := End();
      JoinHeaders(head, t, hdr, end, p);
      JoinTiling(t, hdr, end, p);
      JoinKeepsLfree(t, hdr, end, p, lfree);
      SumJoin(t, UsedBytes, hdr, end, p);
      assert Linked(t, end, t[p].next);
      ghost var d := data[..];
      hide Tiling, Describes, FreeOrEnd, Join, Sized, Sum, Kept;
      KeptSelf(d, t, hdr);
      if lfree == head[p].next { lfree := p; }
      var n := head[p].next;
      Put(p, head[p].(next := head[n].next), d, t);
      Put(head[p].next, head[head[p].next].(prev := p), d, t);
      KeptJoin(d, data[..], t, hdr, end, p);
      t := Join(t, p);
    }

    /** plug_holes */
    method PlugHoles(p: nat)
      requires Ready() && Sound(head, t, hdr, End(), lfree) && p in t && !t[p].used && ApartBut(t, p)
      modifies this`head, this`t, this`lfree, data
      ensures Sound(head, t, hdr, End(), lfree) && Coalesced(t)
      ensures p in old(head) && t == Backward(Forward(old(t), p), p, old(head)[p].prev)
      ensures old(head)[p].prev in old(t) && old(t)[old(head)[p].prev].used ==> lfree == ForwardLfree(old(t), p, old(lfree))
      ensures Lowest(old(t), old(lfree)) ==> Lowest(t, lfree)
      ensures Sum(t, UsedBytes, End(), 0) == Sum(old(t), UsedBytes, End(), 0)
      ensures Kept(old(data[..]), data[..], t, hdr)
    {
      var end := End();
      ghost var d := data[..];
      assert Same(head, t, p) && Linked(t, end, p);
      assert t[p].next in t ==> Same(head, t, t[p].next);
      ForwardApart(t, hdr, end, p);
      ghost var u := Forward(t, p);
      var n, q := head[p].next, head[p].prev;
      assert n != end <==> n in t;
      hide Tiling, Describes, FreeOrEnd, Join, Sum, Lowest, Coalesced, ApartBut, ApartAfter;
      if n != end && !head[n].used { TakeIn(p); }
      assert t == u && Kept(d, data[..], t, hdr);
      ghost var e := data[..];
      PrevBlock(head, t, hdr, end, p);
      BackwardApart(t, hdr, end, p, q);
      if q != p && !head[q].used {
        TakeIn(q);
        KeptJoin(d, e, u, hdr, end, q);
        KeptTrans(d, e, data[..], t, hdr);
      }
    }

    method Count(n: int)
      modifies this`usedMem, this`maxMem
      ensures usedMem == old(usedMem) + n && maxMem == Max(old(maxMem), usedMem)
    {
      usedMem := usedMem + n;
      if maxMem < usedMem { maxMem := usedMem; }
    }

    /** A free block is taken as a whole. */
    method TakeWhole(p: nat)
      requires Valid() && p in t && !t[p].used
      modifies this`head, this`t, this`usedMem, this`maxMem, data
      ensures Tiling(t, hdr, End()) && Describes(head, t, End()) && Coalesced(t) && t == Mark(old(t), p, true)
      ensures usedMem == old(usedMem) + (old(t)[p].next - p)
      ensures usedMem == Sum(t, UsedBytes, End(), 0) && maxMem == Max(old(maxMem), usedMem)
      ensures Kept(old(data[..]), data[..], old(t), hdr)
    {
      var end := End();
      BlockHeader(head, t, hdr, end, p);
      MarkHeader(head, t, end, p, true, HEAP_MAGIC);
      MarkTiling(t, hdr, end, p, true);
      MarkApart(t, hdr, end, p);
      SumMark(t, UsedBytes, hdr, end, p, true);
      ghost var d := data[..];
      hide Tiling, Describes, Mark, Kept, Coalesced, Sum;
      KeptSelf(d, t, hdr);
      Put(p, head[p].(used := true, magic := HEAP_MAGIC), d, t);
      t := Mark(t, p, true);
      Count(head[p].next - p);
    }

    /** The header writes that cut the block at p at m: a used block in front, a free one behind. */
    method Cut(p: nat, m: nat, magic: nat)
      requires Ready() && Tiling(t, hdr, End()) && Describes(head, t, End()) && p in t
      requires p + hdr <= m && m + hdr <= t[p].next
      modifies this`head, this`t, data
      ensures Tiling(t, hdr, End()) && Describes(head, t, End()) && t == Split(old(t), p, m, true, false)
      ensures Kept(old(data[..]), data[..], t, hdr)
    {
      var end := End();
      assert Same(head, t, p) && Linked(t, end, p);
      SplitTiling(t, hdr, end, p, m, true, false);
      ghost var h0 := head[p := head[p].(magic := HEAP_MAGIC)];
      TouchMagic(head, t, end, p);
      SplitHeaders(h0, t, hdr, end, p, m, true, magic);
      ghost var d, u := data[..], Split(t, p, m, true, false);
      var n := head[p].next;
      assert p in u && m in u && (n in u || n == end) && p < m < n;
      CutWrites(head, p, m, end, magic);
      hide Tiling, Describes, Split, Kept, CutHeaders;
      KeptSelf(d, u, hdr);
      Put(m, Header(magic, false, n, p), d, u);
      Put(p, Header(HEAP_MAGIC, true, m, head[p].prev), d, u);
      if n != end { Put(n, head[n].(prev := m), d, u); }
      t := u;
    }

    /** A free block is cut, and its front taken. */
    method TakeFront(p: nat, size: nat)
      requires Valid() && p in t && !t[p].used && p + hdr + size + hdr <= t[p].next
      modifies this`head, this`t, this`usedMem, this`maxMem, data
      ensures Tiling(t, hdr, End()) && Describes(head, t, End()) && Coalesced(t)
      ensures t == Split(old(t), p, p + hdr + size, true, false) && usedMem == old(usedMem) + hdr + size
      ensures usedMem == Sum(t, UsedBytes, End(), 0) && maxMem == Max(old(maxMem), usedMem)
      ensures Kept(old(data[..]), data[..], old(t), hdr)
    {
      hide Tiling, Describes, FreeOrEnd, Split, Sum, Kept, Coalesced, Align;
      var end, m := End(), p + hdr + size;
      ghost var d, t0 := data[..], t;
      SplitApart(t, hdr, end, p, m);
      SumSplit(t, UsedBytes, hdr, end, p, m, true, false);
      BlockHeader(head, t, hdr, end, p);
      var magic: nat := *;
      Cut(p, m, magic);
      KeptSplitBack(d, data[..], t0, hdr, end, p, m);
      Count(size + hdr);
    }

    /** The loop that moves lfree on to the next free block. */
    method RaiseLfree()
      requires Ready() && Tiling(t, hdr, End()) && Describes(head, t, End()) && (lfree in t || lfree == End())
      modifies this`lfree
      ensures FreeOrEnd(t, End(), lfree) && (Lowest(t, old(lfree)) ==> Lowest(t, lfree))
    {
      var end := End();
      BlockHeader(head, t, hdr, end, lfree);
      hide Tiling, Describes, Lowest;
      while lfree != end && head[lfree].used
        invariant (lfree in t || lfree == end) && (Lowest(t, old(lfree)) ==> Lowest(t, lfree))
        invariant lfree in t ==> Same(head, t, lfree)
        decreases end - lfree
      {
        NextLowest(t, hdr, end, lfree);
        BlockHeader(head, t, hdr, end, lfree);
        BlockHeader(head, t, hdr, end, t[lfree].next);
        lfree := head[lfree].next;
      }
    }

    /** The whole block, or its front if the rest can hold a block of its own. */
    method Take(p: nat, size: nat)
      requires Valid() && p in t && !t[p].used && p + hdr + size <= t[p].next
      modifies this`head, this`t, this`usedMem, this`maxMem, data
      ensures Tiling(t, hdr, End()) && Describes(head, t, End()) && Coalesced(t)
      ensures t == Allocated(old(t), hdr, Align(MIN_SIZE, align), size, p)
      ensures p in t && usedMem == old(usedMem) + (t[p].next - p)
      ensures usedMem == Sum(t, UsedBytes, End(), 0) && maxMem == Max(old(maxMem), usedMem)
      ensures Kept(old(data[..]), data[..], old(t), hdr)
    {
      AllocatedCases(t, hdr, Align(MIN_SIZE, align), size, p);
      BlockHeader(head, t, hdr, End(), p);
      hide Tiling, Describes, FreeOrEnd, Lowest, Sum, Kept, Coalesced, Allocated, Split, Mark, Align;
      if head[p].next - (p + hdr) >= size + hdr + Align(MIN_SIZE, align) {
        TakeFront(p, size);
      } else {
        TakeWhole(p);
      }
    }

    /** What rt_malloc does with the block its search has found. */
    method Carve(p: nat, size: nat)
      requires Valid() && Fits(t, hdr, memSize, lfree, size, p) && Whole(size, align)
      modifies this`head, this`t, this`lfree, this`usedMem, this`maxMem, data
      ensures Valid() && t == Allocated(old(t), hdr, Align(MIN_SIZE, align), size, p)
      ensures p in t && usedMem == old(usedMem) + (t[p].next - p)
      ensures maxMem == Max(old(maxMem), usedMem)
      ensures Lowest(old(t), old(lfree)) ==> Lowest(t, lfree)
      ensures Kept(old(data[..]), data[..], old(t), hdr)
    {
      assert End() !in t;
      AllocatedFree(t, hdr, End(), Align(MIN_SIZE, align), size, p, lfree);
      AllocatedGrid(t, hdr, Align(MIN_SIZE, align), size, p, align);
      hide Tiling, Describes, FreeOrEnd, Lowest, Sum, Kept, Coalesced, Allocated, Align, Grid;
      Take(p, size);
      if p == lfree { RaiseLfree(); }
    }

    /** The size a request is rounded up to. */
    function Rounded(size: nat): nat
      requires align > 0
    {
      var s, min := Align(size, align), Align(MIN_SIZE, align);
      if s < min then min else s
    }

    /** The size a request is rounded up to is the least multiple of the alignment with room for it and MIN_SIZE. */
    lemma RoundedLeast(size: nat)
      requires align > 0
      ensures LeastMultiple(Rounded(size), Max(size, MIN_SIZE), align) && Rounded(size) >= size
    {
      AlignExactly(size, align, Align(size, align));
      AlignExactly(MIN_SIZE, align, Align(MIN_SIZE, align));
      if size <= MIN_SIZE { AlignGrows(size, MIN_SIZE, align); } else { AlignGrows(MIN_SIZE, size, align); }
    }

    /** Blocks and their payloads are aligned. */
    lemma PayloadAligned(p: nat)
      requires Valid() && p in t
      ensures p % align == 0 && (p + hdr) % align == 0
    {
      hide Tiling, Describes, FreeOrEnd, Coalesced, Sum;
      WholeSum(p, hdr, align);
      WholeMod(p, align);
      WholeMod(p + hdr, align);
    }

    lemma RoundedWhole(size: nat)
      requires align > 0
      ensures Whole(Rounded(size), align)
    {
      AlignAgain(size, align);
      AlignAgain(MIN_SIZE, align);
    }

    lemma FitEnds(p: nat, size: nat)
      requires Valid() && Fits(t, hdr, memSize, lfree, size, p)
      ensures p + hdr + size <= End()
    {
      hide Describes, FreeOrEnd, Coalesced, Sum, Grid;
    }

    /** The search loop of rt_malloc. */
    method Search(size: nat) returns (r: Option<nat>)
      requires Valid() && size <= memSize
      ensures r.None? <==> NoneFits(t, hdr, memSize, lfree, size)
      ensures r.Some? ==> FirstFit(t, hdr, memSize, lfree, size, r.value)
    {
      var ptr, end := lfree, End();
      assert lfree in t || lfree == end;
      hide Tiling, Describes, FreeOrEnd, Sum, Coalesced, Align;
      while ptr < memSize - size
        invariant lfree <= ptr && (ptr in t || ptr == end)
        invariant forall q :: q in t && q < ptr ==> !Fits(t, hdr, memSize, lfree, size, q)
        decreases end - ptr
      {
        BlockHeader(head, t, hdr, end, ptr);
        if !head[ptr].used && head[ptr].next - (ptr + hdr) >= size { return Some(ptr); }
        NothingBetween(t, hdr, end, ptr);
        ptr := head[ptr].next;
      }
      r := None;
    }

    /**
     * rt_malloc, by offset of the payload: the first block at or after lfree that fits, and nothing exactly when
     * the size is 0 or too large or no block fits.
     */
    method Malloc(request: nat) returns (r: Option<nat>)
      requires Valid()
      modifies this`head, this`t, this`lfree, this`usedMem, this`maxMem, data
      ensures Valid()
      ensures LeastMultiple(Rounded(request), Max(request, MIN_SIZE), align)
      ensures r.None? <==> request == 0 || request > memSize
                           || NoneFits(old(t), hdr, memSize, old(lfree), Rounded(request))
      ensures r.None? ==> t == old(t) && lfree == old(lfree) && usedMem == old(usedMem)
      ensures maxMem == Max(old(maxMem), usedMem)
      ensures r.Some? ==> r.value >= hdr && FirstFit(old(t), hdr, memSize, old(lfree), Rounded(request), r.value - hdr)
      ensures r.Some? ==> t == Allocated(old(t), hdr, Align(MIN_SIZE, align), Rounded(request), r.value - hdr)
      ensures r.Some? ==> RoomGiven(old(t), t, hdr, r.value - hdr, request,
                                    r.value + Rounded(request) + hdr + Align(MIN_SIZE, align))
      ensures r.Some? ==> r.value - hdr in t && usedMem == old(usedMem) + (t[r.value - hdr].next - (r.value - hdr))
      ensures r.Some? ==> r.value % align == 0 && r.value + Rounded(request) <= End()
      ensures Lowest(old(t), old(lfree)) ==> Lowest(t, lfree)
      ensures Kept(old(data[..]), data[..], old(t), hdr)
    {
      hide Tiling, Describes, FreeOrEnd, Lowest, Sum, Kept, Coalesced, Allocated, Align, Grid, NoneFits, RoomGiven, LeastMultiple;
      KeptSelf(data[..], t, hdr);
      RoundedLeast(request);
      AlignWithin(request, memSize, align);
      if request == 0 || Align(request, align) > memSize { return None; }
      var size := Rounded(request);
      RoundedWhole(request);
      r := Search(size);
      if r.Some? {
        PayloadAligned(r.value);
        FitEnds(r.value, size);
        GivenRoom(t, hdr, End(), Align(MIN_SIZE, align), size, r.value, request);
        Carve(r.value, size);
        r := Some(r.value + hdr);
      }
    }

    /** rt_free up to plug_holes; its assertions cannot fail. */
    method Unuse(p: nat)
      requires Valid() && p in t && t[p].used
      modifies this`head, this`t, this`lfree, this`usedMem, data
      ensures Sound(head, t, hdr, End(), lfree) && t == Mark(old(t), p, false) && ApartBut(t, p)
      ensures p in old(head) && p in head && head[p].prev == old(head)[p].prev
      ensures usedMem == Sum(t, UsedBytes, End(), 0) && usedMem == old(usedMem) - (old(t)[p].next - p) <= maxMem
      ensures Lowest(old(t), old(lfree)) ==> Lowest(t, lfree)
      ensures Kept(old(data[..]), data[..], t, hdr)
    {
      var end := End();
      BlockHeader(head, t, hdr, end, p);
      assert head[p].used && head[p].magic == HEAP_MAGIC;
      MarkHeader(head, t, end, p, false, 0);
      MarkTiling(t, hdr, end, p, false);
      MarkApart(t, hdr, end, p);
      SumMark(t, UsedBytes, hdr, end, p, false);
      MarkLowest(t, end, p, lfree);
      ghost var d, u := data[..], Mark(t, p, false);
      assert p in u && !u[p].used && u[p].next == t[p].next;
      hide Tiling, Describes, Mark, Kept, Coalesced, Sum, Lowest, ApartBut, FreeOrEnd;
      KeptSelf(d, u, hdr);
      Put(p, head[p].(used := false, magic := 0), d, u);
      t := u;
      if p < lfree { lfree := p; }
      usedMem := usedMem - (head[p].next - p);
    }

    /** rt_free */
    method Free(rmem: nat)
      requires Valid() && rmem >= hdr && rmem - hdr in t && t[rmem - hdr].used
      modifies this`head, this`t, this`lfree, this`usedMem, data
      ensures Valid() && usedMem == old(usedMem) - (old(t)[rmem - hdr].next - (rmem - hdr))
      ensures var p := rmem - hdr; p in old(head) && t == Freed(old(t), p, old(head)[p].prev)
      ensures var p := rmem - hdr; Rest(old(t), t, p) && NoneElse(old(t), t, p)
      ensures Lowest(old(t), old(lfree)) ==> Lowest(t, lfree)
      ensures Kept(old(data[..]), data[..], t, hdr)
    {
      hide NoneElse, Rest, Kept, Coalesced, Sum, Lowest, Forward, Backward, Grid;
      var p, end := rmem - hdr, End();
      ghost var d, q := data[..], 0;
      PayloadAligned(p);
      assert rmem % align == 0;
      MarkMembers(t, p);
      PrevBlock(head, t, hdr, end, p);
      FreedRest(t, hdr, end, p, head[p].prev);
      FreedOnly(t, p, head[p].prev);
      FreedGrid(t, p, head[p].prev, align);
      hide Tiling, Describes, Mark, ApartBut, FreeOrEnd;
      Unuse(p);
      ghost var e, u := data[..], t;
      q := head[p].prev;
      PlugHoles(p);
      KeptPlug(d, e, u, hdr, end, p, q);
      KeptTrans(d, e, data[..], t, hdr);
    }

    /** The shrinking path of rt_realloc up to plug_holes; m is where the block at p is to end. */
    method CutShort(p: nat, m: nat)
      requires Valid() && p in t && t[p].used && p + hdr <= m && m + hdr <= t[p].next
      modifies this`head, this`t, this`usedMem, data
      ensures Sound(head, t, hdr, End(), lfree) && t == Split(old(t), p, m, true, false) && ApartBut(t, m)
      ensures p in t && t[p].used && m in t && !t[m].used && m in head && head[m].prev == p
      ensures usedMem == Sum(t, UsedBytes, End(), 0) && usedMem <= maxMem
      ensures Kept(old(data[..]), data[..], t, hdr)
    {
      hide Tiling, Describes, FreeOrEnd, Split, Kept, Coalesced, ApartBut, Sum, Align;
      var end := End();
      SplitApart(t, hdr, end, p, m);
      SumSplit(t, UsedBytes, hdr, end, p, m, true, false);
      SplitFree(t, hdr, end, p, m, lfree);
      BlockHeader(head, t, hdr, end, p);
      usedMem := usedMem - (head[p].next - m);
      Cut(p, m, HEAP_MAGIC);
      PrevIs(head, t, hdr, end, p, m);
    }

    /** The shrinking path of rt_realloc. */
    method Shrink(p: nat, m: nat)
      requires Valid() && p in t && t[p].used && p + hdr <= m && m + hdr <= t[p].next && Whole(m, align)
      modifies this`head, this`t, this`lfree, this`usedMem, data
      ensures Valid() && t == Shrunk(old(t), p, m) && lfree == ShrunkLfree(old(t), p, m, old(lfree))
      ensures Kept(old(data[..]), data[..], t, hdr)
    {
      hide Tiling, Describes, FreeOrEnd, Split, Kept, Coalesced, ApartBut, Sum, Forward, Backward, ForwardLfree, Align, Grid;
      ghost var d, end := data[..], End();
      ShrunkGrid(t, p, m, align);
      CutShort(p, m);
      ghost var e, u := data[..], t;
      ShrunkPlug(u, hdr, end, p, m);
      PlugHoles(m);
      KeptPlug(d, e, u, hdr, end, m, p);
      KeptTrans(d, e, data[..], t, hdr);
    }

    /**
     * rt_realloc: nothing is lost, and the block's first bytes are the old ones, whether it stays, is shortened
     * in place or moves; on failure the heap is as it was.
     */
    method Realloc(rmem: Option<nat>, request: nat) returns (r: Option<nat>)
      requires Valid()
      requires rmem.Some? && rmem.value < End() ==>
                 rmem.value >= hdr && rmem.value - hdr in t && t[rmem.value - hdr].used
      modifies this`head, this`t, this`lfree, this`usedMem, this`maxMem, data
      ensures Valid() && (Align(request, align) > memSize ==> r.None?)
      ensures Reallocated(old(data[..]), old(t), old(lfree), data[..], t, lfree, hdr, End(), rmem, r, Align(request, align))
      ensures Align(request, align) <= memSize && rmem.None? ==>
                Served(old(t), old(lfree), hdr, memSize, Align(request, align), Rounded(Align(request, align)), r)
      ensures Align(request, align) <= memSize && rmem.Some? && rmem.value < End() ==>
                Resettled(old(t), old(lfree), t, lfree, hdr, memSize, rmem.value - hdr, Align(request, align),
                          Rounded(Align(request, align)), r)
    {
      hide Tiling, Describes, FreeOrEnd, Kept, Coalesced, Sum, Align, Resized, FirstFit, Allocated, NoneFits;
      hide Only, Lowest, Shrunk, ShrunkLfree;
      KeptSelf(data[..], t, hdr);
      var newsize := Align(request, align);
      if newsize > memSize { return None; }
      AlignAgain(request, align);
      if rmem.None? {
        r := Malloc(newsize);
        return;
      }
      if rmem.value >= End() { return rmem; }
      var p := rmem.value - hdr;
      BlockHeader(head, t, hdr, End(), p);
      ResizedSame(data[..], t, hdr, End(), p);
      var size := head[p].next - p - hdr;
      if size == newsize { return rmem; }
      if newsize + hdr + MIN_SIZE < size {
        Shorten(p, newsize);
        return rmem;
      }
      r := Relocate(p, newsize);
    }

    method Shorten(p: nat, newsize: nat)
      requires Valid() && p in t && t[p].used && p + hdr + newsize + hdr <= t[p].next && Whole(newsize, align)
      modifies this`head, this`t, this`lfree, this`usedMem, data
      ensures Valid() && Resized(old(data[..]), old(t), data[..], t, hdr, p, p, newsize)
      ensures t == Shrunk(old(t), p, p + hdr + newsize) && lfree == ShrunkLfree(old(t), p, p + hdr + newsize, old(lfree))
    {
      hide Tiling, Describes, FreeOrEnd, Kept, Coalesced, Sum, Shrunk, ShrunkLfree, Align, Resized;
      ghost var d, t0 := data[..], t;
      WholeSum(p, hdr, align);
      WholeSum(p + hdr, newsize, align);
      ShrunkOthers(t, hdr, End(), p, p + hdr + newsize);
      Shrink(p, p + hdr + newsize);
      ResizedShrunk(d, t0, data[..], t, hdr, End(), p, newsize);
    }

    /** The path of rt_realloc that allocates a new block, copies and frees the old one. */
    method Relocate(p: nat, newsize: nat) returns (r: Option<nat>)
      requires Valid() && p in t && t[p].used && Align(newsize, align) == newsize
      modifies this`head, this`t, this`lfree, this`usedMem, this`maxMem, data
      ensures Valid()
      ensures r.None? ==> t == old(t) && lfree == old(lfree) && Kept(old(data[..]), data[..], t, hdr)
      ensures r.None? <==> newsize == 0 || newsize > memSize || NoneFits(old(t), hdr, memSize, old(lfree), Rounded(newsize))
      ensures r.Some? ==> r.value >= hdr && Resized(old(data[..]), old(t), data[..], t, hdr, p, r.value - hdr, newsize)
      ensures r.Some? ==> FirstFit(old(t), hdr, memSize, old(lfree), Rounded(newsize), r.value - hdr)
                          && Only(old(t), t, p, r.value - hdr)
      ensures Lowest(old(t), old(lfree)) ==> Lowest(t, lfree)
    {
      hide Tiling, Describes, FreeOrEnd, Kept, Coalesced, Sum, Align, Lowest, Resized, Rest, Beside, Only, NoneElse, Allocated;
      hide NoneFits, Fits;
      ghost var d, t0 := data[..], t;
      r := MallocBeside(p, newsize);
      ghost var u := t;
      if r.Some? {
        MoveTo(p, r.value - hdr, newsize, d, t0);
        MoveOnly(t0, u, t, hdr, Align(MIN_SIZE, align), Rounded(newsize), p, r.value - hdr);
      }
    }

    /** d and t0 are memory and blocks before the allocation. */
    method MoveTo(p: nat, q: nat, newsize: nat, ghost d: seq<byte>, ghost t0: Blocks)
      requires Valid() && Tiling(t0, hdr, End()) && p in t0 && t0[p].used
      requires Kept(d, data[..], t0, hdr) && Beside(t0, t, hdr, End(), p, q, newsize)
      modifies this`head, this`t, this`lfree, this`usedMem, data
      ensures Valid() && Resized(d, t0, data[..], t, hdr, p, q, newsize) && NoneElse(old(t), t, p)
      ensures Lowest(old(t), old(lfree)) ==> Lowest(t, lfree)
    {
      hide Tiling, Describes, FreeOrEnd, Kept, Coalesced, Sum, Align, Lowest, Freed, Resized, Rest, Beside, Copied, NoneElse;
      ghost var e, u, end := data[..], t, End();
      BesideKeeps(t0, t, hdr, end, p, q, newsize);
      var n := CopyPart(p, q, newsize, t0);
      ghost var f := data[..];
      Free(p + hdr);
      RelocatedResized(d, t0, e, u, f, data[..], t, hdr, end, p, q, newsize, n);
    }

    method CopyPart(p: nat, q: nat, newsize: nat, ghost t0: Blocks) returns (n: nat)
      requires Valid() && p in t0 && t0[p].used && Beside(t0, t, hdr, End(), p, q, newsize)
      modifies data
      ensures n == Min(t0[p].next - p - hdr, newsize) && Copied(old(data[..]), data[..], q + hdr, p + hdr, n)
    {
      hide Tiling, Describes, FreeOrEnd, Coalesced, Sum, Align, Copied, Beside;
      BlockHeader(head, t, hdr, End(), p);
      BesideKeeps(t0, t, hdr, End(), p, q, newsize);
      n := Min(head[p].next - p - hdr, newsize);
      Copy(data, q + hdr, p + hdr, n);
    }

    method MallocBeside(p: nat, newsize: nat) returns (r: Option<nat>)
      requires Valid() && p in t && t[p].used && Align(newsize, align) == newsize
      modifies this`head, this`t, this`lfree, this`usedMem, this`maxMem, data
      ensures Valid() && Kept(old(data[..]), data[..], old(t), hdr)
      ensures r.None? ==> t == old(t) && lfree == old(lfree)
      ensures r.None? <==> newsize == 0 || newsize > memSize || NoneFits(old(t), hdr, memSize, old(lfree), Rounded(newsize))
      ensures r.Some? ==> r.value >= hdr && Beside(old(t), t, hdr, End(), p, r.value - hdr, newsize)
      ensures r.Some? ==> FirstFit(old(t), hdr, memSize, old(lfree), Rounded(newsize), r.value - hdr)
      ensures r.Some? ==> t == Allocated(old(t), hdr, Align(MIN_SIZE, align), Rounded(newsize), r.value - hdr)
      ensures Lowest(old(t), old(lfree)) ==> Lowest(t, lfree)
    {
      hide Allocated, Describes, Kept, NoneFits, Coalesced, Sum, Lowest;
      ghost var t0 := t;
      r := Malloc(newsize);
      if r.Some? {
        AllocatedOthers(t0, hdr, End(), Align(MIN_SIZE, align), Rounded(newsize), r.value - hdr, p);
      }
    }
  }

  /** Sizes of which RT_ALIGN makes nothing else. */
  predicate Whole(x: nat, a: nat)
    requires a > 0
  {
    Align(x, a) == x
  }

  lemma AlignWithin(x: nat, y: nat, a: nat)
    requires a > 0 && Whole(y, a)
    ensures Align(x, a) <= y <==> x <= y
  {
    if x <= y { AlignGrows(x, y, a); }
  }

  lemma {:induction false} AlignGrows(x: int, y: int, a: nat)
    requires a > 0 && x <= y
    ensures Align(x, a) <= Align(y, a)
    decreases if y > 0 then y else 0
  {
    if x > 0 { AlignGrows(x - a, y - a, a); }
  }

  /** Every block starts at such an offset. */
  ghost predicate Grid(t: Blocks, a: nat)
    requires a > 0
  {
    forall p :: p in t ==> Whole(p, a)
  }

  lemma {:induction false} WholeSum(x: nat, y: nat, a: nat)
    requires a > 0 && Whole(x, a) && Whole(y, a)
    ensures Whole(x + y, a)
    decreases x
  {
    if x > 0 { WholeSum(x - a, y, a); }
  }

  /** These are the multiples, which the assertions of the source test for. */
  lemma WholeMod(x: nat, a: nat)
    requires a > 0
    ensures Whole(x, a) <==> x % a == 0
  {
    AlignExactly(x, a, x);
  }

  lemma AllocatedGrid(t: Blocks, hdr: nat, min: nat, size: nat, p: nat, a: nat)
    requires a > 0 && Grid(t, a) && p in t && Whole(hdr, a) && Whole(size, a)
    ensures Grid(Allocated(t, hdr, min, size, p), a)
  {
    WholeSum(p, hdr, a);
    WholeSum(p + hdr, size, a);
    hide Whole;
  }

  lemma FreedGrid(t: Blocks, p: nat, q: nat, a: nat)
    requires a > 0 && Grid(t, a) && p in t
    ensures Grid(Freed(t, p, q), a)
  {
    hide Whole;
  }

  lemma ShrunkGrid(t: Blocks, p: nat, m: nat, a: nat)
    requires a > 0 && Grid(t, a) && p in t && Whole(m, a)
    ensures Grid(Shrunk(t, p, m), a)
  {
    hide Whole;
  }

  lemma AlignAgain(x: nat, a: nat)
    requires a > 0
    ensures Align(Align(x, a), a) == Align(x, a)
  {
    if x > 0 { AlignAgain(if x > a then x - a else 0, a); }
  }

  /** What rt_realloc may answer, and what it leaves of the payloads. */
  ghost predicate Reallocated(d: seq<byte>, t: Blocks, lfree: nat, e: seq<byte>, u: Blocks, lfree': nat,
                              hdr: nat, end: nat, rmem: Option<nat>, r: Option<nat>, n: nat) {
    if r.None? then u == t && lfree' == lfree && Kept(d, e, t, hdr)
    else if rmem.None? then r.value >= hdr && Kept(d, e, t, hdr)
    else if rmem.value >= end then r == rmem && u == t && Kept(d, e, t, hdr)
    else rmem.value >= hdr && r.value >= hdr && Resized(d, t, e, u, hdr, rmem.value - hdr, r.value - hdr, n)
  }

  /** A request of size bytes, rounded, is refused exactly if none fits, and otherwise taken from the first fit. */
  ghost predicate Served(t: Blocks, lfree: nat, hdr: nat, memSize: nat, size: nat, rounded: nat, r: Option<nat>) {
    && (r.None? <==> size == 0 || NoneFits(t, hdr, memSize, lfree, rounded))
    && (r.Some? ==> r.value >= hdr && FirstFit(t, hdr, memSize, lfree, rounded, r.value - hdr))
  }

  /** What rt_realloc decides for the used block at p: it stays, is shortened in place, or moves. */
  ghost predicate Resettled(t: Blocks, lfree: nat, u: Blocks, lfree': nat, hdr: nat, memSize: nat, p: nat,
                            n: nat, rounded: nat, r: Option<nat>)
    requires p in t
  {
    var size := t[p].next - p - hdr;
    if size == n then
      r == Some(p + hdr) && u == t && lfree' == lfree
    else if n + hdr + MIN_SIZE < size then
      r == Some(p + hdr) && u == Shrunk(t, p, p + hdr + n) && lfree' == ShrunkLfree(t, p, p + hdr + n, lfree)
    else
      && Served(t, lfree, hdr, memSize, n, rounded, r) && (Lowest(t, lfree) ==> Lowest(u, lfree'))
      && (r.Some? ==> Only(t, u, p, r.value - hdr))
  }

  lemma AllocatedOthers(t: Blocks, hdr: nat, end: nat, min: nat, size: nat, q: nat, p: nat)
    requires Tiling(t, hdr, end) && q in t && !t[q].used && q + hdr + size <= t[q].next && p in t && t[p].used
    ensures var u := Allocated(t, hdr, min, size, q);
            && (forall x :: x in t && t[x].used ==> x in u && u[x] == t[x])
            && q in u && u[q].used && q + hdr + size <= u[q].next <= t[q].next
            && (u[q].next <= p || t[p].next <= q)
  {
    assert q < p ==> t[q].next <= p;
    assert p < q ==> t[p].next <= q;
  }

  lemma ForwardRest(t: Blocks, hdr: nat, end: nat, p: nat, q: nat)
    requires Tiling(t, hdr, end) && p in t && !t[p].used && (q in t ==> t[q].next == p)
    ensures Rest(t, Forward(t, p), p) && p in Forward(t, p) && !Forward(t, p)[p].used
    ensures q in t ==> q in Forward(t, p) && Forward(t, p)[q].next == p
  {
    if t[p].next in t && !t[t[p].next].used { JoinRest(t, p, p); }
  }

  lemma FreedRest(t: Blocks, hdr: nat, end: nat, p: nat, q: nat)
    requires Tiling(t, hdr, end) && p in t && t[p].used
    requires if p == 0 then q == p else q in t && t[q].next == p
    ensures Rest(t, Freed(t, p, q), p)
  {
    var m := Mark(t, p, false);
    MarkTiling(t, hdr, end, p, false);
    assert m[p].next == t[p].next && !m[p].used && Rest(t, m, p) && p in m && (q != p ==> q in m && m[q].next == p);
    var u := Forward(m, p);
    hide Mark, Tiling, Forward, Join;
    if q != p {
      ForwardRest(m, hdr, end, p, q);
      if !u[q].used { JoinRest(u, q, p); }
    } else {
      ForwardRest(m, hdr, end, p, end);
    }
    assert Rest(u, Backward(u, p, q), p);
  }

  /** Freeing a block makes no block used. */
  lemma FreedOnly(t: Blocks, p: nat, q: nat)
    requires p in t
    ensures NoneElse(t, Freed(t, p, q), p)
  {
    var m := Mark(t, p, false);
    MarkOnly(t, p);
    hide Mark, Join;
    if m[p].next in m { JoinOnly(m, p); }
    var u := Forward(m, p);
    if q in u && !u[q].used && u[q].next in u { JoinOnly(u, q); }
  }

  lemma ShrunkOthers(t: Blocks, hdr: nat, end: nat, p: nat, m: nat)
    requires Tiling(t, hdr, end) && p in t && t[p].used && p + hdr <= m && m + hdr <= t[p].next
    ensures var u := Shrunk(t, p, m);
            p in u && u[p] == Block(m, true) && forall x :: x in t && t[x].used && x != p ==> x in u && u[x] == t[x]
  {
    NotInside(t, p, m);
    SplitTiling(t, hdr, end, p, m, true, false);
    var s := Split(t, p, m, true, false);
    assert s[p] == Block(m, true) && m in s && forall x :: x in t && x != p ==> x in s && s[x] == t[x];
    hide Split;
    if s[m].next in s && !s[s[m].next].used { JoinTiling(s, hdr, end, m); }
  }

  function Shrunk(t: Blocks, p: nat, m: nat): Blocks
    requires p in t
  {
    Forward(Split(t, p, m, true, false), m)
  }

  /** The shrinking path changes lfree only if it was the block after the shrunk one. */
  function ShrunkLfree(t: Blocks, p: nat, m: nat, lfree: nat): nat
    requires p in t
  {
    ForwardLfree(Split(t, p, m, true, false), m, lfree)
  }

  lemma SplitFree(t: Blocks, hdr: nat, end: nat, p: nat, m: nat, lfree: nat)
    requires Tiling(t, hdr, end) && p in t && t[p].used && p < m < t[p].next && FreeOrEnd(t, end, lfree)
    ensures var u := Split(t, p, m, true, false);
            && FreeOrEnd(u, end, lfree) && p in u && u[p].used && u[p].next == m && m in u && !u[m].used
            && u[m].next == t[p].next
  {
    NotInside(t, p, m);
  }

  /** prev of the block behind a cut is the block in front of it. */
  lemma PrevIs(h: Headers, t: Blocks, hdr: nat, end: nat, p: nat, m: nat)
    requires Tiling(t, hdr, end) && Describes(h, t, end) && p in t && t[p].next == m && m in t
    ensures m in h && h[m].prev == p
  {
    assert Back(h, t, p);
  }

  /** Behind a used block there is nothing to join backward. */
  lemma ShrunkPlug(t: Blocks, hdr: nat, end: nat, p: nat, m: nat)
    requires Tiling(t, hdr, end) && m in t && p in t && t[p].used && p != m
    ensures Backward(Forward(t, m), m, p) == Forward(t, m)
  {
    assert p in Forward(t, m) && Forward(t, m)[p].used;
  }

  lemma MarkMembers(t: Blocks, p: nat)
    requires p in t
    ensures p in Mark(t, p, false) && !Mark(t, p, false)[p].used
  {}

  /** What rt_free makes of the blocks; q is the prev offset of the block at p. */
  function Freed(t: Blocks, p: nat, q: nat): Blocks
    requires p in t
  {
    Backward(Forward(Mark(t, p, false), p), p, q)
  }

  lemma MarkLowest(t: Blocks, end: nat, p: nat, lfree: nat)
    requires p in t && p < end && FreeOrEnd(t, end, lfree)
    ensures var u, l := Mark(t, p, false), if p < lfree then p else lfree;
            FreeOrEnd(u, end, l) && (Lowest(t, lfree) ==> Lowest(u, l))
  {}

  lemma NothingBetween(t: Blocks, hdr: nat, end: nat, p: nat)
    requires Tiling(t, hdr, end) && p in t
    ensures forall q :: q in t && p < q ==> t[p].next <= q
  {}

  lemma BlockHeader(h: Headers, t: Blocks, hdr: nat, end: nat, p: nat)
    requires Tiling(t, hdr, end) && Describes(h, t, end)
    ensures p in t ==> Same(h, t, p) && p + hdr <= t[p].next <= end && p < t[p].next && (t[p].next in t || t[p].next == end)
  {
    if p in t { assert Same(h, t, p) && Linked(t, end, p); }
  }

  /** The block at p can be given to a request of the rounded size; the search starts at lfree. */
  ghost predicate Fits(t: Blocks, hdr: nat, memSize: nat, lfree: nat, size: nat, p: nat) {
    p in t && lfree <= p < memSize - size && !t[p].used && p + hdr + size <= t[p].next
  }

  ghost predicate NoneFits(t: Blocks, hdr: nat, memSize: nat, lfree: nat, size: nat) {
    forall p :: p in t ==> !Fits(t, hdr, memSize, lfree, size, p)
  }

  ghost predicate FirstFit(t: Blocks, hdr: nat, memSize: nat, lfree: nat, size: nat, p: nat) {
    Fits(t, hdr, memSize, lfree, size, p) && p in t && forall q :: q in t && q < p ==> !Fits(t, hdr, memSize, lfree, size, q)
  }

  /** Unless it was the block taken, lfree stays a free block, and what was used below stays so. */
  lemma AllocatedFree(t: Blocks, hdr: nat, end: nat, min: nat, size: nat, p: nat, lfree: nat)
    requires Tiling(t, hdr, end) && p in t && !t[p].used && p + hdr + size <= t[p].next
    requires FreeOrEnd(t, end, lfree) && lfree <= p && end !in t
    ensures var u := Allocated(t, hdr, min, size, p);
            && (lfree != p ==> FreeOrEnd(u, end, lfree)) && (lfree == p ==> lfree in u)
            && (Lowest(t, lfree) ==> Lowest(u, lfree))
  {
    var u := Allocated(t, hdr, min, size, p);
    assert forall q :: q in t && q != p ==> q in u && u[q] == t[q];
    assert forall q :: q in u && q < p ==> q in t;
  }

  lemma NextLowest(t: Blocks, hdr: nat, end: nat, p: nat)
    requires Tiling(t, hdr, end) && p in t && t[p].used
    ensures Lowest(t, p) ==> Lowest(t, t[p].next)
  {
    assert forall q :: q in t && p < q ==> t[p].next <= q;
  }

  lemma CutWrites(h: Headers, p: nat, m: nat, end: nat, magic: nat)
    requires p in h && h[p].next in h && p < m < h[p].next
    ensures var n := h[p].next;
            var g := h[m := Header(magic, false, n, p)][p := Header(HEAP_MAGIC, true, m, h[p].prev)];
            CutHeaders(h[p := h[p].(magic := HEAP_MAGIC)], p, m, end, true, magic)
            == if n != end then g[n := g[n].(prev := m)] else g
  {}

  /** The magic of a header that is about to be marked used. */
  lemma TouchMagic(h: Headers, t: Blocks, end: nat, p: nat)
    requires Describes(h, t, end) && p in t && p in h
    ensures Describes(h[p := h[p].(magic := HEAP_MAGIC)], t, end)
  {
    var g := h[p := h[p].(magic := HEAP_MAGIC)];
    forall q | q in t
      ensures Same(g, t, q) && Back(g, t, q)
    {
      assert Same(h, t, q) && Back(h, t, q);
    }
  }

  lemma OneBlock(h: Headers, t: Blocks, hdr: nat, end: nat)
    requires 0 < hdr <= end && t == map[0 := Block(end, false)]
    requires h == map[0 := Header(HEAP_MAGIC, false, end, 0), end := Header(HEAP_MAGIC, true, end, end)]
    ensures Tiling(t, hdr, end) && Describes(h, t, end) && Coalesced(t) && Sum(t, UsedBytes, end, 0) == 0
  {
    assert Linked(t, end, 0) && Same(h, t, 0) && Back(h, t, 0) && Apart(t, 0);
    assert Sum(t, UsedBytes, end, end) == 0;
  }

  /** prev of a block is the block before it. */
  lemma PrevBlock(h: Headers, t: Blocks, hdr: nat, end: nat, p: nat)
    requires Tiling(t, hdr, end) && Describes(h, t, end) && p in t
    ensures p in h
    ensures if p == 0 then h[p].prev == 0 else h[p].prev in t && t[h[p].prev].next == p
    ensures h[p].prev in h && (h[p].prev in t ==> h[h[p].prev].used == t[h[p].prev].used)
  {
    assert Same(h, t, p);
    if p != 0 {
      var r := Holder(t, hdr, end, p - 1, 0);
      assert Back(h, t, r) && Same(h, t, r);
    }
  }

  // ---- when rt_malloc fails

  /** A free block of enough room. */
  ghost predicate Roomy(t: Blocks, hdr: nat, size: nat, p: nat) {
    p in t && !t[p].used && p + hdr + size <= t[p].next
  }

  /**
   * With lfree the lowest free block, a request of a rounded size is refused exactly when every free block of
   * enough room is the last one and fits the request exactly, which the bound of the search leaves out.
   */
  lemma RefusedExactly(t: Blocks, hdr: nat, memSize: nat, lfree: nat, size: nat)
    requires Tiling(t, hdr, memSize + hdr) && Lowest(t, lfree) && size <= memSize
    ensures NoneFits(t, hdr, memSize, lfree, size)
            <==> forall p: nat :: Roomy(t, hdr, size, p) ==> p + hdr + size == t[p].next == memSize + hdr
  {
    forall p: nat | Roomy(t, hdr, size, p)
      ensures Fits(t, hdr, memSize, lfree, size, p) <==> !(p + hdr + size == t[p].next == memSize + hdr)
    {
      assert t[p].next <= memSize + hdr && lfree <= p;
    }
    if NoneFits(t, hdr, memSize, lfree, size) {
      forall p: nat | Roomy(t, hdr, size, p)
        ensures p + hdr + size == t[p].next == memSize + hdr
      {
        assert !Fits(t, hdr, memSize, lfree, size, p);
      }
    } else {
      var p :| p in t && Fits(t, hdr, memSize, lfree, size, p);
      assert Roomy(t, hdr, size, p);
    }
  }

  /** For instance, the whole of a fresh heap is never given out. */
  lemma WholeRefused(hdr: nat, memSize: nat)
    requires hdr > 0
    ensures NoneFits(map[0 := Block(memSize + hdr, false)], hdr, memSize, 0, memSize)
  {}

  /**
   * Shortening a block in place keeps lfree the lowest free block exactly when lfree lies below the block, or
   * is the block right after it.
   */
  lemma ShrinkLowest(t: Blocks, hdr: nat, end: nat, p: nat, m: nat, lfree: nat)
    requires Tiling(t, hdr, end) && end !in t && p in t && t[p].used && p + hdr <= m && m + hdr <= t[p].next
    requires FreeOrEnd(t, end, lfree) && Lowest(t, lfree)
    ensures Lowest(Shrunk(t, p, m), ShrunkLfree(t, p, m, lfree)) <==> lfree < p || (lfree == t[p].next && lfree != end)
  {
    hide Split, Tiling;
    var s := Split(t, p, m, true, false);
    SplitTiling(t, hdr, end, p, m, true, false);
    SplitShape(t, hdr, end, p, m);
    if lfree != end { PairApart(t, hdr, end, p, lfree); }
    if s[m].next in s && !s[s[m].next].used { JoinTiling(s, hdr, end, m); }
    var u := Forward(s, m);
    assert m in u && !u[m].used;
    assert lfree < p ==> Lowest(u, ShrunkLfree(t, p, m, lfree));
  }

  /** For instance: two used blocks and a free one; shortening the first one leaves a free block below lfree. */
  lemma ShrinkLosesBlock()
    ensures var t := map[0 := Block(64, true), 64 := Block(128, true), 128 := Block(256, false)];
            var u := Shrunk(t, 0, 24);
            Lowest(t, 128) && u == map[0 := Block(24, true), 24 := Block(64, false), 64 := Block(128, true), 128 := Block(256, false)]
            && ShrunkLfree(t, 0, 24, 128) == 128 && Roomy(u, 12, 28, 24) && !Fits(u, 12, 244, 128, 28, 24)
  {}
}
