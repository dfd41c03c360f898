/**
 * Memory cut into consecutive blocks, as rtt/src/mem.c and rtt/src/memheap.c keep it: a block is known by its
 * offset, and holds the offset of the next one. The last offset is that of the end marker, no block itself.
 */
module Tiles {
  import opened Arithmetic
  datatype Block = Block(next: nat, used: bool)

  type Blocks = map<nat, Block>

  /** The block at p ends where another one starts, or at the end. */
  ghost predicate Linked(t: Blocks, end: nat, p: nat)
    requires p in t
  {
    t[p].next in t || t[p].next == end
  }

  ghost predicate Sized(t: Blocks, hdr: nat, end: nat) { forall p :: p in t ==> p + hdr <= t[p].next <= end }

  ghost predicate Chained(t: Blocks, end: nat) {
    forall p {:trigger Linked(t, end, p)} :: p in t ==> Linked(t, end, p)
  }

  ghost predicate Ordered(t: Blocks) { forall p, q :: p in t && q in t && p < q ==> t[p].next <= q }

  /** The blocks start at 0, follow one another without gap up to end, and are at least hdr long. */
  ghost predicate Tiling(t: Blocks, hdr: nat, end: nat) {
    hdr > 0 && 0 in t && Sized(t, hdr, end) && Chained(t, end) && Ordered(t)
  }

  /** A free block is followed by a used one. */
  ghost predicate Apart(t: Blocks, p: nat)
    requires p in t
  {
    !t[p].used && t[p].next in t ==> t[t[p].next].used
  }

  ghost predicate Coalesced(t: Blocks) {
    forall p {:trigger Apart(t, p)} :: p in t ==> Apart(t, p)
  }

  /** The one block that holds an offset. */
  ghost predicate Covers(t: Blocks, p: nat, x: nat) { p in t && p <= x < t[p].next }

  /** A tiling leaves nothing out, and its blocks do not overlap. */
  lemma CoveredOnce(t: Blocks, hdr: nat, end: nat, x: nat)
    requires Tiling(t, hdr, end) && x < end
    ensures exists p :: Covers(t, p, x) && forall q :: Covers(t, q, x) ==> q == p
  {
    var p := Holder(t, hdr, end, x, 0);
    assert Covers(t, p, x);
  }

  ghost function Holder(t: Blocks, hdr: nat, end: nat, x: nat, p: nat): (r: nat)
    requires Tiling(t, hdr, end) && p in t && p <= x < end
    ensures Covers(t, r, x)
    decreases end - p
  {
    if x < t[p].next then p else assert Linked(t, end, p); Holder(t, hdr, end, x, t[p].next)
  }

  /** RT_ALIGN, where it does not wrap: the least multiple of a that is not below x. */
  function Align(x: int, a: nat): (r: nat)
    requires a > 0
    ensures x <= r && (x >= 0 ==> r < x + a)
    decreases if x > 0 then x else 0
  {
    if x <= 0 then 0 else a + Align(x - a, a)
  }

  /** RT_ALIGN_DOWN: the greatest multiple of a that is not above x. */
  function Down(x: nat, a: nat): (r: nat)
    requires a > 0
    ensures r <= x < r + a
    decreases x
  {
    if x < a then 0 else a + Down(x - a, a)
  }

  /** m is the least multiple of a that is not below n. */
  predicate LeastMultiple(m: int, n: int, a: nat)
    requires a > 0
  {
    m % a == 0 && n <= m < n + a
  }

  lemma AlignExactly(x: nat, a: nat, m: int)
    requires a > 0
    ensures m == Align(x, a) <==> LeastMultiple(m, x, a)
  {
    var k := AlignMultiple(x, a);
    MultipleOf(k, a);
    if LeastMultiple(m, x, a) { SameMultiple(m, k * a, a); }
  }

  lemma DownExactly(x: nat, a: nat, m: int)
    requires a > 0
    ensures m == Down(x, a) <==> m % a == 0 && m <= x < m + a
  {
    var k := DownMultiple(x, a);
    MultipleOf(k, a);
    if m % a == 0 && m <= x < m + a { SameMultiple(m, k * a, a); }
  }

  lemma {:induction false} DownMultiple(x: nat, a: nat) returns (k: nat)
    requires a > 0
    ensures Down(x, a) == k * a
    decreases x
  {
    if x < a {
      k := 0;
    } else {
      k := DownMultiple(x - a, a);
      Distribute(a, k);
      k := k + 1;
    }
  }

  lemma {:induction false} AlignMultiple(x: int, a: nat) returns (k: nat)
    requires a > 0
    ensures Align(x, a) == k * a
    decreases if x > 0 then x else 0
  {
    if x <= 0 {
      k := 0;
    } else {
      k := AlignMultiple(x - a, a);
      Distribute(a, k);
      k := k + 1;
    }
  }

  // ---- the three changes

  function Mark(t: Blocks, p: nat, used: bool): Blocks
    requires p in t
  {
    t[p := t[p].(used := used)]
  }

  function Split(t: Blocks, p: nat, m: nat, front: bool, back: bool): Blocks
    requires p in t
  {
    t[p := Block(m, front)][m := Block(t[p].next, back)]
  }

  /** The block at p takes in the one after it. */
  function Join(t: Blocks, p: nat): Blocks
    requires p in t && t[p].next in t
  {
    var n := t[p].next;
    (map q | q in t && q != n :: t[q])[p := Block(t[n].next, t[p].used)]
  }

  lemma MarkTiling(t: Blocks, hdr: nat, end: nat, p: nat, used: bool)
    requires Tiling(t, hdr, end) && p in t
    ensures Tiling(Mark(t, p, used), hdr, end)
  {
    var u := Mark(t, p, used);
    forall q | q in u
      ensures Linked(u, end, q)
    {
      assert Linked(t, end, q);
    }
  }

  lemma NotInside(t: Blocks, p: nat, m: nat)
    requires Ordered(t) && p in t && p < m < t[p].next
    ensures m !in t
  {}

  /** u is t with the block at p cut at m, apart from the used flags of the two parts. */
  ghost predicate Splits(t: Blocks, u: Blocks, p: nat, m: nat) {
    && p in t && p < m < t[p].next && m !in t && (forall q :: q in u <==> q in t || q == m)
    && u[p].next == m && u[m].next == t[p].next && (forall q :: q in t && q != p ==> u[q] == t[q])
  }

  lemma SplitChained(t: Blocks, u: Blocks, hdr: nat, end: nat, p: nat, m: nat)
    requires Splits(t, u, p, m) && Chained(t, end)
    ensures Chained(u, end)
  {
    forall q | q in u
      ensures Linked(u, end, q)
    {
      assert q in t ==> Linked(t, end, q);
      assert Linked(t, end, p);
    }
  }

  lemma SplitOrdered(t: Blocks, u: Blocks, hdr: nat, end: nat, p: nat, m: nat)
    requires Splits(t, u, p, m) && Ordered(t)
    ensures Ordered(u)
  {
    forall a, b | a in u && b in u && a < b
      ensures u[a].next <= b
    {
      if a in t && b in t { assert t[a].next <= b; }
      if a == m { assert p < b && t[p].next <= b; }
      if b == m && a != p { assert a < p && t[a].next <= p; }
    }
  }

  lemma SplitTiling(t: Blocks, hdr: nat, end: nat, p: nat, m: nat, front: bool, back: bool)
    requires Tiling(t, hdr, end) && p in t && p + hdr <= m && m + hdr <= t[p].next
    ensures m !in t && Tiling(Split(t, p, m, front, back), hdr, end)
  {
    hide Chained, Ordered, Linked;
    NotInside(t, p, m);
    var u := Split(t, p, m, front, back);
    assert Splits(t, u, p, m);
    SplitChained(t, u, hdr, end, p, m);
    SplitOrdered(t, u, hdr, end, p, m);
  }

  /** u is t with the block at n taken into the one at p before it. */
  ghost predicate Joins(t: Blocks, u: Blocks, p: nat, n: nat) {
    && p in t && n in t && t[p].next == n && p < n
    && (forall q :: q in u <==> q in t && q != n)
    && u[p] == Block(t[n].next, t[p].used) && (forall q :: q in u && q != p ==> u[q] == t[q])
  }

  lemma JoinChained(t: Blocks, u: Blocks, hdr: nat, end: nat, p: nat, n: nat)
    requires Joins(t, u, p, n) && Tiling(t, hdr, end)
    ensures Chained(u, end)
  {
    forall q | q in u
      ensures Linked(u, end, q)
    {
      assert Linked(t, end, q) && Linked(t, end, n);
      if q != p && t[q].next == n { OnePredecessor(t, hdr, end, p, q); }
    }
  }

  lemma JoinOrdered(t: Blocks, u: Blocks, hdr: nat, end: nat, p: nat, n: nat)
    requires Joins(t, u, p, n) && Sized(t, hdr, end) && Ordered(t)
    ensures Ordered(u)
  {
    forall a, b | a in u && b in u && a < b
      ensures u[a].next <= b
    {
      assert t[a].next <= b;
      if a == p { assert n < b; }
    }
  }

  lemma JoinTiling(t: Blocks, hdr: nat, end: nat, p: nat)
    requires Tiling(t, hdr, end) && p in t && t[p].next in t
    ensures Tiling(Join(t, p), hdr, end)
    ensures forall q :: q in Join(t, p) <==> q in t && q != t[p].next
    ensures forall q :: q in Join(t, p) && q != p ==> Join(t, p)[q] == t[q]
  {
    hide Chained, Ordered, Linked;
    var u, n := Join(t, p), t[p].next;
    assert Joins(t, u, p, n);
    JoinChained(t, u, hdr, end, p, n);
    JoinOrdered(t, u, hdr, end, p, n);
  }

  /** At most one block ends where another one starts. */
  lemma OnePredecessor(t: Blocks, hdr: nat, end: nat, p: nat, q: nat)
    requires Tiling(t, hdr, end) && p in t && q in t && t[p].next == t[q].next
    ensures p == q
  {}

  /** The free block at p is given out for size bytes: cut if the rest can hold min bytes, else as a whole. */
  function Allocated(t: Blocks, hdr: nat, min: nat, size: nat, p: nat): Blocks
    requires p in t
  {
    if t[p].next - (p + hdr) >= size + hdr + min then Split(t, p, p + hdr + size, true, false) else Mark(t, p, true)
  }

  lemma AllocatedCases(t: Blocks, hdr: nat, min: nat, size: nat, p: nat)
    requires p in t
    ensures Allocated(t, hdr, min, size, p) ==
            if t[p].next - (p + hdr) >= size + hdr + min then Split(t, p, p + hdr + size, true, false) else Mark(t, p, true)
  {
    hide Split, Mark;
  }

  lemma AllocatedNext(t: Blocks, hdr: nat, min: nat, size: nat, p: nat)
    requires p in t && p < t[p].next && hdr > 0
    ensures var u := Allocated(t, hdr, min, size, p);
            p in u && u[p].next == if t[p].next - (p + hdr) >= size + hdr + min then p + hdr + size else t[p].next
  {}

  /**
   * From t to u the free block at p is given out with room for n bytes, all of it or its front, the front ending before
   * limit; what is cut off is free, and all other blocks are as they were.
   */
  ghost predicate RoomGiven(t: Blocks, u: Blocks, hdr: nat, p: nat, n: nat, limit: nat) {
    && p in t && !t[p].used && p in u && u[p].used && p + hdr + n <= u[p].next <= t[p].next && u[p].next < limit
    && (forall q :: q in t && q != p ==> q in u && u[q] == t[q])
    && (u[p].next < t[p].next ==> u[p].next in u && u[u[p].next] == Block(t[p].next, false))
    && (forall q :: q in u && q !in t ==> q == u[p].next)
  }

  lemma AllocatedIs(t: Blocks, hdr: nat, end: nat, min: nat, size: nat, p: nat)
    requires Tiling(t, hdr, end) && hdr > 0 && p in t && !t[p].used && p + hdr + size <= t[p].next
    ensures var u := Allocated(t, hdr, min, size, p);
            RoomGiven(t, u, hdr, p, size, p + hdr + size + hdr + min)
  {
    if t[p].next - (p + hdr) >= size + hdr + min { NotInside(t, p, p + hdr + size); }
  }

  lemma GivenRoom(t: Blocks, hdr: nat, end: nat, min: nat, size: nat, p: nat, n: nat)
    requires Tiling(t, hdr, end) && hdr > 0 && p in t && !t[p].used && p + hdr + size <= t[p].next && n <= size
    ensures var u := Allocated(t, hdr, min, size, p);
            RoomGiven(t, u, hdr, p, n, p + hdr + size + hdr + min)
  {
    AllocatedIs(t, hdr, end, min, size, p);
    hide Tiling, Allocated;
  }

  // ---- sums over the blocks

  /** What a block counts for: the whole block if it is used, or its payload if it is free. */
  datatype Measure = UsedBytes | FreePayload(hdr: nat)

  function Weight(w: Measure, p: nat, b: Block): int {
    match w
    case UsedBytes => if b.used then b.next - p else 0
    case FreePayload(hdr) => if b.used then 0 else b.next - p - hdr
  }

  /** The sum from the block at p on. */
  ghost function Sum(t: Blocks, w: Measure, end: nat, p: nat): int
    decreases end - p
  {
    if p in t && p < t[p].next <= end then Weight(w, p, t[p]) + Sum(t, w, end, t[p].next) else 0
  }

  /** Both tilings have the same blocks from p on. */
  ghost predicate SameFrom(t: Blocks, u: Blocks, p: nat) {
    forall q :: q >= p ==> (q in t <==> q in u) && (q in t ==> t[q] == u[q])
  }

  lemma {:induction false} SumAbove(t: Blocks, u: Blocks, w: Measure, end: nat, p: nat)
    requires SameFrom(t, u, p)
    ensures Sum(t, w, end, p) == Sum(u, w, end, p)
    decreases end - p
  {
    if p in t && p < t[p].next <= end { SumAbove(t, u, w, end, t[p].next); }
  }

  /** Both tilings have the same blocks before q; the sums differ by what they have from q on. */
  lemma {:induction false} SumBelow(t: Blocks, u: Blocks, w: Measure, hdr: nat, end: nat, p: nat, q: nat)
    requires Tiling(t, hdr, end) && p in t && q in t && p <= q
    requires forall r :: r in t && r < q ==> r in u && u[r] == t[r]
    ensures Sum(u, w, end, p) - Sum(u, w, end, q) == Sum(t, w, end, p) - Sum(t, w, end, q)
    decreases end - p
  {
    if p < q {
      assert Linked(t, end, p);
      SumBelow(t, u, w, hdr, end, t[p].next, q);
    }
  }

  lemma SumMark(t: Blocks, w: Measure, hdr: nat, end: nat, p: nat, used: bool)
    requires Tiling(t, hdr, end) && p in t
    ensures Sum(Mark(t, p, used), w, end, 0)
            == Sum(t, w, end, 0) - Weight(w, p, t[p]) + Weight(w, p, t[p].(used := used))
  {
    var u := Mark(t, p, used);
    SumBelow(t, u, w, hdr, end, 0, p);
    SumAbove(t, u, w, end, t[p].next);
  }

  lemma SumSplit(t: Blocks, w: Measure, hdr: nat, end: nat, p: nat, m: nat, front: bool, back: bool)
    requires Tiling(t, hdr, end) && p in t && p + hdr <= m && m + hdr <= t[p].next
    ensures Sum(Split(t, p, m, front, back), w, end, 0)
            == Sum(t, w, end, 0) - Weight(w, p, t[p]) + Weight(w, p, Block(m, front)) + Weight(w, m, Block(t[p].next, back))
  {
    var u := Split(t, p, m, front, back);
    SumBelow(t, u, w, hdr, end, 0, p);
    SumAbove(t, u, w, end, t[p].next);
    assert Sum(u, w, end, m) == Weight(w, m, u[m]) + Sum(u, w, end, u[m].next);
  }

  lemma SumJoin(t: Blocks, w: Measure, hdr: nat, end: nat, p: nat)
    requires Tiling(t, hdr, end) && p in t && t[p].next in t
    ensures var n := t[p].next;
            Sum(Join(t, p), w, end, 0)
            == Sum(t, w, end, 0) - Weight(w, p, t[p]) - Weight(w, n, t[n]) + Weight(w, p, Block(t[n].next, t[p].used))
  {
    var u, n := Join(t, p), t[p].next;
    SumBelow(t, u, w, hdr, end, 0, p);
    SumAbove(t, u, w, end, t[n].next);
    assert Sum(t, w, end, n) == Weight(w, n, t[n]) + Sum(t, w, end, t[n].next);
  }

  /** A tiling counts at most the bytes it tiles. */
  lemma {:induction false} SumBounded(t: Blocks, hdr: nat, end: nat, p: nat)
    requires Tiling(t, hdr, end) && (p in t || p == end)
    ensures 0 <= Sum(t, UsedBytes, end, p) <= end - p
    ensures 0 <= Sum(t, FreePayload(hdr), end, p) <= end - p - Sum(t, UsedBytes, end, p)
    decreases end - p
  {
    if p in t {
      assert Linked(t, end, p);
      SumBounded(t, hdr, end, t[p].next);
    }
  }

  // ---- no two free blocks in a row

  /** Only pairs with the block at p may both be free. */
  ghost predicate ApartBut(t: Blocks, p: nat) {
    forall q {:trigger Apart(t, q)} :: q in t && q != p && t[q].next != p ==> Apart(t, q)
  }

  /** Only the pair before p may both be free. */
  ghost predicate ApartAfter(t: Blocks, p: nat) {
    forall q {:trigger Apart(t, q)} :: q in t && t[q].next != p ==> Apart(t, q)
  }

  function Forward(t: Blocks, p: nat): Blocks
    requires p in t
  {
    if t[p].next in t && !t[t[p].next].used then Join(t, p) else t
  }

  /** q is the prev offset of the block at p, its own for the first block. */
  function Backward(t: Blocks, p: nat, q: nat): Blocks {
    if q != p && q in t && !t[q].used && t[q].next in t then Join(t, q) else t
  }

  lemma ForwardApart(t: Blocks, hdr: nat, end: nat, p: nat)
    requires Tiling(t, hdr, end) && p in t && !t[p].used && ApartBut(t, p)
    ensures var u := Forward(t, p);
            Tiling(u, hdr, end) && p in u && !u[p].used && ApartAfter(u, p) && forall q :: q < p ==> (q in u <==> q in t)
  {
    var u, n := Forward(t, p), t[p].next;
    if n in t && !t[n].used {
      JoinTiling(t, hdr, end, p);
      assert u[p] == Block(t[n].next, false);
      assert Apart(t, n);
      assert t[n].next in t ==> t[n].next != p;
      hide Join, Forward;
      forall q | q in u && u[q].next != p
        ensures Apart(u, q)
      {
        if q != p {
          assert Apart(t, q);
          if t[q].next == n { OnePredecessor(t, hdr, end, p, q); }
        }
      }
    } else {
      forall q | q in u && u[q].next != p
        ensures Apart(u, q)
      {
        assert q != p ==> Apart(t, q);
      }
    }
  }

  lemma BackwardApart(t: Blocks, hdr: nat, end: nat, p: nat, q: nat)
    requires Tiling(t, hdr, end) && p in t && !t[p].used && ApartAfter(t, p)
    requires if p == 0 then q == p else q in t && t[q].next == p
    ensures Tiling(Backward(t, p, q), hdr, end) && Coalesced(Backward(t, p, q))
  {
    var u := Backward(t, p, q);
    if q != p && !t[q].used {
      JoinTiling(t, hdr, end, q);
      assert u[q] == Block(t[p].next, false);
      assert Apart(t, p);
      hide Join, Backward;
      forall r | r in u
        ensures Apart(u, r)
      {
        if r != q {
          if t[r].next == p { OnePredecessor(t, hdr, end, r, q); }
          assert Apart(t, r);
        }
      }
    } else {
      forall r | r in t
        ensures Apart(t, r)
      {
        if t[r].next == p && p != 0 { OnePredecessor(t, hdr, end, r, q); }
        assert p == 0 ==> t[r].next != p;
        assert t[r].next != p ==> Apart(t, r);
      }
    }
  }

  lemma MarkApart(t: Blocks, hdr: nat, end: nat, p: nat)
    requires Tiling(t, hdr, end) && Coalesced(t) && p in t
    ensures ApartBut(Mark(t, p, false), p)
    ensures Coalesced(Mark(t, p, true))
  {
    var u, v := Mark(t, p, false), Mark(t, p, true);
    forall q | q in t
      ensures q != p && t[q].next != p ==> Apart(u, q)
      ensures Apart(v, q)
    {
      assert Apart(t, q);
    }
  }

  /** A free block that is cut to be used in front, or a used one that is shortened. */
  lemma SplitApart(t: Blocks, hdr: nat, end: nat, p: nat, m: nat)
    requires Tiling(t, hdr, end) && Coalesced(t) && p in t && p + hdr <= m && m + hdr <= t[p].next
    ensures !t[p].used ==> Coalesced(Split(t, p, m, true, false))
    ensures ApartBut(Split(t, p, m, true, false), m)
  {
    var u := Split(t, p, m, true, false);
    NotInside(t, p, m);
    assert u[p] == Block(m, true) && u[m] == Block(t[p].next, false);
    assert forall q :: q in u <==> q in t || q == m;
    assert forall q :: q in t && q != p ==> u[q] == t[q];
    assert Apart(t, p);
    hide Split;
    forall q | q in u && q != m
      ensures Apart(u, q)
    {
      if q != p {
        assert Apart(t, q) && Linked(t, end, q);
      }
    }
  }

  lemma SplitShape(t: Blocks, hdr: nat, end: nat, p: nat, m: nat)
    requires Tiling(t, hdr, end) && p in t && t[p].used && p + hdr <= m && m + hdr <= t[p].next
    ensures var s := Split(t, p, m, true, false);
            && m !in t && (forall q :: q in s <==> q in t || q == m) && (forall q :: q in t && q != p ==> s[q] == t[q])
            && s[p] == Block(m, true) && s[m] == Block(t[p].next, false) && p < m < t[p].next <= end
  {
    NotInside(t, p, m);
  }

  lemma PairApart(t: Blocks, hdr: nat, end: nat, p: nat, q: nat)
    requires Tiling(t, hdr, end) && p in t && q in t && p != q
    ensures t[p].next <= q || t[q].next <= p
    ensures p < t[p].next && q < t[q].next
  {}

  /** Every block but the one at p is followed by a used one, or is used. */
  ghost predicate ApartFrom(t: Blocks, p: nat) {
    forall q {:trigger Apart(t, q)} :: q in t && q != p ==> Apart(t, q)
  }

  /** The free block at p has no free block before it. */
  lemma LeftNone(t: Blocks, hdr: nat, end: nat, p: nat, q: nat)
    requires Tiling(t, hdr, end) && p in t && ApartBut(t, p) && (p == 0 || (q in t && t[q].next == p && t[q].used))
    ensures ApartFrom(t, p)
  {
    forall r | r in t && r != p
      ensures Apart(t, r)
    {
      if t[r].next == p && p != 0 { OnePredecessor(t, hdr, end, r, q); }
      assert p == 0 ==> t[r].next != p;
      assert t[r].next != p ==> Apart(t, r);
    }
  }

  /** The free block at q before the free block at p takes it in. */
  lemma LeftJoin(t: Blocks, hdr: nat, end: nat, p: nat, q: nat)
    requires Tiling(t, hdr, end) && p in t && !t[p].used && ApartBut(t, p) && q in t && t[q].next == p && !t[q].used
    ensures ApartFrom(Join(t, q), q) && q in Join(t, q) && !Join(t, q)[q].used
  {
    JoinTiling(t, hdr, end, q);
    var u := Join(t, q);
    assert u[q] == Block(t[p].next, false);
    hide Join;
    forall r | r in u && r != q
      ensures Apart(u, r)
    {
      if t[r].next == p { OnePredecessor(t, hdr, end, r, q); }
      assert Apart(t, r);
    }
  }

  lemma RightApart(t: Blocks, hdr: nat, end: nat, p: nat)
    requires Tiling(t, hdr, end) && p in t && !t[p].used && ApartFrom(t, p)
    ensures Coalesced(Forward(t, p)) && Tiling(Forward(t, p), hdr, end)
  {
    var u, n := Forward(t, p), t[p].next;
    if n in t && !t[n].used {
      JoinTiling(t, hdr, end, p);
      assert u[p] == Block(t[n].next, false) && n != p;
      assert Apart(t, n);
      hide Join, Forward;
      forall r | r in u
        ensures Apart(u, r)
      {
        if r != p {
          assert Apart(t, r);
          if t[r].next == n { OnePredecessor(t, hdr, end, r, p); }
        }
      }
    } else {
      forall r | r in t
        ensures Apart(t, r)
      {
        assert r != p ==> Apart(t, r);
      }
    }
  }

  /** Behind a used block that has been cut the rest is joined to a free block after it. */
  lemma ShortApart(t: Blocks, hdr: nat, end: nat, p: nat, m: nat)
    requires Tiling(t, hdr, end) && Coalesced(t) && p in t && t[p].used && p + hdr <= m && m + hdr <= t[p].next
    ensures var u := Split(t, p, m, true, false); m in u && Coalesced(Forward(u, m)) && Tiling(Forward(u, m), hdr, end)
  {
    hide Split, Tiling;
    SplitTiling(t, hdr, end, p, m, true, false);
    SplitApart(t, hdr, end, p, m);
    SplitShape(t, hdr, end, p, m);
    var u := Split(t, p, m, true, false);
    LeftNone(u, hdr, end, m, p);
    RightApart(u, hdr, end, m);
  }

  /** A used block that takes in a free one and is cut again. */
  lemma GrownApart(t: Blocks, hdr: nat, end: nat, p: nat, m: nat)
    requires Tiling(t, hdr, end) && Coalesced(t) && p in t && t[p].used && t[p].next in t && !t[t[p].next].used
    requires p + hdr <= m && m + hdr <= t[t[p].next].next
    ensures var j := Join(t, p);
            Tiling(j, hdr, end) && p in j && j[p] == Block(t[t[p].next].next, true)
            && var u := Split(j, p, m, true, false); Tiling(u, hdr, end) && Coalesced(u)
  {
    var j, n := Join(t, p), t[p].next;
    JoinTiling(t, hdr, end, p);
    assert j[p] == Block(t[n].next, true) && Apart(t, n);
    hide Join;
    forall r | r in j
      ensures Apart(j, r)
    {
      assert Apart(t, r);
      if r != p && t[r].next == n { OnePredecessor(t, hdr, end, r, p); }
    }
    hide Split, Tiling;
    ShortApart(j, hdr, end, p, m);
    SplitShape(j, hdr, end, p, m);
    SplitTiling(j, hdr, end, p, m, true, false);
    var u := Split(j, p, m, true, false);
    assert u[m].next in u ==> u[u[m].next].used;
    assert Forward(u, m) == u;
  }
}
