/** rtt/src/mem.c: the headers of the first-fit heap against the tiling they describe, its holes, and lfree. */
module HeapHeaders {
  import opened Tiles

  const HEAP_MAGIC := 0x1ea0
  const MIN_SIZE := 12

  /** struct heap_mem */
  datatype Header = Header(magic: nat, used: bool, next: nat, prev: nat)

  type Headers = map<nat, Header>

  // ---- headers and tiling

  ghost predicate Same(h: Headers, t: Blocks, p: nat)
    requires p in t
  {
    p in h && h[p].next == t[p].next && h[p].used == t[p].used && (t[p].used ==> h[p].magic == HEAP_MAGIC)
  }

  /** prev of the block after p, unless that is the end marker. */
  ghost predicate Back(h: Headers, t: Blocks, p: nat)
    requires p in t
  {
    t[p].next in t ==> t[p].next in h && h[t[p].next].prev == p
  }

  /** The headers of the blocks describe the tiling; prev of the end marker means nothing. */
  ghost predicate Describes(h: Headers, t: Blocks, end: nat) {
    && (forall p {:trigger Same(h, t, p)} :: p in t ==> Same(h, t, p))
    && (forall p {:trigger Back(h, t, p)} :: p in t ==> Back(h, t, p))
    && 0 in h && h[0].prev == 0
    && end in h && end !in t && h[end].used && h[end].next == end
  }

  /** Writing the used flag and the magic of one header. */
  lemma MarkHeader(h: Headers, t: Blocks, end: nat, p: nat, used: bool, magic: nat)
    requires Describes(h, t, end) && p in t && p in h && (used ==> magic == HEAP_MAGIC)
    ensures Describes(h[p := h[p].(used := used, magic := magic)], Mark(t, p, used), end)
  {
    var g, u := h[p := h[p].(used := used, magic := magic)], Mark(t, p, used);
    forall q | q in u
      ensures Same(g, u, q) && Back(g, u, q)
    {
      assert Same(h, t, q) && Back(h, t, q);
    }
  }

  /** The header writes that cut the block at p at m. */
  function CutHeaders(h: Headers, p: nat, m: nat, end: nat, front: bool, magic: nat): Headers
    requires p in h && h[p].next in h
  {
    var n := h[p].next;
    var cut := h[m := Header(magic, false, n, p)][p := h[p].(next := m, used := front)];
    if n != end then cut[n := h[n].(prev := m)] else cut
  }

  /** What the block at p being cut at m changes in headers and tiling; n is where it ended. */
  ghost predicate Cut(h: Headers, g: Headers, t: Blocks, u: Blocks, p: nat, m: nat, n: nat, end: nat, front: bool, magic: nat) {
    && p in t && t[p].next == n && p < m < n && m !in t && p in h && n in h && n <= end
    && (forall q :: q in u <==> q in t || q == m)
    && u[p] == Block(m, front) && u[m] == Block(n, false) && (forall q :: q in t && q != p ==> u[q] == t[q])
    && (forall q :: q in h ==> q in g) && m in g
    && g[m] == Header(magic, false, n, p) && g[p] == h[p].(next := m, used := front)
    && g[n] == (if n != end then h[n].(prev := m) else h[n])
    && (forall q :: q in h && q != p && q != m && q != n ==> g[q] == h[q])
  }

  lemma CutFacts(h: Headers, t: Blocks, hdr: nat, end: nat, p: nat, m: nat, front: bool, magic: nat)
    requires Tiling(t, hdr, end) && Describes(h, t, end) && p in t && p + hdr <= m && m + hdr <= t[p].next
    ensures p in h && h[p].next == t[p].next && h[p].next in h
    ensures Cut(h, CutHeaders(h, p, m, end, front, magic), t, Split(t, p, m, front, false), p, m, t[p].next, end, front, magic)
  {
    assert Same(h, t, p) && Back(h, t, p) && Linked(t, end, p);
    assert t[p].next in t ==> Same(h, t, t[p].next);
    NotInside(t, p, m);
    hide Describes, Tiling;
  }

  lemma CutSame(h: Headers, g: Headers, t: Blocks, u: Blocks, p: nat, m: nat, n: nat, end: nat, front: bool, magic: nat, q: nat)
    requires Cut(h, g, t, u, p, m, n, end, front, magic) && q in u && (q in t ==> Same(h, t, q))
    requires front ==> h[p].magic == HEAP_MAGIC
    ensures Same(g, u, q)
  {}

  lemma CutBack(h: Headers, g: Headers, t: Blocks, u: Blocks, hdr: nat, p: nat, m: nat, n: nat, end: nat, front: bool, magic: nat, q: nat)
    requires Cut(h, g, t, u, p, m, n, end, front, magic) && q in u && end !in t && Tiling(t, hdr, end)
    requires q in t ==> Back(h, t, q)
    ensures Back(g, u, q)
  {
    if q in t && q != p {
      if t[q].next == n { OnePredecessor(t, hdr, end, p, q); }
      assert Linked(t, end, q);
      assert t[q].next == p ==> g[p].prev == h[p].prev;
    }
    hide Tiling;
  }

  lemma SplitHeaders(h: Headers, t: Blocks, hdr: nat, end: nat, p: nat, m: nat, front: bool, magic: nat)
    requires Tiling(t, hdr, end) && Describes(h, t, end) && p in t && p + hdr <= m && m + hdr <= t[p].next
    requires p in h && (front ==> h[p].magic == HEAP_MAGIC)
    ensures h[p].next == t[p].next && h[p].next in h
    ensures Describes(CutHeaders(h, p, m, end, front, magic), Split(t, p, m, front, false), end)
  {
    CutFacts(h, t, hdr, end, p, m, front, magic);
    var g, u, n := CutHeaders(h, p, m, end, front, magic), Split(t, p, m, front, false), t[p].next;
    assert g[0].prev == 0 && end in g && end !in u && g[end].used && g[end].next == end by {
      hide CutHeaders, Split;
    }
    assert end !in t;
    hide CutHeaders, Split, Cut;
    forall q | q in u
      ensures Same(g, u, q) && Back(g, u, q)
    {
      assert q in t ==> Same(h, t, q) && Back(h, t, q);
      hide Same, Back, Describes, Tiling;
      CutSame(h, g, t, u, p, m, n, end, front, magic, q);
      CutBack(h, g, t, u, hdr, p, m, n, end, front, magic, q);
    }
  }

  /** The header writes by which the block at p takes in the one after it. */
  function JoinedHeaders(h: Headers, p: nat): Headers
    requires p in h && h[p].next in h && h[h[p].next].next in h
  {
    var nn := h[h[p].next].next;
    var g := h[p := h[p].(next := nn)];
    g[nn := g[nn].(prev := p)]
  }

  /** What that changes; n is the block taken in, nn where it ended. */
  ghost predicate Joined(h: Headers, g: Headers, t: Blocks, u: Blocks, p: nat, n: nat, nn: nat, end: nat) {
    && p in t && t[p].next == n && n in t && t[n].next == nn && p < n < nn <= end && p in h && nn in h
    && (forall q :: q in u <==> q in t && q != n)
    && u[p] == Block(nn, t[p].used) && (forall q :: q in u && q != p ==> u[q] == t[q])
    && (forall q :: q in h ==> q in g)
    && g[p] == h[p].(next := nn) && g[nn] == h[nn].(prev := p)
    && (forall q :: q in h && q != p && q != nn ==> g[q] == h[q])
  }

  lemma JoinFacts(h: Headers, t: Blocks, hdr: nat, end: nat, p: nat)
    requires Tiling(t, hdr, end) && Describes(h, t, end) && p in t && t[p].next in t
    ensures p in h && h[p].next == t[p].next && h[p].next in h && h[h[p].next].next == t[t[p].next].next && t[t[p].next].next in h
    ensures var n := t[p].next; Joined(h, JoinedHeaders(h, p), t, Join(t, p), p, n, t[n].next, end)
  {
    var n := t[p].next;
    assert Same(h, t, p) && Same(h, t, n) && Linked(t, end, n);
    assert t[n].next in t ==> Same(h, t, t[n].next);
    hide Describes, Tiling;
  }

  lemma JoinedSame(h: Headers, g: Headers, t: Blocks, u: Blocks, p: nat, n: nat, nn: nat, end: nat, q: nat)
    requires Joined(h, g, t, u, p, n, nn, end) && q in u && Same(h, t, q)
    ensures Same(g, u, q)
  {}

  lemma JoinedBack(h: Headers, g: Headers, t: Blocks, u: Blocks, hdr: nat, p: nat, n: nat, nn: nat, end: nat, q: nat)
    requires Joined(h, g, t, u, p, n, nn, end) && q in u && end !in t && Tiling(t, hdr, end) && Back(h, t, q) && Back(h, t, n)
    ensures Back(g, u, q)
  {
    if q != p {
      if t[q].next == n { OnePredecessor(t, hdr, end, p, q); }
      if t[q].next == nn { OnePredecessor(t, hdr, end, n, q); }
      assert t[q].next == p ==> g[p].prev == h[p].prev;
    }
    hide Tiling;
  }

  lemma JoinHeaders(h: Headers, t: Blocks, hdr: nat, end: nat, p: nat)
    requires Tiling(t, hdr, end) && Describes(h, t, end) && p in t && t[p].next in t
    ensures p in h && h[p].next == t[p].next && h[p].next in h && h[h[p].next].next == t[t[p].next].next && t[t[p].next].next in h
    ensures Describes(JoinedHeaders(h, p), Join(t, p), end)
  {
    JoinFacts(h, t, hdr, end, p);
    var g, u, n := JoinedHeaders(h, p), Join(t, p), t[p].next;
    assert 0 in g && g[0].prev == 0 && end in g && end !in u && g[end].used && g[end].next == end by {
      hide JoinedHeaders, Join;
    }
    assert end !in t && Back(h, t, n);
    assert forall q :: q in u ==> q in t by { hide JoinedHeaders, Join; }
    hide JoinedHeaders, Join, Joined;
    forall q | q in u
      ensures Same(g, u, q) && Back(g, u, q)
    {
      assert Same(h, t, q) && Back(h, t, q);
      hide Same, Back, Describes, Tiling;
      JoinedSame(h, g, t, u, p, n, t[n].next, end, q);
      JoinedBack(h, g, t, u, hdr, p, n, t[n].next, end, q);
    }
  }

  // ---- the lowest free block

  /** lfree is a free block, or the end marker. */
  ghost predicate FreeOrEnd(t: Blocks, end: nat, lfree: nat) { lfree == end || (lfree in t && !t[lfree].used) }

  /** No free block lies below it. */
  ghost predicate Lowest(t: Blocks, lfree: nat) { forall p :: p in t && p < lfree ==> t[p].used }

  function JoinLfree(t: Blocks, p: nat, lfree: nat): nat
    requires p in t
  {
    if lfree == t[p].next then p else lfree
  }

  function ForwardLfree(t: Blocks, p: nat, lfree: nat): nat
    requires p in t
  {
    if t[p].next in t && !t[t[p].next].used then JoinLfree(t, p, lfree) else lfree
  }

  lemma JoinKeepsLfree(t: Blocks, hdr: nat, end: nat, p: nat, lfree: nat)
    requires Tiling(t, hdr, end) && p in t && t[p].next in t && !t[p].used && FreeOrEnd(t, end, lfree) && end !in t
    ensures FreeOrEnd(Join(t, p), end, JoinLfree(t, p, lfree))
    ensures Lowest(t, lfree) ==> Lowest(Join(t, p), JoinLfree(t, p, lfree))
  {
    JoinTiling(t, hdr, end, p);
    assert Join(t, p)[p].used == t[p].used;
    hide Join;
  }

}
