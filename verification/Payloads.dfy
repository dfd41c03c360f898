/** What changes of the blocks leave of the payloads: headers are stored in the memory itself, before each payload. */
module Payloads {
  import opened Tiles
  import opened Wrappers

  type byte = x: int | 0 <= x < 256

  /** The payload of a used block. */
  ghost function Payload(d: seq<byte>, t: Blocks, hdr: nat, p: nat): seq<byte>
    requires p in t && p + hdr <= t[p].next <= |d|
  {
    d[p + hdr..t[p].next]
  }

  /** The payloads of the used blocks are as they were. */
  ghost predicate Kept(d: seq<byte>, e: seq<byte>, t: Blocks, hdr: nat) {
    |d| == |e| && forall p :: p in t && t[p].used && p + hdr <= t[p].next <= |d| ==> Payload(d, t, hdr, p) == Payload(e, t, hdr, p)
  }

  ghost predicate SameBut(d: seq<byte>, e: seq<byte>, o: nat, hdr: nat) {
    |d| == |e| && forall k :: 0 <= k < |d| && !(o <= k < o + hdr) ==> d[k] == e[k]
  }

  /** Headers lie outside all payloads. */
  lemma KeptHeader(d: seq<byte>, e: seq<byte>, t: Blocks, hdr: nat, end: nat, o: nat)
    requires Tiling(t, hdr, end) && (o in t || o == end) && SameBut(d, e, o, hdr)
    ensures Kept(d, e, t, hdr)
  {
    forall p | p in t && t[p].used && p + hdr <= t[p].next <= |d|
      ensures Payload(d, t, hdr, p) == Payload(e, t, hdr, p)
    {
      assert o in t && o < p ==> t[o].next <= p && o + hdr <= t[o].next;
      assert o in t && p < o ==> t[p].next <= o;
    }
  }

  lemma KeptSelf(d: seq<byte>, t: Blocks, hdr: nat)
    ensures Kept(d, d, t, hdr)
  {}

  lemma KeptTrans(d: seq<byte>, e: seq<byte>, f: seq<byte>, t: Blocks, hdr: nat)
    requires Kept(d, e, t, hdr) && Kept(e, f, t, hdr)
    ensures Kept(d, f, t, hdr)
  {}

  lemma KeptJoin(d: seq<byte>, e: seq<byte>, t: Blocks, hdr: nat, end: nat, p: nat)
    requires Tiling(t, hdr, end) && Kept(d, e, t, hdr) && p in t && !t[p].used && t[p].next in t
    ensures Kept(d, e, Join(t, p), hdr)
  {
    JoinTiling(t, hdr, end, p);
    var u := Join(t, p);
    assert u[p].used == false;
    hide Join;
    forall q | q in u && u[q].used && q + hdr <= u[q].next <= |d|
      ensures Payload(d, u, hdr, q) == Payload(e, u, hdr, q)
    {
      assert Payload(d, t, hdr, q) == Payload(e, t, hdr, q);
    }
  }

  lemma KeptSplitBack(d: seq<byte>, e: seq<byte>, t: Blocks, hdr: nat, end: nat, p: nat, m: nat)
    requires Tiling(t, hdr, end) && p in t && !t[p].used && p < m < t[p].next
    requires Kept(d, e, Split(t, p, m, true, false), hdr)
    ensures Kept(d, e, t, hdr)
  {
    var u := Split(t, p, m, true, false);
    NotInside(t, p, m);
    forall q | q in t && t[q].used && q + hdr <= t[q].next <= |d|
      ensures Payload(d, t, hdr, q) == Payload(e, t, hdr, q)
    {
      assert q in u && u[q] == t[q];
      assert Payload(d, u, hdr, q) == Payload(e, u, hdr, q);
    }
  }

  lemma KeptPlug(d: seq<byte>, e: seq<byte>, t: Blocks, hdr: nat, end: nat, p: nat, q: nat)
    requires Tiling(t, hdr, end) && Kept(d, e, t, hdr) && p in t && !t[p].used
    ensures Kept(d, e, Backward(Forward(t, p), p, q), hdr)
  {
    var u := Forward(t, p);
    if t[p].next in t && !t[t[p].next].used {
      JoinTiling(t, hdr, end, p);
      KeptJoin(d, e, t, hdr, end, p);
    }
    if q in u && !u[q].used && u[q].next in u { KeptJoin(d, e, u, hdr, end, q); }
  }

  /** Every used block but p is in both tilings, with the same payload. */
  ghost predicate Others(d: seq<byte>, t: Blocks, e: seq<byte>, u: Blocks, hdr: nat, p: nat) {
    |d| == |e| && forall x :: x in t && t[x].used && x != p && x + hdr <= t[x].next <= |d| ==>
      x in u && u[x] == t[x] && Payload(d, t, hdr, x) == Payload(e, u, hdr, x)
  }

  /** The block at p has become the one at q, of at least n bytes, that begins with what p held. */
  ghost predicate Resized(d: seq<byte>, t: Blocks, e: seq<byte>, u: Blocks, hdr: nat, p: nat, q: nat, n: nat) {
    && Others(d, t, e, u, hdr, p)
    && p in t && p + hdr <= t[p].next <= |d| && q in u && u[q].used && q + hdr + n <= u[q].next <= |e|
    && var k := Min(t[p].next - p - hdr, n); d[p + hdr..p + hdr + k] == e[q + hdr..q + hdr + k]
  }

  lemma ResizedSame(d: seq<byte>, t: Blocks, hdr: nat, end: nat, p: nat)
    requires Tiling(t, hdr, end) && p in t && t[p].used && end <= |d|
    ensures Resized(d, t, d, t, hdr, p, p, t[p].next - p - hdr)
  {}

  lemma ResizedShrunk(d: seq<byte>, t: Blocks, e: seq<byte>, u: Blocks, hdr: nat, end: nat, p: nat, n: nat)
    requires Tiling(t, hdr, end) && end <= |d| && p in t && t[p].used && p + hdr + n <= t[p].next
    requires p in u && u[p] == Block(p + hdr + n, true) && Kept(d, e, u, hdr)
    requires forall x :: x in t && t[x].used && x != p ==> x in u && u[x] == t[x]
    ensures Resized(d, t, e, u, hdr, p, p, n)
  {
    assert Payload(d, u, hdr, p) == Payload(e, u, hdr, p);
    forall x | x in t && t[x].used && x != p && x + hdr <= t[x].next <= |d|
      ensures Payload(d, t, hdr, x) == Payload(e, u, hdr, x)
    {
      assert Payload(d, u, hdr, x) == Payload(e, u, hdr, x);
    }
  }

  /** Every used block of t but p is in u as it was. */
  ghost predicate Rest(t: Blocks, u: Blocks, p: nat) {
    forall x :: x in t && t[x].used && x != p ==> x in u && u[x] == t[x]
  }

  /** No other block than q is used in u that was not, and p is not, unless it is q. */
  ghost predicate Only(t: Blocks, u: Blocks, p: nat, q: nat) {
    forall x :: x in u && u[x].used && x != q ==> x in t && x != p && t[x] == u[x]
  }

  /** The used blocks of u were used, and p is not one of them. */
  ghost predicate NoneElse(t: Blocks, u: Blocks, p: nat) {
    forall x :: x in u && u[x].used ==> x in t && x != p && t[x] == u[x]
  }

  lemma JoinOnly(t: Blocks, p: nat)
    requires p in t && !t[p].used && t[p].next in t
    ensures forall x :: x in Join(t, p) && Join(t, p)[x].used ==> x in t && t[x] == Join(t, p)[x]
    ensures p != t[p].next ==> p in Join(t, p) && !Join(t, p)[p].used
  {}

  lemma MarkOnly(t: Blocks, p: nat)
    requires p in t
    ensures p in Mark(t, p, false) && !Mark(t, p, false)[p].used && Mark(t, p, false)[p].next == t[p].next
    ensures NoneElse(t, Mark(t, p, false), p)
  {}

  /** One block is taken, another one given back. */
  lemma MoveOnly(t: Blocks, u: Blocks, v: Blocks, hdr: nat, min: nat, size: nat, p: nat, q: nat)
    requires q in t && u == Allocated(t, hdr, min, size, q)
    requires NoneElse(u, v, p)
    ensures Only(t, v, p, q)
  {}

  lemma JoinRest(t: Blocks, p: nat, r: nat)
    requires p in t && !t[p].used && t[p].next in t && !t[t[p].next].used
    ensures Rest(t, Join(t, p), r)
  {}

  lemma Begin(d: seq<byte>, e: seq<byte>, t: Blocks, hdr: nat, p: nat, k: nat)
    requires p in t && p + hdr + k <= t[p].next <= |d| == |e| && Payload(d, t, hdr, p) == Payload(e, t, hdr, p)
    ensures d[p + hdr..p + hdr + k] == e[p + hdr..p + hdr + k]
  {
    assert Payload(d, t, hdr, p)[..k] == d[p + hdr..p + hdr + k];
    assert Payload(e, t, hdr, p)[..k] == e[p + hdr..p + hdr + k];
  }

  /** Copying into a new block leaves every other payload. */
  lemma CopiedApart(e: seq<byte>, f: seq<byte>, t: Blocks, hdr: nat, end: nat, q: nat, x: nat, src: nat, k: nat)
    requires Tiling(t, hdr, end) && end <= |e| && q in t && x in t && x != q && q + hdr + k <= t[q].next
    requires Copied(e, f, q + hdr, src, k)
    ensures x + hdr <= t[x].next <= |e| && |f| == |e| && Payload(e, t, hdr, x) == Payload(f, t, hdr, x)
  {
    PairApart(t, hdr, end, q, x);
  }

  lemma RelocatedOthers(d: seq<byte>, t: Blocks, e: seq<byte>, u: Blocks, f: seq<byte>, g: seq<byte>, v: Blocks,
                        hdr: nat, end: nat, p: nat, q: nat, n: nat, k: nat)
    requires Tiling(u, hdr, end) && end <= |e| && Kept(d, e, t, hdr) && p in t && t[p].used && k <= n
    requires Beside(t, u, hdr, end, p, q, n) && Copied(e, f, q + hdr, p + hdr, k) && Kept(f, g, v, hdr) && Rest(u, v, p)
    ensures Others(d, t, g, v, hdr, p)
  {
    hide Tiling;
    forall x | x in t && t[x].used && x != p && x + hdr <= t[x].next <= |d|
      ensures x in v && v[x] == t[x] && Payload(d, t, hdr, x) == Payload(g, v, hdr, x)
    {
      assert x in u && u[x] == t[x] && x != q;
      CopiedApart(e, f, u, hdr, end, q, x, p + hdr, k);
      assert Payload(d, t, hdr, x) == Payload(e, t, hdr, x);
      assert Payload(f, v, hdr, x) == Payload(g, v, hdr, x);
    }
  }

  lemma RelocatedResized(d: seq<byte>, t: Blocks, e: seq<byte>, u: Blocks, f: seq<byte>, g: seq<byte>, v: Blocks,
                         hdr: nat, end: nat, p: nat, q: nat, n: nat, k: nat)
    requires Tiling(t, hdr, end) && Tiling(u, hdr, end) && end <= |e| && Kept(d, e, t, hdr)
    requires p in t && t[p].used && Beside(t, u, hdr, end, p, q, n)
    requires k == Min(t[p].next - p - hdr, n) && Copied(e, f, q + hdr, p + hdr, k)
    requires Kept(f, g, v, hdr) && Rest(u, v, p)
    ensures Resized(d, t, g, v, hdr, p, q, n)
  {
    assert p + hdr <= t[p].next <= end && u[q].next <= end;
    assert q in v && v[q] == u[q];
    hide Tiling, Others;
    RelocatedOthers(d, t, e, u, f, g, v, hdr, end, p, q, n, k);
    Begin(d, e, t, hdr, p, k);
    Begin(f, g, v, hdr, q, k);
  }

  /** Beside the used block at p a block of at least n bytes has been allocated at q. */
  ghost predicate Beside(t: Blocks, u: Blocks, hdr: nat, end: nat, p: nat, q: nat, n: nat) {
    && q in u && u[q].used && q + hdr + n <= u[q].next <= end && (q in t ==> !t[q].used)
    && (forall x :: x in t && t[x].used ==> x in u && u[x] == t[x])
    && p in t && (u[q].next <= p || t[p].next <= q)
  }

  lemma BesideKeeps(t: Blocks, u: Blocks, hdr: nat, end: nat, p: nat, q: nat, n: nat)
    requires Beside(t, u, hdr, end, p, q, n) && p in t && t[p].used
    ensures p in u && u[p] == t[p] && q in u && q + hdr + n <= u[q].next <= end && (u[q].next <= p || t[p].next <= q)
  {}

  ghost predicate Copied(d: seq<byte>, e: seq<byte>, dst: nat, src: nat, n: nat) {
    && |d| == |e| && dst + n <= |d| && src + n <= |d| && e[dst..dst + n] == d[src..src + n]
    && forall k :: 0 <= k < |d| && !(dst <= k < dst + n) ==> e[k] == d[k]
  }

  /** rt_memcpy between two payloads. */
  method Copy(data: array<byte>, dst: nat, src: nat, n: nat)
    requires dst + n <= data.Length && src + n <= data.Length && (dst + n <= src || src + n <= dst)
    modifies data
    ensures Copied(old(data[..]), data[..], dst, src, n)
  {
    var i := 0;
    while i < n
      invariant i <= n && forall k :: dst <= k < dst + i ==> data[k] == old(data[src + (k - dst)])
      invariant forall k :: 0 <= k < data.Length && !(dst <= k < dst + i) ==> data[k] == old(data[k])
    {
      data[dst + i] := data[src + i];
      i := i + 1;
    }
  }
}
