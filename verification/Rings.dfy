/**
 * Circular doubly linked lists threaded through memory. Nodes are addresses; a list is a head node and the nodes
 * reached from it, and represents the sequence of the latter. rtt/src/memheap.c keeps its free blocks in one.
 */
module Rings {
  import opened Sequences

  datatype Link = Link(next: nat, prev: nat)

  type Links = map<nat, Link>

  /** The i-th node of the ring: the head before the first and after the last of the others. */
  function Node(h: nat, s: seq<nat>, i: nat): nat
    requires i <= |s| + 1
  {
    if i == 0 || i == |s| + 1 then h else s[i - 1]
  }

  ghost predicate Joined(l: Links, h: nat, s: seq<nat>, i: nat)
    requires i <= |s|
  {
    var a, b := Node(h, s, i), Node(h, s, i + 1);
    a in l && b in l && l[a].next == b && l[b].prev == a
  }

  /** The list with head h represents s. */
  ghost predicate Ring(l: Links, h: nat, s: seq<nat>) {
    && h in l && h !in s && Distinct(s) && (forall x :: x in s ==> x in l)
    && forall i {:trigger Joined(l, h, s, i)} :: 0 <= i <= |s| ==> Joined(l, h, s, i)
  }

  // ---- refinement of sequences

  lemma NodeInjective(h: nat, s: seq<nat>, i: nat, j: nat)
    requires h !in s && Distinct(s) && i <= |s| + 1 && j <= |s| + 1
    ensures Node(h, s, i) == Node(h, s, j) ==> i == j || (i == 0 && j == |s| + 1) || (j == 0 && i == |s| + 1)
  {}

  /** n has been linked in between a and b. */
  ghost predicate Spliced(l: Links, m: Links, a: nat, b: nat, n: nat) {
    && (forall x :: x in l <==> x in m) && a in l && b in l && n in l && n != a && n != b
    && m[a].next == n && m[b].prev == n && m[n] == Link(b, a)
    && (forall x :: x in l && x != a && x != n ==> m[x].next == l[x].next)
    && (forall x :: x in l && x != b && x != n ==> m[x].prev == l[x].prev)
  }

  lemma SpliceRing(l: Links, m: Links, h: nat, s: seq<nat>, k: nat, n: nat)
    requires Ring(l, h, s) && k <= |s| && n !in s && n != h
    requires Spliced(l, m, Node(h, s, k), Node(h, s, k + 1), n)
    ensures Ring(m, h, s[..k] + [n] + s[k..])
  {
    var r := s[..k] + [n] + s[k..];
    forall i | 0 <= i <= |r|
      ensures Joined(m, h, r, i)
    {
      if i < k {
        assert Joined(l, h, s, i);
        NodeInjective(h, s, i, k);
        NodeInjective(h, s, i + 1, k + 1);
      } else if i > k + 1 {
        assert Joined(l, h, s, i - 1);
        NodeInjective(h, s, i - 1, k);
        NodeInjective(h, s, i, k + 1);
      }
    }
  }

  /** n has been taken out from between a and b. */
  ghost predicate Unlinked(l: Links, m: Links, a: nat, b: nat, n: nat) {
    && (forall x :: x in l <==> x in m) && a in l && b in l && n in l && n != a && n != b
    && m[a].next == b && m[b].prev == a
    && (forall x :: x in l && x != a && x != n ==> m[x].next == l[x].next)
    && (forall x :: x in l && x != b && x != n ==> m[x].prev == l[x].prev)
  }

  lemma UnlinkRing(l: Links, m: Links, h: nat, s: seq<nat>, k: nat)
    requires Ring(l, h, s) && k < |s| && Unlinked(l, m, Node(h, s, k), Node(h, s, k + 2), s[k])
    ensures Ring(m, h, s[..k] + s[k + 1..]) && s[k] !in s[..k] + s[k + 1..]
  {
    var r := s[..k] + s[k + 1..];
    forall i | 0 <= i <= |r|
      ensures Joined(m, h, r, i)
    {
      if i < k {
        assert Joined(l, h, s, i);
        NodeInjective(h, s, i, k);
        NodeInjective(h, s, i + 1, k + 2);
      } else if i > k {
        assert Joined(l, h, s, i + 1);
        NodeInjective(h, s, i + 1, k);
        NodeInjective(h, s, i + 2, k + 2);
      }
    }
  }

  /** Lists without common nodes do not disturb each other. */
  lemma RingFrame(l: Links, m: Links, h: nat, s: seq<nat>)
    requires Ring(l, h, s) && h in m && m[h] == l[h] && forall x :: x in s ==> x in m && m[x] == l[x]
    ensures Ring(m, h, s)
  {
    forall i | 0 <= i <= |s|
      ensures Joined(m, h, s, i)
    {
      assert Joined(l, h, s, i);
    }
  }
}
