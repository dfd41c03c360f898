/** rtt/include/rtservice.h: circular doubly linked lists. A head node and the nodes reached from it represent a sequence. */
module RtList {
  import opened Sequences

  class Node {
    var next: Node
    var prev: Node

    /** rt_list_init */
    constructor ()
      ensures Ring(this, [])
    {
      next, prev := this, this;
    }

    /** rt_list_insert_after, called on the k-th node of the ring h, s: n is put behind it. */
    method InsertAfter(n: Node, ghost h: Node, ghost s: seq<Node>, ghost k: nat)
      requires Ring(h, s) && k <= |s| && this == At(h, s, k) && n != h && n !in s
      modifies this`next, next`prev, n
      ensures Ring(h, s[..k] + [n] + s[k..])
    {
      ghost var r := s[..k] + [n] + s[k..];
      Places(h, s, k);
      assert Joined(h, s, k);
      next.prev := n;
      n.next := next;
      next := n;
      n.prev := this;
      forall i | 0 <= i <= |r|
        ensures Joined(h, r, i)
      {
        assert old(i <= k ==> i <= |s| && Joined(h, s, i)) && old(i > k ==> Joined(h, s, i - 1));
      }
    }

    /**
     * rt_list_insert_before, called on the node behind the k-th: n is put in front of it. A node that the list of this
     * head holds already is not moved: the links then represent no sequence any more.
     */
    method InsertBefore(n: Node, ghost h: Node, ghost s: seq<Node>, ghost k: nat)
      requires Ring(h, s) && k <= |s| && this == At(h, s, k + 1) && n != h
      modifies this`prev, prev`next, n
      ensures n !in s ==> Ring(h, s[..k] + [n] + s[k..])
      ensures n in s && k == |s| ==> forall r :: !Ring(h, r)
    {
      ghost var r := s[..k] + [n] + s[k..];
      Places(h, s, k);
      assert Joined(h, s, k);
      prev.next := n;
      n.prev := prev;
      prev := n;
      n.next := this;
      if n !in s {
        forall i | 0 <= i <= |r|
          ensures Joined(h, r, i)
        {
          assert old(i <= k ==> i <= |s| && Joined(h, s, i)) && old(i > k ==> Joined(h, s, i - 1));
        }
      } else if k == |s| {
        ghost var i :| 0 <= i < |s| && s[i] == n;
        forall j | 0 <= j <= i
          ensures At(h, s, j).next == s[j]
        {
          assert old(Joined(h, s, j));
        }
        assert n.prev != At(h, s, i);
        forall q
          ensures !Ring(h, q)
        {
          if Ring(h, q) { WalkBack(h, s, q, i); }
        }
      }
    }

    /** rt_list_remove, called on s[k]: it leaves the sequence and becomes an empty list of its own. */
    method Remove(ghost h: Node, ghost s: seq<Node>, ghost k: nat)
      requires Ring(h, s) && k < |s| && this == s[k]
      modifies this, next`prev, prev`next
      ensures Ring(h, s[..k] + s[k + 1..]) && this !in s[..k] + s[k + 1..]
      ensures Ring(this, [])
    {
      ghost var r := s[..k] + s[k + 1..];
      assert Joined(h, s, k) && Joined(h, s, k + 1);
      Places(h, s, k);
      Places(h, s, k + 1);
      next.prev := prev;
      prev.next := next;
      next, prev := this, this;
      forall i | 0 <= i <= |r|
        ensures Joined(h, r, i)
      {
        assert old(i < k ==> Joined(h, s, i)) && old(i >= k ==> Joined(h, s, i + 1));
      }
    }

    /** rt_list_isempty, called on a head; the first node of a list that is not empty is the one after the head. */
    method IsEmpty(ghost s: seq<Node>) returns (r: bool)
      requires Ring(this, s)
      ensures r <==> s == []
      ensures !r ==> next == s[0] && prev == s[|s| - 1]
    {
      assert Joined(this, s, 0) && Joined(this, s, |s|);
      r := next == this;
    }
  }

  /** The i-th node of the ring: the head before the first and after the last of the others. */
  ghost function At(h: Node, s: seq<Node>, i: nat): Node
    requires i <= |s| + 1
  {
    if i == 0 || i == |s| + 1 then h else s[i - 1]
  }

  ghost predicate Joined(h: Node, s: seq<Node>, i: nat)
    requires i <= |s|
    reads h, s
  {
    At(h, s, i).next == At(h, s, i + 1) && At(h, s, i + 1).prev == At(h, s, i)
  }

  /** The list with head h represents s. */
  ghost predicate Ring(h: Node, s: seq<Node>)
    reads h, s
  {
    h !in s && Distinct(s) && forall i {:trigger Joined(h, s, i)} :: 0 <= i <= |s| ==> Joined(h, s, i)
  }

  /** The places of a ring hold different nodes. */
  lemma Places(h: Node, s: seq<Node>, k: nat)
    requires h !in s && Distinct(s) && k <= |s|
    ensures forall i :: 0 <= i <= |s| && i != k ==> At(h, s, i) != At(h, s, k)
    ensures forall i :: 0 < i <= |s| + 1 && i != k + 1 ==> At(h, s, i) != At(h, s, k + 1)
  {}

  /** A ring goes through the nodes that a walk along next meets. */
  lemma {:induction false} Reach(h: Node, s: seq<Node>, r: seq<Node>, j: nat)
    requires Ring(h, r) && h !in s && j <= |s| && forall m :: 0 <= m < j ==> At(h, s, m).next == s[m]
    ensures j <= |r| && r[..j] == s[..j]
  {
    if j > 0 {
      Reach(h, s, r, j - 1);
      assert Joined(h, r, j - 1) && At(h, r, j - 1) == At(h, s, j - 1);
    }
  }

  lemma WalkBack(h: Node, s: seq<Node>, r: seq<Node>, i: nat)
    requires Ring(h, r) && h !in s && i < |s| && forall m :: 0 <= m <= i ==> At(h, s, m).next == s[m]
    ensures s[i].prev == At(h, s, i)
  {
    Reach(h, s, r, i + 1);
    assert Joined(h, r, i) && r[i] == r[..i + 1][i] == s[i];
    if i > 0 { assert r[i - 1] == r[..i + 1][i - 1] == s[i - 1]; }
  }

  /** A head, walked in either direction, meets a sequence that is determined by the links. */
  lemma {:induction false} RingUnique(h: Node, s: seq<Node>, r: seq<Node>, k: nat)
    requires Ring(h, s) && Ring(h, r) && k <= |s| && |s| <= |r|
    ensures s[..k] == r[..k]
    ensures k == |s| ==> s == r
  {
    if k > 0 {
      RingUnique(h, s, r, k - 1);
      assert Joined(h, s, k - 1) && Joined(h, r, k - 1);
      assert At(h, s, k - 1) == At(h, r, k - 1);
    }
    if k == |s| { assert Joined(h, s, k) && Joined(h, r, k); }
  }
}
