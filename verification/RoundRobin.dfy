/**
 * rtt/src/clock.c and rtt/src/thread.c: threads of the most urgent priority share the processor in turns of their
 * time slices, as long as nothing but ticks happens.
 */
module RoundRobin {
  import opened Wrappers
  import opened WaitList
  import opened Sequences
  import opened ReadyLists
  import T = ThreadLists
  import K = Kernel

  type Ticks = Thread -> nat

  /** The most urgent ready list, its first thread running, and what is left of the slices. */
  datatype Turn = Turn(queue: seq<Thread>, left: Ticks)

  function Next(s: Turn, slice: Ticks): Turn {
    if s.queue == [] then s
    else
      var t := s.queue[0];
      if s.left(t) > 1 then s.(left := Update(s.left, t, s.left(t) - 1))
      else Turn(if |s.queue| > 1 then s.queue[1..] + [t] else s.queue, Update(s.left, t, slice(t)))
  }

  function After(s: Turn, slice: Ticks, n: nat): Turn
    decreases n
  {
    if n == 0 then s else After(Next(s, slice), slice, n - 1)
  }

  /** What is left to the first k threads. */
  function Ahead(s: Turn, k: nat): nat
    requires k <= |s.queue|
  {
    if k == 0 then 0 else Ahead(s, k - 1) + s.left(s.queue[k - 1])
  }

  ghost predicate Positive(s: Turn, slice: Ticks) {
    Distinct(s.queue) && (forall t: Thread :: slice(t) > 0) && forall t :: t in s.queue ==> s.left(t) > 0
  }

  lemma {:induction false} AheadSame(s: Turn, r: Turn, k: nat, t: Thread)
    requires k <= |s.queue| && s.queue == r.queue && t !in s.queue[..k]
    requires forall u :: u in s.queue && u != t ==> r.left(u) == s.left(u)
    ensures Ahead(r, k) == Ahead(s, k)
  {
    if k > 0 {
      assert s.queue[..k][k - 1] == s.queue[k - 1] && s.queue[..k][..k - 1] == s.queue[..k - 1];
      AheadSame(s, r, k - 1, t);
    }
  }

  /** One tick of a slice that goes on. */
  lemma {:induction false} AheadTick(s: Turn, slice: Ticks, k: nat)
    requires Positive(s, slice) && 0 < k < |s.queue| && s.left(s.queue[0]) > 1
    ensures Next(s, slice).queue == s.queue && Ahead(Next(s, slice), k) == Ahead(s, k) - 1
  {
    if k > 1 { AheadTick(s, slice, k - 1); } else { assert Ahead(s, 1) == Ahead(s, 0) + s.left(s.queue[0]); }
  }

  /** The last tick of a slice. */
  lemma {:induction false} AheadTurn(s: Turn, slice: Ticks, k: nat)
    requires Positive(s, slice) && 0 < k < |s.queue| && s.left(s.queue[0]) == 1
    ensures var r := Next(s, slice);
            && r.queue == s.queue[1..] + [s.queue[0]] && r.queue[k - 1] == s.queue[k]
            && Ahead(r, k - 1) == Ahead(s, k) - 1
  {
    var r := Next(s, slice);
    if k > 1 {
      AheadTurn(s, slice, k - 1);
      assert r.queue[k - 2] == s.queue[k - 1];
    } else {
      assert Ahead(s, 1) == Ahead(s, 0) + s.left(s.queue[0]);
    }
  }

  lemma PositiveNext(s: Turn, slice: Ticks)
    requires Positive(s, slice)
    ensures Positive(Next(s, slice), slice)
  {
    if s.queue != [] {
      var t := s.queue[0];
      assert t !in s.queue[1..];
      assert forall u :: u in Next(s, slice).queue <==> u in s.queue;
    }
  }

  /**
   * A waiting thread runs after exactly as many ticks as are left to the threads before it, and not earlier.
   */
  lemma {:induction false} TurnComes(s: Turn, slice: Ticks, k: nat, m: nat)
    requires Positive(s, slice) && k < |s.queue| && m <= Ahead(s, k)
    ensures After(s, slice, m).queue != []
    ensures After(s, slice, m).queue[0] == s.queue[k] <==> m == Ahead(s, k)
    decreases m
  {
    if k == 0 {
      assert m == 0;
    } else if m == 0 {
      AheadPositive(s, slice, k);
    } else {
      PositiveNext(s, slice);
      var t, r := s.queue[0], Next(s, slice);
      assert t in s.queue;
      if s.left(t) > 1 {
        AheadTick(s, slice, k);
        TurnComes(r, slice, k, m - 1);
      } else {
        AheadTurn(s, slice, k);
        TurnComes(r, slice, k - 1, m - 1);
      }
    }
  }

  lemma {:induction false} AheadPositive(s: Turn, slice: Ticks, k: nat)
    requires Positive(s, slice) && 0 < k < |s.queue|
    ensures Ahead(s, k) > 0
  {
    assert s.queue[k - 1] in s.queue;
  }

  /** The whole slices of the first k threads. */
  function Slices(q: seq<Thread>, slice: Ticks, k: nat): nat
    requires k <= |q|
  {
    if k == 0 then 0 else Slices(q, slice, k - 1) + slice(q[k - 1])
  }

  lemma {:induction false} AheadWithinSlices(s: Turn, slice: Ticks, k: nat)
    requires k <= |s.queue| && forall t :: t in s.queue ==> s.left(t) <= slice(t)
    ensures Ahead(s, k) <= Slices(s.queue, slice, k)
  {
    if k > 0 {
      AheadWithinSlices(s, slice, k - 1);
      assert s.queue[k - 1] in s.queue;
    }
  }

  /** A waiting thread runs within the sum of the slices of the threads ahead of it. */
  lemma TurnWithinSlices(s: Turn, slice: Ticks, k: nat) returns (m: nat)
    requires Positive(s, slice) && k < |s.queue| && forall t :: t in s.queue ==> s.left(t) <= slice(t)
    ensures m <= Slices(s.queue, slice, k)
    ensures After(s, slice, m).queue != [] && After(s, slice, m).queue[0] == s.queue[k]
  {
    m := Ahead(s, k);
    AheadWithinSlices(s, slice, k);
    TurnComes(s, slice, k, m);
  }

  // ---- the kernel does this

  /** The kernel's most urgent list and slices are those of the turn. */
  ghost predicate Shows(k: K.Kernel, h: nat, s: Turn, slice: Ticks)
    reads k
  {
    && MostUrgent(k.queues, h) && k.current == Some(k.queues[h][0]) && k.lockNest == 0 && s.queue == k.queues[h]
    && forall t :: t in s.queue ==> t in k.ts && Slice(k.ts[t], h, s.left(t), slice(t))
  }

  ghost predicate Slice(th: T.Thread, h: nat, left: nat, slice: nat) {
    th.remaining == left && th.initTick == slice && th.stat.Ready? && th.prio == h
  }

  method OneTick(k: K.Kernel, ghost h: nat, ghost s: Turn, ghost slice: Ticks)
    requires k.Valid() && Shows(k, h, s, slice) && Positive(s, slice)
    modifies k
    ensures k.Valid() && Shows(k, h, Next(s, slice), slice)
  {
    hide Agrees, T.Listed, Without;
    Head(k, h, s, slice);
    FirstLeaves(s.queue);
    ghost var q := k.queues;
    k.Tick();
    if q[h] == k.queues[h] { assert k.queues == q; }
    assert MostUrgent(k.queues, h);
  }

  lemma FirstLeaves(q: seq<Thread>)
    requires q != []
    ensures Without(q, q[0]) == q[1..]
  {}

  /** n ticks without any other event. */
  method RunTicks(k: K.Kernel, n: nat, ghost h: nat, ghost s: Turn, ghost slice: Ticks)
    requires k.Valid() && Shows(k, h, s, slice) && Positive(s, slice)
    modifies k
    ensures k.Valid() && Shows(k, h, After(s, slice, n), slice)
  {
    hide Agrees, T.Listed, Shows, Positive, Next;
    var i := 0;
    ghost var r := s;
    while i < n
      invariant i <= n && k.Valid() && Shows(k, h, r, slice) && Positive(r, slice)
      invariant After(r, slice, n - i) == After(s, slice, n)
    {
      PositiveNext(r, slice);
      OneTick(k, h, r, slice);
      r := Next(r, slice);
      i := i + 1;
    }
  }

  lemma Head(k: K.Kernel, h: nat, s: Turn, slice: Ticks)
    requires Shows(k, h, s, slice)
    ensures k.SomeReady() && s.queue[0] in s.queue && k.current.Some? && k.current.value in k.ts
  {
    assert k.queues[h] != [] && s.queue[0] in s.queue;
  }
}
