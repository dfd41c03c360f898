/**
 * rtt/src/ipc.c, message queues: the cells of the pool move between the free list, the queue and the threads
 * that copy outside the lock. Every interrupts-off region is one step.
 */
module MessageQueue {
  import opened Wrappers
  import opened WaitList
  import opened Sequences

  type byte = x: int | 0 <= x < 256
  type Bytes = seq<byte>

  // ---- the queue object: cells are 1, 2, ...; 0 is RT_NULL

  const NULL: nat := 0

  /** filling and draining are the cells that senders and receivers hold while they copy. */
  datatype Mq = Mq(msgSize: nat, data: seq<Bytes>, queue: seq<nat>, free: seq<nat>, filling: set<nat>, draining: set<nat>)

  ghost predicate Cell(m: Mq, c: nat) { 1 <= c < |m.data| }

  /** Every cell of the pool is in exactly one place. */
  ghost predicate Partition(m: Mq) {
    && Distinct(m.queue) && Distinct(m.free)
    && (forall c :: c in m.queue ==> Cell(m, c) && c !in m.free && c !in m.filling && c !in m.draining)
    && (forall c :: c in m.free ==> Cell(m, c) && c !in m.filling && c !in m.draining)
    && (forall c :: c in m.filling ==> Cell(m, c) && c !in m.draining)
    && (forall c :: c in m.draining ==> Cell(m, c))
    && (forall c: nat :: Cell(m, c) ==> c in m.queue || c in m.free || c in m.filling || c in m.draining)
  }

  ghost predicate Sized(m: Mq) { forall c: nat :: Cell(m, c) ==> |m.data[c]| == m.msgSize }

  ghost predicate Wf(m: Mq) { |m.data| >= 1 && Partition(m) && Sized(m) }

  function Take(m: Mq): Mq
    requires m.free != []
  {
    m.(free := m.free[1..], filling := m.filling + {m.free[0]})
  }

  /** rt_memcpy of a message into a cell: the rest of the cell keeps its old bytes. */
  function Fill(m: Mq, c: nat, b: Bytes): Mq
    requires Wf(m) && Cell(m, c) && |b| <= m.msgSize
  {
    m.(data := m.data[c := b + m.data[c][|b|..]])
  }

  function Link(m: Mq, c: nat, urgent: bool): Mq {
    m.(queue := if urgent then [c] + m.queue else m.queue + [c], filling := m.filling - {c})
  }

  function Unlink(m: Mq): Mq
    requires m.queue != []
  {
    m.(queue := m.queue[1..], draining := m.draining + {m.queue[0]})
  }

  function Release(m: Mq, c: nat): Mq {
    m.(free := [c] + m.free, draining := m.draining - {c})
  }

  function Reverse(s: seq<nat>): (r: seq<nat>)
    ensures |r| == |s| && forall x :: x in r <==> x in s
  {
    if s == [] then [] else Reverse(s[1..]) + [s[0]]
  }

  function Reset(m: Mq): Mq {
    m.(queue := [], free := Reverse(m.queue) + m.free)
  }

  // ---- each step keeps the partition

  lemma TakeWf(m: Mq)
    requires Wf(m) && m.free != []
    ensures Wf(Take(m)) && m.free[0] in Take(m).filling && m.free[0] !in m.filling && m.free[0] !in m.draining
  {
    assert m.free[0] in m.free && m.free[0] !in m.free[1..];
    assert forall c :: c in m.free <==> c == m.free[0] || c in m.free[1..];
  }

  lemma LinkWf(m: Mq, c: nat, urgent: bool)
    requires Wf(m) && c in m.filling
    ensures Wf(Link(m, c, urgent))
  {
    var q := Link(m, c, urgent).queue;
    assert forall x :: x in q <==> x == c || x in m.queue;
  }

  lemma UnlinkWf(m: Mq)
    requires Wf(m) && m.queue != []
    ensures Wf(Unlink(m)) && m.queue[0] !in m.filling && m.queue[0] !in m.draining
  {
    assert m.queue[0] in m.queue && m.queue[0] !in m.queue[1..];
    assert forall c :: c in m.queue <==> c == m.queue[0] || c in m.queue[1..];
  }

  lemma ReleaseWf(m: Mq, c: nat)
    requires Wf(m) && c in m.draining
    ensures Wf(Release(m, c))
  {
    assert forall x :: x in [c] + m.free <==> x == c || x in m.free;
  }

  lemma ReverseDistinct(s: seq<nat>)
    requires Distinct(s)
    ensures Distinct(Reverse(s))
  {
    if s != [] {
      ReverseDistinct(s[1..]);
      assert s[0] !in s[1..];
      assert Reverse(s) == Reverse(s[1..]) + [s[0]];
    }
  }

  lemma DistinctConcat(a: seq<nat>, b: seq<nat>)
    requires Distinct(a) && Distinct(b) && forall c :: c in a ==> c !in b
    ensures Distinct(a + b)
  {
    forall i, j | 0 <= i < j < |a + b|
      ensures (a + b)[i] != (a + b)[j]
    {
      if i < |a| { assert (a + b)[i] in a; }
      if j >= |a| { assert (a + b)[j] in b; }
    }
  }

  lemma ResetWf(m: Mq)
    requires Wf(m)
    ensures Wf(Reset(m))
  {
    ReverseDistinct(m.queue);
    DistinctConcat(Reverse(m.queue), m.free);
    var f := Reset(m).free;
    assert forall x :: x in f <==> x in Reverse(m.queue) || x in m.free;
    assert forall x :: x in f <==> x in m.queue || x in m.free;
  }

  lemma ResetIs(m: Mq)
    ensures Reset(m).queue == [] && |Reset(m).free| == |m.free| + |m.queue|
  {}

  /** One round of the reset loop. */
  function Move(m: Mq): Mq
    requires m.queue != []
  {
    m.(queue := m.queue[1..], free := [m.queue[0]] + m.free)
  }

  lemma MoveWf(m: Mq)
    requires Wf(m) && m.queue != []
    ensures Wf(Move(m)) && Reset(Move(m)) == Reset(m)
    ensures Cell(m, m.queue[0]) && m.queue[0] !in m.free
  {
    var c, n := m.queue[0], Move(m);
    assert Reverse(m.queue[1..]) + ([c] + m.free) == Reverse(m.queue) + m.free;
    assert c in m.queue && c !in m.queue[1..];
    assert forall x :: x in m.queue <==> x == c || x in n.queue;
    assert forall x :: x in n.free <==> x == c || x in m.free;
  }

  // ---- the linked representation

  ghost predicate Chain(next: seq<nat>, p: nat, s: seq<nat>)
    decreases |s|
  {
    if s == [] then p == NULL else p == s[0] != NULL && p < |next| && Chain(next, next[p], s[1..])
  }

  ghost function Last(s: seq<nat>): nat { if s == [] then NULL else s[|s| - 1] }

  lemma {:induction false} ChainFrame(next: seq<nat>, p: nat, s: seq<nat>, c: nat, v: nat)
    requires Chain(next, p, s) && c < |next| && c !in s
    ensures Chain(next[c := v], p, s)
    decreases |s|
  {
    if s != [] { ChainFrame(next, next[p], s[1..], c, v); }
  }

  lemma {:induction false} ChainCells(next: seq<nat>, p: nat, s: seq<nat>)
    requires Chain(next, p, s)
    ensures forall c :: c in s ==> 0 < c < |next|
    decreases |s|
  {
    if s != [] {
      ChainCells(next, next[p], s[1..]);
      assert forall c :: c in s ==> c == s[0] || c in s[1..];
    }
  }

  lemma {:induction false} ChainAppend(next: seq<nat>, p: nat, s: seq<nat>, c: nat)
    requires Chain(next, p, s) && Distinct(s) && s != [] && 0 < c < |next| && c !in s && next[c] == NULL
    ensures 0 < Last(s) < |next|
    ensures Chain(next[Last(s) := c], p, s + [c])
    decreases |s|
  {
    ChainCells(next, p, s);
    assert Last(s) in s;
    var changed := next[Last(s) := c];
    assert (s + [c])[1..] == s[1..] + [c];
    if |s| == 1 {
      assert s[1..] == [];
      assert [c][1..] == [];
      assert Chain(changed, c, [c]);
    } else {
      assert Last(s[1..]) == Last(s);
      ChainAppend(next, next[p], s[1..], c);
    }
  }

  lemma NoCells(next: seq<nat>)
    ensures Chain(next, NULL, []) && Distinct<nat>([]) && Last([]) == NULL
  {}

  lemma PushDistinct(s: seq<nat>, c: nat)
    requires Distinct(s) && c !in s
    ensures Distinct([c] + s)
  {}

  /** A new queue: all cells are free. */
  lemma FreshWf(m: Mq)
    requires |m.data| >= 1 && m.queue == [] && m.filling == {} && m.draining == {} && Distinct(m.free)
    requires (forall c :: c in m.free <==> 1 <= c < |m.data|) && forall c: nat :: c < |m.data| ==> |m.data[c]| == m.msgSize
    ensures Wf(m)
  {}

  lemma ChainSingle(next: seq<nat>, c: nat)
    requires 0 < c < |next| && next[c] == NULL
    ensures Chain(next, c, [c])
  {
    assert [c][1..] == [];
  }

  /** Pushing a cell in front of a list. */
  lemma ChainPush(next: seq<nat>, p: nat, s: seq<nat>, c: nat)
    requires Chain(next, p, s) && 0 < c < |next| && c !in s
    ensures Chain(next[c := p], c, [c] + s)
  {
    ChainFrame(next, p, s, c, p);
    assert ([c] + s)[1..] == s;
  }

  /** Linking a cell behind the last one of a list, or as the only one; the other list is not touched. */
  lemma LinkChains(next: seq<nat>, p: nat, s: seq<nat>, f: nat, free: seq<nat>, c: nat)
    requires Chain(next, p, s) && Distinct(s) && Chain(next, f, free) && forall x :: x in s ==> x !in free
    requires 0 < c < |next| && c !in s && next[c] == NULL
    ensures if s == [] then Chain(next, c, s + [c]) else 0 < Last(s) < |next| && Chain(next[Last(s) := c], p, s + [c])
    ensures s != [] ==> Last(s) < |next| && Chain(next[Last(s) := c], f, free)
  {
    hide Chain;
    if s == [] {
      ChainSingle(next, c);
      assert s + [c] == [c];
    } else {
      assert Last(s) in s;
      ChainAppend(next, p, s, c);
      ChainFrame(next, f, free, Last(s), c);
    }
  }

  class Queue {
    const maxMsgs: nat
    const msgSize: nat
    const next: array<nat>
    const data: array<Bytes>
    var head: nat
    var tail: nat
    var free: nat
    var entry: nat
    const flag: Flag
    var waiting: seq<Thread>
    ghost var queue: seq<nat>
    ghost var freeList: seq<nat>
    ghost var filling: set<nat>
    ghost var draining: set<nat>

    ghost function View(): Mq
      reads this, data
    {
      Mq(msgSize, data[..], queue, freeList, filling, draining)
    }

    /** The pointers are those of the queue and of the free list; the count is left open. */
    ghost predicate Loose()
      reads this, next, data
    {
      && next.Length == data.Length == maxMsgs + 1 && Wf(View())
      && Chain(next[..], head, queue) && Chain(next[..], free, freeList) && tail == Last(queue)
    }

    ghost predicate Valid()
      reads this, next, data
    {
      Loose() && entry == |queue|
    }

    /** head is NULL exactly when tail is, and exactly when there is no entry. */
    lemma HeadTailEntry()
      requires Valid()
      ensures head == NULL <==> tail == NULL
      ensures head == NULL <==> entry == 0
    {
      ChainCells(next[..], head, queue);
      assert queue != [] ==> Last(queue) in queue;
    }

    /** rt_mq_init: the free list is built by pushing the cells one by one. */
    constructor (msgSize: nat, maxMsgs: nat, flag: Flag)
      ensures Valid() && fresh(next) && fresh(data) && this.maxMsgs == maxMsgs && this.msgSize == msgSize
      ensures this.flag == flag && waiting == []
      ensures queue == [] && |freeList| == maxMsgs && filling == {} && draining == {}
    {
      hide Chain, Wf, Distinct;
      this.msgSize, this.maxMsgs, this.flag, waiting := msgSize, maxMsgs, flag, [];
      next := new nat[maxMsgs + 1](_ => NULL);
      data := new Bytes[maxMsgs + 1](_ => seq(msgSize, _ => 0));
      head, tail, entry, free := NULL, NULL, 0, NULL;
      queue, freeList, filling, draining := [], [], {}, {};
      new;
      NoCells(next[..]);
      for temp := 0 to maxMsgs
        invariant next.Length == maxMsgs + 1 && |freeList| == temp && Distinct(freeList)
        invariant forall c :: c in freeList <==> 1 <= c <= temp
        invariant Chain(next[..], free, freeList)
        invariant queue == [] && filling == {} && draining == {} && head == tail == NULL && entry == 0 && waiting == []
        invariant fresh(next) && data[..] == seq(maxMsgs + 1, _ => seq(msgSize, _ => 0))
      {
        ghost var before := next[..];
        ChainPush(before, free, freeList, temp + 1);
        PushDistinct(freeList, temp + 1);
        next[temp + 1] := free;
        assert next[..] == before[temp + 1 := free];
        free := temp + 1;
        freeList := [temp + 1] + freeList;
      }
      NoCells(next[..]);
      FreshWf(View());
    }

    /** First region of rt_mq_send and rt_mq_urgent; NULL stands for -RT_EFULL. */
    method TakeFree() returns (msg: nat)
      requires Valid()
      modifies this`free, this`freeList, this`filling
      ensures Valid() && (msg == NULL <==> old(freeList) == [])
      ensures View() == if msg == NULL then old(View()) else Take(old(View()))
      ensures msg != NULL ==> old(freeList) == [msg] + freeList
    {
      msg := free;
      if msg == NULL { return; }
      TakeWf(View());
      free := next[msg];
      filling := filling + {msg};
      freeList := freeList[1..];
    }

    /** Outside the lock: send clears the link, both copy the message. */
    method CopyIn(msg: nat, buffer: Bytes, urgent: bool)
      requires Valid() && msg in filling && |buffer| <= msgSize
      modifies next, data
      ensures Valid() && View() == Fill(old(View()), msg, buffer)
      ensures |data[msg]| == msgSize && data[msg][..|buffer|] == buffer
              && data[msg][|buffer|..] == old(data[msg])[|buffer|..]
      ensures forall c :: 0 <= c < data.Length && c != msg ==> data[c] == old(data[c])
      ensures !urgent ==> next[msg] == NULL
    {
      ghost var before := next[..];
      ChainFrame(before, head, queue, msg, NULL);
      ChainFrame(before, free, freeList, msg, NULL);
      if !urgent { next[msg] := NULL; }
      data[msg] := buffer + data[msg][|buffer|..];
      assert !urgent ==> next[..] == before[msg := NULL];
    }

    /** The end of the second region of rt_mq_send and rt_mq_urgent. */
    method WakeReceiver() returns (woken: Option<Thread>)
      modifies this`waiting
      ensures old(waiting) == Called(woken) + waiting && (woken.None? ==> waiting == [])
    {
      woken := First(waiting);
      if waiting != [] { waiting := waiting[1..]; }
    }

    /** Second region of rt_mq_send; the first waiting receiver is resumed. */
    method LinkTail(msg: nat) returns (woken: Option<Thread>)
      requires Valid() && msg in filling && next[msg] == NULL
      modifies this`head, this`tail, this`entry, this`waiting, this`queue, this`filling, next
      ensures Valid() && View() == Link(old(View()), msg, false) && queue == old(queue) + [msg]
      ensures old(waiting) == Called(woken) + waiting && (woken.None? ==> waiting == [])
    {
      hide Chain, Distinct, Called;
      LinkWf(View(), msg, false);
      ghost var before, t := next[..], Last(queue);
      HeadTailEntry();
      LinkChains(before, head, queue, free, freeList, msg);
      hide Wf;
      if tail != NULL {
        next[tail] := msg;
        assert next[..] == before[t := msg];
      }
      tail := msg;
      if head == NULL { head := msg; }
      entry := entry + 1;
      queue := queue + [msg];
      filling := filling - {msg};
      woken := WakeReceiver();
    }

    /** Second region of rt_mq_urgent. */
    method LinkHead(msg: nat) returns (woken: Option<Thread>)
      requires Valid() && msg in filling
      modifies this`head, this`tail, this`entry, this`waiting, this`queue, this`filling, next
      ensures Valid() && View() == Link(old(View()), msg, true) && queue == [msg] + old(queue)
      ensures old(waiting) == Called(woken) + waiting && (woken.None? ==> waiting == [])
    {
      hide Chain, Distinct, Called;
      LinkWf(View(), msg, true);
      ghost var before := next[..];
      HeadTailEntry();
      ChainPush(before, head, queue, msg);
      ChainFrame(before, free, freeList, msg, head);
      hide Wf;
      next[msg] := head;
      assert next[..] == before[msg := head];
      head := msg;
      if tail == NULL { tail := msg; }
      entry := entry + 1;
      queue := [msg] + queue;
      filling := filling - {msg};
      woken := WakeReceiver();
    }

    /**
     * One region of rt_mq_recv, up to its next exit from the lock: the call times out, its thread waits, or a message
     * is taken off the queue. timeout is what is left of it.
     */
    method Receive(prio: Priorities, t: Thread, timeout: int) returns (msg: nat, waits: bool)
      requires Valid()
      modifies this`head, this`tail, this`entry, this`waiting, this`queue, this`draining
      ensures Valid() && (msg == NULL <==> old(queue) == []) && waits == (old(queue) == [] && timeout != 0)
      ensures View() == if msg == NULL then old(View()) else Unlink(old(View()))
      ensures msg != NULL ==> old(queue) == [msg] + queue
      ensures waiting == if waits then Suspended(old(waiting), prio, flag, t) else old(waiting)
    {
      hide Wf, Chain, Suspended;
      waits := entry == 0 && timeout != 0;
      if waits { waiting := Suspend(waiting, prio, flag, t); }
      msg := UnlinkHead();
    }

    /** The end of that region, if a message is there. */
    method UnlinkHead() returns (msg: nat)
      requires Valid()
      modifies this`head, this`tail, this`entry, this`queue, this`draining
      ensures Valid() && (msg == NULL <==> old(queue) == [])
      ensures View() == if msg == NULL then old(View()) else Unlink(old(View()))
      ensures msg != NULL ==> old(queue) == [msg] + queue
    {
      if entry == 0 { return NULL; }
      msg := head;
      UnlinkWf(View());
      head := next[msg];
      if tail == msg { tail := NULL; }
      entry := entry - 1;
      draining := draining + {msg};
      assert |queue| > 1 ==> Last(queue) == Last(queue[1..]);
      queue := queue[1..];
    }

    /** Outside the lock: what the receiver gets. */
    method CopyOut(msg: nat, size: nat) returns (buffer: Bytes)
      requires Valid() && msg in draining
      ensures buffer == data[msg][..if size > msgSize then msgSize else size]
    {
      buffer := data[msg][..if size > msgSize then msgSize else size];
    }

    /** Last region of rt_mq_recv. */
    method PutFree(msg: nat)
      requires Valid() && msg in draining
      modifies this`free, this`freeList, this`draining, next
      ensures Valid() && View() == Release(old(View()), msg) && freeList == [msg] + old(freeList)
    {
      ReleaseWf(View(), msg);
      ghost var before := next[..];
      ChainFrame(before, head, queue, msg, free);
      ChainPush(before, free, freeList, msg);
      hide Chain, Wf;
      next[msg] := free;
      assert next[..] == before[msg := free];
      free := msg;
      freeList := [msg] + freeList;
      draining := draining - {msg};
    }

    /** One round of the loop of RT_IPC_CMD_RESET, which leaves entry to its end. */
    method MoveHead()
      requires Loose() && head != NULL
      modifies this`head, this`tail, this`free, this`queue, this`freeList, next
      ensures Loose() && old(queue) != [] && View() == Move(old(View()))
    {
      var msg := head;
      ghost var before := next[..];
      MoveWf(View());
      assert queue[0] in queue && queue[0] !in queue[1..];
      ChainFrame(before, next[msg], queue[1..], msg, free);
      ChainPush(before, free, freeList, msg);
      assert |queue| > 1 ==> Last(queue) == Last(queue[1..]) && Last(queue) in queue[1..];
      hide Wf, Chain, Distinct, Last;
      head := next[msg];
      if tail == msg { tail := NULL; }
      next[msg] := free;
      assert next[..] == before[msg := free];
      free := msg;
      queue, freeList := queue[1..], [msg] + freeList;
    }

    /** RT_IPC_CMD_RESET: the waiting receivers are resumed, and the queue is moved to the free list. */
    method Clear() returns (resumed: seq<Thread>)
      requires Valid()
      modifies this`head, this`tail, this`entry, this`free, this`waiting, this`queue, this`freeList, next
      ensures Valid() && View() == Reset(old(View())) && queue == [] && |freeList| == |old(freeList)| + |old(queue)|
      ensures resumed == old(waiting) && waiting == []
    {
      hide Wf, Chain, Reset;
      ResetIs(View());
      resumed := waiting;
      waiting := [];
      Drain();
    }

    /** Its loop over the messages, the head first. */
    method Drain()
      requires Valid()
      modifies this`head, this`tail, this`entry, this`free, this`queue, this`freeList, next
      ensures Valid() && View() == Reset(old(View()))
    {
      ghost var m := View();
      while head != NULL
        invariant Loose() && Reset(View()) == Reset(m)
        decreases |queue|
      {
        ghost var before := View();
        assert queue != [];
        MoveWf(before);
        hide Wf, Chain, Reverse;
        MoveHead();
      }
      assert queue == [] && Reverse([]) == [];
      assert [] + freeList == freeList;
      assert View() == Reset(View());
      entry := 0;
    }
  }
}
