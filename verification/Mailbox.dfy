/** rtt/src/ipc.c, mailboxes: the ring of mails and the regions of rt_mb_send_wait and rt_mb_recv. */
module Mailbox {
  import opened Wrappers
  import opened WaitList

  type u32 = x: int | 0 <= x < 0x1_0000_0000

  /** What a mailbox means: a bounded first-in-first-out list with two lists of waiting threads. */
  datatype Mb = Mb(size: nat, items: seq<u32>, receivers: seq<Thread>, senders: seq<Thread>)

  /** How a region ends: the call returns, or its thread is suspended. */
  datatype Outcome = Failed | Waits | Done(value: u32, woken: Option<Thread>)

  /** From an entry of rt_mb_send_wait's lock to the next exit; timeout is what is left of it. */
  function SendStep(mb: Mb, prio: Priorities, flag: Flag, t: Thread, value: u32, timeout: int): (Mb, Outcome) {
    if |mb.items| == mb.size then
      if timeout == 0 then (mb, Failed)
      else (mb.(senders := Suspended(mb.senders, prio, flag, t)), Waits)
    else
      (mb.(items := mb.items + [value], receivers := Rest(mb.receivers)), Done(value, First(mb.receivers)))
  }

  function RecvStep(mb: Mb, prio: Priorities, flag: Flag, t: Thread, timeout: int): (Mb, Outcome) {
    if mb.items == [] then
      if timeout == 0 then (mb, Failed)
      else (mb.(receivers := Suspended(mb.receivers, prio, flag, t)), Waits)
    else
      (mb.(items := mb.items[1..], senders := Rest(mb.senders)), Done(mb.items[0], First(mb.senders)))
  }

  /** An offset into the ring; a ring without slots has the offset 0. */
  predicate At(offset: nat, size: nat) { if size == 0 then offset == 0 else offset < size }

  function Slot(i: nat, size: nat): nat { if i >= size then i - size else i }

  /** The n mails from offset on. */
  function Ring(pool: seq<u32>, offset: nat, n: nat): (r: seq<u32>)
    requires At(offset, |pool|) && n <= |pool|
    ensures |r| == n && forall i :: 0 <= i < n ==> r[i] == pool[Slot(offset + i, |pool|)]
  {
    if n == 0 then [] else Ring(pool, offset, n - 1) + [pool[Slot(offset + n - 1, |pool|)]]
  }

  lemma RingPut(pool: seq<u32>, offset: nat, n: nat, value: u32)
    requires At(offset, |pool|) && n < |pool|
    ensures Ring(pool[Slot(offset + n, |pool|) := value], offset, n + 1) == Ring(pool, offset, n) + [value]
  {}

  lemma RingGet(pool: seq<u32>, offset: nat, n: nat)
    requires At(offset, |pool|) && 0 < n <= |pool|
    ensures Ring(pool, offset, n)[0] == pool[offset]
    ensures Ring(pool, Slot(offset + 1, |pool|), n - 1) == Ring(pool, offset, n)[1..]
  {}

  class Box {
    const size: nat
    const flag: Flag
    const pool: array<u32>
    var entry: nat
    var inOffset: nat
    var outOffset: nat
    var receivers: seq<Thread>
    var senders: seq<Thread>

    ghost predicate Valid()
      reads this
    {
      && pool.Length == size && entry <= size && At(outOffset, size)
      && inOffset == Slot(outOffset + entry, size)
    }

    ghost function Items(): (s: seq<u32>)
      requires Valid()
      reads this, pool
    {
      Ring(pool[..], outOffset, entry)
    }

    ghost function View(): Mb
      requires Valid()
      reads this, pool
    {
      Mb(size, Items(), receivers, senders)
    }

    constructor (size: nat, flag: Flag)
      ensures Valid() && fresh(pool) && this.size == size && this.flag == flag
      ensures View() == Mb(size, [], [], [])
    {
      this.size, this.flag := size, flag;
      pool := new u32[size](_ => 0);
      entry, inOffset, outOffset, receivers, senders := 0, 0, 0, [], [];
    }

    /** One region of rt_mb_send_wait. */
    method Send(prio: Priorities, t: Thread, value: u32, timeout: int) returns (r: Outcome)
      requires Valid()
      modifies this, pool
      ensures Valid() && (View(), r) == SendStep(old(View()), prio, flag, t, value, timeout)
      ensures r.Failed? <==> old(entry) == size && timeout == 0
      ensures r.Waits? <==> old(entry) == size && timeout != 0
      ensures r.Failed? || r.Waits? ==> Items() == old(Items()) && receivers == old(receivers)
      ensures r.Waits? ==> senders == Suspended(old(senders), prio, flag, t) && t in senders
      ensures r.Failed? || r.Done? ==> senders == old(senders)
      ensures r.Done? ==> Items() == old(Items()) + [value] && old(receivers) == Called(r.woken) + receivers
                          && (r.woken.None? ==> receivers == [])
    {
      hide Ring, Suspended;
      if entry == size {
        if timeout == 0 { return Failed; }
        senders := Suspend(senders, prio, flag, t);
        return Waits;
      }
      RingPut(pool[..], outOffset, entry, value);
      ghost var before := pool[..];
      pool[inOffset] := value;
      assert pool[..] == before[inOffset := value];
      inOffset := inOffset + 1;
      if inOffset >= size { inOffset := 0; }
      entry := entry + 1;
      r := Done(value, First(receivers));
      if receivers != [] { receivers := receivers[1..]; }
    }

    /** One region of rt_mb_recv. */
    method Recv(prio: Priorities, t: Thread, timeout: int) returns (r: Outcome)
      requires Valid()
      modifies this
      ensures Valid() && (View(), r) == RecvStep(old(View()), prio, flag, t, timeout)
      ensures r.Failed? <==> old(entry) == 0 && timeout == 0
      ensures r.Waits? <==> old(entry) == 0 && timeout != 0
      ensures r.Failed? || r.Waits? ==> Items() == old(Items()) && senders == old(senders)
      ensures r.Waits? ==> receivers == Suspended(old(receivers), prio, flag, t) && t in receivers
      ensures r.Failed? || r.Done? ==> receivers == old(receivers)
      ensures r.Done? ==> old(Items()) == [r.value] + Items() && old(senders) == Called(r.woken) + senders
                          && (r.woken.None? ==> senders == [])
    {
      hide Ring, Suspended;
      if entry == 0 {
        if timeout == 0 { return Failed; }
        receivers := Suspend(receivers, prio, flag, t);
        return Waits;
      }
      RingGet(pool[..], outOffset, entry);
      var value := pool[outOffset];
      outOffset := outOffset + 1;
      if outOffset >= size { outOffset := 0; }
      entry := entry - 1;
      r := Done(value, First(senders));
      if senders != [] { senders := senders[1..]; }
    }

    /** RT_IPC_CMD_RESET: every waiting thread is resumed with an error, and the mails are dropped. */
    method Reset() returns (resumed: seq<Thread>)
      requires Valid()
      modifies this
      ensures Valid() && View() == Mb(size, [], [], []) && resumed == old(receivers) + old(senders)
    {
      resumed := [];
      while receivers != []
        invariant Valid() && senders == old(senders) && resumed + receivers == old(receivers)
        decreases |receivers|
      {
        resumed, receivers := resumed + [receivers[0]], receivers[1..];
      }
      while senders != []
        invariant Valid() && receivers == [] && resumed + senders == old(receivers) + old(senders)
        decreases |senders|
      {
        resumed, senders := resumed + [senders[0]], senders[1..];
      }
      entry, inOffset, outOffset := 0, 0, 0;
    }
  }
}
