/** rtt/src/ipc.c, semaphores: rt_sem_take and rt_sem_release, which hands a token straight to a waiting thread. */
module Semaphore {
  import opened Wrappers
  import opened WaitList
  import opened Sequences

  datatype Sem = Sem(value: nat, waiting: seq<Thread>)

  datatype TakeResult = Got | TimedOut | Waits

  function TakeStep(s: Sem, prio: Priorities, flag: Flag, t: Thread, time: int): (Sem, TakeResult) {
    if s.value > 0 then (s.(value := s.value - 1), Got)
    else if time == 0 then (s, TimedOut)
    else (s.(waiting := Suspended(s.waiting, prio, flag, t)), Waits)
  }

  function ReleaseStep(s: Sem): (Sem, Option<Thread>) {
    if s.waiting != [] then (s.(waiting := s.waiting[1..]), Some(s.waiting[0])) else (s.(value := s.value + 1), None)
  }

  class Counter {
    const flag: Flag
    var value: nat
    var waiting: seq<Thread>

    ghost function View(): Sem
      reads this
    {
      Sem(value, waiting)
    }

    constructor (value: nat, flag: Flag)
      ensures View() == Sem(value, []) && this.flag == flag
    {
      this.value, this.flag, waiting := value, flag, [];
    }

    method Take(prio: Priorities, t: Thread, time: int) returns (r: TakeResult)
      modifies this
      ensures (View(), r) == TakeStep(old(View()), prio, flag, t, time)
      ensures r.Got? <==> old(value) > 0
      ensures r.TimedOut? <==> old(value) == 0 && time == 0
      ensures r.Waits? <==> old(value) == 0 && time != 0
      ensures value == old(value) - if r.Got? then 1 else 0
      ensures waiting == if r.Waits? then Suspended(old(waiting), prio, flag, t) else old(waiting)
    {
      if value > 0 {
        value := value - 1;
        return Got;
      }
      if time == 0 { return TimedOut; }
      waiting := Suspend(waiting, prio, flag, t);
      r := Waits;
    }

    method Release() returns (woken: Option<Thread>)
      modifies this
      ensures (View(), woken) == ReleaseStep(old(View()))
      ensures woken.None? <==> old(waiting) == []
      ensures woken.None? ==> value == old(value) + 1 && waiting == []
      ensures woken.Some? ==> value == old(value) && old(waiting) == [woken.value] + waiting
    {
      if waiting != [] {
        woken := Some(waiting[0]);
        waiting := waiting[1..];
      } else {
        woken := None;
        value := value + 1;
      }
    }

    /** RT_IPC_CMD_RESET: the waiting threads are resumed with an error; the new value is cut to 16 bits. */
    method Reset(v: nat)
      modifies this
      ensures View() == Sem(v % 0x10000, [])
    {
      while waiting != []
        decreases |waiting|
      {
        waiting := waiting[1..];
      }
      value := v % 0x10000;
    }
  }

  // ---- runs

  /** got lists the threads whose takes succeeded, in the order in which the tokens were given. */
  datatype State = State(sem: Sem, flag: Flag, got: seq<Thread>)

  datatype Op = Take(t: Thread, prio: Priorities, time: int) | Release | Expire(t: Thread)

  function Step(s: State, op: Op): State {
    match op
    case Take(t, prio, time) =>
      if t in s.sem.waiting then s
      else
        var (sem, r) := TakeStep(s.sem, prio, s.flag, t, time);
        s.(sem := sem, got := if r.Got? then s.got + [t] else s.got)
    case Release =>
      var (sem, w) := ReleaseStep(s.sem);
      s.(sem := sem, got := if w.Some? then s.got + [w.value] else s.got)
    case Expire(t) => s.(sem := s.sem.(waiting := Without(s.sem.waiting, t)))
  }

  function Run(s: State, ops: seq<Op>): State
    decreases |ops|
  {
    if ops == [] then s else Run(Step(s, ops[0]), ops[1..])
  }

  function Releases(ops: seq<Op>): nat
    decreases |ops|
  {
    if ops == [] then 0 else (if ops[0].Release? then 1 else 0) + Releases(ops[1..])
  }

  ghost predicate Inv(s: State) {
    Distinct(s.sem.waiting) && (s.sem.waiting != [] ==> s.sem.value == 0)
  }

  lemma StepInv(s: State, op: Op)
    requires Inv(s)
    ensures Inv(Step(s, op))
    ensures Step(s, op).sem.value + |Step(s, op).got| == s.sem.value + |s.got| + if op.Release? then 1 else 0
  {
    hide Distinct, Suspended, Without;
    match op
    case Take(t, prio, _) =>
      if t !in s.sem.waiting { SuspendedDistinct(s.sem.waiting, prio, s.flag, t); }
    case Release => DistinctTail(s.sem.waiting);
    case Expire(t) =>
      WithoutMembers(s.sem.waiting, t);
      if Without(s.sem.waiting, t) != [] { assert Without(s.sem.waiting, t)[0] in s.sem.waiting; }
  }

  lemma DistinctTail(w: seq<Thread>)
    requires Distinct(w)
    ensures w != [] ==> Distinct(w[1..])
  {}

  /** Tokens are conserved, and no thread waits while a token is there, over all interleavings. */
  lemma {:induction false} TokensConserved(s: State, ops: seq<Op>)
    requires Inv(s)
    ensures var r := Run(s, ops);
            && r.sem.value + |r.got| == s.sem.value + |s.got| + Releases(ops)
            && (r.sem.waiting != [] ==> r.sem.value == 0) && Inv(r) && r.flag == s.flag
    decreases |ops|
  {
    if ops != [] {
      StepInv(s, ops[0]);
      assert Step(s, ops[0]).flag == s.flag;
      hide Step;
      TokensConserved(Step(s, ops[0]), ops[1..]);
    }
  }

  // ---- bounded waiting

  /** The number of threads before t. */
  ghost function Ahead(s: seq<Thread>, t: Thread): nat {
    if s == [] || s[0] == t then 0 else 1 + Ahead(s[1..], t)
  }

  lemma {:induction false} AheadAppend(s: seq<Thread>, t: Thread, u: Thread)
    requires t in s
    ensures Ahead(s + [u], t) == Ahead(s, t)
    decreases |s|
  {
    if s[0] != t {
      assert (s + [u])[1..] == s[1..] + [u];
      AheadAppend(s[1..], t, u);
    }
  }

  lemma {:induction false} AheadWithout(s: seq<Thread>, t: Thread, u: Thread)
    requires t in s && t != u
    ensures t in Without(s, u) && Ahead(Without(s, u), t) <= Ahead(s, t)
    decreases |s|
  {
    if s[0] != t {
      assert t in s[1..];
      AheadWithout(s[1..], t, u);
      var w := Without(s[1..], u);
      assert t in [s[0]] + w;
      assert ([s[0]] + w)[1..] == w;
    } else {
      assert Without(s, u)[0] == t;
    }
  }

  lemma {:induction false} GotGrows(s: State, ops: seq<Op>)
    ensures s.got <= Run(s, ops).got
    decreases |ops|
  {
    if ops != [] { GotGrows(Step(s, ops[0]), ops[1..]); }
  }

  /** A thread waiting on a FIFO semaphore gets a token at the latest when one more release than threads before it came. */
  lemma {:induction false} BoundedWaiting(s: State, ops: seq<Op>, t: Thread)
    requires s.flag == FIFO && t in s.sem.waiting && Expire(t) !in ops
    requires Releases(ops) > Ahead(s.sem.waiting, t)
    ensures t in Run(s, ops).got
    decreases |ops|
  {
    var w, op := s.sem.waiting, ops[0];
    match op {
      case Take(u, prio, time) =>
        if u !in w && s.sem.value == 0 && time != 0 {
          assert Suspended(w, prio, FIFO, u) == w + [u];
          AheadAppend(w, t, u);
        }
        BoundedWaiting(Step(s, op), ops[1..], t);
      case Release =>
        if w[0] == t {
          GotGrows(Step(s, op), ops[1..]);
          assert t in Step(s, op).got;
        } else {
          assert t in w[1..];
          BoundedWaiting(Step(s, op), ops[1..], t);
        }
      case Expire(u) =>
        assert op in ops;
        AheadWithout(w, t, u);
        BoundedWaiting(Step(s, op), ops[1..], t);
    }
  }
}
