/** Event objects over all interleavings of sends, receives, timeouts and resets. */
module EventRuns {
  import opened WaitList
  import opened Sequences
  import opened Event

  datatype Op =
    | Send(bits: Bits)
    | Recv(t: Thread, prio: Priorities, interest: Interest, timeout: int)
    | Expire(t: Thread)
    | Reset

  function SendStep(e: Ev, bits: Bits): Ev {
    if bits == 0 then e
    else var r := Serve(Or(e.flags, bits), e.waiting, e.info); e.(flags := r.flags, waiting := r.waiting)
  }

  function Step(e: Ev, flag: Flag, op: Op): Ev {
    match op
    case Send(bits) => SendStep(e, bits)
    case Recv(t, prio, i, timeout) => if t in e.waiting then e else RecvStep(e, prio, flag, t, i, timeout).0
    case Expire(t) => e.(waiting := Without(e.waiting, t))
    case Reset => e.(flags := 0, waiting := [])
  }

  /** No thread waits for what is already there. */
  ghost predicate Quiet(e: Ev) {
    Distinct(e.waiting) && forall t :: t in e.waiting ==> !Wants(e.info(t), e.flags)
  }

  lemma QuietIs(e: Ev)
    ensures Quiet(e) <==> Distinct(e.waiting) && forall t :: t in e.waiting ==> !Satisfied(e.info(t), e.flags)
  {
    hide Wants, Satisfied, Distinct;
    forall t | t in e.waiting ensures Wants(e.info(t), e.flags) <==> Satisfied(e.info(t), e.flags) {
      SatisfiedExactly(e.info(t), e.flags);
    }
  }

  lemma SendQuiet(e: Ev, bits: Bits)
    requires Quiet(e)
    ensures Quiet(SendStep(e, bits))
  {
    QuietIs(e);
    QuietIs(SendStep(e, bits));
    hide Satisfied, Or, Distinct, Quiet;
    ServeQuiet(Or(e.flags, bits), e.waiting, e.info);
    ServePartition(Or(e.flags, bits), e.waiting, e.info);
  }

  lemma RecvQuiet(e: Ev, flag: Flag, t: Thread, prio: Priorities, i: Interest, timeout: int)
    requires Quiet(e) && t !in e.waiting
    ensures Quiet(RecvStep(e, prio, flag, t, i, timeout).0)
  {
    hide Satisfied, Distinct, Within, Left, Suspended, Quiet;
    QuietIs(e);
    QuietIs(RecvStep(e, prio, flag, t, i, timeout).0);
    SuspendedDistinct(e.waiting, prio, flag, t);
    LeftWithin(i, e.flags);
    forall u | u in e.waiting
      ensures Satisfied(e.info(u), Left(i, e.flags)) ==> Satisfied(e.info(u), e.flags)
    {
      if Satisfied(e.info(u), Left(i, e.flags)) { MoreSatisfied(e.info(u), Left(i, e.flags), e.flags); }
    }
  }

  lemma StepQuiet(e: Ev, flag: Flag, op: Op)
    requires Quiet(e)
    ensures Quiet(Step(e, flag, op))
  {
    match op
    case Send(bits) =>
      hide Quiet;
      SendQuiet(e, bits);
    case Recv(t, prio, i, timeout) =>
      hide Quiet;
      if t !in e.waiting { RecvQuiet(e, flag, t, prio, i, timeout); }
    case Expire(t) =>
      hide Wants, Distinct;
      WithoutMembers(e.waiting, t);
    case Reset =>
  }

  function Run(e: Ev, flag: Flag, ops: seq<Op>): Ev
    decreases |ops|
  {
    if ops == [] then e else Run(Step(e, flag, ops[0]), flag, ops[1..])
  }

  /** In every reachable state of an event object no thread waits for an event that has arrived. */
  lemma {:induction false} NeverOverlooked(e: Ev, flag: Flag, ops: seq<Op>)
    requires Quiet(e)
    ensures Quiet(Run(e, flag, ops))
    decreases |ops|
  {
    if ops != [] {
      StepQuiet(e, flag, ops[0]);
      hide Quiet, Step;
      NeverOverlooked(Step(e, flag, ops[0]), flag, ops[1..]);
    }
  }

  // ---- a deferred receive is an immediate one

  /** The threads of a list receive without waiting, one after the other. */
  function Receives(e: Ev, prio: Priorities, flag: Flag, ts: seq<Thread>): (Bits, seq<Delivery>)
    decreases |ts|
  {
    if ts == [] then (e.flags, [])
    else
      var (e', r) := RecvStep(e, prio, flag, ts[0], e.info(ts[0]), 0);
      var (flags, out) := Receives(e', prio, flag, ts[1..]);
      (flags, if r.Got? then [Delivery(ts[0], r.bits)] + out else out)
  }

  /**
   * Sending serves the waiting threads exactly as if each of them, in the order of the list, called
   * rt_event_recv without waiting on the flags it finds: same deliveries, same flags afterwards.
   */
  lemma {:induction false} SendIsReceives(e: Ev, prio: Priorities, flag: Flag, ts: seq<Thread>)
    requires forall t :: t in ts ==> e.info(t).bits != 0
    ensures var r := Serve(e.flags, ts, e.info);
            Receives(e, prio, flag, ts) == (r.flags, r.out)
    decreases |ts|
  {
    if ts != [] {
      var i := e.info(ts[0]);
      assert i.bits != 0;
      hide Satisfied, Left, Taken, Suspended;
      SendIsReceives(e, prio, flag, ts[1..]);
      SendIsReceives(e.(flags := Left(i, e.flags)), prio, flag, ts[1..]);
    }
  }
}
