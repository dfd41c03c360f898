/**
 * Message queues with the threads that wait for a message, over all interleavings: a send resumes the first waiting
 * receiver when it links its message, and a resumed receiver looks again when it runs.
 */
module MessageWaits {
  import opened WaitList
  import opened Sequences
  import opened MessageQueue
  import M = MessageRuns

  /** woken was resumed by a message and has not run since, failed by a timeout or a reset. */
  datatype State = State(s: M.State, flag: Flag, waiting: seq<Thread>, woken: set<Thread>, failed: set<Thread>)

  /** prio and timeout are the priorities and what is left of the timeout when the region is entered. */
  datatype Event =
    | Send(t: Thread, urgent: bool, buffer: Bytes)
    | CopyIn(t: Thread)
    | LinkIn(t: Thread)
    | Recv(t: Thread, size: nat, prio: Priorities, timeout: int)
    | Retry(t: Thread, size: nat, prio: Priorities, timeout: int)
    | CopyOut(t: Thread)
    | PutFree(t: Thread)
    | Expire(t: Thread)
    | Return(t: Thread)
    | Clear

  ghost predicate Idle(m: State, t: Thread) {
    t !in m.waiting && t !in m.woken && t !in m.failed && t !in m.s.locals
  }

  /** One region of rt_mq_recv. */
  ghost function RecvRegion(m: State, t: Thread, size: nat, prio: Priorities, timeout: int): State
    requires M.Inv(m.s)
  {
    if m.s.mq.queue != [] then m.(s := M.Step(m.s, M.Receive(t, size)))
    else if timeout == 0 then m
    else m.(waiting := Suspended(m.waiting, prio, m.flag, t))
  }

  ghost function Step(m: State, e: Event): State
    requires M.Inv(m.s)
  {
    match e
    case Send(t, urgent, b) => if Idle(m, t) then m.(s := M.Step(m.s, M.Send(t, urgent, b))) else m
    case CopyIn(t) => m.(s := M.Step(m.s, M.CopyIn(t)))
    case LinkIn(t) =>
      if t in m.s.locals && m.s.locals[t].Filled? then
        m.(s := M.Step(m.s, M.LinkIn(t)), woken := m.woken + Woken(First(m.waiting)), waiting := Rest(m.waiting))
      else m
    case Recv(t, size, prio, timeout) => if Idle(m, t) then RecvRegion(m, t, size, prio, timeout) else m
    case Retry(t, size, prio, timeout) =>
      if t in m.woken then RecvRegion(m.(woken := m.woken - {t}), t, size, prio, timeout) else m
    case CopyOut(t) => m.(s := M.Step(m.s, M.CopyOut(t)))
    case PutFree(t) => m.(s := M.Step(m.s, M.PutFree(t)))
    case Expire(t) => if t in m.waiting then m.(waiting := Without(m.waiting, t), failed := m.failed + {t}) else m
    case Return(t) => m.(failed := m.failed - {t})
    case Clear => m.(s := M.Step(m.s, M.Clear), waiting := [], failed := m.failed + Elements(m.waiting))
  }

  // ---- the invariant

  /** Every thread is in one place. */
  ghost predicate Places(m: State) {
    && Distinct(m.waiting)
    && (forall t :: t in m.waiting ==> t !in m.woken && t !in m.failed && t !in m.s.locals)
    && (forall t :: t in m.woken ==> t !in m.failed && t !in m.s.locals)
    && (forall t :: t in m.failed ==> t !in m.s.locals)
  }

  ghost predicate Inv(m: State) {
    M.Inv(m.s) && Places(m) && (m.waiting != [] ==> |m.s.mq.queue| <= |m.woken|)
  }

  /** What the steps do to the length of the queue and to the threads inside. */
  lemma Inside(s: M.State, e: M.Event)
    requires M.Inv(s)
    ensures M.Inv(M.Step(s, e))
    ensures var r := M.Step(s, e);
            |r.mq.queue| == match e
                            case LinkIn(t) => if t in s.locals && s.locals[t].Filled? then |s.mq.queue| + 1 else |s.mq.queue|
                            case Receive(t, _) => if t !in s.locals && s.mq.queue != [] then |s.mq.queue| - 1 else |s.mq.queue|
                            case Clear => 0
                            case _ => |s.mq.queue|
    ensures forall u :: u in M.Step(s, e).locals ==>
              u in s.locals || (e.Send? && u == e.t) || (e.Receive? && u == e.t)
  {
    hide M.Inv;
    M.StepInv(s, e);
  }

  lemma RecvInv(m: State, t: Thread, size: nat, prio: Priorities, timeout: int)
    requires M.Inv(m.s) && Places(m) && Idle(m, t)
    requires m.waiting != [] && m.s.mq.queue != [] ==> |m.s.mq.queue| - 1 <= |m.woken|
    ensures Inv(RecvRegion(m, t, size, prio, timeout))
  {
    hide M.Inv, M.Step, Distinct, Suspended;
    Inside(m.s, M.Receive(t, size));
    if m.s.mq.queue == [] && timeout != 0 { SuspendedDistinct(m.waiting, prio, m.flag, t); }
  }

  lemma LinkInv(m: State, t: Thread)
    requires Inv(m)
    ensures Inv(Step(m, LinkIn(t)))
  {
    hide M.Inv, M.Step, Distinct;
    Inside(m.s, M.LinkIn(t));
    if m.waiting != [] {
      var w := m.waiting[0];
      FirstLeaves(m.waiting);
      assert w !in m.woken;
      assert |m.woken + {w}| == |m.woken| + 1;
    }
  }

  lemma FirstLeaves(s: seq<Thread>)
    requires s != [] && Distinct(s)
    ensures s[0] in s && s[0] !in s[1..] && Distinct(s[1..]) && forall u :: u in s[1..] ==> u in s
  {}

  lemma StepInv(m: State, e: Event)
    requires Inv(m)
    ensures Inv(Step(m, e))
  {
    hide Inv, M.Inv, M.Step, RecvRegion;
    match e
    case Send(t, urgent, b) => if Idle(m, t) { InnerInv(m, M.Send(t, urgent, b), t); }
    case CopyIn(t) => InnerInv(m, M.CopyIn(t), t);
    case LinkIn(t) => LinkInv(m, t);
    case Recv(t, size, prio, timeout) =>
      Unfold(m);
      if Idle(m, t) { RecvInv(m, t, size, prio, timeout); }
    case Retry(t, size, prio, timeout) => if t in m.woken { RetryInv(m, t, size, prio, timeout); }
    case CopyOut(t) => InnerInv(m, M.CopyOut(t), t);
    case PutFree(t) => InnerInv(m, M.PutFree(t), t);
    case Expire(t) => ExpireInv(m, t);
    case Return(t) => ReturnInv(m, t);
    case Clear => ClearInv(m);
  }

  lemma Unfold(m: State)
    requires Inv(m)
    ensures M.Inv(m.s) && Places(m) && (m.waiting != [] ==> |m.s.mq.queue| <= |m.woken|)
  {}

  /** Steps of the queue that nobody waits for. */
  lemma InnerInv(m: State, e: M.Event, t: Thread)
    requires Inv(m) && (e.Send? || e.CopyIn? || e.CopyOut? || e.PutFree?) && e.t == t && (e.Send? ==> Idle(m, t))
    ensures Inv(m.(s := M.Step(m.s, e)))
  {
    hide M.Inv, M.Step, Distinct;
    Inside(m.s, e);
  }

  lemma RetryInv(m: State, t: Thread, size: nat, prio: Priorities, timeout: int)
    requires Inv(m) && t in m.woken
    ensures Inv(RecvRegion(m.(woken := m.woken - {t}), t, size, prio, timeout))
  {
    hide M.Inv, M.Step, Distinct, RecvRegion;
    var r := m.(woken := m.woken - {t});
    assert |r.woken| == |m.woken| - 1;
    RecvInv(r, t, size, prio, timeout);
  }

  lemma ExpireInv(m: State, t: Thread)
    requires Inv(m)
    ensures Inv(Step(m, Expire(t)))
  {
    hide M.Inv, Distinct, Without;
    WithoutMembers(m.waiting, t);
  }

  lemma ReturnInv(m: State, t: Thread)
    requires Inv(m)
    ensures Inv(Step(m, Return(t)))
  {
    hide M.Inv, Distinct;
  }

  lemma ClearInv(m: State)
    requires Inv(m)
    ensures Inv(Step(m, Clear))
  {
    hide M.Inv, M.Step, Distinct;
    Inside(m.s, M.Clear);
    NoneDistinct();
  }

  lemma NoneDistinct()
    ensures Distinct<Thread>([])
  {}

  // ---- runs

  ghost function Run(m: State, events: seq<Event>): (r: State)
    requires Inv(m)
    ensures Inv(r)
    decreases |events|
  {
    if events == [] then m else StepInv(m, events[0]); Run(Step(m, events[0]), events[1..])
  }

  ghost predicate Initial(m: State) { M.Initial(m.s) && m.waiting == [] && m.woken == {} && m.failed == {} }

  lemma InitialInv(m: State)
    requires Initial(m)
    ensures Inv(m)
  {
    hide M.Inv;
    M.InitialInv(m.s);
  }

  /**
   * No wakeup is lost, over all interleavings: while receivers wait there are no more messages than resumed receivers
   * that are still to run; with none of these left, receivers wait only at an empty queue.
   */
  lemma NoLostWakeup(m: State, events: seq<Event>)
    requires Initial(m)
    ensures Inv(m)
    ensures var r := Run(m, events);
            && (r.waiting != [] ==> |r.s.mq.queue| <= |r.woken|)
            && (r.waiting != [] && r.woken == {} ==> r.s.mq.queue == [])
  {
    InitialInv(m);
  }

  /** A resumed receiver that finds a message takes it. */
  lemma WokenTakes(m: State, t: Thread, size: nat, prio: Priorities, timeout: int)
    requires Inv(m) && t in m.woken && m.s.mq.queue != []
    ensures m.s.pending != [] && Step(m, Retry(t, size, prio, timeout)).s.taken == m.s.taken + [m.s.pending[0]]
    ensures Step(m, Retry(t, size, prio, timeout)).woken == m.woken - {t}
  {}

  /**
   * At an empty queue a receiver with a timeout other than 0 waits; the next message resumes it, and when it runs it
   * takes that message.
   */
  lemma ReceiverServed(m: State, t: Thread, size: nat, prio: Priorities, timeout: int, u: Thread, urgent: bool,
                       b: Bytes, later: int)
    requires Inv(m) && Idle(m, t) && Idle(m, u) && t != u && timeout != 0
    requires m.s.mq.queue == [] && m.waiting == [] && m.s.mq.free != [] && |b| <= m.s.mq.msgSize
    ensures var waits := Run(m, [Recv(t, size, prio, timeout)]);
            waits == m.(waiting := [t])
    ensures var sent := Run(Run(m, [Recv(t, size, prio, timeout)]), [Send(u, urgent, b), CopyIn(u), LinkIn(u)]);
            sent.waiting == [] && t in sent.woken && sent.s.pending == [b] && sent.s.taken == m.s.taken
    ensures var sent := Run(Run(m, [Recv(t, size, prio, timeout)]), [Send(u, urgent, b), CopyIn(u), LinkIn(u)]);
            var got := Step(sent, Retry(t, size, prio, later));
            got.s.taken == m.s.taken + [b] && got.s.pending == [] && t in got.s.locals && got.s.locals[t].Holding?
            && got.waiting == [] && got.woken == m.woken
  {
    hide Inv, M.Inv, Step, M.Step, Run, M.Run;
    Unfold(m);
    NonePending(m.s);
    EmptyWaits(m, t, size, prio, timeout);
    var waits := m.(waiting := [t]);
    M.SentLinked(m.s, u, urgent, b);
    SendWakes(waits, u, urgent, b);
    var sent := Run(waits, [Send(u, urgent, b), CopyIn(u), LinkIn(u)]);
    WokenHolds(sent, t, size, prio, later);
    assert m.woken + {t} - {t} == m.woken;
    assert [b][1..] == [];
  }

  lemma NonePending(s: M.State)
    requires M.Inv(s) && s.mq.queue == []
    ensures s.pending == []
  {}

  lemma EmptyWaits(m: State, t: Thread, size: nat, prio: Priorities, timeout: int)
    requires Inv(m) && Idle(m, t) && timeout != 0 && m.s.mq.queue == [] && m.waiting == []
    ensures Run(m, [Recv(t, size, prio, timeout)]) == m.(waiting := [t])
  {
    hide Inv, M.Inv, Step;
    var e := Recv(t, size, prio, timeout);
    Unfold(m);
    RecvWaits(m, t, size, prio, timeout);
    StepInv(m, e);
    assert [e][1..] == [];
    assert Run(m, [e]) == Run(Step(m, e), []);
  }

  lemma RecvWaits(m: State, t: Thread, size: nat, prio: Priorities, timeout: int)
    requires M.Inv(m.s) && Idle(m, t) && timeout != 0 && m.s.mq.queue == [] && m.waiting == []
    ensures Step(m, Recv(t, size, prio, timeout)) == m.(waiting := [t])
  {
    hide M.Inv, M.Step, Suspended, Idle;
    Alone(prio, m.flag, t);
    RegionWaits(m, t, size, prio, timeout);
  }

  lemma RegionWaits(m: State, t: Thread, size: nat, prio: Priorities, timeout: int)
    requires M.Inv(m.s) && timeout != 0 && m.s.mq.queue == []
    ensures RecvRegion(m, t, size, prio, timeout) == m.(waiting := Suspended(m.waiting, prio, m.flag, t))
  {
    hide M.Inv, M.Step, Suspended;
  }

  lemma Alone(prio: Priorities, flag: Flag, t: Thread)
    ensures Suspended([], prio, flag, t) == [t]
  {}

  lemma SendWakes(m: State, u: Thread, urgent: bool, b: Bytes)
    requires Inv(m) && M.Inv(m.s) && Idle(m, u) && |m.waiting| == 1 && |b| <= m.s.mq.msgSize && m.s.mq.free != []
    ensures var r := Run(m, [Send(u, urgent, b), CopyIn(u), LinkIn(u)]);
            && r.s == M.Run(m.s, [M.Send(u, urgent, b), M.CopyIn(u), M.LinkIn(u)])
            && r.waiting == [] && r.woken == m.woken + {m.waiting[0]}
  {
    hide Inv, M.Inv, M.Step, Run, M.Run;
    M.Three(m.s, M.Send(u, urgent, b), M.CopyIn(u), M.LinkIn(u));
    Three(m, Send(u, urgent, b), CopyIn(u), LinkIn(u));
    M.SendIs(m.s, u, urgent, b);
    var s1 := M.Step(m.s, M.Send(u, urgent, b));
    M.CopyInIs(s1, u);
    var s2 := M.Step(s1, M.CopyIn(u));
    assert s2.locals[u].Filled?;
    var m1 := m.(s := s1);
    var m2 := m.(s := s2);
    assert Step(m, Send(u, urgent, b)) == m1;
    assert Step(m1, CopyIn(u)) == m2;
  }

  lemma WokenHolds(m: State, t: Thread, size: nat, prio: Priorities, timeout: int)
    requires Inv(m) && M.Inv(m.s) && t in m.woken && m.s.mq.queue != [] && t !in m.s.locals
    ensures m.s.pending != []
    ensures var r := Step(m, Retry(t, size, prio, timeout));
            && r.s.taken == m.s.taken + [m.s.pending[0]] && r.s.pending == m.s.pending[1..]
            && t in r.s.locals && r.s.locals[t].Holding? && r.waiting == m.waiting && r.woken == m.woken - {t}
  {
    hide Inv, M.Inv, M.Step, Suspended;
    M.ReceiveIs(m.s, t, size);
  }

  lemma Three(m: State, a: Event, b: Event, c: Event)
    requires Inv(m) && M.Inv(m.s)
    ensures M.Inv(Step(m, a).s) && M.Inv(Step(Step(m, a), b).s)
    ensures Run(m, [a, b, c]) == Step(Step(Step(m, a), b), c)
  {
    hide Step, Inv, M.Inv;
    StepInv(m, a);
    Unfold(Step(m, a));
    StepInv(Step(m, a), b);
    Unfold(Step(Step(m, a), b));
    StepInv(Step(Step(m, a), b), c);
    Unfold(Step(Step(Step(m, a), b), c));
    assert [a, b, c][1..] == [b, c] && [b, c][1..] == [c] && [c][1..] == [];
    assert Run(Step(m, a), [b, c]) == Run(Step(Step(m, a), b), [c]);
    assert Run(Step(Step(m, a), b), [c]) == Run(Step(Step(Step(m, a), b), c), []);
  }

  /** Waiting changes nothing in what becomes of the messages: every such run is a run without it. */
  lemma {:induction false} Projection(m: State, events: seq<Event>) returns (es: seq<M.Event>)
    requires Inv(m)
    ensures Run(m, events).s == M.Run(m.s, es)
    decreases |events|
  {
    hide Places, M.Inv, M.Step;
    if events == [] {
      es := [];
    } else {
      StepInv(m, events[0]);
      var first := Below(m, events[0]);
      var rest := Projection(Step(m, events[0]), events[1..]);
      es := first + rest;
      if first != [] { assert es[0] == first[0] && es[1..] == rest; } else { assert es == rest; }
    }
  }

  lemma Below(m: State, e: Event) returns (es: seq<M.Event>)
    requires Inv(m)
    ensures |es| <= 1 && M.Inv(Step(m, e).s)
    ensures Step(m, e).s == if es == [] then m.s else M.Step(m.s, es[0])
  {
    StepInv(m, e);
    hide M.Inv, M.Step, Inv;
    es := match e
      case Send(t, urgent, b) => if Idle(m, t) then [M.Send(t, urgent, b)] else []
      case CopyIn(t) => [M.CopyIn(t)]
      case LinkIn(t) => if t in m.s.locals && m.s.locals[t].Filled? then [M.LinkIn(t)] else []
      case Recv(t, size, _, _) => if Idle(m, t) && m.s.mq.queue != [] then [M.Receive(t, size)] else []
      case Retry(t, size, _, _) => if t in m.woken && m.s.mq.queue != [] then [M.Receive(t, size)] else []
      case CopyOut(t) => [M.CopyOut(t)]
      case PutFree(t) => [M.PutFree(t)]
      case Clear => [M.Clear]
      case _ => [];
  }
}
