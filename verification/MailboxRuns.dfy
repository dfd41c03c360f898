/** Mailboxes over all interleavings of the regions of rt_mb_send_wait, rt_mb_recv, timeouts and resets. */
module MailboxRuns {
  import opened WaitList
  import opened Sequences
  import opened Mailbox

  /**
   * The mailbox and the threads inside its functions: woken and wokenSenders were resumed by a mail or a free
   * slot and have not run since, failed were resumed by a timeout or a reset. value is what a sender sends.
   */
  datatype State = State(mb: Mb, flag: Flag, value: map<Thread, u32>, woken: set<Thread>, wokenSenders: set<Thread>,
                         failed: set<Thread>, sent: seq<u32>, got: seq<u32>)

  /** prio and timeout are the priorities and the remaining timeout when the region is entered. */
  datatype Event =
    | Recv(t: Thread, prio: Priorities, timeout: int)
    | Send(t: Thread, prio: Priorities, timeout: int, value: u32)
    | Retry(t: Thread, prio: Priorities, timeout: int)
    | Expire(t: Thread)
    | Return(t: Thread)
    | Reset

  ghost predicate Idle(s: State, t: Thread) {
    t !in s.mb.receivers && t !in s.mb.senders && t !in s.woken && t !in s.wokenSenders && t !in s.failed
  }

  ghost function RecvRegion(s: State, t: Thread, prio: Priorities, timeout: int): State {
    var (mb, r) := RecvStep(s.mb, prio, s.flag, t, timeout);
    match r
    case Failed => s
    case Waits => s.(mb := mb)
    case Done(v, w) => s.(mb := mb, got := s.got + [v], wokenSenders := s.wokenSenders + Woken(w))
  }

  ghost function SendRegion(s: State, t: Thread, prio: Priorities, timeout: int, v: u32): State {
    var (mb, r) := SendStep(s.mb, prio, s.flag, t, v, timeout);
    match r
    case Failed => s
    case Waits => s.(mb := mb, value := s.value[t := v])
    case Done(_, w) => s.(mb := mb, sent := s.sent + [v], woken := s.woken + Woken(w))
  }

  ghost function Step(s: State, e: Event): State {
    match e
    case Recv(t, prio, timeout) => if Idle(s, t) then RecvRegion(s, t, prio, timeout) else s
    case Send(t, prio, timeout, v) => if Idle(s, t) then SendRegion(s, t, prio, timeout, v) else s
    case Retry(t, prio, timeout) =>
      if t in s.woken then RecvRegion(s.(woken := s.woken - {t}), t, prio, timeout)
      else if t in s.wokenSenders && t in s.value then
        SendRegion(s.(wokenSenders := s.wokenSenders - {t}), t, prio, timeout, s.value[t])
      else s
    case Expire(t) =>
      if t in s.mb.receivers then
        s.(mb := s.mb.(receivers := Without(s.mb.receivers, t)), failed := s.failed + {t})
      else if t in s.mb.senders then
        s.(mb := s.mb.(senders := Without(s.mb.senders, t)), failed := s.failed + {t})
      else s
    case Return(t) => s.(failed := s.failed - {t})
    case Reset =>
      s.(mb := Mb(s.mb.size, [], [], []), failed := s.failed + Elements(s.mb.receivers) + Elements(s.mb.senders))
  }

  /** Every thread is in one place. */
  ghost predicate Places(s: State) {
    && Distinct(s.mb.receivers) && Distinct(s.mb.senders)
    && (forall t :: t in s.mb.receivers ==> t !in s.mb.senders && t !in s.woken && t !in s.wokenSenders && t !in s.failed)
    && (forall t :: t in s.mb.senders ==> t !in s.woken && t !in s.wokenSenders && t !in s.failed && t in s.value)
    && (forall t :: t in s.woken ==> t !in s.wokenSenders && t !in s.failed)
    && (forall t :: t in s.wokenSenders ==> t !in s.failed && t in s.value)
  }

  /** A waiting thread is not forgotten: the mails, or the free slots, are spoken for by woken threads. */
  ghost predicate NoneForgotten(s: State) {
    && |s.mb.items| <= s.mb.size
    && (s.mb.receivers != [] ==> |s.mb.items| <= |s.woken|)
    && (s.mb.senders != [] ==> s.mb.size - |s.mb.items| <= |s.wokenSenders|)
  }

  ghost predicate Inv(s: State) { Places(s) && NoneForgotten(s) }

  lemma RestPlaces(s: seq<Thread>)
    requires Distinct(s)
    ensures Distinct(Rest(s)) && forall t :: t in s <==> t in Rest(s) || t in Woken(First(s))
    ensures First(s).Some? ==> First(s).value in s && First(s).value !in Rest(s)
  {
    if s != [] {
      assert s[0] !in s[1..];
      assert forall t :: t in s <==> t == s[0] || t in s[1..];
    }
  }

  lemma RecvPlaces(s: State, t: Thread, prio: Priorities, timeout: int)
    requires Places(s) && Idle(s, t)
    ensures Places(RecvRegion(s, t, prio, timeout))
  {
    var mb := s.mb;
    if mb.items == [] {
      SuspendedDistinct(mb.receivers, prio, s.flag, t);
      hide Distinct;
    } else {
      RestPlaces(mb.senders);
      hide Distinct, Rest, First, Suspended;
    }
  }

  lemma RecvCounts(s: State, t: Thread, prio: Priorities, timeout: int)
    requires First(s.mb.senders).Some? ==> First(s.mb.senders).value !in s.wokenSenders
    requires |s.mb.items| <= s.mb.size
    requires s.mb.receivers != [] && s.mb.items != [] ==> |s.mb.items| - 1 <= |s.woken|
    requires s.mb.senders != [] ==> s.mb.size - |s.mb.items| <= |s.wokenSenders|
    ensures NoneForgotten(RecvRegion(s, t, prio, timeout))
  {
    hide Suspended;
  }

  lemma RecvInv(s: State, t: Thread, prio: Priorities, timeout: int)
    requires Places(s) && Idle(s, t) && |s.mb.items| <= s.mb.size
    requires s.mb.receivers != [] && s.mb.items != [] ==> |s.mb.items| - 1 <= |s.woken|
    requires s.mb.senders != [] ==> s.mb.size - |s.mb.items| <= |s.wokenSenders|
    ensures Inv(RecvRegion(s, t, prio, timeout))
  {
    assert First(s.mb.senders).Some? ==> First(s.mb.senders).value in s.mb.senders;
    assert First(s.mb.senders).Some? ==> First(s.mb.senders).value !in s.wokenSenders;
    hide Places, NoneForgotten, First, Idle, RecvRegion;
    RecvPlaces(s, t, prio, timeout);
    RecvCounts(s, t, prio, timeout);
  }

  lemma SendPlaces(s: State, t: Thread, prio: Priorities, timeout: int, v: u32)
    requires Places(s) && Idle(s, t)
    ensures Places(SendRegion(s, t, prio, timeout, v))
  {
    var mb := s.mb;
    if |mb.items| == mb.size {
      SuspendedDistinct(mb.senders, prio, s.flag, t);
      hide Distinct;
    } else {
      RestPlaces(mb.receivers);
      hide Distinct, Rest, First, Suspended;
    }
  }

  lemma SendCounts(s: State, t: Thread, prio: Priorities, timeout: int, v: u32)
    requires First(s.mb.receivers).Some? ==> First(s.mb.receivers).value !in s.woken
    requires |s.mb.items| <= s.mb.size
    requires s.mb.receivers != [] ==> |s.mb.items| <= |s.woken|
    requires s.mb.senders != [] && |s.mb.items| < s.mb.size ==> s.mb.size - |s.mb.items| - 1 <= |s.wokenSenders|
    ensures NoneForgotten(SendRegion(s, t, prio, timeout, v))
  {
    hide Suspended;
  }

  lemma SendInv(s: State, t: Thread, prio: Priorities, timeout: int, v: u32)
    requires Places(s) && Idle(s, t) && |s.mb.items| <= s.mb.size
    requires s.mb.receivers != [] ==> |s.mb.items| <= |s.woken|
    requires s.mb.senders != [] && |s.mb.items| < s.mb.size ==> s.mb.size - |s.mb.items| - 1 <= |s.wokenSenders|
    ensures Inv(SendRegion(s, t, prio, timeout, v))
  {
    assert First(s.mb.receivers).Some? ==> First(s.mb.receivers).value in s.mb.receivers;
    assert First(s.mb.receivers).Some? ==> First(s.mb.receivers).value !in s.woken;
    hide Places, NoneForgotten, First, Idle, SendRegion;
    SendPlaces(s, t, prio, timeout, v);
    SendCounts(s, t, prio, timeout, v);
  }

  lemma ExpireInv(s: State, t: Thread)
    requires Inv(s)
    ensures Inv(Step(s, Expire(t)))
  {
    WithoutMembers(s.mb.receivers, t);
    WithoutMembers(s.mb.senders, t);
  }

  /** A woken thread that runs is in no place until its region is over. */
  lemma RunsAgain(s: State, t: Thread)
    requires Places(s)
    ensures t in s.woken ==> var r := s.(woken := s.woken - {t}); Idle(r, t) && Places(r)
    ensures t in s.wokenSenders ==> t in s.value && var r := s.(wokenSenders := s.wokenSenders - {t}); Idle(r, t) && Places(r)
  {
    hide Distinct;
  }

  lemma RetryInv(s: State, t: Thread, prio: Priorities, timeout: int)
    requires Inv(s)
    ensures Inv(Step(s, Retry(t, prio, timeout)))
  {
    hide Places, Idle, RecvRegion, SendRegion;
    RunsAgain(s, t);
    if t in s.woken {
      RecvInv(s.(woken := s.woken - {t}), t, prio, timeout);
    } else if t in s.wokenSenders {
      SendInv(s.(wokenSenders := s.wokenSenders - {t}), t, prio, timeout, s.value[t]);
    }
  }

  lemma StepInv(s: State, e: Event)
    requires Inv(s)
    ensures Inv(Step(s, e))
  {
    match e
    case Recv(t, prio, timeout) =>
      hide Idle, RecvRegion;
      if Idle(s, t) { RecvInv(s, t, prio, timeout); }
    case Send(t, prio, timeout, v) =>
      hide Idle, SendRegion;
      if Idle(s, t) { SendInv(s, t, prio, timeout, v); }
    case Retry(t, prio, timeout) => RetryInv(s, t, prio, timeout);
    case Expire(t) => ExpireInv(s, t);
    case _ =>
  }

  // ---- runs

  ghost predicate Initial(s: State) {
    s.mb == Mb(s.mb.size, [], [], []) && s.value == map[] && s.woken == s.wokenSenders == s.failed == {} && s.sent == s.got == []
  }

  ghost function Run(s: State, events: seq<Event>): State
    decreases |events|
  {
    if events == [] then s else Run(Step(s, events[0]), events[1..])
  }

  lemma {:induction false} RunInv(s: State, events: seq<Event>)
    requires Inv(s)
    ensures Inv(Run(s, events))
    decreases |events|
  {
    if events != [] {
      StepInv(s, events[0]);
      hide Inv, Step;
      RunInv(Step(s, events[0]), events[1..]);
    }
  }

  /**
   * No wakeup is lost, over all interleavings: when no woken thread is still to run, receivers wait only for
   * an empty mailbox and senders only for a full one, and a mailbox with slots never has both waiting.
   */
  lemma NoLostWakeup(s: State, events: seq<Event>)
    requires Initial(s)
    ensures var r := Run(s, events);
            && (r.mb.receivers != [] ==> |r.mb.items| <= |r.woken|)
            && (r.mb.senders != [] ==> r.mb.size - |r.mb.items| <= |r.wokenSenders|)
            && (r.woken == {} && r.mb.receivers != [] ==> r.mb.items == [])
            && (r.wokenSenders == {} && r.mb.senders != [] ==> |r.mb.items| == r.mb.size)
            && (r.woken + r.wokenSenders == {} && r.mb.receivers != [] && r.mb.senders != [] ==> r.mb.size == 0)
  {
    RunInv(s, events);
    hide Run;
  }

  /** A woken receiver that finds a mail takes it, however long it waited. */
  lemma WokenTakes(s: State, t: Thread, prio: Priorities, timeout: int)
    requires Inv(s) && t in s.woken && s.mb.items != []
    ensures Step(s, Retry(t, prio, timeout)).got == s.got + [s.mb.items[0]]
    ensures Step(s, Retry(t, prio, timeout)).woken == s.woken - {t}
  {}

  /**
   * The invariant is about something: at an empty mailbox a receiver waits, the next mail resumes it, and it takes
   * that mail when it runs.
   */
  lemma ReceiverServed(s: State, t: Thread, prio: Priorities, timeout: int, u: Thread, prio': Priorities,
                       timeout': int, v: u32, later: int)
    requires Idle(s, t) && Idle(s, u) && t != u && timeout != 0
    requires s.mb.items == [] && s.mb.receivers == [] && s.mb.size > 0
    ensures var waits := Run(s, [Recv(t, prio, timeout)]);
            waits.mb == s.mb.(receivers := [t]) && waits.got == s.got && !Idle(waits, t)
    ensures var sent := Run(s, [Recv(t, prio, timeout), Send(u, prio', timeout', v)]);
            t in sent.woken && sent.mb.receivers == [] && sent.mb.items == [v] && sent.got == s.got
    ensures var taken := Run(s, [Recv(t, prio, timeout), Send(u, prio', timeout', v), Retry(t, prio, later)]);
            taken.got == s.got + [v] && taken.mb.items == [] && taken.woken == s.woken && t !in taken.mb.receivers
  {
    hide Run, Step;
    Unrolled(s, Recv(t, prio, timeout), Send(u, prio', timeout', v), Retry(t, prio, later));
    EmptyWaits(s, t, prio, timeout);
    var waits := s.(mb := s.mb.(receivers := [t]));
    MailWakes(waits, u, prio', timeout', v);
    var sent := waits.(mb := waits.mb.(items := [v], receivers := []), sent := s.sent + [v], woken := s.woken + {t});
    WokenReceives(sent, t, prio, later);
    assert sent.woken - {t} == s.woken;
  }

  lemma EmptyWaits(s: State, t: Thread, prio: Priorities, timeout: int)
    requires Idle(s, t) && timeout != 0 && s.mb.items == [] && s.mb.receivers == []
    ensures Step(s, Recv(t, prio, timeout)) == s.(mb := s.mb.(receivers := [t]))
  {}

  lemma MailWakes(s: State, u: Thread, prio: Priorities, timeout: int, v: u32)
    requires Idle(s, u) && s.mb.items == [] && |s.mb.receivers| == 1 && s.mb.size > 0
    ensures Step(s, Send(u, prio, timeout, v)) ==
            s.(mb := s.mb.(items := [v], receivers := []), sent := s.sent + [v], woken := s.woken + {s.mb.receivers[0]})
  {
    hide Suspended;
  }

  lemma WokenReceives(s: State, t: Thread, prio: Priorities, timeout: int)
    requires t in s.woken && s.mb.items != []
    ensures var r := Step(s, Retry(t, prio, timeout));
            r.got == s.got + [s.mb.items[0]] && r.mb.items == s.mb.items[1..] && r.woken == s.woken - {t}
            && r.mb.receivers == s.mb.receivers
  {
    hide Suspended;
  }

  /** So for a sender at a full mailbox, which the next receive resumes. */
  lemma SenderServed(s: State, t: Thread, prio: Priorities, timeout: int, u: Thread, prio': Priorities,
                     timeout': int, v: u32, later: int)
    requires Idle(s, t) && Idle(s, u) && t != u && timeout != 0
    requires |s.mb.items| == s.mb.size > 0 && s.mb.senders == []
    ensures var waits := Run(s, [Send(t, prio, timeout, v)]);
            waits.mb == s.mb.(senders := [t]) && waits.sent == s.sent && !Idle(waits, t)
    ensures var got := Run(s, [Send(t, prio, timeout, v), Recv(u, prio', timeout')]);
            t in got.wokenSenders && got.mb.senders == [] && got.got == s.got + [s.mb.items[0]]
    ensures var put := Run(s, [Send(t, prio, timeout, v), Recv(u, prio', timeout'), Retry(t, prio, later)]);
            put.sent == s.sent + [v] && put.mb.items == s.mb.items[1..] + [v] && t !in put.mb.senders
  {
    hide Run, Step;
    Unrolled(s, Send(t, prio, timeout, v), Recv(u, prio', timeout'), Retry(t, prio, later));
    FullWaits(s, t, prio, timeout, v);
    var waits := s.(mb := s.mb.(senders := [t]), value := s.value[t := v]);
    SlotWakes(waits, u, prio', timeout');
    var got := waits.(mb := waits.mb.(items := s.mb.items[1..], senders := []), got := s.got + [s.mb.items[0]],
                      wokenSenders := s.wokenSenders + {t});
    WokenSends(got, t, prio, later);
  }

  lemma FullWaits(s: State, t: Thread, prio: Priorities, timeout: int, v: u32)
    requires Idle(s, t) && timeout != 0 && |s.mb.items| == s.mb.size && s.mb.senders == []
    ensures Step(s, Send(t, prio, timeout, v)) == s.(mb := s.mb.(senders := [t]), value := s.value[t := v])
  {}

  lemma SlotWakes(s: State, u: Thread, prio: Priorities, timeout: int)
    requires Idle(s, u) && s.mb.items != [] && |s.mb.senders| == 1
    ensures Step(s, Recv(u, prio, timeout)) ==
            s.(mb := s.mb.(items := s.mb.items[1..], senders := []), got := s.got + [s.mb.items[0]],
               wokenSenders := s.wokenSenders + {s.mb.senders[0]})
  {
    hide Suspended;
  }

  lemma WokenSends(s: State, t: Thread, prio: Priorities, timeout: int)
    requires t !in s.woken && t in s.wokenSenders && t in s.value && |s.mb.items| < s.mb.size
    ensures var r := Step(s, Retry(t, prio, timeout));
            r.sent == s.sent + [s.value[t]] && r.mb.items == s.mb.items + [s.value[t]] && r.mb.senders == s.mb.senders
  {
    hide Suspended;
  }

  lemma Unrolled(s: State, a: Event, b: Event, c: Event)
    ensures Run(s, [a]) == Step(s, a)
    ensures Run(s, [a, b]) == Step(Step(s, a), b)
    ensures Run(s, [a, b, c]) == Step(Step(Step(s, a), b), c)
  {
    hide Step;
    assert [a][1..] == [] && [a, b][1..] == [b] && [b][1..] == [] && [a, b, c][1..] == [b, c] && [b, c][1..] == [c];
    var x := Step(s, a);
    var y := Step(x, b);
    assert [c][1..] == [];
    assert Run(y, [c]) == Run(Step(y, c), []) == Step(y, c);
    assert Run(x, [b, c]) == Run(y, [c]);
    assert Run(x, [b]) == Run(y, []);
  }

  /** Between resets, the mails received are the mails sent, in the same order, less those still in the ring. */
  lemma FifoStep(s: State, e: Event)
    requires s.sent == s.got + s.mb.items && !e.Reset?
    ensures Step(s, e).sent == Step(s, e).got + Step(s, e).mb.items
  {
    if s.mb.items != [] {
      assert s.got + s.mb.items == s.got + [s.mb.items[0]] + s.mb.items[1..];
    }
    hide Idle, Suspended, Without;
  }

  lemma {:induction false} MailOrder(s: State, events: seq<Event>)
    requires s.sent == s.got + s.mb.items && forall e :: e in events ==> !e.Reset?
    ensures Run(s, events).sent == Run(s, events).got + Run(s, events).mb.items
    decreases |events|
  {
    if events != [] {
      assert events[0] in events;
      FifoStep(s, events[0]);
      hide Step;
      MailOrder(Step(s, events[0]), events[1..]);
    }
  }
}
