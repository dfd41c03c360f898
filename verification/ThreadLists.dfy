/**
 * rtt/src/thread.c: what the interrupts-off regions of the thread functions do to the list node of a thread, and
 * when its state and the lists still agree afterwards.
 */
module ThreadLists {
  import opened WaitList
  import opened Sequences
  import opened ReadyLists

  datatype Stat = Init | Ready | Suspend | Close

  datatype Errno = EOK | ETIMEOUT | ERROR

  /** What the tlist of a thread was last linked into. */
  datatype Place = Alone | InReady | Waiting(list: nat) | Defunct

  datatype Thread = Thread(stat: Stat, prio: nat, initPrio: nat, initTick: nat, remaining: nat, error: Errno, place: Place,
                           timer: bool, exited: bool)

  type Tid = WaitList.Thread
  type Threads = map<Tid, Thread>
  type Waits = map<nat, seq<Tid>>

  datatype Lists = Lists(ts: Threads, queues: Queues, waits: Waits)

  // ---- the invariant

  /** stat decides where the tlist is, and a running thread timer means that the thread is suspended. */
  ghost predicate Sane(th: Thread, levels: nat) {
    && th.prio < levels && th.initPrio < levels
    && (th.stat.Ready? <==> th.place.InReady?)
    && (th.place.Waiting? ==> th.stat.Suspend?)
    && (th.place.Defunct? ==> th.stat.Close?)
    && (th.timer ==> th.stat.Suspend?)
    && (th.exited <==> th.stat.Close?)
  }

  ghost predicate InQueue(t: Tid, ts: Threads, p: nat) { t in ts && ts[t].place.InReady? && ts[t].prio == p }

  ghost predicate InWait(t: Tid, ts: Threads, o: nat) { t in ts && ts[t].place == Waiting(o) }

  /** The lists hold exactly the threads that say so, and each once. */
  ghost predicate Listed(l: Lists) {
    && (forall t :: t in l.ts ==> Sane(l.ts[t], |l.queues|))
    && (forall p :: 0 <= p < |l.queues| ==> Distinct(l.queues[p]))
    && (forall p, t :: 0 <= p < |l.queues| ==> (t in l.queues[p] <==> InQueue(t, l.ts, p)))
    && (forall o :: o in l.waits ==> Distinct(l.waits[o]))
    && (forall o, t :: o in l.waits ==> (t in l.waits[o] <==> InWait(t, l.ts, o)))
    && (forall t :: t in l.ts && l.ts[t].place.Waiting? ==> l.ts[t].place.list in l.waits)
  }

  // ---- links

  function Dequeued(q: Queues, t: Tid, p: nat): Queues
    requires p < |q|
  {
    q[p := Without(q[p], t)]
  }

  function Enqueued(q: Queues, t: Tid, p: nat): Queues
    requires p < |q|
  {
    q[p := q[p] + [t]]
  }

  /** The wait lists after t left the one it is on, if any. */
  function Left(w: Waits, ts: Threads, t: Tid): Waits
    requires t in ts
  {
    if ts[t].place.Waiting? && ts[t].place.list in w then
      w[ts[t].place.list := Without(w[ts[t].place.list], t)]
    else w
  }

  /** rt_list_remove on the tlist, whatever it is linked into. */
  function Unlinked(l: Lists, t: Tid): Lists
    requires t in l.ts
  {
    var th := l.ts[t];
    Lists(l.ts[t := th.(place := Alone)],
          if th.place.InReady? && th.prio < |l.queues| then Dequeued(l.queues, t, th.prio) else l.queues,
          Left(l.waits, l.ts, t))
  }

  // ---- the regions

  /** First region of rt_thread_resume. */
  function Unlinking(l: Lists, t: Tid): Lists
    requires t in l.ts
  {
    var u := Unlinked(l, t); u.(ts := u.ts[t := u.ts[t].(timer := false)])
  }

  /** Its second region, rt_schedule_insert_thread: no test of stat, and no test of where the tlist is. */
  function Inserting(l: Lists, t: Tid): Lists
    requires t in l.ts
  {
    var th := l.ts[t];
    l.(ts := l.ts[t := th.(stat := Ready, place := InReady)],
       queues := if th.prio < |l.queues| then Enqueued(l.queues, t, th.prio) else l.queues)
  }

  /** rt_thread_resume past its test, where nothing comes between its regions. */
  function Resuming(l: Lists, t: Tid): Lists
    requires t in l.ts
  {
    Inserting(Unlinking(l, t), t)
  }

  /** The region of rt_thread_suspend, which follows its test. */
  function Suspending(l: Lists, t: Tid): Lists
    requires t in l.ts
  {
    var u := Unlinked(l, t); u.(ts := u.ts[t := u.ts[t].(stat := Suspend)])
  }

  function SetError(l: Lists, t: Tid, e: Errno): Lists
    requires t in l.ts
  {
    l.(ts := l.ts[t := l.ts[t].(error := e)])
  }

  /** rt_thread_timeout of a timer that has fired and is stopped. */
  function Expiring(l: Lists, t: Tid): Lists
    requires t in l.ts
  {
    Resuming(SetError(l, t, ETIMEOUT), t)
  }

  function Sleeping(l: Lists, t: Tid): Lists
    requires t in l.ts
  {
    var u := Suspending(l, t); u.(ts := u.ts[t := u.ts[t].(timer := true)])
  }

  /** current_priority of the threads, for rt_ipc_list_suspend. */
  function PriorityOf(ts: Threads): Priorities {
    (t: Tid) => if t in ts then ts[t].prio else 0
  }

  /** rt_ipc_list_suspend, and the timer if there is a time to wait. */
  function WaitingOn(l: Lists, t: Tid, o: nat, flag: Flag, timed: bool): Lists
    requires t in l.ts && o in l.waits
  {
    var u := Suspending(l, t);
    u.(ts := u.ts[t := u.ts[t].(place := Waiting(o), timer := timed, error := EOK)],
       waits := l.waits[o := Suspended(l.waits[o], PriorityOf(l.ts), flag, t)])
  }

  function Changing(l: Lists, t: Tid, p: nat): Lists
    requires t in l.ts
  {
    var th := l.ts[t];
    Lists(l.ts[t := th.(prio := p)],
          if th.stat.Ready? && th.prio < |l.queues| && p < |l.queues|
          then Enqueued(Dequeued(l.queues, t, th.prio), t, p) else l.queues,
          l.waits)
  }

  function Rotating(l: Lists, t: Tid): Lists
    requires t in l.ts
  {
    var p := l.ts[t].prio;
    if l.ts[t].stat.Ready? && p < |l.queues| && |l.queues[p]| > 1
    then l.(queues := Enqueued(Dequeued(l.queues, t, p), t, p)) else l
  }

  /** One tick less, in 32 bits. */
  function Less(remaining: nat): nat { if remaining == 0 then 0xFFFF_FFFF else remaining - 1 }

  /** The time slice part of rt_tick_increase for the running thread. */
  function Slicing(l: Lists, t: Tid): Lists
    requires t in l.ts
  {
    var th := l.ts[t];
    var r := l.(ts := l.ts[t := th.(remaining := if th.remaining == 1 then th.initTick else Less(th.remaining))]);
    if th.remaining == 1 then Rotating(r, t) else r
  }

  /** kept tells whether the thread goes to the list of defunct threads. */
  function Exiting(l: Lists, t: Tid, kept: bool): Lists
    requires t in l.ts
  {
    var u := Unlinked(l, t);
    u.(ts := u.ts[t := u.ts[t].(stat := Close, place := if kept then Defunct else Alone, timer := false, exited := true)])
  }

  // ---- when they keep the invariant

  lemma SaneThread(l: Lists, t: Tid)
    requires Listed(l) && t in l.ts
    ensures Sane(l.ts[t], |l.queues|)
  {}

  /** One thread changes, and leaves the list it is on. */
  lemma LeaveListed(l: Lists, t: Tid, th: Thread)
    requires Listed(l) && t in l.ts && Sane(th, |l.queues|) && !th.place.InReady? && !th.place.Waiting?
    ensures var u := Unlinked(l, t); Listed(u.(ts := u.ts[t := th]))
  {
    assert Sane(l.ts[t], |l.queues|);
    var was := l.ts[t];
    if was.place.InReady? { WithoutMembers(l.queues[was.prio], t); }
    if was.place.Waiting? { WithoutMembers(l.waits[was.place.list], t); }
    hide Without;
  }

  /** One thread changes, and its place and priority do not. */
  lemma SameListed(l: Lists, t: Tid, th: Thread)
    requires Listed(l) && t in l.ts && Sane(th, |l.queues|) && th.place == l.ts[t].place
    requires th.prio == l.ts[t].prio || !th.place.InReady?
    ensures Listed(l.(ts := l.ts[t := th]))
  {}

  /**
   * The first region of a resume keeps the invariant exactly if the thread is not ready by then: the node of a
   * ready thread is taken out of its ready list.
   */
  lemma UnlinkExact(l: Lists, t: Tid)
    requires Listed(l) && t in l.ts
    ensures Listed(Unlinking(l, t)) <==> !l.ts[t].stat.Ready?
  {
    SaneThread(l, t);
    var th := l.ts[t].(place := Alone, timer := false);
    assert Unlinking(l, t).ts[t] == th && |Unlinking(l, t).queues| == |l.queues|;
    if !l.ts[t].stat.Ready? {
      LeaveListed(l, t, th);
      var u := Unlinked(l, t);
      assert Unlinking(l, t) == u.(ts := u.ts[t := th]);
    } else if Listed(Unlinking(l, t)) {
      SaneThread(Unlinking(l, t), t);
    }
  }

  /**
   * The second region keeps it exactly if the thread has not been queued, put to sleep or ended since: its node is
   * in no list, its timer is stopped and it has not exited.
   */
  lemma InsertExact(l: Lists, t: Tid)
    requires Listed(l) && t in l.ts
    ensures Listed(Inserting(l, t)) <==> l.ts[t].place.Alone? && !l.ts[t].timer && !l.ts[t].exited
  {
    SaneThread(l, t);
    var th, p, r := l.ts[t], l.ts[t].prio, Inserting(l, t);
    assert r.queues[p] == l.queues[p] + [t] && |r.queues| == |l.queues| && r.waits == l.waits;
    assert r.ts[t] == th.(stat := Ready, place := InReady);
    assert th.place.Waiting? ==> t in r.waits[th.place.list] && !InWait(t, r.ts, th.place.list);
    if th.place.Alone? && !th.timer && !th.exited {
      assert t !in l.queues[p];
      assert forall u :: u in l.queues[p] + [t] <==> u in l.queues[p] || u == t;
    } else if Listed(r) {
      SaneThread(r, t);
      assert Distinct(r.queues[p]);
      if th.place.InReady? {
        assert t in l.queues[p];
        TwiceIn(l.queues[p], t);
      }
    }
  }

  lemma TwiceIn(s: seq<Tid>, t: Tid)
    requires t in s
    ensures !Distinct(s + [t])
  {
    var i :| 0 <= i < |s| && s[i] == t;
    assert (s + [t])[i] == (s + [t])[|s|];
  }

  /** The region of a suspend keeps it exactly if the thread has not exited since the test. */
  lemma SuspendExact(l: Lists, t: Tid)
    requires Listed(l) && t in l.ts
    ensures Listed(Suspending(l, t)) <==> !l.ts[t].exited
  {
    SaneThread(l, t);
    var th := l.ts[t].(place := Alone, stat := Suspend);
    assert Suspending(l, t).ts[t] == th && |Suspending(l, t).queues| == |l.queues|;
    if !l.ts[t].exited {
      LeaveListed(l, t, th);
      var u := Unlinked(l, t);
      assert Suspending(l, t) == u.(ts := u.ts[t := th]);
    } else if Listed(Suspending(l, t)) {
      SaneThread(Suspending(l, t), t);
    }
  }

  /** With nothing between its regions, the resume of a suspended thread is the move to its ready list. */
  lemma ResumeListed(l: Lists, t: Tid)
    requires Listed(l) && t in l.ts && l.ts[t].stat.Suspend?
    ensures Listed(Resuming(l, t)) && l.ts[t].prio < |l.queues|
    ensures Resuming(l, t) == Lists(l.ts[t := l.ts[t].(stat := Ready, place := InReady, timer := false)],
                                    Enqueued(l.queues, t, l.ts[t].prio), Left(l.waits, l.ts, t))
  {
    SaneThread(l, t);
    UnlinkExact(l, t);
    var u := Unlinking(l, t);
    assert u.ts[t] == l.ts[t].(place := Alone, timer := false);
    hide Listed;
    InsertExact(u, t);
    hide Without;
  }

  lemma ExpireListed(l: Lists, t: Tid)
    requires Listed(l) && t in l.ts && l.ts[t].stat.Suspend?
    ensures Listed(Expiring(l, t))
  {
    SaneThread(l, t);
    SameListed(l, t, l.ts[t].(error := ETIMEOUT));
    hide Listed;
    ResumeListed(SetError(l, t, ETIMEOUT), t);
  }

  lemma SleepListed(l: Lists, t: Tid)
    requires Listed(l) && t in l.ts && l.ts[t].stat.Ready?
    ensures Listed(Sleeping(l, t))
  {
    SaneThread(l, t);
    SuspendExact(l, t);
    hide Listed;
    SameListed(Suspending(l, t), t, Sleeping(l, t).ts[t]);
  }

  lemma WaitListed(l: Lists, t: Tid, o: nat, flag: Flag, timed: bool)
    requires Listed(l) && t in l.ts && o in l.waits && l.ts[t].stat.Ready?
    ensures Listed(WaitingOn(l, t, o, flag, timed))
  {
    SaneThread(l, t);
    SuspendExact(l, t);
    assert t !in l.waits[o];
    SuspendedDistinct(l.waits[o], PriorityOf(l.ts), flag, t);
    var u := Suspending(l, t);
    assert u.waits == l.waits && u.ts[t].place.Alone?;
    hide Suspended, Suspending;
    JoinListed(u, t, o, Suspended(l.waits[o], PriorityOf(l.ts), flag, t), timed);
  }

  lemma JoinListed(l: Lists, t: Tid, o: nat, s: seq<Tid>, timed: bool)
    requires Listed(l) && t in l.ts && l.ts[t].stat.Suspend? && l.ts[t].place.Alone? && o in l.waits
    requires Distinct(s) && forall u :: u in s <==> u == t || u in l.waits[o]
    ensures Listed(l.(ts := l.ts[t := l.ts[t].(place := Waiting(o), timer := timed, error := EOK)], waits := l.waits[o := s]))
  {}

  lemma ChangeListed(l: Lists, t: Tid, p: nat)
    requires Listed(l) && t in l.ts && p < |l.queues|
    ensures Listed(Changing(l, t, p)) && l.ts[t].prio < |l.queues|
  {
    SaneThread(l, t);
    if l.ts[t].stat.Ready? {
      var o := l.ts[t].prio;
      WithoutMembers(l.queues[o], t);
      hide Without;
      var s := Dequeued(l.queues, t, o)[p];
      assert t !in s && Distinct(s) && forall u :: u in s + [t] <==> u in s || u == t;
    } else {
      SameListed(l, t, l.ts[t].(prio := p));
    }
  }

  lemma RotateListed(l: Lists, t: Tid)
    requires Listed(l) && t in l.ts
    ensures Listed(Rotating(l, t)) && l.ts[t].prio < |l.queues|
  {
    SaneThread(l, t);
    ChangeListed(l, t, l.ts[t].prio);
    assert l.ts[t := l.ts[t].(prio := l.ts[t].prio)] == l.ts;
  }

  lemma SliceListed(l: Lists, t: Tid)
    requires Listed(l) && t in l.ts
    ensures Listed(Slicing(l, t))
  {
    SaneThread(l, t);
    var th := l.ts[t].(remaining := if l.ts[t].remaining == 1 then l.ts[t].initTick else Less(l.ts[t].remaining));
    SameListed(l, t, th);
    hide Listed;
    RotateListed(l.(ts := l.ts[t := th]), t);
  }

  lemma ExitListed(l: Lists, t: Tid, kept: bool)
    requires Listed(l) && t in l.ts && l.ts[t].stat.Ready?
    ensures Listed(Exiting(l, t, kept))
  {
    SaneThread(l, t);
    LeaveListed(l, t, Exiting(l, t, kept).ts[t]);
    hide Listed;
    var u := Unlinked(l, t);
    assert u.(ts := u.ts[t := Exiting(l, t, kept).ts[t]]) == Exiting(l, t, kept);
  }

  lemma CreateListed(l: Lists, t: Tid, th: Thread)
    requires Listed(l) && t !in l.ts && Sane(th, |l.queues|) && th.place.Alone?
    ensures Listed(l.(ts := l.ts[t := th]))
  {}

  lemma ObjectListed(l: Lists, o: nat)
    requires Listed(l) && o !in l.waits
    ensures Listed(l.(waits := l.waits[o := []]))
  {}

  lemma TimerMeansSuspended(l: Lists, t: Tid)
    requires Listed(l) && t in l.ts && l.ts[t].timer
    ensures l.ts[t].stat.Suspend? && l.ts[t].prio < |l.queues|
  {
    SaneThread(l, t);
  }

  lemma FirstWaiting(l: Lists, o: nat)
    requires Listed(l) && o in l.waits && l.waits[o] != []
    ensures var t := l.waits[o][0];
            t in l.ts && l.ts[t].stat.Suspend? && l.ts[t].prio < |l.queues| && Left(l.waits, l.ts, t) == l.waits[o := l.waits[o][1..]]
  {
    assert l.waits[o][0] in l.waits[o] && InWait(l.waits[o][0], l.ts, o);
    SaneThread(l, l.waits[o][0]);
  }

  lemma QueueOf(l: Lists, t: Tid)
    requires Listed(l) && t in l.ts && l.ts[t].stat.Ready?
    ensures l.ts[t].prio < |l.queues| && t in l.queues[l.ts[t].prio] && l.ts[t].place.InReady?
  {
    SaneThread(l, t);
    assert InQueue(t, l.ts, l.ts[t].prio);
  }
}
