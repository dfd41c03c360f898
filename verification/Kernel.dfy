/**
 * rtt/src/thread.c, rtt/src/scheduler.c and the time slice of rtt/src/clock.c: the kernel's threads, ready lists with
 * their bitmap, and wait lists. Methods are interrupts-off regions, or calls made inside one; a method that joins
 * regions between which the source lets interrupts in says so, and ThreadRuns takes those regions apart.
 */
module Kernel {
  import opened Wrappers
  import opened WaitList
  import opened Sequences
  import opened ReadyLists
  import opened ThreadLists

  class Kernel {
    const levels: nat
    var ts: Threads
    var queues: Queues
    var bitmap: Bitmap
    var waits: Waits
    var current: Option<Tid>
    var lockNest: nat

    ghost function View(): Lists
      reads this
    {
      Lists(ts, queues, waits)
    }

    ghost predicate Valid()
      reads this
    {
      0 < levels == |queues| && Agrees(bitmap, queues) && bitmap.two == (levels > 32) && Listed(View())
    }

    /** rt_system_scheduler_init */
    constructor (levels: nat)
      requires 0 < levels <= 256
      ensures Valid() && this.levels == levels && ts == map[] && waits == map[] && lockNest == 0 && current == None
    {
      this.levels := levels;
      queues := seq(levels, _ => []);
      bitmap := Bitmap(levels > 32, 0, seq(32, _ => 0));
      ts, waits, lockNest, current := map[], map[], 0, None;
      new;
      EmptyBitmap(bitmap, queues);
    }

    /** rt_schedule_insert_thread on list and bitmap. */
    method Enqueue(t: Tid, p: nat)
      requires Agrees(bitmap, queues) && p < |queues|
      modifies this`queues, this`bitmap
      ensures queues == Enqueued(old(queues), t, p) && Agrees(bitmap, queues) && bitmap.two == old(bitmap).two
      ensures queues == old(queues)[p := old(queues)[p] + [t]]
    {
      hide Agrees, Mark;
      ByteBits(p, p);
      MarkReady(bitmap, queues, p);
      MarkAgrees(bitmap, queues, p, queues[p] + [t]);
      queues := queues[p := queues[p] + [t]];
      bitmap := Mark(bitmap, p);
    }

    /** rt_schedule_remove_thread on list and bitmap. */
    method Dequeue(t: Tid, p: nat)
      requires Agrees(bitmap, queues) && p < |queues|
      modifies this`queues, this`bitmap
      ensures queues == Dequeued(old(queues), t, p) && Agrees(bitmap, queues) && bitmap.two == old(bitmap).two
      ensures queues == old(queues)[p := Without(old(queues)[p], t)]
    {
      hide Agrees, Unmark;
      ByteBits(p, p);
      MarkReady(bitmap, queues, p);
      MarkAgrees(bitmap, queues, p, Without(queues[p], t));
      queues := queues[p := Without(queues[p], t)];
      if queues[p] == [] { bitmap := Unmark(bitmap, p); }
    }

    /** The tlist leaves the wait list it is on, if any. */
    method LeaveWait(t: Tid)
      requires t in ts
      modifies this`waits
      ensures waits == Left(old(waits), ts, t)
    {
      var o := ts[t].place;
      if o.Waiting? && o.list in waits { waits := waits[o.list := Without(waits[o.list], t)]; }
    }

    // ---- rtt/src/thread.c, region by region

    /** rt_thread_create or rt_thread_init; a time slice of 0 is accepted. */
    method Create(t: Tid, prio: nat, tick: nat)
      requires Valid() && t !in ts && prio < levels
      modifies this`ts
      ensures Valid() && ts == old(ts)[t := Thread(Init, prio, prio, tick, tick, EOK, Alone, false, false)]
    {
      CreateListed(View(), t, Thread(Init, prio, prio, tick, tick, EOK, Alone, false, false));
      ts := ts[t := Thread(Init, prio, prio, tick, tick, EOK, Alone, false, false)];
    }

    /** rt_thread_startup up to its resume: the thread has the priority it was created with, whatever was set since. */
    method MarkStarted(t: Tid)
      requires Valid() && t in ts && ts[t].stat.Init?
      modifies this`ts
      ensures Valid() && ts == old(ts)[t := old(ts)[t].(prio := old(ts)[t].initPrio, stat := Suspend)]
    {
      hide Agrees;
      SaneThread(View(), t);
      SameListed(View(), t, ts[t].(prio := ts[t].initPrio, stat := Suspend));
      ts := ts[t := ts[t].(prio := ts[t].initPrio, stat := Suspend)];
    }

    /** The first region of rt_thread_resume; a ready thread, queued since the test, would leave its ready list. */
    method UnlinkRegion(t: Tid)
      requires Valid() && t in ts
      modifies this`ts, this`queues, this`waits
      ensures View() == Unlinking(old(View()), t)
      ensures ts == old(ts)[t := old(ts)[t].(place := Alone, timer := false)]
      ensures waits == Left(old(waits), old(ts), t) && (!old(ts)[t].stat.Ready? ==> queues == old(queues))
      ensures Valid() <==> !old(ts)[t].stat.Ready?
    {
      hide Agrees, Listed, Without;
      UnlinkExact(View(), t);
      SaneThread(View(), t);
      LeaveWait(t);
      var th := ts[t];
      if th.place.InReady? { queues := queues[th.prio := Without(queues[th.prio], t)]; }
      ts := ts[t := th.(place := Alone, timer := false)];
      if !th.stat.Ready? { assert queues == old(queues); }
    }

    /** rt_schedule_insert_thread, as the second region of rt_thread_resume. */
    method InsertRegion(t: Tid)
      requires Valid() && t in ts
      modifies this`ts, this`queues, this`bitmap
      ensures View() == Inserting(old(View()), t)
      ensures ts == old(ts)[t := old(ts)[t].(stat := Ready, place := InReady)] && waits == old(waits)
      ensures var p := old(ts)[t].prio; p < |old(queues)| && queues == old(queues)[p := old(queues)[p] + [t]]
      ensures Valid() <==> old(ts)[t].place.Alone? && !old(ts)[t].timer && !old(ts)[t].exited
    {
      hide Agrees, Listed;
      InsertExact(View(), t);
      SaneThread(View(), t);
      var th := ts[t];
      ts := ts[t := th.(stat := Ready, place := InReady)];
      Enqueue(t, th.prio);
    }

    /** The region of rt_thread_suspend. */
    method SuspendRegion(t: Tid)
      requires Valid() && t in ts
      modifies this`ts, this`queues, this`bitmap, this`waits
      ensures View() == Suspending(old(View()), t)
      ensures ts == old(ts)[t := old(ts)[t].(stat := Suspend, place := Alone)] && waits == Left(old(waits), old(ts), t)
      ensures var p := old(ts)[t].prio;
              p < |old(queues)|
              && queues == if old(ts)[t].stat.Ready? then Dequeued(old(queues), t, p) else old(queues)
      ensures Valid() <==> !old(ts)[t].exited
    {
      hide Agrees, Listed, Without;
      SuspendExact(View(), t);
      SaneThread(View(), t);
      LeaveWait(t);
      var th := ts[t];
      ts := ts[t := th.(stat := Suspend, place := Alone)];
      if th.place.InReady? {
        Dequeue(t, th.prio);
      } else if queues[th.prio] == [] {
        ClearAgain(bitmap, queues, th.prio);
        bitmap := Unmark(bitmap, th.prio);
      }
    }

    // ---- whole calls, made where nothing comes between their regions

    /** rt_thread_startup up to its schedule. */
    method Startup(t: Tid)
      requires Valid() && t in ts && ts[t].stat.Init?
      modifies this`ts, this`queues, this`bitmap, this`waits
      ensures Valid() && old(ts)[t].initPrio < levels
      ensures ts == old(ts)[t := old(ts)[t].(prio := old(ts)[t].initPrio, stat := Ready, place := InReady)]
      ensures queues == Enqueued(old(queues), t, old(ts)[t].initPrio) && waits == old(waits)
    {
      hide Agrees, Listed;
      SaneThread(View(), t);
      MarkStarted(t);
      var r := ResumeThread(t);
    }

    /** rt_thread_suspend, called inside a region. */
    method SuspendThread(t: Tid) returns (ok: bool)
      requires Valid() && t in ts
      modifies this`ts, this`queues, this`bitmap, this`waits
      ensures Valid() && ok == old(ts)[t].stat.Ready?
      ensures View() == if ok then Suspending(old(View()), t) else old(View())
    {
      hide Agrees, Listed, Suspending;
      SaneThread(View(), t);
      if !ts[t].stat.Ready? { return false; }
      SuspendRegion(t);
      ok := true;
    }

    /** rt_thread_resume, called inside a region. */
    method ResumeThread(t: Tid) returns (ok: bool)
      requires Valid() && t in ts
      modifies this`ts, this`queues, this`bitmap, this`waits
      ensures Valid() && ok == old(ts)[t].stat.Suspend?
      ensures if ok then
                old(ts)[t].prio < levels && queues == Enqueued(old(queues), t, old(ts)[t].prio)
                && waits == Left(old(waits), old(ts), t)
                && ts == old(ts)[t := old(ts)[t].(stat := Ready, place := InReady, timer := false)]
              else View() == old(View())
      ensures ok ==> View() == Resuming(old(View()), t)
    {
      hide Agrees, Listed, Unlinking, Inserting;
      if !ts[t].stat.Suspend? { return false; }
      ResumeListed(View(), t);
      UnlinkedAlone(View(), t);
      UnlinkRegion(t);
      InsertRegion(t);
      ok := true;
    }

    /**
     * The timer of a thread fires, inside the region of the timer check: it is a one-shot timer, stopped by now. The
     * assertion of rt_thread_timeout, that the thread is suspended, cannot fail.
     */
    method Timeout(t: Tid)
      requires Valid() && t in ts && ts[t].timer
      modifies this`ts, this`queues, this`bitmap, this`waits
      ensures Valid() && old(ts)[t].prio < levels && old(ts)[t].stat.Suspend?
      ensures queues == Enqueued(old(queues), t, old(ts)[t].prio) && waits == Left(old(waits), old(ts), t)
      ensures ts == old(ts)[t := old(ts)[t].(error := ETIMEOUT, stat := Ready, place := InReady, timer := false)]
      ensures View() == Expiring(old(View()), t)
    {
      hide Agrees, Listed, Resuming;
      TimerMeansSuspended(View(), t);
      assert ts[t].stat.Suspend?;
      SaneThread(View(), t);
      SameListed(View(), t, ts[t].(error := ETIMEOUT));
      ts := ts[t := ts[t].(error := ETIMEOUT)];
      var ok := ResumeThread(t);
    }

    /** rt_thread_sleep up to its schedule. */
    method Sleep()
      requires Valid() && current.Some? && current.value in ts && ts[current.value].stat.Ready?
      modifies this`ts, this`queues, this`bitmap, this`waits
      ensures Valid() && View() == Sleeping(old(View()), current.value)
      ensures var t := current.value;
              && old(ts)[t].prio < levels && queues == Dequeued(old(queues), t, old(ts)[t].prio) && waits == old(waits)
              && ts == old(ts)[t := old(ts)[t].(stat := Suspend, place := Alone, timer := true)]
    {
      hide Agrees, Listed, Dequeued;
      var t := current.value;
      QueueOf(View(), t);
      SleepListed(View(), t);
      var ok := SuspendThread(t);
      ts := ts[t := ts[t].(timer := true)];
    }

    /** RT_THREAD_CTRL_CHANGE_PRIORITY; a suspended thread keeps its place in a wait list. */
    method ChangePriority(t: Tid, p: nat)
      requires Valid() && t in ts && p < levels
      modifies this`ts, this`queues, this`bitmap
      ensures Valid() && ts == old(ts)[t := old(ts)[t].(prio := p)] && old(ts)[t].prio < levels
      ensures queues == if old(ts)[t].stat.Ready? then Enqueued(Dequeued(old(queues), t, old(ts)[t].prio), t, p) else old(queues)
      ensures View() == Changing(old(View()), t, p)
    {
      hide Agrees, Listed, Without;
      ChangeListed(View(), t, p);
      if ts[t].stat.Ready? {
        Dequeue(t, ts[t].prio);
        ts := ts[t := ts[t].(prio := p)];
        Enqueue(t, p);
      } else {
        ts := ts[t := ts[t].(prio := p)];
      }
    }

    /** rt_thread_yield up to its schedule: the current thread goes behind the others of its priority. */
    method Yield()
      requires Valid() && current.Some? && current.value in ts
      modifies this`queues, this`bitmap
      ensures Valid() && ts[current.value].prio < levels
      ensures var t := current.value; var p := ts[t].prio;
              queues == if ts[t].stat.Ready? && |old(queues)[p]| > 1 then Enqueued(Dequeued(old(queues), t, p), t, p)
                        else old(queues)
      ensures View() == Rotating(old(View()), current.value)
    {
      hide Agrees, Listed, Without;
      var t := current.value;
      RotateListed(View(), t);
      var p := ts[t].prio;
      if ts[t].stat.Ready? && |queues[p]| > 1 {
        RotateAgrees(bitmap, queues, p, Without(queues[p], t) + [t]);
        ghost var was := queues;
        queues := queues[p := Without(queues[p], t)];
        queues := queues[p := queues[p] + [t]];
        assert queues == was[p := Without(was[p], t) + [t]];
      }
    }

    /** rt_thread_exit up to its schedule; kept unless the thread is a static one without cleanup. */
    method Exit(kept: bool)
      requires Valid() && current.Some? && current.value in ts && ts[current.value].stat.Ready?
      modifies this`ts, this`queues, this`bitmap
      ensures Valid() && View() == Exiting(old(View()), current.value, kept)
      ensures var t := current.value;
              && old(ts)[t].prio < levels && queues == Dequeued(old(queues), t, old(ts)[t].prio)
              && ts == old(ts)[t := old(ts)[t].(stat := Close, place := if kept then Defunct else Alone, timer := false, exited := true)]
    {
      hide Agrees, Listed, Without;
      var t := current.value;
      QueueOf(View(), t);
      ExitListed(View(), t, kept);
      Dequeue(t, ts[t].prio);
      ts := ts[t := ts[t].(stat := Close, place := if kept then Defunct else Alone, timer := false, exited := true)];
      assert ts == Exiting(old(View()), t, kept).ts;
    }

    // ---- rtt/src/ipc.c

    /** An IPC object is initialized with an empty wait list. */
    method InitObject(o: nat)
      requires Valid() && o !in waits
      modifies this`waits
      ensures Valid() && waits == old(waits)[o := []]
    {
      hide Agrees;
      ObjectListed(View(), o);
      waits := waits[o := []];
    }

    /** The current thread waits on an object, with a timeout or forever: rt_ipc_list_suspend and the timer. */
    method Wait(o: nat, flag: Flag, timed: bool)
      requires Valid() && o in waits && current.Some? && current.value in ts && ts[current.value].stat.Ready?
      modifies this`ts, this`queues, this`bitmap, this`waits
      ensures Valid() && View() == WaitingOn(old(View()), current.value, o, flag, timed)
      ensures var t := current.value;
              && old(ts)[t].prio < levels && queues == Dequeued(old(queues), t, old(ts)[t].prio)
              && ts == old(ts)[t := old(ts)[t].(stat := Suspend, place := Waiting(o), timer := timed, error := EOK)]
              && waits == old(waits)[o := Suspended(old(waits)[o], PriorityOf(old(ts)), flag, t)]
              && (flag.FIFO? ==> waits[o] == old(waits)[o] + [t])
      ensures forall u :: u in old(ts) ==> PriorityOf(old(ts))(u) == old(ts)[u].prio
    {
      hide Agrees, Listed, Without, Suspended;
      var t := current.value;
      QueueOf(View(), t);
      WaitListed(View(), t, o, flag, timed);
      var s := WaitList.Suspend(waits[o], PriorityOf(ts), flag, t);
      var ok := SuspendThread(t);
      waits := waits[o := s];
      ts := ts[t := ts[t].(place := Waiting(o), timer := timed, error := EOK)];
    }

    /** rt_ipc_list_resume: the first waiting thread of a list that is not empty. */
    method WakeFirst(o: nat) returns (t: Tid)
      requires Valid() && o in waits && waits[o] != []
      modifies this`ts, this`queues, this`bitmap, this`waits
      ensures Valid() && t == old(waits)[o][0] && t in old(ts) && old(ts)[t].prio < levels
      ensures waits == old(waits)[o := old(waits)[o][1..]] && queues == Enqueued(old(queues), t, old(ts)[t].prio)
      ensures ts == old(ts)[t := old(ts)[t].(stat := Ready, place := InReady, timer := false)]
      ensures View() == Resuming(old(View()), t)
    {
      hide Agrees, Listed;
      t := waits[o][0];
      FirstWaiting(View(), o);
      var ok := ResumeThread(t);
    }

    /** One round of rt_ipc_list_resume_all: the thread will find the error that its wait was broken off. */
    method FailFirst(o: nat)
      requires Valid() && o in waits && waits[o] != []
      modifies this`ts, this`queues, this`bitmap, this`waits
      ensures Valid() && waits == old(waits)[o := old(waits)[o][1..]]
      ensures var t := old(waits)[o][0];
              t in old(ts) && ts == old(ts)[t := old(ts)[t].(error := ERROR, stat := Ready, place := InReady, timer := false)]
      ensures old(waits)[o][0] in old(ts) && View() == Resuming(SetError(old(View()), old(waits)[o][0], ERROR), old(waits)[o][0])
    {
      hide Agrees, Listed, Resuming;
      var t := waits[o][0];
      FirstWaiting(View(), o);
      SaneThread(View(), t);
      SameListed(View(), t, ts[t].(error := ERROR));
      ts := ts[t := ts[t].(error := ERROR)];
      var ok := ResumeThread(t);
    }

    /** rt_ipc_list_resume_all */
    method WakeAll(o: nat)
      requires Valid() && o in waits
      modifies this`ts, this`queues, this`bitmap, this`waits
      ensures Valid() && waits == old(waits)[o := []]
      ensures forall t :: t in old(waits)[o] ==> t in ts && ts[t].stat.Ready? && !ts[t].timer && ts[t].error == ERROR
      ensures forall t :: t in old(ts) && t !in old(waits)[o] ==> t in ts && ts[t] == old(ts)[t]
    {
      hide Agrees, Listed, Enqueued, Resuming;
      ghost var all, n := waits[o], 0;
      while waits[o] != []
        invariant Valid() && o in waits && waits == old(waits)[o := waits[o]]
        invariant n <= |all| && waits[o] == all[n..]
        invariant forall i :: 0 <= i < n ==> Failed(ts, all[i])
        invariant forall t :: t in old(ts) && t !in all ==> t in ts && ts[t] == old(ts)[t]
        decreases |waits[o]|
      {
        FailFirst(o);
        n := n + 1;
      }
    }

    // ---- rtt/src/scheduler.c

    /** Some thread is ready: the idle thread never waits. */
    ghost predicate SomeReady()
      reads this
    {
      exists p :: 0 <= p < |queues| && queues[p] != []
    }

    /** The current thread is the first one of the most urgent list that is not empty. */
    ghost predicate Scheduled()
      reads this
    {
      exists h: nat :: MostUrgent(queues, h) && current == Some(queues[h][0])
    }

    /** rt_schedule: unless the scheduler is locked, the first thread of the most urgent list that is not empty runs. */
    method Schedule()
      requires Valid() && SomeReady()
      modifies this`current
      ensures Valid()
      ensures if lockNest > 0 then current == old(current)
              else Scheduled()
    {
      hide Listed;
      if lockNest == 0 {
        ghost var p :| 0 <= p < |queues| && queues[p] != [];
        HighestExact(bitmap, queues, p);
        var h := Highest(bitmap);
        var to := queues[h][0];
        if current != Some(to) { current := Some(to); }
        assert MostUrgent(queues, h);
      }
    }

    /** rt_enter_critical */
    method EnterCritical()
      modifies this`lockNest
      ensures lockNest == old(lockNest) + 1
    {
      lockNest := lockNest + 1;
    }

    /** rt_exit_critical: leaving the outermost section schedules, here with nothing between its region and rt_schedule. */
    method ExitCritical()
      requires Valid() && SomeReady()
      modifies this`lockNest, this`current
      ensures Valid() && lockNest == if old(lockNest) <= 1 then 0 else old(lockNest) - 1
      ensures if lockNest > 0 then current == old(current)
              else Scheduled()
    {
      if lockNest <= 1 {
        lockNest := 0;
        Schedule();
      } else {
        lockNest := lockNest - 1;
      }
    }

    // ---- rtt/src/clock.c

    /** The time slice part of rt_tick_increase, with the yield and its schedule; the count of ticks left wraps. */
    method Tick()
      requires Valid() && SomeReady() && current.Some? && current.value in ts
      modifies this`ts, this`queues, this`bitmap, this`current
      ensures Valid() && SomeReady() && old(ts)[old(current).value].prio < levels
      ensures var t := old(current).value; var th := old(ts)[t];
              ts == old(ts)[t := th.(remaining := if th.remaining == 1 then th.initTick
                                                  else if th.remaining == 0 then 0xFFFF_FFFF else th.remaining - 1)]
              && if th.remaining == 1 && th.stat.Ready? && |old(queues)[th.prio]| > 1
                 then queues == Enqueued(Dequeued(old(queues), t, th.prio), t, th.prio)
                 else queues == old(queues)
      ensures var th := old(ts)[old(current).value];
              if th.remaining == 1 && th.stat.Ready? && |old(queues)[th.prio]| > 1 && lockNest == 0
              then Scheduled()
              else current == old(current)
      ensures View() == Slicing(old(View()), old(current).value)
    {
      hide Agrees, Listed, Without;
      var t := current.value;
      SaneThread(View(), t);
      var left := Less(ts[t].remaining);
      var th := ts[t].(remaining := if left == 0 then ts[t].initTick else left);
      SameListed(View(), t, th);
      ts := ts[t := th];
      if left == 0 {
        var rotates := th.stat.Ready? && |queues[th.prio]| > 1;
        Yield();
        if rotates { Schedule(); }
      }
    }
  }

  ghost predicate Failed(ts: Threads, t: Tid) { t in ts && ts[t].stat.Ready? && !ts[t].timer && ts[t].error == ERROR }

  lemma UnlinkedAlone(l: Lists, t: Tid)
    requires Listed(l) && t in l.ts && l.ts[t].stat.Suspend?
    ensures var u := Unlinking(l, t); t in u.ts && u.ts[t].place.Alone? && !u.ts[t].timer && !u.ts[t].exited
  {
    SaneThread(l, t);
  }

  lemma ClearAgain(b: Bitmap, q: Queues, p: nat)
    requires Agrees(b, q) && p < |q| && q[p] == []
    ensures (b.two ==> p / 8 < |b.table|) && Agrees(Unmark(b, p), q) && Unmark(b, p).two == b.two
  {
    MarkReady(b, q, p);
    MarkAgrees(b, q, p, []);
    assert q[p := []] == q;
  }

  lemma RotateAgrees(b: Bitmap, q: Queues, p: nat, s: seq<Tid>)
    requires Agrees(b, q) && p < |q| && q[p] != [] && s != []
    ensures Agrees(b, q[p := s])
  {
    MarkReady(b, q, p);
    MarkAgrees(b, q, p, s);
  }

  lemma EmptyBitmap(b: Bitmap, q: Queues)
    requires b == Bitmap(|q| > 32, 0, seq(32, _ => 0)) && |q| <= 256 && forall p :: 0 <= p < |q| ==> q[p] == []
    ensures Agrees(b, q) && Listed(Lists(map[], q, map[]))
  {
    forall p | 0 <= p < Limit(b)
      ensures !Marked(b, p)
    {
      ByteBits(p, p);
      Bits.NoBits(p);
      Bits.NoBits(p % 8);
    }
    if b.two {
      forall n | 0 <= n < 32
        ensures Grouped(b, n)
      {
        Bits.NoBits(n);
      }
    }
  }

  lemma MarkReady(b: Bitmap, q: Queues, p: nat)
    requires Agrees(b, q) && p < |q|
    ensures b.two ==> p / 8 < |b.table|
    ensures Mark(b, p).two == b.two && Unmark(b, p).two == b.two
  {}
}
