/**
 * Threads and their timers together: the timer of a thread is one of the timer list, with the thread for its id. Here a
 * tick is the whole of rt_tick_increase, the timer check included, whose timeouts resume threads.
 */
module ThreadTimers {
  import opened WaitList
  import opened ThreadLists
  import R = ThreadRuns
  import Ticks
  import TL = TimerList
  import TR = TimerRuns

  datatype State = State(l: Lists, timers: TR.State)

  /** running is the current thread when the tick comes; n is the time a thread sleeps or waits at most. */
  datatype Event =
    | Tick(running: Tid)
    | Sleep(t: Tid, n: nat)
    | TimedWait(t: Tid, o: nat, flag: Flag, n: nat)
    | Region(op: R.Op)
    | Other(timer: TR.Op)

  /** The timeouts of a check, in their order; other timers do not concern the lists. */
  function Expire(l: Lists, ids: seq<TL.Id>): Lists
    decreases |ids|
  {
    if ids == [] then l else Expire(if ids[0] in l.ts then Expiring(l, ids[0]) else l, ids[1..])
  }

  /** rt_timer_control and rt_timer_start of a thread timer. */
  function SetAndStart(s: TR.State, t: Tid, n: nat): TR.State {
    TR.Step(TR.Step(s, TR.Control(t, TL.Setup(n, false))), TR.Start(t))
  }

  function Sliced(l: Lists, t: Tid): Lists { if t in l.ts then Slicing(l, t) else l }

  predicate CanSleep(s: State, t: Tid, n: nat) { t in s.l.ts && s.l.ts[t].stat.Ready? && n < Ticks.HALF }

  /** Regions that start no timer: those that resume a thread or end it stop its timer. */
  function Do(s: State, op: R.Op): State {
    match op
    case Create(t, _, _) =>
      if TL.Pos(s.timers.plain, t) < |s.timers.plain| || R.Subject(s.l, op) == {} then s
      else State(R.Do(s.l, op), s.timers.(setups := s.timers.setups[t := TL.Setup(0, false)]))
    case Resume(t) => if R.Subject(s.l, op) == {} then s else State(R.Do(s.l, op), TR.Step(s.timers, TR.Stop(t)))
    case Wake(o) => if R.Subject(s.l, op) == {} then s else State(R.Do(s.l, op), TR.Step(s.timers, TR.Stop(s.l.waits[o][0])))
    case Fail(o) => if R.Subject(s.l, op) == {} then s else State(R.Do(s.l, op), TR.Step(s.timers, TR.Stop(s.l.waits[o][0])))
    case Exit(t, _) => if R.Subject(s.l, op) == {} then s else State(R.Do(s.l, op), TR.Step(s.timers, TR.Stop(t)))
    case Sleep(_) => s
    case Expire(_) => s
    case Wait(_, _, _, timed) => if timed then s else s.(l := R.Do(s.l, op))
    case _ => s.(l := R.Do(s.l, op))
  }

  function Step(s: State, e: Event): State {
    match e
    case Tick(running) =>
      State(Expire(Sliced(s.l, running), TL.FiredBy(s.timers.plain, s.timers.now + 1)), TR.Step(s.timers, TR.Tick))
    case Sleep(t, n) => if CanSleep(s, t, n) then State(Sleeping(s.l, t), SetAndStart(s.timers, t, n)) else s
    case TimedWait(t, o, flag, n) =>
      if CanSleep(s, t, n) && n > 0 && o in s.l.waits
      then State(WaitingOn(s.l, t, o, flag, true), SetAndStart(s.timers, t, n)) else s
    case Region(op) => Do(s, op)
    case Other(timer) => if timer.Tick? || timer.id in s.l.ts then s else s.(timers := TR.Step(s.timers, timer))
  }

  function Run(s: State, events: seq<Event>): State
    decreases |events|
  {
    if events == [] then s else Run(Step(s, events[0]), events[1..])
  }

  // ---- the flag of a thread and the timer list agree

  ghost predicate Timed(l: Lists, timers: TR.State, t: Tid)
    requires t in l.ts
  {
    (l.ts[t].timer <==> TL.Listed(timers.plain, t)) && !TL.SetupOf(timers.setups, t).periodic
  }

  ghost predicate AllTimed(l: Lists, timers: TR.State) {
    forall t {:trigger Timed(l, timers, t)} :: t in l.ts ==> Timed(l, timers, t)
  }

  ghost predicate Coupled(s: State) { Listed(s.l) && TR.Inv(s.timers) && AllTimed(s.l, s.timers) }

  /** The thread waits for the tick due, at the latest. */
  ghost predicate Until(s: State, t: Tid, due: int) {
    t in s.l.ts && s.l.ts[t].stat.Suspend? && s.l.ts[t].timer && TR.HasEntry(s.timers.plain, t, due)
  }

  // ---- what the regions do to the threads

  lemma ResumeEffect(l: Lists, t: Tid)
    requires t in l.ts
    ensures Resuming(l, t).ts == l.ts[t := l.ts[t].(stat := Ready, place := InReady, timer := false)]
  {}

  lemma ExpireEffect(l: Lists, t: Tid)
    requires t in l.ts
    ensures Expiring(l, t).ts == l.ts[t := Awoken(l.ts[t])]
  {
    hide Resuming;
    ResumeEffect(SetError(l, t, ETIMEOUT), t);
  }

  lemma SleepEffect(l: Lists, t: Tid)
    requires t in l.ts
    ensures Sleeping(l, t).ts == l.ts[t := l.ts[t].(stat := Suspend, place := Alone, timer := true)]
  {}

  lemma ExitEffect(l: Lists, t: Tid, kept: bool)
    requires t in l.ts
    ensures !Exiting(l, t, kept).ts[t].timer && Exiting(l, t, kept).ts == l.ts[t := Exiting(l, t, kept).ts[t]]
  {}

  lemma RotateEffect(l: Lists, t: Tid)
    requires t in l.ts
    ensures Rotating(l, t).ts == l.ts
  {}

  /** The same thread, but for what is left of its slice. */
  ghost predicate Worn(th: ThreadLists.Thread, r: ThreadLists.Thread) { exists n :: r == th.(remaining := n) }

  lemma SliceEffect(l: Lists, running: Tid)
    ensures Sliced(l, running).ts.Keys == l.ts.Keys && forall t :: t in l.ts ==> Worn(l.ts[t], Sliced(l, running).ts[t])
  {
    hide Rotating;
    forall t | t in l.ts
      ensures Worn(l.ts[t], l.ts[t])
    {
      assert l.ts[t] == l.ts[t].(remaining := l.ts[t].remaining);
    }
    if running in l.ts {
      var n := if l.ts[running].remaining == 1 then l.ts[running].initTick else Less(l.ts[running].remaining);
      RotateEffect(l.(ts := l.ts[running := l.ts[running].(remaining := n)]), running);
      assert Sliced(l, running).ts == l.ts[running := l.ts[running].(remaining := n)];
    }
  }

  lemma WaitEffect(l: Lists, t: Tid, o: nat, flag: Flag, timed: bool)
    requires t in l.ts && o in l.waits
    ensures WaitingOn(l, t, o, flag, timed).ts == l.ts[t := l.ts[t].(stat := Suspend, place := Waiting(o), timer := timed, error := EOK)]
  {}

  predicate Stops(op: R.Op) { op.Resume? || op.Wake? || op.Fail? || op.Exit? }

  /** Regions that start no timer: a thread they change has its timer stopped, or as it was. */
  lemma DoEffect(l: Lists, op: R.Op)
    requires Listed(l) && !op.Sleep? && !op.Expire? && !(op.Wait? && op.timed)
    ensures var r := R.Do(l, op);
            && (forall u :: u in l.ts || u in R.Subject(l, op) ==> u in r.ts)
            && (forall u :: u in r.ts && u !in l.ts ==> op.Create? && u == op.t && R.Subject(l, op) == {u} && !r.ts[u].timer)
            && (forall u :: u in l.ts && u !in R.Subject(l, op) ==> r.ts[u] == l.ts[u])
            && (forall u :: u in R.Subject(l, op) && u in l.ts ==> r.ts[u].timer == (!Stops(op) && l.ts[u].timer))
  {
    hide Resuming, Exiting, Rotating, WaitingOn, Listed;
    match op
    case Resume(t) => if t in l.ts { ResumeEffect(l, t); }
    case Wake(o) => if R.First(l, o) != {} { ResumeEffect(l, l.waits[o][0]); }
    case Fail(o) => if R.First(l, o) != {} { ResumeEffect(SetError(l, l.waits[o][0], ERROR), l.waits[o][0]); }
    case Exit(t, kept) => if t in l.ts { ExitEffect(l, t, kept); }
    case Rotate(t) => if t in l.ts { RotateEffect(l, t); }
    case Wait(t, o, flag, timed) =>
      if t in l.ts && o in l.waits {
        SaneThread(l, t);
        WaitEffect(l, t, o, flag, timed);
      }
    case _ =>
  }

  // ---- what happens to the timer of one thread

  ghost predicate SameTimer(s: TR.State, r: TR.State, u: Tid) {
    && (TL.Listed(r.plain, u) <==> TL.Listed(s.plain, u)) && TL.SetupOf(r.setups, u) == TL.SetupOf(s.setups, u)
    && forall d :: TR.HasEntry(r.plain, u, d) <==> TR.HasEntry(s.plain, u, d)
  }

  lemma StopTimed(s: TR.State, t: Tid)
    requires TR.Inv(s)
    ensures var r := TR.Step(s, TR.Stop(t));
            && TR.Inv(r) && r.now == s.now && TL.SetupOf(r.setups, t) == TL.SetupOf(s.setups, t) && !TL.Listed(r.plain, t)
            && (forall u :: u != t ==> SameTimer(s, r, u))
  {
    hide TL.PlainRemove, TL.Sorted, TL.Distinct, TL.Stamped;
    TR.StepInv(s, TR.Stop(t));
    TL.RemoveContents(s.plain, t);
  }

  /** A thread that has no timer running starts it for n ticks. */
  lemma StartTimed(s: TR.State, t: Tid, n: nat)
    requires TR.Inv(s) && !TL.Listed(s.plain, t) && n < Ticks.HALF
    ensures var r := SetAndStart(s, t, n);
            && TR.Inv(r) && r.now == s.now && TR.HasEntry(r.plain, t, s.now + n) && TL.Listed(r.plain, t)
            && TL.SetupOf(r.setups, t) == TL.Setup(n, false)
            && (forall u :: u != t ==> SameTimer(s, r, u))
  {
    hide TL.PlainInsert, TL.Sorted, TL.Distinct, TL.Stamped;
    var c := TR.Step(s, TR.Control(t, TL.Setup(n, false)));
    TR.StepInv(s, TR.Control(t, TL.Setup(n, false)));
    TR.StepInv(c, TR.Start(t));
    TR.ListedPos(c.plain, t);
    TL.InsertContents(c.plain, TL.Entry(t, c.now + n, c.stamp));
  }

  /** A tick, for a timer that is not periodic. */
  lemma TickTimed(s: TR.State, t: Tid)
    requires TR.Inv(s) && !TL.SetupOf(s.setups, t).periodic
    ensures var r, fired := TR.Step(s, TR.Tick), TL.FiredBy(s.plain, s.now + 1);
            && (t in fired ==> TL.Listed(s.plain, t) && !TL.Listed(r.plain, t))
            && (t !in fired ==> (TL.Listed(r.plain, t) <==> TL.Listed(s.plain, t)))
            && (forall d :: TR.HasEntry(s.plain, t, d) ==> (t in fired <==> d <= s.now + 1) && (d > s.now + 1 ==> TR.HasEntry(r.plain, t, d)))
  {
    hide TL.FiredBy, TL.AfterCheck, TL.StampAfterCheck, TR.Inv;
    if TL.Listed(s.plain, t) {
      var x :| x in s.plain && x.id == t;
      TR.EntryHas(s.plain, x);
      forall d | TR.HasEntry(s.plain, t, d)
        ensures (t in TL.FiredBy(s.plain, s.now + 1) <==> d <= s.now + 1)
        ensures d > s.now + 1 ==> TR.HasEntry(TR.Step(s, TR.Tick).plain, t, d)
        ensures d <= s.now + 1 ==> !TL.Listed(TR.Step(s, TR.Tick).plain, t)
      {
        TR.TickEntry(s, t, d);
      }
    } else {
      TR.TickAbsent(s, t);
    }
  }

  lemma FiredOnce(s: TR.State)
    requires TR.Inv(s)
    ensures var fired := TL.FiredBy(s.plain, s.now + 1); forall i, j :: 0 <= i < j < |fired| ==> fired[i] != fired[j]
  {}

  lemma FiredTimers(s: State)
    requires Coupled(s)
    ensures forall t :: t in TL.FiredBy(s.timers.plain, s.timers.now + 1) && t in s.l.ts ==> s.l.ts[t].timer
    ensures var fired := TL.FiredBy(s.timers.plain, s.timers.now + 1); forall i, j :: 0 <= i < j < |fired| ==> fired[i] != fired[j]
  {
    FiredOnce(s.timers);
    hide TL.FiredBy, TR.Inv, Listed;
    forall t | t in TL.FiredBy(s.timers.plain, s.timers.now + 1) && t in s.l.ts
      ensures s.l.ts[t].timer
    {
      assert Timed(s.l, s.timers, t);
      TickTimed(s.timers, t);
    }
  }

  // ---- the timeouts of one check

  function Awoken(th: ThreadLists.Thread): ThreadLists.Thread {
    th.(stat := Ready, place := InReady, timer := false, error := ETIMEOUT)
  }

  /** Every thread whose timer has fired becomes ready, and no other thread changes; the assertions hold. */
  lemma {:induction false} ExpireAll(l: Lists, ids: seq<TL.Id>)
    requires Listed(l) && forall i, j :: 0 <= i < j < |ids| ==> ids[i] != ids[j]
    requires forall t :: t in ids && t in l.ts ==> l.ts[t].timer
    ensures Listed(Expire(l, ids)) && Expire(l, ids).ts.Keys == l.ts.Keys
    ensures forall t :: t in l.ts ==> Expire(l, ids).ts[t] == if t in ids then Awoken(l.ts[t]) else l.ts[t]
    decreases |ids|
  {
    hide Listed, Expiring;
    if ids != [] {
      var t := ids[0];
      assert t in ids && t !in ids[1..] && forall u :: u in ids <==> u == t || u in ids[1..];
      if t in l.ts {
        TimerMeansSuspended(l, t);
        ExpireListed(l, t);
        ExpireEffect(l, t);
        ExpireAll(Expiring(l, t), ids[1..]);
      } else {
        ExpireAll(l, ids[1..]);
      }
    }
  }

  // ---- every step keeps the agreement

  /** What a step leaves of a thread that it is not about: the thread, but for its slice, and its timer. */
  ghost predicate Left(s: State, r: State, t: Tid)
    requires t in s.l.ts
  {
    t in r.l.ts && Worn(s.l.ts[t], r.l.ts[t]) && SameTimer(s.timers, r.timers, t)
  }

  /** The thread an event is about, unless it is a tick. */
  function About(s: State, e: Event): set<Tid> {
    match e
    case Tick(_) => {}
    case Sleep(t, _) => {t}
    case TimedWait(t, _, _, _) => {t}
    case Region(op) => R.Subject(s.l, op)
    case Other(_) => {}
  }

  lemma LeftTimed(s: State, r: State, t: Tid)
    requires t in s.l.ts && Timed(s.l, s.timers, t) && Left(s, r, t)
    ensures Timed(r.l, r.timers, t)
  {}

  /** Before the timeouts of a tick: fired timers of threads are stopped, and the others agree with the flags. */
  ghost predicate Fired(l: Lists, r: TR.State, fired: seq<TL.Id>, t: Tid)
    requires t in l.ts
  {
    && (t in fired ==> l.ts[t].timer && !TL.Listed(r.plain, t))
    && (t !in fired ==> (TL.Listed(r.plain, t) <==> l.ts[t].timer))
    && !TL.SetupOf(r.setups, t).periodic
  }

  lemma FiredTimed(s: State, l: Lists, t: Tid)
    requires TR.Inv(s.timers) && t in s.l.ts && Timed(s.l, s.timers, t) && t in l.ts && Worn(s.l.ts[t], l.ts[t])
    ensures Fired(l, TR.Step(s.timers, TR.Tick), TL.FiredBy(s.timers.plain, s.timers.now + 1), t)
  {
    hide TL.FiredBy, TR.Inv, TL.AfterCheck, TL.StampAfterCheck, TL.Listed;
    TickTimed(s.timers, t);
  }

  lemma ExpiredTimed(l: Lists, r: TR.State, fired: seq<TL.Id>)
    requires Listed(l) && forall i, j :: 0 <= i < j < |fired| ==> fired[i] != fired[j]
    requires forall t :: t in l.ts ==> Fired(l, r, fired, t)
    ensures Listed(Expire(l, fired)) && AllTimed(Expire(l, fired), r) && Expire(l, fired).ts.Keys == l.ts.Keys
    ensures forall t :: t in l.ts ==> Expire(l, fired).ts[t] == if t in fired then Awoken(l.ts[t]) else l.ts[t]
  {
    hide Listed, TL.Listed;
    ExpireAll(l, fired);
  }

  lemma TickStep(s: State, running: Tid)
    requires Coupled(s)
    ensures var r, fired, l := Step(s, Tick(running)), TL.FiredBy(s.timers.plain, s.timers.now + 1), Sliced(s.l, running);
            && Coupled(r) && r.timers.now == s.timers.now + 1 && r.timers == TR.Step(s.timers, TR.Tick)
            && l.ts.Keys == s.l.ts.Keys == r.l.ts.Keys
            && forall t :: t in s.l.ts ==> Worn(s.l.ts[t], l.ts[t]) && r.l.ts[t] == if t in fired then Awoken(l.ts[t]) else l.ts[t]
  {
    hide TL.FiredBy, TR.Inv, Listed, Sliced, TR.Step, Fired, Worn;
    var fired, l := TL.FiredBy(s.timers.plain, s.timers.now + 1), Sliced(s.l, running);
    SliceEffect(s.l, running);
    SlicedListed(s.l, running);
    FiredOnce(s.timers);
    TR.StepInv(s.timers, TR.Tick);
    forall t | t in l.ts
      ensures Fired(l, TR.Step(s.timers, TR.Tick), fired, t)
    {
      assert Timed(s.l, s.timers, t);
      FiredTimed(s, l, t);
    }
    ExpiredTimed(l, TR.Step(s.timers, TR.Tick), fired);
  }

  lemma SlicedTimers(s: State, running: Tid)
    requires running in s.l.ts
    ensures Sliced(s.l, running) == Slicing(s.l, running)
    ensures forall t :: t in Slicing(s.l, running).ts ==> t in s.l.ts && Slicing(s.l, running).ts[t].timer == s.l.ts[t].timer
  {
    SliceEffect(s.l, running);
  }

  lemma SlicedListed(l: Lists, running: Tid)
    requires Listed(l)
    ensures Listed(Sliced(l, running))
  {
    if running in l.ts { SliceListed(l, running); }
  }

  lemma SelfLeft(s: State, r: State, t: Tid)
    requires t in s.l.ts && t in r.l.ts && r.l.ts[t] == s.l.ts[t] && SameTimer(s.timers, r.timers, t)
    ensures Left(s, r, t)
  {
    assert r.l.ts[t] == s.l.ts[t].(remaining := s.l.ts[t].remaining);
    hide SameTimer;
  }

  /** A thread has been suspended, and its timer started. */
  lemma SleepStep(s: State, t: Tid, n: nat, l: Lists)
    requires Coupled(s) && CanSleep(s, t, n) && Listed(l)
    requires l.ts.Keys == s.l.ts.Keys && l.ts[t].stat.Suspend? && l.ts[t].timer
    requires forall u :: u in s.l.ts && u != t ==> l.ts[u] == s.l.ts[u]
    ensures var r := State(l, SetAndStart(s.timers, t, n));
            && Coupled(r) && r.timers.now == s.timers.now && Until(r, t, s.timers.now + n)
            && forall u :: u in s.l.ts && u != t ==> Left(s, r, u)
  {
    hide TR.Inv, Listed, SetAndStart;
    var r := State(l, SetAndStart(s.timers, t, n));
    SaneTimer(s, t);
    StartTimed(s.timers, t, n);
    forall u | u in s.l.ts
      ensures Timed(l, r.timers, u) && (u != t ==> Left(s, r, u))
    {
      assert Timed(s.l, s.timers, u);
      if u != t { SelfLeft(s, r, u); }
    }
  }

  lemma SaneTimer(s: State, t: Tid)
    requires Coupled(s) && t in s.l.ts && s.l.ts[t].stat.Ready?
    ensures !TL.Listed(s.timers.plain, t)
  {
    SaneThread(s.l, t);
    assert Timed(s.l, s.timers, t);
  }

  lemma NoChange(s: TR.State)
    ensures forall u :: SameTimer(s, s, u)
  {}

  /** Where no timer is touched. */
  lemma SameStep(s: State, l: Lists, who: set<Tid>)
    requires Coupled(s) && Listed(l) && l.ts.Keys == s.l.ts.Keys
    requires forall u :: u in s.l.ts ==> l.ts[u].timer == s.l.ts[u].timer && (u !in who ==> l.ts[u] == s.l.ts[u])
    ensures var r := s.(l := l); Coupled(r) && forall u :: u in s.l.ts && u !in who ==> Left(s, r, u)
  {
    hide TR.Inv, Listed;
    var r := s.(l := l);
    NoChange(s.timers);
    forall u | u in s.l.ts
      ensures Timed(l, r.timers, u) && (u !in who ==> Left(s, r, u))
    {
      assert Timed(s.l, s.timers, u);
      if u !in who { SelfLeft(s, r, u); }
    }
  }

  /** Where the timer of one thread is stopped. */
  lemma StopStep(s: State, l: Lists, t: Tid)
    requires Coupled(s) && Listed(l) && l.ts.Keys == s.l.ts.Keys && t in s.l.ts && !l.ts[t].timer
    requires forall u :: u in s.l.ts && u != t ==> l.ts[u] == s.l.ts[u]
    ensures var r := State(l, TR.Step(s.timers, TR.Stop(t)));
            Coupled(r) && r.timers.now == s.timers.now && forall u :: u in s.l.ts && u != t ==> Left(s, r, u)
  {
    hide TR.Inv, Listed, TR.Step;
    var r := State(l, TR.Step(s.timers, TR.Stop(t)));
    StopTimed(s.timers, t);
    forall u | u in s.l.ts
      ensures Timed(l, r.timers, u) && (u != t ==> Left(s, r, u))
    {
      assert Timed(s.l, s.timers, u);
      if u != t { SelfLeft(s, r, u); }
    }
  }

  lemma CreateStep(s: State, t: Tid, l: Lists)
    requires Coupled(s) && Listed(l) && t !in s.l.ts && l.ts.Keys == s.l.ts.Keys + {t} && !l.ts[t].timer
    requires TL.Pos(s.timers.plain, t) == |s.timers.plain| && forall u :: u in s.l.ts ==> l.ts[u] == s.l.ts[u]
    ensures var r := State(l, s.timers.(setups := s.timers.setups[t := TL.Setup(0, false)]));
            Coupled(r) && forall u :: u in s.l.ts ==> Left(s, r, u)
  {
    hide Listed;
    var r := State(l, s.timers.(setups := s.timers.setups[t := TL.Setup(0, false)]));
    TR.ListedPos(s.timers.plain, t);
    TR.ControlInv(s.timers, t, TL.Setup(0, false));
    hide TR.Inv;
    forall u | u in l.ts
      ensures Timed(l, r.timers, u) && (u != t ==> Left(s, r, u))
    {
      if u != t {
        assert Timed(s.l, s.timers, u);
        NoChange(s.timers);
        assert SameTimer(s.timers, r.timers, u);
        SelfLeft(s, r, u);
      }
    }
  }

  lemma DoStep(s: State, op: R.Op)
    requires Coupled(s)
    ensures var r := Do(s, op);
            && Coupled(r) && r.timers.now == s.timers.now
            && forall u :: u in s.l.ts && u !in R.Subject(s.l, op) ==> Left(s, r, u)
  {
    hide TR.Inv, Listed, R.Do, TR.Step, AllTimed;
    NothingDone(s);
    if !op.Sleep? && !op.Expire? && !(op.Wait? && op.timed) {
      R.DoListed(s.l, op);
      DoEffect(s.l, op);
      var l := R.Do(s.l, op);
      match op
      case Create(t, _, _) => if R.Subject(s.l, op) != {} && TL.Pos(s.timers.plain, t) == |s.timers.plain| { CreateStep(s, t, l); }
      case Resume(t) => if R.Subject(s.l, op) != {} { StopStep(s, l, t); }
      case Wake(o) => if R.Subject(s.l, op) != {} { StopStep(s, l, s.l.waits[o][0]); }
      case Fail(o) => if R.Subject(s.l, op) != {} { StopStep(s, l, s.l.waits[o][0]); }
      case Exit(t, _) => if R.Subject(s.l, op) != {} { StopStep(s, l, t); }
      case _ => SameStep(s, l, R.Subject(s.l, op));
    }
  }

  lemma NothingDone(s: State)
    requires Coupled(s)
    ensures forall u :: u in s.l.ts ==> Left(s, s, u)
  {
    NoChange(s.timers);
    forall u | u in s.l.ts
      ensures Left(s, s, u)
    {
      SelfLeft(s, s, u);
    }
  }

  lemma OtherStep(s: State, timer: TR.Op)
    requires Coupled(s) && !timer.Tick? && timer.id !in s.l.ts
    ensures var r := s.(timers := TR.Step(s.timers, timer));
            Coupled(r) && r.timers.now == s.timers.now && forall u :: u in s.l.ts ==> Left(s, r, u)
  {
    hide TR.Inv, Listed, TR.Step;
    var r := s.(timers := TR.Step(s.timers, timer));
    TR.StepInv(s.timers, timer);
    forall u | u in s.l.ts
      ensures Timed(s.l, r.timers, u) && Left(s, r, u)
    {
      assert Timed(s.l, s.timers, u);
      forall d
        ensures TR.HasEntry(r.timers.plain, u, d) <==> TR.HasEntry(s.timers.plain, u, d)
        ensures TL.Listed(r.timers.plain, u) <==> TL.Listed(s.timers.plain, u)
      {
        TR.OtherEntry(s.timers, timer, u, d);
      }
      TR.OtherEntry(s.timers, timer, u, 0);
      SelfLeft(s, r, u);
    }
  }

  lemma StepCoupled(s: State, e: Event)
    requires Coupled(s)
    ensures var r := Step(s, e);
            && Coupled(r) && r.timers.now == s.timers.now + (if e.Tick? then 1 else 0)
            && (!e.Tick? ==> forall u :: u in s.l.ts && u !in About(s, e) ==> Left(s, r, u))
  {
    hide Coupled, Listed, TR.Inv, SetAndStart, Do, Expire, Sliced, TR.Step, Left;
    Unfold(s);
    NothingDone(s);
    match e
    case Tick(running) => TickStep(s, running);
    case Sleep(t, n) => if CanSleep(s, t, n) { SleepCase(s, t, n); }
    case TimedWait(t, o, flag, n) => if CanSleep(s, t, n) && n > 0 && o in s.l.waits { WaitCase(s, t, o, flag, n); }
    case Region(op) => DoStep(s, op);
    case Other(timer) => if !timer.Tick? && timer.id !in s.l.ts { OtherStep(s, timer); }
  }

  lemma SleepCase(s: State, t: Tid, n: nat)
    requires Coupled(s) && CanSleep(s, t, n)
    ensures var r := Step(s, Sleep(t, n));
            && Coupled(r) && r.timers.now == s.timers.now && Until(r, t, s.timers.now + n) && r.l.ts[t].place.Alone?
            && forall u :: u in s.l.ts && u != t ==> Left(s, r, u)
  {
    hide Listed, TR.Inv, SetAndStart, Sleeping, AllTimed, Left, Until;
    SleepListed(s.l, t);
    SleepEffect(s.l, t);
    SleepStep(s, t, n, Sleeping(s.l, t));
  }

  lemma WaitCase(s: State, t: Tid, o: nat, flag: Flag, n: nat)
    requires Coupled(s) && CanSleep(s, t, n) && n > 0 && o in s.l.waits
    ensures var r := Step(s, TimedWait(t, o, flag, n));
            && Coupled(r) && r.timers.now == s.timers.now && Until(r, t, s.timers.now + n) && r.l.ts[t].place == Waiting(o)
            && forall u :: u in s.l.ts && u != t ==> Left(s, r, u)
  {
    hide Listed, TR.Inv, SetAndStart, WaitingOn, AllTimed, Left, Until;
    WaitListed(s.l, t, o, flag, true);
    WaitEffect(s.l, t, o, flag, true);
    SleepStep(s, t, n, WaitingOn(s.l, t, o, flag, true));
  }

  lemma Unfold(s: State)
    requires Coupled(s)
    ensures Listed(s.l) && TR.Inv(s.timers)
  {}

  // ---- when a waiting thread becomes ready

  /** No event but ticks is about the thread. */
  ghost predicate LeftAlone(s: State, events: seq<Event>, t: Tid)
    decreases |events|
  {
    events != [] ==> t !in About(s, events[0]) && LeftAlone(Step(s, events[0]), events[1..], t)
  }

  ghost predicate Awake(s: State, t: Tid) {
    t in s.l.ts && s.l.ts[t].stat.Ready? && !s.l.ts[t].timer && s.l.ts[t].error == ETIMEOUT
  }

  function Max(a: int, b: int): int { if a < b then b else a }

  /** One step of others: a thread that waits goes on waiting until its tick, and one that is awake stays so. */
  lemma OneStep(s: State, e: Event, t: Tid, due: int)
    requires Coupled(s) && t !in About(s, e)
    ensures Until(s, t, due) ==>
              var r := Step(s, e);
              if e.Tick? && due <= s.timers.now + 1 then Awake(r, t) else Until(r, t, due) && r.l.ts[t].place == s.l.ts[t].place
    ensures Awake(s, t) ==> Awake(Step(s, e), t)
  {
    hide Listed, TR.Inv, Step, TL.FiredBy, SameTimer;
    StepCoupled(s, e);
    if t in s.l.ts {
      assert Timed(s.l, s.timers, t);
      if e.Tick? {
        TickStep(s, e.running);
        TickTimed(s.timers, t);
        TickTimers(s, e);
      } else {
        assert Left(s, Step(s, e), t);
        SameEntry(s.timers, Step(s, e).timers, t, due);
      }
    }
  }

  lemma TickTimers(s: State, e: Event)
    requires e.Tick?
    ensures Step(s, e).timers == TR.Step(s.timers, TR.Tick)
  {}

  lemma SameEntry(s: TR.State, r: TR.State, t: Tid, due: int)
    requires SameTimer(s, r, t)
    ensures TR.HasEntry(r.plain, t, due) <==> TR.HasEntry(s.plain, t, due)
  {}

  lemma {:induction false} StaysAwake(s: State, events: seq<Event>, t: Tid)
    requires Coupled(s) && Awake(s, t) && LeftAlone(s, events, t)
    ensures Coupled(Run(s, events)) && Awake(Run(s, events), t) && Run(s, events).timers.now >= s.timers.now
    decreases |events|
  {
    hide Coupled, Awake, Step, About;
    if events != [] {
      StepCoupled(s, events[0]);
      OneStep(s, events[0], t, 0);
      StaysAwake(Step(s, events[0]), events[1..], t);
    }
  }

  /**
   * Over every run in which nobody wakes or changes it, a thread whose timer runs waits, where it does, until exactly
   * the tick its timer was set for, or the next one if that is past; from then on it is ready, with the timeout error.
   */
  lemma {:induction false} WakesExactly(s: State, events: seq<Event>, t: Tid, due: int)
    requires Coupled(s) && Until(s, t, due) && LeftAlone(s, events, t)
    ensures var r := Run(s, events);
            && Coupled(r)
            && if r.timers.now < Max(due, s.timers.now + 1) then Until(r, t, due) && r.l.ts[t].place == s.l.ts[t].place
               else Awake(r, t)
    decreases |events|
  {
    hide Coupled, Until, Awake, Step, About;
    UntilThread(s, t, due);
    if events != [] {
      var e, r := events[0], Step(s, events[0]);
      StepCoupled(s, e);
      OneStep(s, e, t, due);
      if e.Tick? && due <= s.timers.now + 1 {
        StaysAwake(r, events[1..], t);
      } else {
        WakesExactly(r, events[1..], t, due);
        TimeGoesOn(r, events[1..]);
      }
    }
  }

  lemma UntilThread(s: State, t: Tid, due: int)
    requires Until(s, t, due)
    ensures t in s.l.ts
  {}

  lemma {:induction false} TimeGoesOn(s: State, events: seq<Event>)
    requires Coupled(s)
    ensures Run(s, events).timers.now >= s.timers.now
    decreases |events|
  {
    hide Coupled, Step;
    if events != [] {
      StepCoupled(s, events[0]);
      TimeGoesOn(Step(s, events[0]), events[1..]);
    }
  }

  /** rt_thread_sleep(n): the thread is suspended for exactly n ticks, or one if n is 0. */
  lemma SleepsExactly(s: State, t: Tid, n: nat, events: seq<Event>)
    requires Coupled(s) && CanSleep(s, t, n) && LeftAlone(Step(s, Sleep(t, n)), events, t)
    ensures var r := Run(Step(s, Sleep(t, n)), events);
            && t in r.l.ts
            && if r.timers.now < s.timers.now + Max(n, 1) then r.l.ts[t].stat.Suspend? && r.l.ts[t].place.Alone? else Awake(r, t)
  {
    hide Coupled, Step, Run, LeftAlone, Left, CanSleep;
    SleepCase(s, t, n);
    WakesExactly(Step(s, Sleep(t, n)), events, t, s.timers.now + n);
  }

  /** A wait for n ticks that nobody ends lasts exactly so long. */
  lemma WaitsExactly(s: State, t: Tid, o: nat, flag: Flag, n: nat, events: seq<Event>)
    requires Coupled(s) && CanSleep(s, t, n) && n > 0 && o in s.l.waits
    requires LeftAlone(Step(s, TimedWait(t, o, flag, n)), events, t)
    ensures var r := Run(Step(s, TimedWait(t, o, flag, n)), events);
            && t in r.l.ts
            && if r.timers.now < s.timers.now + n then r.l.ts[t].stat.Suspend? && r.l.ts[t].place == Waiting(o) else Awake(r, t)
  {
    hide Coupled, Step, Run, LeftAlone, Left, CanSleep;
    WaitCase(s, t, o, flag, n);
    WakesExactly(Step(s, TimedWait(t, o, flag, n)), events, t, s.timers.now + n);
  }
}
