/**
 * The thread functions of rtt/src/thread.c over all interleavings of their regions. rt_thread_resume and
 * rt_thread_suspend test stat outside their regions, and rt_thread_resume lets interrupts in between unlinking the
 * thread and queuing it. The threads and interrupt handlers that call them are callers, each at some place in its call.
 */
module ThreadRuns {
  import opened WaitList
  import opened ThreadLists

  /** What a caller is about to do. */
  datatype Phase = ToUnlink(t: Tid) | ToInsert(t: Tid) | ToSuspend(t: Tid)

  datatype State = State(l: Lists, callers: map<nat, Phase>)

  /** What one interrupts-off region does as a whole, calls made inside it included. */
  datatype Op =
    | Create(t: Tid, prio: nat, tick: nat)
    | MarkStarted(t: Tid)
    | InitObject(o: nat)
    | Resume(t: Tid)
    | Wake(o: nat)
    | Fail(o: nat)
    | Expire(t: Tid)
    | Sleep(t: Tid)
    | Wait(t: Tid, o: nat, flag: Flag, timed: bool)
    | Change(t: Tid, p: nat)
    | Rotate(t: Tid)
    | Exit(t: Tid, kept: bool)

  datatype Event =
    | TestResume(c: nat, t: Tid)
    | UnlinkRegion(c: nat)
    | InsertRegion(c: nat)
    | TestSuspend(c: nat, t: Tid)
    | SuspendRegion(c: nat)
    | Region(op: Op)

  /** The thread a region changes; none if it is not enabled. */
  function Subject(l: Lists, op: Op): set<Tid> {
    match op
    case Create(t, prio, _) => if t !in l.ts && prio < |l.queues| then {t} else {}
    case MarkStarted(t) => if t in l.ts && l.ts[t].stat.Init? then {t} else {}
    case InitObject(o) => {}
    case Resume(t) => if t in l.ts && l.ts[t].stat.Suspend? then {t} else {}
    case Wake(o) => First(l, o)
    case Fail(o) => First(l, o)
    case Expire(t) => if t in l.ts && l.ts[t].timer then {t} else {}
    case Sleep(t) => IfReady(l, t)
    case Wait(t, o, _, _) => if o in l.waits then IfReady(l, t) else {}
    case Change(t, p) => if t in l.ts && p < |l.queues| then {t} else {}
    case Rotate(t) => IfReady(l, t)
    case Exit(t, _) => IfReady(l, t)
  }

  function First(l: Lists, o: nat): set<Tid> {
    if o in l.waits && l.waits[o] != [] && l.waits[o][0] in l.ts then {l.waits[o][0]} else {}
  }

  function IfReady(l: Lists, t: Tid): set<Tid> { if t in l.ts && l.ts[t].stat.Ready? then {t} else {} }

  function Do(l: Lists, op: Op): Lists {
    if op.InitObject? then (if op.o in l.waits then l else l.(waits := l.waits[op.o := []]))
    else if Subject(l, op) == {} then l
    else
      match op
      case Create(t, prio, tick) => l.(ts := l.ts[t := ThreadLists.Thread(Init, prio, prio, tick, tick, EOK, Alone, false, false)])
      case MarkStarted(t) => l.(ts := l.ts[t := l.ts[t].(prio := l.ts[t].initPrio, stat := Suspend)])
      case Resume(t) => Resuming(l, t)
      case Wake(o) => Resuming(l, l.waits[o][0])
      case Fail(o) => Resuming(SetError(l, l.waits[o][0], ERROR), l.waits[o][0])
      case Expire(t) => Expiring(l, t)
      case Sleep(t) => Sleeping(l, t)
      case Wait(t, o, flag, timed) => WaitingOn(l, t, o, flag, timed)
      case Change(t, p) => Changing(l, t, p)
      case Rotate(t) => Rotating(l, t)
      case Exit(t, kept) => Exiting(l, t, kept)
      case InitObject(_) => l
  }

  predicate At(s: State, c: nat, p: Phase) { c in s.callers && s.callers[c] == p }

  function Step(s: State, e: Event): State {
    match e
    case TestResume(c, t) =>
      if c !in s.callers && t in s.l.ts && s.l.ts[t].stat.Suspend? then s.(callers := s.callers[c := ToUnlink(t)]) else s
    case UnlinkRegion(c) =>
      if c in s.callers && s.callers[c].ToUnlink? && s.callers[c].t in s.l.ts
      then State(Unlinking(s.l, s.callers[c].t), s.callers[c := ToInsert(s.callers[c].t)]) else s
    case InsertRegion(c) =>
      if c in s.callers && s.callers[c].ToInsert? && s.callers[c].t in s.l.ts
      then State(Inserting(s.l, s.callers[c].t), s.callers - {c}) else s
    case TestSuspend(c, t) =>
      if c !in s.callers && t in s.l.ts && s.l.ts[t].stat.Ready? then s.(callers := s.callers[c := ToSuspend(t)]) else s
    case SuspendRegion(c) =>
      if c in s.callers && s.callers[c].ToSuspend? && s.callers[c].t in s.l.ts
      then State(Suspending(s.l, s.callers[c].t), s.callers - {c}) else s
    case Region(op) => s.(l := Do(s.l, op))
  }

  function Run(s: State, events: seq<Event>): State
    decreases |events|
  {
    if events == [] then s else Run(Step(s, events[0]), events[1..])
  }

  // ---- exactly when the lists stay right

  /** The state in which a region finds the thread that its caller has tested. */
  predicate Guard(s: State, e: Event) {
    match e
    case UnlinkRegion(c) =>
      c in s.callers && s.callers[c].ToUnlink? && s.callers[c].t in s.l.ts ==> !s.l.ts[s.callers[c].t].stat.Ready?
    case InsertRegion(c) =>
      c in s.callers && s.callers[c].ToInsert? && s.callers[c].t in s.l.ts ==>
        var th := s.l.ts[s.callers[c].t]; th.stat.Suspend? && th.place.Alone? && !th.timer
    case SuspendRegion(c) =>
      c in s.callers && s.callers[c].ToSuspend? && s.callers[c].t in s.l.ts ==> !s.l.ts[s.callers[c].t].stat.Close?
    case _ => true
  }

  /** Callers call for threads that have been started. */
  ghost predicate Started(s: State) {
    forall c :: c in s.callers ==> s.callers[c].t in s.l.ts && !s.l.ts[s.callers[c].t].stat.Init?
  }

  lemma DoListed(l: Lists, op: Op)
    requires Listed(l)
    ensures Listed(Do(l, op)) && |Do(l, op).queues| == |l.queues|
  {
    hide Listed, Sane, Resuming, Expiring, Sleeping, WaitingOn, Changing, Rotating, Exiting;
    if Subject(l, op) != {} {
      match op
      case Create(t, prio, tick) => CreateListed(l, t, NewThread(prio, tick, |l.queues|));
      case MarkStarted(t) =>
        MarkSane(l, t);
        SameListed(l, t, l.ts[t].(prio := l.ts[t].initPrio, stat := Suspend));
      case Resume(t) => ResumeListed(l, t);
      case Wake(o) =>
        FirstWaiting(l, o);
        ResumeListed(l, l.waits[o][0]);
      case Fail(o) =>
        FirstWaiting(l, o);
        ErrorListed(l, l.waits[o][0], ERROR);
        ResumeListed(SetError(l, l.waits[o][0], ERROR), l.waits[o][0]);
      case Expire(t) =>
        TimerMeansSuspended(l, t);
        ExpireListed(l, t);
        ErrorListed(l, t, ETIMEOUT);
        ResumeListed(SetError(l, t, ETIMEOUT), t);
      case Sleep(t) => SleepListed(l, t);
      case Wait(t, o, flag, timed) => WaitListed(l, t, o, flag, timed);
      case Change(t, p) => ChangeListed(l, t, p);
      case Rotate(t) => RotateListed(l, t);
      case Exit(t, kept) => ExitListed(l, t, kept);
    }
    if op.InitObject? && op.o !in l.waits { ObjectListed(l, op.o); }
    DoLevels(l, op);
  }

  lemma DoLevels(l: Lists, op: Op)
    ensures |Do(l, op).queues| == |l.queues|
  {}

  function NewThread(prio: nat, tick: nat, levels: nat): (th: ThreadLists.Thread)
    requires prio < levels
    ensures Sane(th, levels) && th.place.Alone?
  {
    ThreadLists.Thread(Init, prio, prio, tick, tick, EOK, Alone, false, false)
  }

  lemma MarkSane(l: Lists, t: Tid)
    requires Listed(l) && t in l.ts && l.ts[t].stat.Init?
    ensures Sane(l.ts[t].(prio := l.ts[t].initPrio, stat := Suspend), |l.queues|) && l.ts[t].place.Alone?
  {
    SaneThread(l, t);
  }

  lemma ErrorListed(l: Lists, t: Tid, e: Errno)
    requires Listed(l) && t in l.ts
    ensures Listed(SetError(l, t, e))
  {
    SaneThread(l, t);
    SameListed(l, t, l.ts[t].(error := e));
  }

  /** Threads other than the subject do not change, and no thread becomes new again. */
  lemma DoFrame(l: Lists, op: Op)
    ensures forall t :: t in l.ts && t !in Subject(l, op) ==> t in Do(l, op).ts && Do(l, op).ts[t] == l.ts[t]
    ensures forall t :: t in l.ts && !l.ts[t].stat.Init? ==> t in Do(l, op).ts && !Do(l, op).ts[t].stat.Init?
  {
    hide Left, Dequeued, Enqueued, Suspended;
  }

  lemma StepExact(s: State, e: Event)
    requires Listed(s.l) && Started(s)
    ensures Listed(Step(s, e).l) <==> Guard(s, e)
    ensures Started(Step(s, e))
  {
    hide Listed;
    match e
    case UnlinkRegion(c) => if c in s.callers { UnlinkExact(s.l, s.callers[c].t); }
    case InsertRegion(c) =>
      if c in s.callers {
        InsertExact(s.l, s.callers[c].t);
        AloneSuspended(s.l, s.callers[c].t);
      }
    case SuspendRegion(c) =>
      if c in s.callers {
        SuspendExact(s.l, s.callers[c].t);
        AloneSuspended(s.l, s.callers[c].t);
      }
    case Region(op) =>
      hide Do, Subject;
      DoListed(s.l, op);
      DoFrame(s.l, op);
    case _ =>
  }

  lemma AloneSuspended(l: Lists, t: Tid)
    requires Listed(l) && t in l.ts && !l.ts[t].stat.Init?
    ensures l.ts[t].exited <==> l.ts[t].stat.Close?
    ensures l.ts[t].place.Alone? && !l.ts[t].exited <==> l.ts[t].stat.Suspend? && l.ts[t].place.Alone?
  {
    SaneThread(l, t);
  }

  ghost predicate AlwaysListed(s: State, events: seq<Event>)
    decreases |events|
  {
    Listed(s.l) && (events != [] ==> AlwaysListed(Step(s, events[0]), events[1..]))
  }

  predicate AlwaysGuarded(s: State, events: seq<Event>)
    decreases |events|
  {
    events != [] ==> Guard(s, events[0]) && AlwaysGuarded(Step(s, events[0]), events[1..])
  }

  /**
   * Over every run, the lists agree with the threads all the time exactly if every region finds its thread as it may:
   * unlinking, not ready; queuing, suspended and in no list with its timer stopped; suspending, not closed.
   */
  lemma {:induction false} ListedExactly(s: State, events: seq<Event>)
    requires Listed(s.l) && Started(s)
    ensures AlwaysListed(s, events) <==> AlwaysGuarded(s, events)
    decreases |events|
  {
    hide Listed, Started, Step, Guard;
    if events != [] {
      StepExact(s, events[0]);
      if Guard(s, events[0]) { ListedExactly(Step(s, events[0]), events[1..]); }
    }
  }

  // ---- two resumes of one thread

  /**
   * A resume from an interrupt handler between the regions of another one: the thread is put into its ready list twice.
   */
  lemma OverlapBreaks(s: State, c: nat, d: nat, t: Tid)
    requires Listed(s.l) && t in s.l.ts && s.l.ts[t].stat.Suspend? && c != d && c !in s.callers && d !in s.callers
    ensures var r := Run(s, [TestResume(c, t), UnlinkRegion(c), TestResume(d, t), UnlinkRegion(d), InsertRegion(d), InsertRegion(c)]);
            var p := s.l.ts[t].prio;
            && p < |s.l.queues| == |r.l.queues| && r.l.queues[p] == s.l.queues[p] + [t, t] && !Listed(r.l)
  {
    SaneThread(s.l, t);
    var p := s.l.ts[t].prio;
    var l1 := Unlinking(s.l, t);
    var l2 := Unlinking(l1, t);
    var l3 := Inserting(l2, t);
    var l4 := Inserting(l3, t);
    assert l4.queues[p] == s.l.queues[p] + [t] + [t];
    assert s.l.queues[p] + [t] + [t] == s.l.queues[p] + [t, t];
    hide Unlinking, Inserting;
    SixSteps(s, c, d, t, l1, l2, l3, l4);
    TwiceIn(s.l.queues[p] + [t], t);
  }

  lemma SixSteps(s: State, c: nat, d: nat, t: Tid, l1: Lists, l2: Lists, l3: Lists, l4: Lists)
    requires t in s.l.ts && s.l.ts[t].stat.Suspend? && c != d && c !in s.callers && d !in s.callers
    requires t in s.l.ts && l1 == Unlinking(s.l, t) && t in l1.ts && l2 == Unlinking(l1, t) && t in l2.ts
    requires l3 == Inserting(l2, t) && t in l3.ts && l4 == Inserting(l3, t) && l1.ts[t].stat.Suspend?
    ensures Run(s, [TestResume(c, t), UnlinkRegion(c), TestResume(d, t), UnlinkRegion(d), InsertRegion(d), InsertRegion(c)]).l == l4
  {
    hide Unlinking, Inserting;
    var es := [TestResume(c, t), UnlinkRegion(c), TestResume(d, t), UnlinkRegion(d), InsertRegion(d), InsertRegion(c)];
    var s1 := Step(s, es[0]);
    var s2 := Step(s1, es[1]);
    var s3 := Step(s2, es[2]);
    var s4 := Step(s3, es[3]);
    var s5 := Step(s4, es[4]);
    var s6 := Step(s5, es[5]);
    assert s2.l == l1 && s4.l == l2 && s5.l == l3 && s6.l == l4;
    hide Step;
    RunSix(s, es);
  }

  lemma RunSix(s: State, es: seq<Event>)
    requires |es| == 6
    ensures Run(s, es) == Step(Step(Step(Step(Step(Step(s, es[0]), es[1]), es[2]), es[3]), es[4]), es[5])
  {
    hide Step, Run;
    var s2 := Step(Step(s, es[0]), es[1]);
    var s4 := Step(Step(s2, es[2]), es[3]);
    RunTwo(s, es);
    RunTwo(s2, es[2..]);
    RunTwo(s4, es[2..][2..]);
    RunNone(Step(Step(s4, es[4]), es[5]), es[2..][2..][2..]);
  }

  lemma RunTwo(s: State, es: seq<Event>)
    requires |es| >= 2
    ensures Run(s, es) == Run(Step(Step(s, es[0]), es[1]), es[2..])
  {
    assert es[1..][1..] == es[2..];
  }

  lemma RunNone(s: State, es: seq<Event>)
    requires |es| == 0
    ensures Run(s, es) == s
  {}

  // ---- calls that nothing disturbs

  /** The threads that are touched by an event, a test included, on behalf of another caller than c. */
  function Touched(s: State, e: Event, c: nat): set<Tid> {
    match e
    case TestResume(_, t) => {t}
    case TestSuspend(_, t) => {t}
    case UnlinkRegion(d) => if c != d && d in s.callers then {s.callers[d].t} else {}
    case InsertRegion(d) => if c != d && d in s.callers then {s.callers[d].t} else {}
    case SuspendRegion(d) => if c != d && d in s.callers then {s.callers[d].t} else {}
    case Region(op) => Subject(s.l, op)
  }

  /** No event touches a thread that a caller is about to unlink, queue or suspend, but for that caller. */
  ghost predicate Undisturbed(s: State, events: seq<Event>)
    decreases |events|
  {
    events != [] ==>
      && (forall c :: c in s.callers ==> s.callers[c].t !in Touched(s, events[0], c))
      && Undisturbed(Step(s, events[0]), events[1..])
  }

  predicate Ripe(l: Lists, p: Phase)
    requires p.t in l.ts
  {
    match p
    case ToUnlink(t) => l.ts[t].stat.Suspend?
    case ToInsert(t) => l.ts[t].stat.Suspend? && l.ts[t].place.Alone? && !l.ts[t].timer
    case ToSuspend(t) => l.ts[t].stat.Ready?
  }

  ghost predicate Exclusive(s: State) {
    && (forall c :: c in s.callers ==> s.callers[c].t in s.l.ts && Ripe(s.l, s.callers[c]))
    && (forall c, d :: c in s.callers && d in s.callers && c != d ==> s.callers[c].t != s.callers[d].t)
  }

  lemma ExclusiveStep(s: State, e: Event)
    requires Exclusive(s) && forall c :: c in s.callers ==> s.callers[c].t !in Touched(s, e, c)
    ensures Exclusive(Step(s, e)) && Guard(s, e) && Started(s)
  {
    if e.Region? { DoFrame(s.l, e.op); }
    hide Left, Dequeued, Enqueued, Do, Subject;
  }

  /** Calls between whose steps nobody touches their thread keep the lists right, over every run. */
  lemma {:induction false} UndisturbedListed(s: State, events: seq<Event>)
    requires Listed(s.l) && Exclusive(s) && Undisturbed(s, events)
    ensures AlwaysListed(s, events)
    decreases |events|
  {
    hide Listed, Exclusive, Step, Guard, Started, Touched;
    if events != [] {
      ExclusiveStep(s, events[0]);
      StepExact(s, events[0]);
      UndisturbedListed(Step(s, events[0]), events[1..]);
    }
  }
}
