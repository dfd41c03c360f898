/**
 * One mutex and any number of threads over all interleavings of takes, releases and timeouts. Nothing else
 * changes priorities: base holds those the threads have of their own.
 */
module MutexRuns {
  import opened Wrappers
  import opened WaitList
  import opened Sequences
  import opened Mutex

  /**
   * depth(t) is the number of takes of t that have returned successfully, less its releases; granted is a
   * thread that was handed the mutex and has not run since; boosters are the threads that have waited for the
   * mutex since its owner got it.
   */
  datatype State = State(mx: Mx, flag: Flag, base: Priorities, depth: Thread -> nat, granted: Option<Thread>,
                         boosters: set<Thread>)

  datatype Event =
    | Take(t: Thread, time: int)
    | Release(t: Thread)
    | Expire(t: Thread)
    | Resume(t: Thread)

  predicate Running(s: State, t: Thread) { t !in s.mx.waiters && s.granted != Some(t) }

  function Step(s: State, e: Event): State {
    match e
    case Take(t, time) =>
      if !Running(s, t) then s
      else
        var (mx, r) := TakeStep(s.mx, s.flag, t, time);
        (match r
         case Got => s.(mx := mx, depth := Update(s.depth, t, s.depth(t) + 1),
                        boosters := if s.mx.owner == Some(t) then s.boosters else {})
         case TimedOut => s
         case Waits => s.(mx := mx, boosters := s.boosters + {t}))
    case Release(t) =>
      if !Running(s, t) then s
      else
        var (mx, r) := ReleaseStep(s.mx, t);
        (match r
         case Refused => s
         case Released(w) =>
           var depth := Update(s.depth, t, if s.depth(t) > 0 then s.depth(t) - 1 else 0);
           if mx.owner == s.mx.owner && w.None? then s.(mx := mx, depth := depth)
           else s.(mx := mx, depth := depth, granted := w, boosters := Elements(mx.waiters)))
    case Expire(t) => s.(mx := s.mx.(waiters := Without(s.mx.waiters, t)))
    case Resume(t) =>
      if s.granted == Some(t) then s.(granted := None, depth := Update(s.depth, t, s.depth(t) + 1)) else s
  }

  // ---- ownership

  ghost predicate Owning(s: State) {
    var m := s.mx;
    && Distinct(m.waiters) && (m.value == if m.owner.None? then 1 else 0)
    && (m.owner.None? <==> m.hold == 0) && (m.waiters != [] ==> m.owner.Some?)
    && (m.owner.Some? ==> m.owner.value !in m.waiters)
    && (s.granted.Some? ==> s.granted == m.owner && m.hold == 1)
  }

  /** Successful takes are the owner's alone, and hold counts them. */
  ghost predicate Holding(s: State) {
    && (forall t: Thread :: s.mx.owner != Some(t) ==> s.depth(t) == 0)
    && (s.mx.owner.Some? ==> s.mx.hold == s.depth(s.mx.owner.value) + if s.granted == s.mx.owner then 1 else 0)
  }

  /** Only the owner's priority is changed, and only raised. */
  ghost predicate Inheriting(s: State) {
    var m := s.mx;
    && (forall t: Thread :: m.owner != Some(t) ==> m.prio(t) == s.base(t))
    && (m.owner.Some? ==> m.original == s.base(m.owner.value) && m.prio(m.owner.value) <= s.base(m.owner.value))
  }

  ghost predicate Inv(s: State) { Owning(s) && Holding(s) && Inheriting(s) }

  /** The owner is at least as urgent as every waiting thread. */
  ghost predicate OwnerUrgent(s: State) {
    forall w :: w in s.mx.waiters ==> s.mx.owner.Some? && s.mx.prio(s.mx.owner.value) <= s.base(w)
  }

  /** The owner's priority is exactly the most urgent one of its own and those of the boosters. */
  ghost predicate Exact(s: State) {
    && (forall w :: w in s.mx.waiters ==> w in s.boosters)
    && (s.mx.owner.Some? ==>
          var o := s.mx.owner.value;
          && (forall b :: b in s.boosters ==> s.mx.prio(o) <= s.base(b))
          && (s.mx.prio(o) == s.base(o) || exists b :: b in s.boosters && s.base(b) == s.mx.prio(o)))
  }

  // ---- every step keeps them

  lemma OwningStep(s: State, e: Event)
    requires Owning(s)
    ensures Owning(Step(s, e))
  {
    match e
    case Take(t, time) =>
      if t !in s.mx.waiters { OwningTake(s, t, time); }
    case Release(t) => OwningRelease(s, t);
    case Expire(t) => WithoutMembers(s.mx.waiters, t);
    case Resume(t) =>
  }

  lemma OwningTake(s: State, t: Thread, time: int)
    requires Owning(s) && t !in s.mx.waiters
    ensures Owning(Step(s, Take(t, time)))
  {
    var m := TakeStep(s.mx, s.flag, t, time).0;
    forall prio
      ensures Distinct(Suspended(s.mx.waiters, prio, s.flag, t))
    {
      SuspendedDistinct(s.mx.waiters, prio, s.flag, t);
    }
    hide Suspended, Distinct;
  }

  lemma OwningRelease(s: State, t: Thread)
    requires Owning(s)
    ensures Owning(Step(s, Release(t)))
  {
    if s.mx.waiters != [] {
      assert s.mx.waiters[0] in s.mx.waiters && s.mx.waiters[0] !in s.mx.waiters[1..];
      assert forall w :: w in s.mx.waiters[1..] ==> w in s.mx.waiters;
    }
  }

  lemma HoldingStep(s: State, e: Event)
    requires Owning(s) && Holding(s)
    ensures Holding(Step(s, e))
  {
    hide Suspended, Without, Distinct;
  }

  lemma InheritingStep(s: State, e: Event)
    requires Owning(s) && Inheriting(s)
    ensures Inheriting(Step(s, e))
  {
    hide Suspended, Without, Distinct;
  }

  lemma StepInv(s: State, e: Event)
    requires Inv(s)
    ensures Inv(Step(s, e))
  {
    hide Owning, Holding, Inheriting, Step;
    OwningStep(s, e);
    HoldingStep(s, e);
    InheritingStep(s, e);
  }

  // ---- PRIO mutexes

  lemma SameOrder(w: seq<Thread>, f: Priorities, g: Priorities)
    requires Sorted(w, f) && forall t :: t in w ==> f(t) == g(t)
    ensures Sorted(w, g)
  {}

  /** What a PRIO mutex keeps besides. */
  ghost predicate Prio(s: State) { Sorted(s.mx.waiters, s.base) && OwnerUrgent(s) && Exact(s) }

  /** A thread joins the list in its place, whatever the owner's priority has become. */
  lemma JoinSorted(w: seq<Thread>, base: Priorities, prio: Priorities, t: Thread)
    requires Sorted(w, base) && prio(t) == base(t) && forall u :: u in w ==> prio(u) == base(u)
    ensures Sorted(Suspended(w, prio, PRIO, t), base)
  {
    SameOrder(w, base, prio);
    SuspendedSorted(w, prio, t);
    hide Suspended, Sorted;
    SameOrder(Suspended(w, prio, PRIO, t), prio, base);
  }

  /** What a take that has to wait changes. */
  lemma TakeWaits(s: State, t: Thread, time: int)
    requires Inv(s) && Running(s, t) && TakeStep(s.mx, s.flag, t, time).1.Waits?
    ensures var s', o := Step(s, Take(t, time)), s.mx.owner;
            && o.Some? && s'.mx.owner == o && s'.boosters == s.boosters + {t} && s'.base == s.base
            && s'.mx.waiters == Suspended(s.mx.waiters, s'.mx.prio, s.flag, t) && t !in s.mx.waiters
            && s'.mx.prio(t) == s.base(t) && (forall u :: u in s.mx.waiters ==> s'.mx.prio(u) == s.base(u))
            && s'.mx.prio(o.value) == if s.base(t) < s.mx.prio(o.value) then s.base(t) else s.mx.prio(o.value)
  {
    hide Suspended, Distinct;
  }

  lemma JoinPrio(s: State, s': State, t: Thread)
    requires Prio(s) && s.mx.owner.Some? && s'.mx.owner == s.mx.owner && s'.base == s.base
    requires s'.boosters == s.boosters + {t} && forall w :: w in s'.mx.waiters <==> w in s.mx.waiters || w == t
    requires Sorted(s'.mx.waiters, s.base)
    requires var o := s.mx.owner.value;
             s'.mx.prio(o) == if s.base(t) < s.mx.prio(o) then s.base(t) else s.mx.prio(o)
    ensures Prio(s')
  {
    hide Sorted;
    assert t in s'.boosters;
    assert forall b :: b in s.boosters ==> b in s'.boosters;
  }

  lemma TakePrio(s: State, t: Thread, time: int)
    requires Inv(s) && Prio(s) && s.flag == PRIO
    ensures Prio(Step(s, Take(t, time)))
  {
    var s' := Step(s, Take(t, time));
    if !Running(s, t) {
    } else if TakeStep(s.mx, s.flag, t, time).1.Waits? {
      hide *;
      TakeWaits(s, t, time);
      assert Sorted(s.mx.waiters, s.base) by { UnfoldPrio(s); }
      JoinSorted(s.mx.waiters, s.base, s'.mx.prio, t);
      JoinPrio(s, s', t);
    } else if s.mx.owner == Some(t) {
      assert s'.mx == s.mx.(hold := s.mx.hold + 1) && s'.boosters == s.boosters;
      hide Sorted, Step, TakeStep, Inv;
    } else if s.mx.owner.None? {
      assert s'.mx.waiters == [] && s'.boosters == {} && s'.mx.owner == Some(t) && s'.mx.prio(t) == s'.base(t);
      hide Step, TakeStep, Inv;
    }
  }

  lemma UnfoldPrio(s: State)
    requires Prio(s)
    ensures Sorted(s.mx.waiters, s.base) && OwnerUrgent(s) && Exact(s)
  {}

  lemma ReleasePrio(s: State, t: Thread)
    requires Inv(s) && Prio(s)
    ensures Prio(Step(s, Release(t)))
  {
    var w, s' := s.mx.waiters, Step(s, Release(t));
    if Running(s, t) && s.mx.owner == Some(t) && s.mx.hold == 1 && w != [] {
      assert w[0] in w && w[0] !in w[1..];
      assert forall u :: u in w[1..] ==> u in w;
      assert s'.mx.waiters == w[1..] && s'.mx.owner == Some(w[0]) && s'.mx.prio(w[0]) == s.base(w[0]);
      assert s'.boosters == Elements(w[1..]) && s'.base == s.base;
      hide Inv, Step, ReleaseStep, OwnerUrgent, Exact;
      assert forall u :: u in w[1..] ==> s.base(w[0]) <= s.base(u);
      hide Sorted;
      assert Sorted(w[1..], s.base) by { TailSorted(w, s.base); }
      assert OwnerUrgent(s') by { OwnerUrgentIntro(s'); }
      assert Exact(s') by { ExactIntro(s'); }
    } else {
      hide Sorted;
    }
  }

  lemma TailSorted(w: seq<Thread>, base: Priorities)
    requires w != [] && Sorted(w, base)
    ensures Sorted(w[1..], base)
  {}

  lemma OwnerUrgentIntro(s: State)
    requires s.mx.owner.Some? && forall w :: w in s.mx.waiters ==> s.mx.prio(s.mx.owner.value) <= s.base(w)
    ensures OwnerUrgent(s)
  {}

  lemma ExactIntro(s: State)
    requires s.mx.owner.Some? && s.mx.prio(s.mx.owner.value) == s.base(s.mx.owner.value)
    requires s.boosters == Elements(s.mx.waiters)
    requires forall w :: w in s.mx.waiters ==> s.base(s.mx.owner.value) <= s.base(w)
    ensures Exact(s)
  {}

  lemma StepPrio(s: State, e: Event)
    requires Inv(s) && Prio(s) && s.flag == PRIO
    ensures Prio(Step(s, e)) && Step(s, e).flag == PRIO
  {
    match e
    case Take(t, time) => TakePrio(s, t, time);
    case Release(t) => ReleasePrio(s, t);
    case Expire(t) =>
      WithoutSorted(s.mx.waiters, s.base, t);
      hide Without, Sorted;
    case Resume(_) =>
  }

  // ---- runs

  ghost predicate Initial(s: State) {
    && s.mx == Mx(1, None, 0xff, 0, [], s.base) && s.granted == None && s.boosters == {}
    && forall t: Thread :: s.depth(t) == 0
  }

  function Run(s: State, events: seq<Event>): State
    decreases |events|
  {
    if events == [] then s else Run(Step(s, events[0]), events[1..])
  }

  lemma {:induction false} RunInv(s: State, events: seq<Event>)
    requires Inv(s) && (s.flag == PRIO ==> Prio(s))
    ensures var r := Run(s, events); Inv(r) && r.flag == s.flag && r.base == s.base && (s.flag == PRIO ==> Prio(r))
    decreases |events|
  {
    if events != [] {
      StepInv(s, events[0]);
      if s.flag == PRIO { StepPrio(s, events[0]); }
      assert Step(s, events[0]).flag == s.flag && Step(s, events[0]).base == s.base;
      hide Inv, Prio, Step;
      RunInv(Step(s, events[0]), events[1..]);
    }
  }

  /**
   * Mutual exclusion, in every reachable state of FIFO and PRIO mutexes: two threads never both hold the mutex,
   * and value is 1 exactly when there is no owner, exactly when hold is 0.
   */
  lemma MutualExclusion(s: State, events: seq<Event>, t: Thread, u: Thread)
    requires Initial(s)
    ensures var r := Run(s, events);
            && (r.depth(t) > 0 && r.depth(u) > 0 ==> t == u)
            && (r.depth(t) > 0 ==> r.mx.owner == Some(t) && r.mx.hold == r.depth(t))
            && (r.mx.value == 1 <==> r.mx.owner == None) && (r.mx.value == 1 <==> r.mx.hold == 0)
            && (r.mx.waiters != [] ==> r.mx.owner.Some?)
  {
    RunInv(s, events);
    hide Run;
  }

  /** Threads that do not own the mutex run at their own priority: a boost ends with the final release. */
  lemma PriorityRestored(s: State, events: seq<Event>, t: Thread)
    requires Initial(s)
    ensures var r := Run(s, events); r.mx.owner != Some(t) ==> r.mx.prio(t) == s.base(t)
  {
    RunInv(s, events);
    hide Run;
  }

  /**
   * Priority inheritance of a PRIO mutex, in every reachable state: the owner is at least as urgent as every
   * waiting thread, and has its own priority or that of a thread that has waited since it got the mutex.
   */
  lemma PriorityInherited(s: State, events: seq<Event>)
    requires Initial(s) && s.flag == PRIO
    ensures var r := Run(s, events);
            && Sorted(r.mx.waiters, s.base) && OwnerUrgent(r) && Exact(r)
  {
    RunInv(s, events);
    hide Run;
  }

  /** A PRIO mutex is handed to the most urgent waiting thread, which owns it before it runs. */
  lemma HandOff(s: State, t: Thread)
    requires Inv(s) && Prio(s) && s.mx.owner == Some(t) && s.mx.hold == 1 && Running(s, t) && s.mx.waiters != []
    ensures var r := Step(s, Release(t));
            && r.mx.owner.Some? && r.granted == r.mx.owner && r.mx.owner.value in s.mx.waiters
            && (forall w :: w in s.mx.waiters ==> s.base(r.mx.owner.value) <= s.base(w))
            && (forall w :: w in s.mx.waiters <==> w in r.mx.waiters || Some(w) == r.mx.owner)
  {
    var w := s.mx.waiters;
    assert forall u :: u in w <==> u == w[0] || u in w[1..];
  }

  // ---- FIFO mutexes do not boost the new owner

  /** Only the hand-off of a FIFO mutex can leave an owner that is less urgent than a waiting thread. */
  lemma OnlyAtHandOff(s: State, e: Event)
    requires Inv(s) && OwnerUrgent(s) && !(e.Release? && s.mx.owner == Some(e.t) && s.mx.hold == 1)
    ensures OwnerUrgent(Step(s, e))
  {
    if e.Take? && Step(s, e).mx.waiters != s.mx.waiters {
      assert e.t !in s.mx.waiters;
    }
    hide Distinct, Without;
  }

  /** And it does so exactly when the longest waiting thread is not the most urgent one. */
  lemma HandOffExact(s: State, t: Thread)
    requires Inv(s) && s.mx.owner == Some(t) && s.mx.hold == 1 && Running(s, t) && s.mx.waiters != []
    ensures OwnerUrgent(Step(s, Release(t)))
            <==> forall w :: w in s.mx.waiters ==> s.base(s.mx.waiters[0]) <= s.base(w)
  {
    var w := s.mx.waiters;
    assert forall u :: u in w <==> u == w[0] || u in w[1..];
    assert w[0] !in w[1..];
  }

  /** For instance with threads 1, 2 and 3 of priorities 5, 5 and 1 that take a FIFO mutex in this order. */
  lemma FifoInversion(s: State)
    requires Initial(s) && s.flag == FIFO && s.base(1) == 5 && s.base(2) == 5 && s.base(3) == 1
    ensures var r := Run(s, [Take(1, -1), Take(2, -1), Take(3, -1), Release(1)]);
            r.mx.owner == Some(2) && r.mx.waiters == [3] && r.mx.prio(2) == 5 && !OwnerUrgent(r)
  {
    hide Suspended, OwnerUrgent, Run;
    var s1 := Step(s, Take(1, -1));
    assert s1.mx.(prio := s.base) == Mx(0, Some(1), 5, 1, [], s.base) && s1.mx.prio == s.base && s1.granted == None;
    hide Step;
    var s2 := SecondTake(s1, 2);
    var s3 := SecondTake(s2, 3);
    HandsOn(s3);
    RunFour(s, Take(1, -1), Take(2, -1), Take(3, -1), Release(1));
    NotUrgent(Step(s3, Release(1)), 3);
  }

  lemma HandsOn(s: State)
    requires s.mx.waiters == [2, 3] && s.mx.owner == Some(1) && s.mx.hold == 1 && s.granted == None && s.mx.prio(2) == 5
    ensures var r := Step(s, Release(1));
            r.mx.waiters == [3] && r.mx.owner == Some(2) && r.mx.prio(2) == 5 && 3 in r.mx.waiters && r.base == s.base
  {}

  lemma SecondTake(s: State, t: Thread) returns (s': State)
    requires s.flag == FIFO && s.mx.value == 0 && s.mx.owner.Some? && s.mx.owner != Some(t) && Running(s, t)
    ensures s' == Step(s, Take(t, -1)) && s'.flag == FIFO && s'.base == s.base && s'.granted == s.granted
    ensures var m := s'.mx;
            m.waiters == s.mx.waiters + [t] && m.value == 0 && m.owner == s.mx.owner
            && m.original == s.mx.original && m.hold == s.mx.hold
    ensures forall u: Thread :: Some(u) != s.mx.owner ==> s'.mx.prio(u) == s.mx.prio(u)
  {
    s' := Step(s, Take(t, -1));
    assert forall p: Priorities :: Suspended(s.mx.waiters, p, FIFO, t) == s.mx.waiters + [t];
    hide Suspended;
  }

  lemma RunFour(s: State, a: Event, b: Event, c: Event, d: Event)
    ensures Run(s, [a, b, c, d]) == Step(Step(Step(Step(s, a), b), c), d)
  {
    hide Step;
    assert [a, b, c, d][1..] == [b, c, d] && [b, c, d][1..] == [c, d] && [c, d][1..] == [d] && [d][1..] == [];
    var s3 := Step(Step(Step(s, a), b), c);
    assert Run(s3, [d]) == Step(s3, d);
    assert Run(Step(Step(s, a), b), [c, d]) == Run(s3, [d]);
  }

  lemma NotUrgent(s: State, w: Thread)
    requires w in s.mx.waiters && s.mx.owner.Some? && s.base(w) < s.mx.prio(s.mx.owner.value)
    ensures !OwnerUrgent(s)
  {}
}
