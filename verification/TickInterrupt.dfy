/** rtt/src/clock.c, rt_tick_increase as a whole: the tick counter, the time slice, and the timer check with its timeouts. */
module TickInterrupt {
  import opened ThreadLists
  import ReadyLists
  import K = Kernel
  import T = Timer
  import Q = TimerQueueRuns
  import TL = TimerList
  import TR = TimerRuns
  import opened ThreadTimers

  ghost function Both(k: K.Kernel, q: T.TimerQueue): State
    reads k, q
  {
    State(k.View(), Q.Shown(q))
  }

  /**
   * One tick of threads and timers. The timeouts of threads touch no timer, so that they may as well follow the check
   * that finds them.
   */
  method TickIncrease(k: K.Kernel, q: T.TimerQueue)
    requires k.Valid() && k.SomeReady() && k.current.Some? && k.current.value in k.ts
    requires q.Valid() && Coupled(Both(k, q))
    modifies k, q
    ensures k.Valid() && k.SomeReady() && q.Valid() && Coupled(Both(k, q))
    ensures Both(k, q) == Step(old(Both(k, q)), Tick(old(k.current).value))
  {
    hide Listed, TR.Inv, TL.FiredBy, TL.AfterCheck, TL.StampAfterCheck, TL.CanCheck, ReadyLists.Agrees, Slicing, Expiring, AllTimed;
    ghost var s, running := Both(k, q), k.current.value;
    TickStep(s, running);
    FiredTimers(s);
    SlicedTimers(s, running);
    TR.DisciplineFits(s.timers, 0);
    q.TickIncrease();
    k.Tick();
    var fired := q.Check();
    Timeouts(k, fired);
  }

  method Timeouts(k: K.Kernel, fired: seq<TL.Id>)
    requires k.Valid() && k.SomeReady() && (forall t :: t in fired && t in k.ts ==> k.ts[t].timer)
    requires forall i, j :: 0 <= i < j < |fired| ==> fired[i] != fired[j]
    modifies k
    ensures k.Valid() && k.SomeReady() && k.View() == Expire(old(k.View()), fired)
  {
    hide Listed, ReadyLists.Agrees, Expiring;
    var i := 0;
    assert fired[0..] == fired;
    while i < |fired|
      invariant i <= |fired| && k.Valid() && k.SomeReady()
      invariant Expire(k.View(), fired[i..]) == Expire(old(k.View()), fired)
      invariant forall j :: i <= j < |fired| && fired[j] in k.ts ==> k.ts[fired[j]].timer
    {
      assert fired[i..][0] == fired[i] && fired[i..][1..] == fired[i + 1..];
      if fired[i] in k.ts {
        ghost var p := k.ts[fired[i]].prio;
        k.Timeout(fired[i]);
        assert k.queues[p] != [];
        k.Schedule();
      }
      i := i + 1;
    }
  }
}
