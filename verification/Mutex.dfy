/** rtt/src/ipc.c, mutexes: rt_mutex_take and rt_mutex_release with priority inheritance. */
module Mutex {
  import opened Wrappers
  import opened WaitList

  /** The mutex object, and the current priorities of all threads, which its operations change. */
  datatype Mx = Mx(value: nat, owner: Option<Thread>, original: nat, hold: nat, waiters: seq<Thread>, prio: Priorities)

  datatype TakeResult = Got | TimedOut | Waits

  datatype ReleaseResult = Refused | Released(woken: Option<Thread>)

  /** The one region of rt_mutex_take; time is the timeout. None: value is 0 and there is no owner to inherit. */
  function TakeStep(m: Mx, flag: Flag, t: Thread, time: int): (Mx, TakeResult) {
    if m.owner == Some(t) then (m.(hold := m.hold + 1), Got)
    else if m.value > 0 then
      (m.(value := m.value - 1, owner := Some(t), original := m.prio(t), hold := m.hold + 1), Got)
    else if time == 0 then (m, TimedOut)
    else
      var prio: Priorities := if m.owner.Some? && m.prio(t) < m.prio(m.owner.value) then Update(m.prio, m.owner.value, m.prio(t))
                  else m.prio;
      (m.(prio := prio, waiters := Suspended(m.waiters, prio, flag, t)), Waits)
  }

  function ReleaseStep(m: Mx, t: Thread): (Mx, ReleaseResult) {
    if m.owner != Some(t) || m.hold == 0 then (m, Refused)
    else if m.hold > 1 then (m.(hold := m.hold - 1), Released(None))
    else
      var prio: Priorities := if m.original != m.prio(t) then Update(m.prio, t, m.original) else m.prio;
      if m.waiters == [] then
        (m.(hold := 0, prio := prio, value := m.value + 1, owner := None, original := 0xff), Released(None))
      else
        var w := m.waiters[0];
        (m.(prio := prio, owner := Some(w), original := prio(w), hold := 1, waiters := m.waiters[1..]), Released(Some(w)))
  }

  class Lock {
    const flag: Flag
    var value: nat
    var owner: Option<Thread>
    var original: nat
    var hold: nat
    var waiters: seq<Thread>
    var prio: Priorities

    ghost function View(): Mx
      reads this
    {
      Mx(value, owner, original, hold, waiters, prio)
    }

    constructor (flag: Flag, prio: Priorities)
      ensures View() == Mx(1, None, 0xff, 0, [], prio) && this.flag == flag
    {
      this.flag, this.prio := flag, prio;
      value, owner, original, hold, waiters := 1, None, 0xff, 0, [];
    }

    method Take(t: Thread, time: int) returns (r: TakeResult)
      requires value == 0 ==> owner.Some?
      modifies this
      ensures (View(), r) == TakeStep(old(View()), flag, t, time)
      ensures r.Got? <==> old(owner) == Some(t) || old(value) > 0
      ensures r.TimedOut? <==> old(owner) != Some(t) && old(value) == 0 && time == 0
      ensures r.Got? ==> owner == Some(t) && hold == old(hold) + 1 && waiters == old(waiters) && prio == old(prio)
      ensures r.Got? && old(owner) == Some(t) ==> value == old(value) && original == old(original)
      ensures r.Got? && old(owner) != Some(t) ==> value == old(value) - 1 && original == prio(t)
      ensures r.TimedOut? ==> View() == old(View())
      ensures r.Waits? ==> owner == old(owner) && value == 0 && hold == old(hold) && original == old(original)
                           && waiters == Suspended(old(waiters), prio, flag, t)
      ensures r.Waits? ==> forall u: Thread :: prio(u) == if Some(u) == owner && old(prio)(t) < old(prio)(u) then old(prio)(t)
                                                  else old(prio)(u)
    {
      if owner == Some(t) {
        hold := hold + 1;
        return Got;
      }
      if value > 0 {
        value, owner, original, hold := value - 1, Some(t), prio(t), hold + 1;
        return Got;
      }
      if time == 0 { return TimedOut; }
      if prio(t) < prio(owner.value) {
        prio := Update(prio, owner.value, prio(t));
      }
      waiters := Suspend(waiters, prio, flag, t);
      r := Waits;
    }

    method Release(t: Thread) returns (r: ReleaseResult)
      requires owner.Some? ==> hold > 0
      modifies this
      ensures (View(), r) == ReleaseStep(old(View()), t)
      ensures r.Refused? <==> old(owner) != Some(t)
      ensures r.Refused? ==> View() == old(View())
      ensures r.Released? && old(hold) > 1 ==> View() == old(View()).(hold := old(hold) - 1) && r.woken.None?
      ensures r.Released? && old(hold) == 1 ==> r.woken == owner && (owner.None? <==> old(waiters) == [])
      ensures r.Released? && old(hold) == 1 ==> forall u :: prio(u) == if u == t then old(original) else old(prio)(u)
      ensures r.Released? && owner.None? ==> hold == 0 && value == old(value) + 1 && waiters == []
      ensures r.Released? && old(hold) == 1 && owner.Some? ==>
                hold == 1 && value == old(value) && old(waiters) == [owner.value] + waiters && original == prio(owner.value)
    {
      if owner != Some(t) { return Refused; }
      hold := hold - 1;
      r := Released(None);
      if hold == 0 {
        if original != prio(t) {
          prio := Update(prio, t, original);
        }
        if waiters != [] {
          var w := waiters[0];
          owner, original, hold := Some(w), prio(w), hold + 1;
          waiters := waiters[1..];
          r := Released(Some(w));
        } else {
          value := value + 1;
          owner, original := None, 0xff;
        }
      }
    }
  }
}
