/** rtt/src/ipc.c: the list of threads suspended on a kernel object, rt_ipc_list_suspend and rt_ipc_list_resume. */
module WaitList {
  import opened Sequences
  import opened Wrappers

  type Thread = nat

  /** RT_IPC_FLAG_FIFO and RT_IPC_FLAG_PRIO. */
  datatype Flag = FIFO | PRIO

  /** Current priorities; a smaller number is more urgent. */
  type Priorities = Thread -> nat

  /** f but for one thread. */
  function Update(f: Thread -> nat, t: Thread, v: nat): Thread -> nat { (u: Thread) => if u == t then v else f(u) }

  /** Whom rt_ipc_list_resume resumes, if there is anyone, and who still waits then. */
  function First(s: seq<Thread>): Option<Thread> { if s == [] then None else Some(s[0]) }

  function Rest(s: seq<Thread>): seq<Thread> { if s == [] then [] else s[1..] }

  function Called(w: Option<Thread>): seq<Thread> { if w.Some? then [w.value] else [] }

  function Woken(w: Option<Thread>): set<Thread> { if w.Some? then {w.value} else {} }

  /** Ordered by priority. */
  ghost predicate Sorted(s: seq<Thread>, prio: Priorities) {
    forall i, j :: 0 <= i < j < |s| ==> prio(s[i]) <= prio(s[j])
  }

  /** The first place whose thread is less urgent than p. */
  function Place(s: seq<Thread>, prio: Priorities, p: nat): (r: nat)
    ensures r <= |s|
    ensures forall i :: 0 <= i < r ==> prio(s[i]) <= p
    ensures r < |s| ==> p < prio(s[r])
  {
    if s == [] || p < prio(s[0]) then 0 else 1 + Place(s[1..], prio, p)
  }

  function Suspended(s: seq<Thread>, prio: Priorities, flag: Flag, t: Thread): (r: seq<Thread>)
    ensures |r| == |s| + 1 && forall u :: u in r <==> u == t || u in s
  {
    var k := if flag.FIFO? then |s| else Place(s, prio, prio(t));
    assert s == s[..k] + s[k..];
    s[..k] + [t] + s[k..]
  }

  lemma SuspendedDistinct(s: seq<Thread>, prio: Priorities, flag: Flag, t: Thread)
    requires Distinct(s) && t !in s
    ensures Distinct(Suspended(s, prio, flag, t))
  {}

  /** A PRIO list stays ordered by priority, and equal priorities stay in the order of arrival. */
  lemma SuspendedSorted(s: seq<Thread>, prio: Priorities, t: Thread)
    requires Sorted(s, prio)
    ensures var r, k := Suspended(s, prio, PRIO, t), Place(s, prio, prio(t));
            && Sorted(r, prio) && r == s[..k] + [t] + s[k..]
            && (forall u :: u in s[..k] ==> prio(u) <= prio(t))
            && (forall u :: u in s[k..] ==> prio(t) < prio(u))
  {
    hide Place;
    var k := Place(s, prio, prio(t));
    assert forall i :: k <= i < |s| ==> prio(t) < prio(s[i]);
  }

  /** The search loop of rt_ipc_list_suspend. */
  method Suspend(s: seq<Thread>, prio: Priorities, flag: Flag, t: Thread) returns (r: seq<Thread>)
    ensures r == Suspended(s, prio, flag, t)
    ensures flag.FIFO? ==> r == s + [t]
  {
    if flag.FIFO? { return s + [t]; }
    var n := 0;
    while n < |s| && prio(t) >= prio(s[n])
      invariant n <= |s| && Place(s, prio, prio(t)) == n + Place(s[n..], prio, prio(t))
    {
      assert s[n..][1..] == s[n + 1..];
      n := n + 1;
    }
    r := s[..n] + [t] + s[n..];
  }

  /** A thread leaves the list, wherever it stands: rt_thread_resume and rt_thread_timeout. */
  lemma {:induction false} WithoutSorted(s: seq<Thread>, prio: Priorities, t: Thread)
    requires Sorted(s, prio)
    ensures Sorted(Without(s, t), prio)
  {
    if s != [] && s[0] != t {
      WithoutSorted(s[1..], prio, t);
      var w := Without(s[1..], t);
      assert forall u :: u in s ==> prio(s[0]) <= prio(u);
      assert Without(s, t) == [s[0]] + w;
      hide Without;
      SortedCons(s[0], w, prio);
    }
  }

  lemma SortedCons(t: Thread, s: seq<Thread>, prio: Priorities)
    requires Sorted(s, prio) && forall u :: u in s ==> prio(t) <= prio(u)
    ensures Sorted([t] + s, prio)
  {}
}
