/**
 * Runs of the hard timer list itself: any sequence of operations on the skip list has the effect it has on the plain
 * list, all its preconditions being met by one check every tick.
 */
module TimerQueueRuns {
  import opened Ticks
  import opened TimerList
  import opened TimerRuns
  import opened Timer

  /** What a timer queue shows. */
  ghost function Shown(q: TimerQueue): State
    reads q
  {
    State(q.now, q.plain, q.Setups(), q.stamp)
  }

  /** The timeout functions called by one operation, and by every operation of a run. */
  function Called(s: State, op: Op): seq<Id> { if op.Tick? then FiredBy(s.plain, s.now + 1) else [] }

  function AllCalled(s: State, ops: seq<Op>): (r: seq<seq<Id>>)
    ensures |r| == |ops|
    decreases |ops|
  {
    if ops == [] then [] else [Called(s, ops[0])] + AllCalled(Step(s, ops[0]), ops[1..])
  }

  /** The ticks at which a timer was called. */
  function Times(now: nat, ops: seq<Op>, calls: seq<seq<Id>>, id: Id): seq<nat>
    requires |calls| == |ops|
    decreases |ops|
  {
    if ops == [] then []
    else
      var at := if ops[0].Tick? then now + 1 else now;
      (if id in calls[0] then [at] else []) + Times(at, ops[1..], calls[1..], id)
  }

  lemma {:induction false} TimesAgree(s: State, ops: seq<Op>, id: Id)
    ensures Times(s.now, ops, AllCalled(s, ops), id) == FireTimes(s, ops, id)
    decreases |ops|
  {
    if ops != [] {
      hide FiredBy, AfterCheck, PlainInsert, PlainRemove, StampAfterCheck;
      var rest := AllCalled(Step(s, ops[0]), ops[1..]);
      assert AllCalled(s, ops)[1..] == rest;
      TimesAgree(Step(s, ops[0]), ops[1..], id);
    }
  }

  /** Timers are created before they are used. */
  predicate Known(op: Op, created: set<Id>) { op.Tick? || op.id in created }

  lemma ActiveListed(q: TimerQueue, id: Id)
    requires q.Valid() && id in q.timers
    ensures q.timers[id].activated <==> Listed(q.plain, id)
    ensures SetupOf(q.Setups(), id) == q.timers[id].setup
  {
    if Listed(q.plain, id) {
      var x :| x in q.plain && x.id == id;
      assert q.EntryOk(x);
    }
  }

  lemma NotListed(p: seq<Entry>, id: Id)
    requires !Listed(p, id)
    ensures PlainRemove(p, id) == p && Pos(p, id) == |p|
  {
    ListedPos(p, id);
  }

  /** Every operation keeps the timers that have been created. */
  method Perform(q: TimerQueue, op: Op) returns (fired: seq<Id>)
    requires q.Valid() && Inv(Shown(q)) && Known(op, q.Setups().Keys)
    modifies q
    ensures q.Valid() && Shown(q) == Step(old(Shown(q)), op) && Inv(Shown(q)) && q.Setups().Keys == old(q.Setups().Keys)
    ensures fired == Called(old(Shown(q)), op)
  {
    hide Row, Sorted, Distinct, PlainInsert, PlainRemove, AfterCheck, StampAfterCheck, FiredBy, Inv, Fits, CanCheck;
    ghost var s := Shown(q);
    StepInv(s, op);
    fired := [];
    match op {
      case Start(id) =>
        ActiveListed(q, id);
        ListedPos(q.plain, id);
        DisciplineFits(s, id);
        var err := q.Start(id);
      case Stop(id) =>
        ActiveListed(q, id);
        if !q.timers[id].activated { NotListed(q.plain, id); }
        var err := q.Stop(id);
      case Control(id, setup) =>
        if Proper(setup) { q.Control(id, setup); }
      case Tick =>
        DisciplineFits(s, 0);
        q.TickIncrease();
        fired := q.Check();
    }
  }

  /** Any run leaves a valid skip list, which shows the plain list after the same run, and calls the same functions. */
  method RunQueue(q: TimerQueue, ops: seq<Op>) returns (calls: seq<seq<Id>>)
    requires q.Valid() && Inv(Shown(q)) && forall op :: op in ops ==> Known(op, q.Setups().Keys)
    modifies q
    ensures q.Valid() && Shown(q) == Run(old(Shown(q)), ops) && Inv(Shown(q))
    ensures calls == AllCalled(old(Shown(q)), ops)
  {
    hide Inv, Step, Called, Known, TimerQueue.Valid;
    ghost var s := Shown(q);
    var i := 0;
    calls := [];
    assert ops[0..] == ops;
    while i < |ops|
      invariant i <= |ops| && q.Valid() && Inv(Shown(q)) && q.Setups().Keys == old(q.Setups().Keys)
      invariant Run(Shown(q), ops[i..]) == Run(s, ops) && calls + AllCalled(Shown(q), ops[i..]) == AllCalled(s, ops)
    {
      assert ops[i] in ops && ops[i..][0] == ops[i] && ops[i..][1..] == ops[i + 1..];
      ghost var r, was := Shown(q), calls;
      var fired := Perform(q, ops[i]);
      calls := calls + [fired];
      assert was + AllCalled(r, ops[i..]) == calls + AllCalled(Shown(q), ops[i + 1..]);
      i := i + 1;
    }
    assert ops[i..] == [] && calls + [] == calls;
  }

  /** A pending timer of the queue is called at its times, over every run in which it is left alone. */
  method CalledOnTime(q: TimerQueue, ops: seq<Op>, id: Id, ghost due: int) returns (calls: seq<seq<Id>>)
    requires q.Valid() && Inv(Shown(q)) && forall op :: op in ops ==> Known(op, q.Setups().Keys)
    requires HasEntry(q.plain, id, due) && Untouched(ops, id)
    modifies q
    ensures q.Valid() && |calls| == |ops| && 0 <= SetupOf(old(q.Setups()), id).init
    ensures Times(old(q.now), ops, calls, id) == Calls(old(q.now), SetupOf(old(q.Setups()), id), due, q.now)
  {
    hide Inv, HasEntry, Untouched, Times, Run, AllCalled, Calls, Known, TimerQueue.Valid;
    ghost var s := Shown(q);
    SetupProper(s, id);
    calls := RunQueue(q, ops);
    TimesAgree(s, ops, id);
    FiresOnTime(s, ops, id, due);
  }

  // ---- queues that are there

  /** A new queue of timers with proper intervals is one to start a run from. */
  lemma NewQueueInv(q: TimerQueue)
    requires q.Valid() && q.plain == [] && forall id :: id in q.timers ==> Proper(q.timers[id].setup)
    ensures Inv(Shown(q))
  {}

  /** A queue whose only timer expires at the tick that stands for no timer. */
  method LastTick() returns (q: TimerQueue, t: u32)
    ensures fresh(q) && q.Valid() && q.timers.Keys == {0} && q.timers[0].activated && q.plain != [] && t == 0xFFFF_FFFF
  {
    q := new TimerQueue(1, 1, map[0 := Timer(0, false, Setup(1, false))]);
    var ticks := 0;
    while ticks < 0xFFFF_FFFE
      invariant fresh(q) && q.Valid() && q.plain == [] && q.timers == map[0 := Timer(0, false, Setup(1, false))]
      invariant q.now == ticks <= 0xFFFF_FFFE
    {
      q.TickIncrease();
      ticks := ticks + 1;
    }
    var err := q.Start(0);
    t := q.NextTimeout();
  }
}
