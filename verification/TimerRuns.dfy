/**
 * Runs of the timer service under the clock discipline of rtt/src/clock.c: one check after every tick,
 * with timers started, stopped and set anew in between.
 */
module TimerRuns {
  import opened Ticks
  import opened TimerList

  datatype State = State(now: nat, plain: seq<Entry>, setups: map<Id, Setup>, stamp: nat)

  datatype Op = Start(id: Id) | Stop(id: Id) | Control(id: Id, setup: Setup) | Tick

  /** An interval of less than half a wrap, which is positive for a periodic timer. */
  predicate Proper(s: Setup) { 0 <= s.init < HALF && (s.periodic ==> s.init > 0) }

  function Step(s: State, op: Op): State {
    match op
    case Start(id) =>
      if Pos(s.plain, id) < |s.plain| then s
      else s.(plain := PlainInsert(s.plain, Entry(id, s.now + SetupOf(s.setups, id).init, s.stamp)), stamp := s.stamp + 1)
    case Stop(id) => s.(plain := PlainRemove(s.plain, id))
    case Control(id, setup) => if Proper(setup) then s.(setups := s.setups[id := setup]) else s
    case Tick =>
      s.(now := s.now + 1,
         plain := AfterCheck(s.plain, s.now + 1, s.setups, s.stamp),
         stamp := StampAfterCheck(s.plain, s.now + 1, s.setups, s.stamp))
  }

  function Run(s: State, ops: seq<Op>): State
    decreases |ops|
  {
    if ops == [] then s else Run(Step(s, ops[0]), ops[1..])
  }

  /** The ticks at which the timer's function is called during a run. */
  function FireTimes(s: State, ops: seq<Op>, id: Id): seq<nat>
    decreases |ops|
  {
    if ops == [] then []
    else (if ops[0].Tick? && id in FiredBy(s.plain, s.now + 1) then [s.now + 1] else [])
         + FireTimes(Step(s, ops[0]), ops[1..], id)
  }

  /** first, first + period, ... up to end; a single time if period is 0. */
  function Schedule(first: nat, period: nat, end: nat): seq<nat>
    decreases end + 1 - first, period
  {
    if first > end then []
    else if period == 0 then [first] else [first] + Schedule(first + period, period, end)
  }

  ghost predicate SetupsOk(setups: map<Id, Setup>) {
    forall id :: id in setups ==> Proper(setups[id])
  }

  ghost predicate Inv(s: State) {
    && Sorted(s.plain) && Distinct(s.plain) && Stamped(s.plain, s.stamp) && SetupsOk(s.setups)
    && forall x :: x in s.plain ==> s.now <= x.due < s.now + HALF
  }

  ghost predicate HasEntry(p: seq<Entry>, id: Id, due: int) {
    exists x :: x in p && x.id == id && x.due == due
  }

  /** One check each tick keeps every pending timer inside the window in which wrapped ticks compare correctly. */
  lemma DisciplineFits(s: State, id: Id)
    requires Inv(s)
    ensures Fits(s.plain, s.now, SetupOf(s.setups, id).init)
    ensures CanCheck(s.plain, s.now + 1, s.setups)
    ensures forall x :: x in s.plain ==> -HALF < x.due - (s.now + 1) < HALF
  {
    DueFirst(s.plain, s.now + 1);
    var q := s.plain[..CountLe(s.plain, s.now + 1)];
    forall x | x in q ensures x.due <= s.now + 1
      && (SetupOf(s.setups, x.id).periodic ==>
            SetupOf(s.setups, x.id).init > 0 && Fits(s.plain, s.now + 1, SetupOf(s.setups, x.id).init))
    {
      assert x in s.plain;
    }
  }

  lemma ListedPos(p: seq<Entry>, id: Id)
    ensures Pos(p, id) < |p| <==> Listed(p, id)
  {
    if Pos(p, id) < |p| { assert p[Pos(p, id)] in p; }
  }

  lemma ListedIds(p: seq<Entry>, id: Id)
    ensures id in Ids(p) <==> Listed(p, id)
  {
    if id in Ids(p) {
      var i :| 0 <= i < |p| && Ids(p)[i] == id;
      assert p[i] in p;
    }
    forall x | x in p && x.id == id ensures id in Ids(p) {
      var i :| 0 <= i < |p| && p[i] == x;
      assert Ids(p)[i] == id;
    }
  }

  lemma OthersAfterFirst(q: seq<Entry>)
    requires q != [] && Distinct(q)
    ensures Distinct(q[1..]) && forall x :: x in q[1..] ==> x in q && x.id != q[0].id
  {
    forall x | x in q[1..] ensures x.id != q[0].id { var i :| 0 < i < |q| && q[i] == x; }
  }

  /** Putting the fired periodic timers back keeps the list in order. */
  lemma RestartOrder(q: seq<Entry>, rest: seq<Entry>, now: int, setups: map<Id, Setup>, stamp: nat)
    requires Sorted(rest) && Distinct(rest) && Stamped(rest, stamp) && Distinct(q)
    requires forall x, y :: x in q && y in rest ==> x.id != y.id
    ensures var r := Restart(q, rest, now, setups, stamp);
            Sorted(r) && Distinct(r) && Stamped(r, stamp + Restarts(q, setups))
    decreases |q|
  {
    if q != [] {
      var e := NextEntry(q[0], now, setups, stamp);
      OthersAfterFirst(q);
      assert q[0] in q;
      if SetupOf(setups, q[0].id).periodic {
        InsertKeepsOrder(rest, e);
        InsertContents(rest, e);
        hide PlainInsert, Sorted, Distinct;
        RestartOrder(q[1..], PlainInsert(rest, e), now, setups, stamp + 1);
      } else {
        RestartOrder(q[1..], rest, now, setups, stamp);
      }
    }
  }

  /** What is pending after a check: the timers not yet due, and one interval on, the fired periodic ones. */
  lemma RestartContents(q: seq<Entry>, rest: seq<Entry>, now: int, setups: map<Id, Setup>, stamp: nat, id: Id, due: int)
    ensures HasEntry(Restart(q, rest, now, setups, stamp), id, due) <==>
            HasEntry(rest, id, due)
            || (Listed(q, id) && SetupOf(setups, id).periodic && due == now + SetupOf(setups, id).init)
    decreases |q|
  {
    if q != [] {
      assert Listed(q, id) <==> q[0].id == id || Listed(q[1..], id) by {
        assert q == [q[0]] + q[1..] && q[0] in q;
      }
      var e := NextEntry(q[0], now, setups, stamp);
      if SetupOf(setups, q[0].id).periodic {
        InsertContents(rest, e);
        assert HasEntry(PlainInsert(rest, e), id, due) <==> HasEntry(rest, id, due) || (e.id == id && e.due == due);
        RestartContents(q[1..], PlainInsert(rest, e), now, setups, stamp + 1, id, due);
      } else {
        RestartContents(q[1..], rest, now, setups, stamp, id, due);
      }
    }
  }

  ghost predicate DueBy(p: seq<Entry>, id: Id, now: int) {
    exists x :: x in p && x.id == id && x.due <= now
  }

  lemma DueSplit(p: seq<Entry>, now: int, id: Id)
    requires Sorted(p)
    ensures DueBy(p, id, now) <==> Listed(p[..CountLe(p, now)], id)
    ensures forall x :: x in p[CountLe(p, now)..] <==> x in p && x.due > now
  {
    var m := CountLe(p, now);
    DueFirst(p, now);
    hide CountLe;
    assert forall x :: x in p <==> x in p[..m] || x in p[m..];
  }

  /** A check fires a timer exactly if it is due, and what is pending afterwards is settled timer by timer. */
  lemma CheckContents(p: seq<Entry>, now: int, setups: map<Id, Setup>, stamp: nat, id: Id, due: int)
    requires Sorted(p)
    ensures id in FiredBy(p, now) <==> DueBy(p, id, now)
    ensures HasEntry(AfterCheck(p, now, setups, stamp), id, due) <==>
            (HasEntry(p, id, due) && due > now)
            || (DueBy(p, id, now) && SetupOf(setups, id).periodic && due == now + SetupOf(setups, id).init)
  {
    var m := CountLe(p, now);
    DueSplit(p, now, id);
    ListedIds(p[..m], id);
    RestartContents(p[..m], p[m..], now, setups, stamp, id, due);
    hide CountLe, Restart;
  }

  lemma CheckInv(s: State)
    requires Inv(s)
    ensures Inv(Step(s, Tick))
  {
    hide AfterCheck, StampAfterCheck, Sorted, Distinct, Stamped, SetupsOk;
    CheckOrder(s.plain, s.now + 1, s.setups, s.stamp);
    var p := AfterCheck(s.plain, s.now + 1, s.setups, s.stamp);
    forall x | x in p
      ensures s.now + 1 <= x.due < s.now + 1 + HALF
    {
      CheckWindow(s, x);
    }
  }

  lemma CheckOrder(p: seq<Entry>, now: int, setups: map<Id, Setup>, stamp: nat)
    requires Sorted(p) && Distinct(p) && Stamped(p, stamp)
    ensures var r := AfterCheck(p, now, setups, stamp);
            Sorted(r) && Distinct(r) && Stamped(r, StampAfterCheck(p, now, setups, stamp))
  {
    hide Sorted, Distinct, Stamped, Restart, Restarts;
    var m := CountLe(p, now);
    SplitOrder(p, m, stamp);
    RestartOrder(p[..m], p[m..], now, setups, stamp);
  }

  lemma CheckWindow(s: State, x: Entry)
    requires Inv(s) && x in AfterCheck(s.plain, s.now + 1, s.setups, s.stamp)
    ensures s.now + 1 <= x.due < s.now + 1 + HALF
  {
    hide AfterCheck, Sorted, Distinct, Stamped, SetupsOk;
    SetupProper(s, x.id);
    EntryHas(AfterCheck(s.plain, s.now + 1, s.setups, s.stamp), x);
    CheckContents(s.plain, s.now + 1, s.setups, s.stamp, x.id, x.due);
  }

  /** A due periodic timer with no interval is among the first that are due. */
  ghost predicate ZeroDue(p: seq<Entry>, now: int, setups: map<Id, Setup>) {
    exists x :: x in p && x.due <= now && SetupOf(setups, x.id).periodic && SetupOf(setups, x.id).init == 0
  }

  /**
   * Why periodic timers need an interval: while one without is due, another round of the check follows every round, as
   * the timer is due again whenever it has been put back.
   */
  lemma CheckNeverEnds(p: seq<Entry>, now: int, setups: map<Id, Setup>, stamp: nat)
    requires Sorted(p) && Distinct(p) && Stamped(p, stamp) && ZeroDue(p, now, setups)
    ensures p != [] && p[0].due <= now
    ensures var r := AfterFire(p, now, setups, stamp);
            Sorted(r) && Distinct(r) && Stamped(r, StampAfterFire(p, setups, stamp)) && ZeroDue(r, now, setups)
  {
    var x :| x in p && x.due <= now && SetupOf(setups, x.id).periodic && SetupOf(setups, x.id).init == 0;
    var i :| 0 <= i < |p| && p[i] == x;
    assert i > 0 ==> Before(p[0], p[i]);
    OthersAfterFirst(p);
    SplitOrder(p, 1, stamp);
    hide Sorted, Distinct, PlainInsert;
    var e := NextEntry(p[0], now, setups, stamp);
    assert x != p[0] ==> x in p[1..];
    if SetupOf(setups, p[0].id).periodic {
      InsertKeepsOrder(p[1..], e);
      InsertContents(p[1..], e);
      assert x == p[0] ==> e.due <= now && e.id == x.id;
    }
  }

  lemma SplitOrder(p: seq<Entry>, m: nat, stamp: nat)
    requires Sorted(p) && Distinct(p) && Stamped(p, stamp) && m <= |p|
    ensures Sorted(p[m..]) && Distinct(p[m..]) && Stamped(p[m..], stamp) && Distinct(p[..m])
    ensures forall x, y :: x in p[..m] && y in p[m..] ==> x.id != y.id
  {
    forall x, y | x in p[..m] && y in p[m..] ensures x.id != y.id {
      var i :| 0 <= i < m && p[i] == x;
      var j :| m <= j < |p| && p[j] == y;
    }
  }

  /** Every operation keeps the list ordered and the pending timers between now and half a wrap ahead. */
  lemma StepInv(s: State, op: Op)
    requires Inv(s)
    ensures Inv(Step(s, op))
    ensures forall id :: !(op.Control? && op.id == id) ==> SetupOf(Step(s, op).setups, id) == SetupOf(s.setups, id)
    ensures Step(s, op).now == if op.Tick? then s.now + 1 else s.now
  {
    hide Inv, AfterCheck, StampAfterCheck, PlainInsert, PlainRemove;
    match op
    case Start(id) => StartInv(s, id);
    case Stop(id) => StopInv(s, id);
    case Control(id, setup) => if Proper(setup) { ControlInv(s, id, setup); }
    case Tick => CheckInv(s);
  }

  lemma StartInv(s: State, id: Id)
    requires Inv(s)
    ensures Inv(Step(s, Start(id)))
  {
    hide PlainInsert, Sorted, Distinct, Stamped, SetupsOk;
    ListedPos(s.plain, id);
    SetupProper(s, id);
    if !Listed(s.plain, id) {
      var e := Entry(id, s.now + SetupOf(s.setups, id).init, s.stamp);
      InsertKeepsOrder(s.plain, e);
      InsertContents(s.plain, e);
    }
  }

  lemma StopInv(s: State, id: Id)
    requires Inv(s)
    ensures Inv(Step(s, Stop(id)))
  {
    hide PlainRemove, Sorted, Distinct, SetupsOk;
    RemoveKeepsOrder(s.plain, id);
    RemoveContents(s.plain, id);
  }

  lemma ControlInv(s: State, id: Id, setup: Setup)
    requires Inv(s) && Proper(setup)
    ensures Inv(s.(setups := s.setups[id := setup]))
  {
    hide Sorted, Distinct, Stamped;
  }

  /** So does every run. */
  lemma {:induction false} RunInv(s: State, ops: seq<Op>)
    requires Inv(s)
    ensures Inv(Run(s, ops))
    decreases |ops|
  {
    if ops != [] {
      StepInv(s, ops[0]);
      RunInv(Step(s, ops[0]), ops[1..]);
    }
  }

  lemma OneEntry(p: seq<Entry>, x: Entry, y: Entry)
    requires Distinct(p) && x in p && y in p && x.id == y.id
    ensures x == y
  {
    var i :| 0 <= i < |p| && p[i] == x;
    var j :| 0 <= j < |p| && p[j] == y;
  }

  /** An entry is the only one of its timer. */
  lemma DueOnce(p: seq<Entry>, id: Id, due: int, now: int)
    requires Distinct(p) && HasEntry(p, id, due)
    ensures DueBy(p, id, now) <==> due <= now
    ensures forall d :: HasEntry(p, id, d) ==> d == due
  {
    var x :| x in p && x.id == id && x.due == due;
    forall y | y in p && y.id == id
      ensures y == x
    {
      OneEntry(p, x, y);
    }
  }

  /** One tick, seen by one pending timer: it fires exactly when due, and restarts exactly when periodic. */
  lemma TickEntry(s: State, id: Id, due: int)
    requires Inv(s) && HasEntry(s.plain, id, due)
    ensures id in FiredBy(s.plain, s.now + 1) <==> due <= s.now + 1
    ensures due > s.now + 1 ==> HasEntry(Step(s, Tick).plain, id, due)
    ensures due <= s.now + 1 ==>
              if SetupOf(s.setups, id).periodic then HasEntry(Step(s, Tick).plain, id, s.now + 1 + SetupOf(s.setups, id).init)
              else !Listed(Step(s, Tick).plain, id)
  {
    hide AfterCheck, FiredBy, HasEntry, DueBy, Sorted, Distinct;
    var p, now, setup := Step(s, Tick).plain, s.now + 1, SetupOf(s.setups, id);
    DueOnce(s.plain, id, due, now);
    CheckContents(s.plain, now, s.setups, s.stamp, id, due);
    CheckContents(s.plain, now, s.setups, s.stamp, id, now + setup.init);
    if due <= now && !setup.periodic {
      forall y | y in p
        ensures y.id != id
      {
        CheckContents(s.plain, now, s.setups, s.stamp, id, y.due);
        EntryHas(p, y);
      }
    }
  }

  lemma EntryHas(p: seq<Entry>, y: Entry)
    requires y in p
    ensures HasEntry(p, y.id, y.due)
  {}

  lemma TickAbsent(s: State, id: Id)
    requires Inv(s) && !Listed(s.plain, id)
    ensures id !in FiredBy(s.plain, s.now + 1) && !Listed(Step(s, Tick).plain, id)
  {
    var p, now := Step(s, Tick).plain, s.now + 1;
    hide AfterCheck, FiredBy;
    CheckContents(s.plain, now, s.setups, s.stamp, id, 0);
    forall x | x in p ensures x.id != id {
      CheckContents(s.plain, now, s.setups, s.stamp, id, x.due);
      assert HasEntry(p, x.id, x.due);
    }
  }

  /** Starting, stopping or setting other timers does not touch this one. */
  lemma OtherEntry(s: State, op: Op, id: Id, due: int)
    requires Inv(s) && !op.Tick? && op.id != id
    ensures HasEntry(s.plain, id, due) <==> HasEntry(Step(s, op).plain, id, due)
    ensures Listed(s.plain, id) <==> Listed(Step(s, op).plain, id)
  {
    match op
    case Start(x) =>
      InsertContents(s.plain, Entry(x, s.now + SetupOf(s.setups, x).init, s.stamp));
    case Stop(x) =>
      RemoveContents(s.plain, x);
    case Control(_, _) =>
  }

  ghost predicate Untouched(ops: seq<Op>, id: Id) {
    forall op :: op in ops ==> op.Tick? || op.id != id
  }

  lemma {:induction false} NeverFires(s: State, ops: seq<Op>, id: Id)
    requires Inv(s) && !Listed(s.plain, id) && Untouched(ops, id)
    ensures FireTimes(s, ops, id) == []
    decreases |ops|
  {
    if ops != [] {
      StepInv(s, ops[0]);
      if ops[0].Tick? { TickAbsent(s, id); } else { OtherEntry(s, ops[0], id, 0); }
      NeverFires(Step(s, ops[0]), ops[1..], id);
    }
  }

  lemma {:induction false} TimeGoesOn(s: State, ops: seq<Op>)
    ensures Run(s, ops).now >= s.now
    decreases |ops|
  {
    if ops != [] { TimeGoesOn(Step(s, ops[0]), ops[1..]); }
  }

  lemma Unroll(s: State, ops: seq<Op>, id: Id)
    ensures ops == [] ==> Run(s, ops) == s && FireTimes(s, ops, id) == []
    ensures ops != [] ==> Run(s, ops) == Run(Step(s, ops[0]), ops[1..])
    ensures ops != [] && ops[0].Tick? && id in FiredBy(s.plain, s.now + 1) ==>
              FireTimes(s, ops, id) == [s.now + 1] + FireTimes(Step(s, ops[0]), ops[1..], id)
    ensures ops != [] && !(ops[0].Tick? && id in FiredBy(s.plain, s.now + 1)) ==>
              FireTimes(s, ops, id) == FireTimes(Step(s, ops[0]), ops[1..], id)
  {}

  /** When a pending timer's function is called, up to tick `end`. */
  function Calls(now: nat, setup: Setup, due: int, end: nat): seq<nat>
    requires 0 <= setup.init
  {
    Schedule(if due <= now then now + 1 else due, if setup.periodic then setup.init else 0, end)
  }

  lemma CallsLater(now: nat, setup: Setup, due: int, end: nat)
    requires 0 <= setup.init && due > now + 1
    ensures Calls(now, setup, due, end) == Calls(now + 1, setup, due, end)
  {}

  lemma CallsNow(now: nat, setup: Setup, due: int, end: nat)
    requires 0 <= setup.init && due <= now + 1 <= end && (setup.periodic ==> setup.init > 0)
    ensures setup.periodic ==>
              Calls(now, setup, due, end) == [now + 1] + Calls(now + 1, setup, now + 1 + setup.init, end)
    ensures !setup.periodic ==> Calls(now, setup, due, end) == [now + 1]
  {}

  /**
   * Over every run in which other timers are started, stopped and set at will, a pending timer's function is called
   * exactly at its expiry, and, if periodic, exactly once every interval after that.
   */
  lemma {:induction false} FiresOnTime(s: State, ops: seq<Op>, id: Id, due: int)
    requires Inv(s) && HasEntry(s.plain, id, due) && Untouched(ops, id)
    ensures 0 <= SetupOf(s.setups, id).init
    ensures FireTimes(s, ops, id) == Calls(s.now, SetupOf(s.setups, id), due, Run(s, ops).now)
    decreases |ops|
  {
    hide *;
    SetupProper(s, id);
    var setup := SetupOf(s.setups, id);
    Unroll(s, ops, id);
    if ops == [] {
      CallsNone(s.now, setup, due);
    } else {
      var s', rest := Step(s, ops[0]), ops[1..];
      UntouchedStep(s, ops, id);
      TimeGoesOn(s', rest);
      if !ops[0].Tick? {
        OtherEntry(s, ops[0], id, due);
        FiresOnTime(s', rest, id, due);
      } else {
        TickEntry(s, id, due);
        if due > s.now + 1 {
          CallsLater(s.now, setup, due, Run(s, ops).now);
          FiresOnTime(s', rest, id, due);
        } else {
          CallsNow(s.now, setup, due, Run(s, ops).now);
          if setup.periodic {
            FiresOnTime(s', rest, id, s.now + 1 + setup.init);
          } else {
            NeverFires(s', rest, id);
            assert [s.now + 1] + [] == [s.now + 1];
          }
        }
      }
    }
  }

  lemma SetupProper(s: State, id: Id)
    requires Inv(s)
    ensures 0 <= SetupOf(s.setups, id).init < HALF && (SetupOf(s.setups, id).periodic ==> SetupOf(s.setups, id).init > 0)
  {}

  /** One operation that is no start, stop or setting of the timer. */
  lemma UntouchedStep(s: State, ops: seq<Op>, id: Id)
    requires Inv(s) && ops != [] && Untouched(ops, id)
    ensures var s' := Step(s, ops[0]);
            && Inv(s') && Untouched(ops[1..], id) && SetupOf(s'.setups, id) == SetupOf(s.setups, id)
            && (ops[0].Tick? || ops[0].id != id) && s'.now == s.now + (if ops[0].Tick? then 1 else 0)
  {
    hide Inv, SetupOf, AfterCheck;
    StepInv(s, ops[0]);
  }

  lemma CallsNone(now: nat, setup: Setup, due: int)
    requires 0 <= setup.init
    ensures Calls(now, setup, due, now) == []
  {}
}
