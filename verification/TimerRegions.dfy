/**
 * rt_timer_start and rt_timer_stop of rtt/src/timer.c over all interleavings of their steps. rt_timer_start tests the
 * flag and sets timeout_tick before it disables interrupts to link the timer; rt_timer_stop tests the flag before, and
 * clears it after the region in which it unlinks the timer. Threads and interrupt handlers that call them are callers.
 */
module TimerRegions {
  import opened TimerList
  import opened TimerRuns

  /** What a caller is about to do. */
  datatype Phase = ToSet(id: Id) | ToLink(id: Id) | ToUnlink(id: Id) | ToClear(id: Id)

  /** due has what timeout_tick stands for, of every timer there is, and active the timers whose flag is set. */
  datatype Service = Service(now: nat, plain: seq<Entry>, setups: map<Id, Setup>, stamp: nat, due: map<Id, int>,
                             active: set<Id>, callers: map<nat, Phase>)

  datatype Event =
    | TestStart(c: nat, id: Id)
    | SetTick(c: nat)
    | LinkRegion(c: nat)
    | TestStop(c: nat, id: Id)
    | UnlinkRegion(c: nat)
    | ClearFlag(c: nat)
    | Set(id: Id, setup: Setup)
    | Ticks

  predicate At(s: Service, c: nat) { c in s.callers && s.callers[c].id in s.due }

  function Linked(s: Service, id: Id): Service
    requires id in s.due
  {
    s.(plain := PlainInsert(s.plain, Entry(id, s.due[id], s.stamp)), stamp := s.stamp + 1, active := s.active + {id})
  }

  /** A tick and its check: fired periodic timers have their tick set anew, others lose their flag. */
  function Ticked(s: Service): Service {
    var now := s.now + 1;
    var fired := FiredBy(s.plain, now);
    s.(now := now, plain := AfterCheck(s.plain, now, s.setups, s.stamp),
       stamp := StampAfterCheck(s.plain, now, s.setups, s.stamp),
       due := map id | id in s.due :: if id in fired && SetupOf(s.setups, id).periodic then now + SetupOf(s.setups, id).init else s.due[id],
       active := set id | id in s.active && (id in fired ==> SetupOf(s.setups, id).periodic))
  }

  function Step(s: Service, e: Event): Service {
    match e
    case TestStart(c, id) => if c !in s.callers && id in s.due && id !in s.active then s.(callers := s.callers[c := ToSet(id)]) else s
    case SetTick(c) =>
      if At(s, c) && s.callers[c].ToSet? then
        var id := s.callers[c].id;
        s.(due := s.due[id := s.now + SetupOf(s.setups, id).init], callers := s.callers[c := ToLink(id)])
      else s
    case LinkRegion(c) => if At(s, c) && s.callers[c].ToLink? then Linked(s, s.callers[c].id).(callers := s.callers - {c}) else s
    case TestStop(c, id) => if c !in s.callers && id in s.due && id in s.active then s.(callers := s.callers[c := ToUnlink(id)]) else s
    case UnlinkRegion(c) =>
      if At(s, c) && s.callers[c].ToUnlink? then
        var id := s.callers[c].id; s.(plain := PlainRemove(s.plain, id), callers := s.callers[c := ToClear(id)])
      else s
    case ClearFlag(c) =>
      if At(s, c) && s.callers[c].ToClear? then s.(active := s.active - {s.callers[c].id}, callers := s.callers - {c}) else s
    case Set(id, setup) => if Proper(setup) then s.(setups := s.setups[id := setup]) else s
    case Ticks => Ticked(s)
  }

  function RunAll(s: Service, events: seq<Event>): Service
    decreases |events|
  {
    if events == [] then s else RunAll(Step(s, events[0]), events[1..])
  }

  // ---- list, ticks and flags agree

  ghost predicate Matches(s: Service, x: Entry) { x.id in s.due && s.due[x.id] == x.due && x.id in s.active }

  /** No timer is listed twice, the list is in the order of the ticks in the timers, and listed timers are active. */
  ghost predicate Agree(s: Service) {
    && Sorted(s.plain) && Distinct(s.plain) && Stamped(s.plain, s.stamp) && SetupsOk(s.setups)
    && forall x :: x in s.plain ==> Matches(s, x)
  }

  /** The state in which a step finds the timer that its caller has tested. */
  ghost predicate Guard(s: Service, e: Event) {
    match e
    case SetTick(c) =>
      At(s, c) && s.callers[c].ToSet? && Listed(s.plain, s.callers[c].id) ==>
        s.now + SetupOf(s.setups, s.callers[c].id).init == s.due[s.callers[c].id]
    case LinkRegion(c) => At(s, c) && s.callers[c].ToLink? ==> !Listed(s.plain, s.callers[c].id)
    case ClearFlag(c) => At(s, c) && s.callers[c].ToClear? ==> !Listed(s.plain, s.callers[c].id)
    case _ => true
  }

  lemma Places(p: seq<Entry>, id: Id)
    ensures Listed(p, id) <==> exists i :: 0 <= i < |p| && p[i].id == id
  {
    if Listed(p, id) {
      var x :| x in p && x.id == id;
      var i :| 0 <= i < |p| && p[i] == x;
    } else if exists i :: 0 <= i < |p| && p[i].id == id {
      var i :| 0 <= i < |p| && p[i].id == id;
      assert p[i] in p;
    }
  }

  lemma SetExact(s: Service, c: nat)
    requires Agree(s) && At(s, c) && s.callers[c].ToSet?
    ensures Agree(Step(s, SetTick(c))) <==> Guard(s, SetTick(c))
  {
    hide Sorted, Distinct, Stamped, SetupsOk;
    var id, r := s.callers[c].id, Step(s, SetTick(c));
    if Listed(s.plain, id) {
      var x :| x in s.plain && x.id == id;
      assert Matches(s, x);
      assert Matches(r, x) <==> r.due[id] == x.due;
    }
    assert forall x :: x in s.plain && x.id != id && Matches(s, x) ==> Matches(r, x);
  }

  lemma LinkExact(s: Service, c: nat)
    requires Agree(s) && At(s, c) && s.callers[c].ToLink?
    ensures Agree(Step(s, LinkRegion(c))) <==> Guard(s, LinkRegion(c))
  {
    hide PlainInsert, Sorted, Stamped, SetupsOk;
    var id, r := s.callers[c].id, Step(s, LinkRegion(c));
    var e := Entry(id, s.due[id], s.stamp);
    InsertContents(s.plain, e);
    if !Listed(s.plain, id) {
      InsertKeepsOrder(s.plain, e);
      hide Distinct;
      assert forall x :: x in s.plain && Matches(s, x) ==> Matches(r, x);
    } else {
      var x :| x in s.plain && x.id == id;
      assert x.stamp < s.stamp by { StampedIs(s.plain, s.stamp, x); }
      TwoEntries(r.plain, x, e);
    }
  }

  lemma StampedIs(p: seq<Entry>, stamp: nat, x: Entry)
    requires Stamped(p, stamp) && x in p
    ensures x.stamp < stamp
  {}

  lemma TwoEntries(p: seq<Entry>, x: Entry, y: Entry)
    requires x in p && y in p && x.id == y.id && x != y
    ensures !Distinct(p)
  {
    if Distinct(p) { OneEntry(p, x, y); }
  }

  lemma ClearExact(s: Service, c: nat)
    requires Agree(s) && At(s, c) && s.callers[c].ToClear?
    ensures Agree(Step(s, ClearFlag(c))) <==> Guard(s, ClearFlag(c))
  {
    hide Sorted, Distinct, Stamped, SetupsOk;
    var id, r := s.callers[c].id, Step(s, ClearFlag(c));
    if Listed(s.plain, id) {
      var x :| x in s.plain && x.id == id;
      assert !Matches(r, x);
    } else {
      assert forall x :: x in s.plain && Matches(s, x) ==> Matches(r, x);
    }
  }

  lemma UnlinkKeeps(s: Service, c: nat)
    requires Agree(s)
    ensures Agree(Step(s, UnlinkRegion(c)))
  {
    hide PlainRemove, Sorted, Distinct, SetupsOk;
    if At(s, c) {
      RemoveKeepsOrder(s.plain, s.callers[c].id);
      RemoveContents(s.plain, s.callers[c].id);
      assert forall x :: x in s.plain && Matches(s, x) ==> Matches(Step(s, UnlinkRegion(c)), x);
    }
  }

  lemma TickKeeps(s: Service)
    requires Agree(s)
    ensures Agree(Step(s, Ticks))
  {
    hide AfterCheck, StampAfterCheck, FiredBy, Sorted, Distinct, Stamped, SetupsOk;
    var now := s.now + 1;
    CheckOrder(s.plain, now, s.setups, s.stamp);
    forall x | x in AfterCheck(s.plain, now, s.setups, s.stamp)
      ensures Matches(Step(s, Ticks), x)
    {
      TickMatches(s, x);
    }
  }

  lemma TickMatches(s: Service, x: Entry)
    requires Agree(s) && x in AfterCheck(s.plain, s.now + 1, s.setups, s.stamp)
    ensures Matches(Ticked(s), x)
  {
    hide AfterCheck, StampAfterCheck, FiredBy, Sorted, Distinct, Stamped, SetupsOk;
    var now := s.now + 1;
    EntryHas(AfterCheck(s.plain, now, s.setups, s.stamp), x);
    CheckContents(s.plain, now, s.setups, s.stamp, x.id, x.due);
    if HasEntry(s.plain, x.id, x.due) && x.due > now {
      DueOnce(s.plain, x.id, x.due, now);
      var y :| y in s.plain && y.id == x.id && y.due == x.due;
      assert Matches(s, y);
    } else {
      var y :| y in s.plain && y.id == x.id && y.due <= now;
      assert Matches(s, y);
    }
  }

  lemma StepExactly(s: Service, e: Event)
    requires Agree(s)
    ensures Agree(Step(s, e)) <==> Guard(s, e)
  {
    hide AfterCheck, StampAfterCheck, FiredBy, Sorted, Distinct, Stamped, PlainInsert, PlainRemove, Ticked;
    match e
    case SetTick(c) => if At(s, c) && s.callers[c].ToSet? { SetExact(s, c); }
    case LinkRegion(c) => if At(s, c) && s.callers[c].ToLink? { LinkExact(s, c); }
    case ClearFlag(c) => if At(s, c) && s.callers[c].ToClear? { ClearExact(s, c); }
    case UnlinkRegion(c) => UnlinkKeeps(s, c);
    case Ticks => TickKeeps(s);
    case _ =>
      assert forall x :: x in s.plain && Matches(s, x) ==> Matches(Step(s, e), x);
  }

  ghost predicate AlwaysAgree(s: Service, events: seq<Event>)
    decreases |events|
  {
    Agree(s) && (events != [] ==> AlwaysAgree(Step(s, events[0]), events[1..]))
  }

  ghost predicate AlwaysGuarded(s: Service, events: seq<Event>)
    decreases |events|
  {
    events != [] ==> Guard(s, events[0]) && AlwaysGuarded(Step(s, events[0]), events[1..])
  }

  /**
   * Over every run, list, ticks and flags agree all the time exactly if every linking and every clearing of a flag finds
   * its timer not listed, and no listed timer has its tick changed.
   */
  lemma {:induction false} AgreeExactly(s: Service, events: seq<Event>)
    requires Agree(s)
    ensures AlwaysAgree(s, events) <==> AlwaysGuarded(s, events)
    decreases |events|
  {
    hide Agree, Step, Guard;
    if events != [] {
      StepExactly(s, events[0]);
      if Guard(s, events[0]) { AgreeExactly(Step(s, events[0]), events[1..]); }
    }
  }

  // ---- two starts of one timer

  /** Two starts that both find the timer inactive: it is listed twice. */
  lemma OverlapBreaks(s: Service, c: nat, d: nat, id: Id)
    requires Agree(s) && id in s.due && id !in s.active && c != d && c !in s.callers && d !in s.callers
    ensures var r := RunAll(s, [TestStart(c, id), TestStart(d, id), SetTick(c), SetTick(d), LinkRegion(c), LinkRegion(d)]);
            !Agree(r) && multiset(r.plain) == multiset(s.plain) + multiset{Entry(id, s.now + SetupOf(s.setups, id).init, s.stamp),
                                                                           Entry(id, s.now + SetupOf(s.setups, id).init, s.stamp + 1)}
  {
    hide Agree, RunAll, Step, SetupOf;
    var due := s.now + SetupOf(s.setups, id).init;
    var s4 := s.(due := s.due[id := due], callers := s.callers[c := ToLink(id)][d := ToLink(id)]);
    NotActive(s, id);
    BothSet(s, s4, id);
    LinkStep(s4, c, id);
    var s5 := Step(s4, LinkRegion(c));
    LinkStep(s5, d, id);
    SixSteps(s, c, d, id, s4);
  }

  /** The ticks of a timer that is not listed may be set at will. */
  lemma BothSet(s: Service, r: Service, id: Id)
    requires Agree(s) && !Listed(s.plain, id) && r.(due := s.due, callers := s.callers) == s
    requires id in s.due && forall u :: u in s.due ==> u in r.due && (u != id ==> r.due[u] == s.due[u])
    ensures Agree(r)
  {
    hide Sorted, Distinct, Stamped, SetupsOk;
    assert forall x :: x in s.plain && Matches(s, x) ==> Matches(r, x);
  }

  lemma LinkStep(s: Service, c: nat, id: Id)
    requires Agree(s) && id in s.due && c in s.callers && s.callers[c] == ToLink(id)
    ensures var r := Step(s, LinkRegion(c));
            && (Agree(r) <==> !Listed(s.plain, id)) && Listed(r.plain, id) && r.due == s.due && r.callers == s.callers - {c}
            && r.stamp == s.stamp + 1 && multiset(r.plain) == multiset(s.plain) + multiset{Entry(id, s.due[id], s.stamp)}
  {
    hide Agree, PlainInsert;
    StepExactly(s, LinkRegion(c));
    InsertContents(s.plain, Entry(id, s.due[id], s.stamp));
    assert Entry(id, s.due[id], s.stamp) in Step(s, LinkRegion(c)).plain;
  }

  lemma NotActive(s: Service, id: Id)
    requires Agree(s) && id !in s.active
    ensures !Listed(s.plain, id)
  {}

  lemma SixSteps(s: Service, c: nat, d: nat, id: Id, s4: Service)
    requires id in s.due && id !in s.active && c != d && c !in s.callers && d !in s.callers
    requires s4 == s.(due := s.due[id := s.now + SetupOf(s.setups, id).init], callers := s.callers[c := ToLink(id)][d := ToLink(id)])
    ensures RunAll(s, [TestStart(c, id), TestStart(d, id), SetTick(c), SetTick(d), LinkRegion(c), LinkRegion(d)])
            == Step(Step(s4, LinkRegion(c)), LinkRegion(d))
  {
    var es := [TestStart(c, id), TestStart(d, id), SetTick(c), SetTick(d), LinkRegion(c), LinkRegion(d)];
    var s2 := Step(Step(s, es[0]), es[1]);
    assert s2 == s.(callers := s.callers[c := ToSet(id)][d := ToSet(id)]);
    var s3 := Step(s2, es[2]);
    assert Step(s3, es[3]) == s4;
    hide Step;
    RunSix(s, es);
  }

  lemma RunSix(s: Service, es: seq<Event>)
    requires |es| == 6
    ensures RunAll(s, es) == Step(Step(Step(Step(Step(Step(s, es[0]), es[1]), es[2]), es[3]), es[4]), es[5])
  {
    hide Step, RunAll;
    var s2 := Step(Step(s, es[0]), es[1]);
    var s4 := Step(Step(s2, es[2]), es[3]);
    RunTwo(s, es);
    RunTwo(s2, es[2..]);
    RunTwo(s4, es[2..][2..]);
    RunNone(Step(Step(s4, es[4]), es[5]), es[2..][2..][2..]);
  }

  lemma RunTwo(s: Service, es: seq<Event>)
    requires |es| >= 2
    ensures RunAll(s, es) == RunAll(Step(Step(s, es[0]), es[1]), es[2..])
  {
    assert es[1..][1..] == es[2..];
  }

  lemma RunNone(s: Service, es: seq<Event>)
    requires |es| == 0
    ensures RunAll(s, es) == s
  {}

  // ---- calls that nothing disturbs

  /** The timer that an event starts or stops for another caller than c. */
  function Touched(s: Service, e: Event, c: nat): set<Id> {
    match e
    case TestStart(_, id) => {id}
    case TestStop(_, id) => {id}
    case SetTick(d) => if c != d && d in s.callers then {s.callers[d].id} else {}
    case LinkRegion(d) => if c != d && d in s.callers then {s.callers[d].id} else {}
    case UnlinkRegion(d) => if c != d && d in s.callers then {s.callers[d].id} else {}
    case ClearFlag(d) => if c != d && d in s.callers then {s.callers[d].id} else {}
    case Set(_, _) => {}
    case Ticks => {}
  }

  ghost predicate Undisturbed(s: Service, events: seq<Event>)
    decreases |events|
  {
    events != [] ==>
      && (forall c :: c in s.callers ==> s.callers[c].id !in Touched(s, events[0], c))
      && Undisturbed(Step(s, events[0]), events[1..])
  }

  ghost predicate Ripe(s: Service, p: Phase) {
    p.id in s.due && (p.ToSet? || p.ToLink? ==> p.id !in s.active) && (p.ToClear? ==> !Listed(s.plain, p.id))
  }

  ghost predicate Exclusive(s: Service) {
    && (forall c :: c in s.callers ==> Ripe(s, s.callers[c]))
    && (forall c, d :: c in s.callers && d in s.callers && c != d ==> s.callers[c].id != s.callers[d].id)
  }

  /** A step leaves the timers it is not about inactive, and not listed, as they were. */
  lemma Kept(s: Service, e: Event, id: Id)
    requires Agree(s)
    requires match e
             case LinkRegion(c) => c !in s.callers || s.callers[c].id != id
             case _ => true
    ensures !Listed(s.plain, id) ==> !Listed(Step(s, e).plain, id)
    ensures id !in s.active ==> id !in Step(s, e).active
    ensures id in s.due ==> id in Step(s, e).due
  {
    hide PlainInsert, PlainRemove, AfterCheck, StampAfterCheck, FiredBy, Sorted, Distinct, Stamped, SetupsOk;
    match e
    case LinkRegion(c) => if At(s, c) { InsertContents(s.plain, Entry(s.callers[c].id, s.due[s.callers[c].id], s.stamp)); }
    case UnlinkRegion(c) => if At(s, c) { RemoveContents(s.plain, s.callers[c].id); }
    case Ticks =>
      var p := AfterCheck(s.plain, s.now + 1, s.setups, s.stamp);
      forall x | x in p && x.id == id
        ensures Listed(s.plain, id)
      {
        EntryHas(p, x);
        CheckContents(s.plain, s.now + 1, s.setups, s.stamp, x.id, x.due);
      }
    case _ =>
  }

  /** What is left of a caller that an event is not about. */
  lemma RipeStays(s: Service, e: Event, c: nat)
    requires Agree(s) && c in s.callers && Ripe(s, s.callers[c]) && s.callers[c].id !in Touched(s, e, c)
    requires c in Step(s, e).callers && Step(s, e).callers[c] == s.callers[c]
    ensures Ripe(Step(s, e), s.callers[c])
  {
    hide Agree, PlainInsert, PlainRemove, AfterCheck, StampAfterCheck, FiredBy, Listed;
    if e == LinkRegion(c) { assert Step(s, e) == s; } else { Kept(s, e, s.callers[c].id); }
  }

  /** The next phase of a caller that takes a step. */
  lemma RipeNext(s: Service, e: Event, c: nat)
    requires Agree(s) && Exclusive(s) && c in Step(s, e).callers && (c in s.callers ==> Step(s, e).callers[c] != s.callers[c])
    ensures Ripe(Step(s, e), Step(s, e).callers[c])
    ensures if c in s.callers then Step(s, e).callers[c].id == s.callers[c].id else Step(s, e).callers[c].id in Touched(s, e, c)
  {
    hide PlainInsert, PlainRemove, AfterCheck, StampAfterCheck, FiredBy, Sorted, Stamped, SetupsOk, Distinct;
    if e.UnlinkRegion? && At(s, e.c) { RemoveContents(s.plain, s.callers[e.c].id); }
  }

  lemma OwnGuard(s: Service, e: Event)
    requires Agree(s) && Exclusive(s)
    ensures Guard(s, e)
  {
    hide Sorted, Distinct, Stamped, SetupsOk;
    match e
    case LinkRegion(c) => if At(s, c) && s.callers[c].ToLink? { NotActive(s, s.callers[c].id); }
    case SetTick(c) => if At(s, c) && s.callers[c].ToSet? { NotActive(s, s.callers[c].id); }
    case _ =>
  }

  lemma OwnStep(s: Service, e: Event)
    requires Agree(s) && Exclusive(s) && forall c :: c in s.callers ==> s.callers[c].id !in Touched(s, e, c)
    ensures Exclusive(Step(s, e)) && Guard(s, e)
  {
    hide Agree, Step, Touched, Guard, Ripe;
    OwnGuard(s, e);
    var r := Step(s, e);
    forall c | c in r.callers
      ensures Ripe(r, r.callers[c])
      ensures if c in s.callers then r.callers[c].id == s.callers[c].id else r.callers[c].id in Touched(s, e, c)
    {
      if c in s.callers && r.callers[c] == s.callers[c] { RipeStays(s, e, c); } else { RipeNext(s, e, c); }
    }
    forall c, d | c in r.callers && d in r.callers && c != d
      ensures r.callers[c].id != r.callers[d].id
    {
      OneNew(s, e, c, d);
    }
  }

  /** At most one caller comes in, and for a timer no other caller calls for. */
  lemma OneNew(s: Service, e: Event, c: nat, d: nat)
    requires c in Step(s, e).callers && d in Step(s, e).callers && c != d
    ensures c in s.callers || d in s.callers
    ensures c in s.callers && d !in s.callers ==> Touched(s, e, c) == Touched(s, e, d)
    ensures d in s.callers && c !in s.callers ==> Touched(s, e, d) == Touched(s, e, c)
  {
    hide PlainInsert, PlainRemove, AfterCheck, StampAfterCheck, FiredBy;
  }

  /** Calls between whose steps nobody starts or stops their timer keep the list right, over every run, ticks included. */
  lemma {:induction false} UndisturbedAgree(s: Service, events: seq<Event>)
    requires Agree(s) && Exclusive(s) && Undisturbed(s, events)
    ensures AlwaysAgree(s, events)
    decreases |events|
  {
    hide Agree, Exclusive, Step, Guard, Touched;
    if events != [] {
      OwnStep(s, events[0]);
      StepExactly(s, events[0]);
      UndisturbedAgree(Step(s, events[0]), events[1..]);
    }
  }
}
