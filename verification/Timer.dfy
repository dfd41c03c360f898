/** rtt/src/timer.c: the hard timer list, a skip list ordered by wrapping 32-bit ticks. */
module Timer {
  import opened Ticks
  import opened TimerList
  import opened Arithmetic
  import Sequences

  /** The fields of struct rt_timer that the list operations use. */
  datatype Timer = Timer(timeoutTick: u32, activated: bool, setup: Setup)

  datatype Err = EOK | ERROR

  class TimerQueue {
    /** RT_TIMER_SKIP_LIST_LEVEL and RT_TIMER_SKIP_LIST_MASK. */
    const levels: nat
    const mask: nat
    /** rt_timer_list[row], head node left out: the last row holds every active timer. */
    var rows: seq<seq<Id>>
    var timers: map<Id, Timer>
    /** rt_tick, and the static random_nr of rt_timer_start. */
    var tick: u32
    var randomNr: u32

    /** True time, and the pending timers by true expiry. */
    ghost var now: nat
    ghost var plain: seq<Entry>
    ghost var height: map<Id, nat>
    ghost var stamp: nat

    ghost function Setups(): map<Id, Setup>
      reads this
    {
      map id | id in timers :: timers[id].setup
    }

    /** Entry e describes a timer object correctly, and is less than half a wrap from now. */
    ghost predicate EntryOk(e: Entry)
      reads this
    {
      && e.id in timers && timers[e.id].activated && timers[e.id].timeoutTick == Wrap(e.due)
      && e.id in height && 1 <= height[e.id] <= levels
      && -HALF < e.due - now < HALF
    }

    ghost predicate RowsShow(p: seq<Entry>, h: map<Id, nat>)
      reads this
    {
      |rows| == levels && forall r :: 0 <= r < levels ==> rows[r] == Row(p, h, levels - r)
    }

    ghost predicate EntriesOk()
      reads this
    {
      && levels >= 1 && (mask == 1 || mask == 3)
      && tick == Wrap(now)
      && Sorted(plain) && Distinct(plain) && Stamped(plain, stamp)
      && (forall x :: x in plain ==> EntryOk(x))
    }

    ghost predicate ListOk()
      reads this
    {
      EntriesOk() && RowsShow(plain, height)
    }

    /** The active flag is set exactly on the listed timers. */
    ghost predicate FlagsOk()
      reads this
    {
      forall id :: id in timers && timers[id].activated ==> Listed(plain, id)
    }

    ghost predicate Valid()
      reads this
    {
      ListOk() && FlagsOk()
    }

    constructor (levels: nat, mask: nat, created: map<Id, Timer>)
      requires levels >= 1 && (mask == 1 || mask == 3)
      requires forall id :: id in created ==> !created[id].activated
      ensures Valid() && plain == [] && now == 0 && timers == created
    {
      this.levels, this.mask := levels, mask;
      rows := seq(levels, _ => []);
      timers := created;
      tick, randomNr := 0, 0;
      now, plain, height, stamp := 0, [], map[], 0;
    }

    /** In a row, the wrapped test finds the place where the true expiries pass `due`. */
    lemma WalkTest(lvl: nat, due: int, k: nat)
      requires ListOk() && lvl < levels && k < |rows[lvl]|
      requires Fits(plain, now, due - now)
      ensures var t := rows[lvl][k];
              var m := CountLe(plain, due);
              t in timers &&
              (TickAfter(timers[t].timeoutTick, Wrap(due)) <==> k >= |Row(plain[..m], height, levels - lvl)|)
    {
      var m, h := CountLe(plain, due), levels - lvl;
      SortedTail(plain, due);
      assert plain == plain[..m] + plain[m..];
      RowConcat(plain[..m], plain[m..], height, h);
      var a := Row(plain[..m], height, h);
      var j: nat;
      if k < |a| {
        j := RowEntry(plain[..m], height, h, k);
        assert plain[..m][j] == plain[j];
      } else {
        j := RowEntry(plain[m..], height, h, k - |a|);
        assert plain[m..][j] == plain[m + j];
        j := m + j;
      }
      assert EntryOk(plain[j]);
      WrappedOrderExact(plain[j].due, due);
    }

    /** The inner loop of the insertion: from position k of a row to the last timer that expires no later. */
    method WalkRow(lvl: nat, start: nat, timeout: u32, ghost due: int) returns (k: nat)
      requires ListOk() && lvl < levels && timeout == Wrap(due) && Fits(plain, now, due - now)
      requires start <= |Row(plain[..CountLe(plain, due)], height, levels - lvl)|
      ensures k == |Row(plain[..CountLe(plain, due)], height, levels - lvl)| <= |rows[lvl]|
    {
      ghost var m := CountLe(plain, due);
      assert plain == plain[..m] + plain[m..];
      RowConcat(plain[..m], plain[m..], height, levels - lvl);
      k := start;
      while k < |rows[lvl]|
        invariant k <= |Row(plain[..m], height, levels - lvl)|
      {
        WalkTest(lvl, due, k);
        var t := rows[lvl][k];
        if Sub32(timers[t].timeoutTick, timeout) == 0 {
          k := k + 1;
          continue;
        } else if Sub32(timers[t].timeoutTick, timeout) < HALF {
          break;
        }
        k := k + 1;
      }
    }

    /** The position below row_head[lvl] in the next row: the same timer, or the list head. */
    method Descend(lvl: nat, k: nat, ghost due: int) returns (below: nat)
      requires ListOk() && lvl + 1 < levels
      requires k == |Row(plain[..CountLe(plain, due)], height, levels - lvl)| <= |rows[lvl]|
      ensures below <= |Row(plain[..CountLe(plain, due)], height, levels - lvl - 1)|
    {
      hide Row;
      if k == 0 { return 0; }
      ghost var m := CountLe(plain, due);
      assert plain == plain[..m] + plain[m..];
      FoundBelow(plain[..m], plain[m..], height, levels - lvl - 1, k - 1);
      below := IndexOf(rows[lvl + 1], rows[lvl][k - 1]) + 1;
    }

    /** rt_timer_start. */
    method Start(id: Id) returns (err: Err)
      requires Valid() && id in timers
      requires !timers[id].activated ==> Fits(plain, now, timers[id].setup.init)
      modifies this
      ensures Valid() && now == old(now) && Setups() == old(Setups())
      ensures err == if old(timers[id].activated) then ERROR else EOK
      ensures err == ERROR ==> plain == old(plain) && rows == old(rows) && timers == old(timers) && stamp == old(stamp)
      ensures err == EOK ==>
                && plain == PlainInsert(old(plain), Entry(id, now + old(timers[id]).setup.init, old(stamp)))
                && stamp == old(stamp) + 1
                && timers == old(timers)[id := Timer(Wrap(now + old(timers[id]).setup.init), true, old(timers[id]).setup)]
      ensures err == EOK ==> id in height && HeightFor(height[id], randomNr, mask, levels)
                             && randomNr == (old(randomNr) + 1) % WORD
    {
      hide PlainInsert, Wrap, Row, HeightFor;
      if timers[id].activated {
        return ERROR;
      }
      var timeout := Wrap(tick + timers[id].setup.init);
      ghost var due := now + timers[id].setup.init;
      WrapAdd(now, timers[id].setup.init);
      assert due - now == timers[id].setup.init;
      var rowHead := FindPlaces(timeout, due);

      randomNr := (randomNr + 1) % WORD;
      ghost var e := Entry(id, due, stamp);
      ghost var tall := LinkRows(id, rowHead);
      forall r | 0 <= r < levels ensures rows[r] == Row(PlainInsert(plain, e), height[id := tall], levels - r) {
        RowInsert(plain, height, e, tall, levels - r);
      }
      Activate(id, timeout, e, tall);
      err := EOK;
    }

    /** The end of rt_timer_start: the timer, already linked, becomes active. */
    method Activate(id: Id, timeout: u32, ghost e: Entry, ghost tall: nat)
      requires EntriesOk() && FlagsOk() && id in timers && !timers[id].activated
      requires e.id == id && e.stamp == stamp && timeout == Wrap(e.due) && -HALF < e.due - now < HALF
      requires 1 <= tall <= levels && RowsShow(PlainInsert(plain, e), height[id := tall])
      modifies this`timers, this`plain, this`height, this`stamp
      ensures Valid() && stamp == old(stamp) + 1
      ensures plain == PlainInsert(old(plain), e) && height == old(height)[id := tall]
      ensures timers == old(timers)[id := Timer(timeout, true, old(timers[id]).setup)]
    {
      hide PlainInsert;
      assert !Listed(plain, id);
      InsertKeepsOrder(plain, e);
      InsertContents(plain, e);
      timers := timers[id := timers[id].(timeoutTick := timeout, activated := true)];
      plain, height, stamp := PlainInsert(plain, e), height[id := tall], stamp + 1;
      assert e in plain;
    }

    /** The walk of rt_timer_start over all rows, from the top. */
    method FindPlaces(timeout: u32, ghost due: int) returns (rowHead: seq<nat>)
      requires ListOk() && timeout == Wrap(due) && Fits(plain, now, due - now)
      ensures |rowHead| == levels
      ensures forall r :: 0 <= r < levels ==>
                rowHead[r] == |Row(plain[..CountLe(plain, due)], height, levels - r)| <= |rows[r]|
    {
      rowHead := [];
      var k: nat := 0;
      for lvl := 0 to levels
        invariant |rowHead| == lvl
        invariant forall r :: 0 <= r < lvl ==>
                    rowHead[r] == |Row(plain[..CountLe(plain, due)], height, levels - r)| <= |rows[r]|
        invariant lvl < levels ==> k <= |Row(plain[..CountLe(plain, due)], height, levels - lvl)|
      {
        k := WalkRow(lvl, k, timeout, due);
        rowHead := rowHead + [k];
        if lvl != levels - 1 {
          k := Descend(lvl, k, due);
        }
      }
    }

    /** Links the timer into the bottom row, and upwards while the masked bits of random_nr are zero. */
    method LinkRows(id: Id, rowHead: seq<nat>) returns (ghost tall: nat)
      requires levels >= 1 && |rows| == levels == |rowHead|
      requires forall r :: 0 <= r < levels ==> rowHead[r] <= |rows[r]|
      modifies this`rows
      ensures 1 <= tall <= levels && |rows| == levels
      ensures forall r :: 0 <= r < levels ==>
                rows[r] == if tall >= levels - r
                           then old(rows[r])[..rowHead[r]] + [id] + old(rows[r])[rowHead[r]..]
                           else old(rows[r])
      ensures HeightFor(tall, randomNr, mask, levels)
    {
      hide Shifted, HeightFor;
      NotShifted(randomNr, mask);
      var tst: nat := randomNr;
      var bottom := levels - 1;
      rows := rows[bottom := rows[bottom][..rowHead[bottom]] + [id] + rows[bottom][rowHead[bottom]..]];
      tall := 1;
      var rowLvl := 2;
      while rowLvl <= levels
        invariant 2 <= rowLvl == tall + 1 <= levels + 1 && |rows| == levels
        invariant forall r :: 0 <= r < levels ==>
                    rows[r] == if tall >= levels - r
                               then old(rows[r])[..rowHead[r]] + [id] + old(rows[r])[rowHead[r]..]
                               else old(rows[r])
        invariant Shifted(randomNr, tst, mask, tall - 1) && (tall == levels ==> HeightFor(tall, randomNr, mask, levels))
      {
        NextGroup(randomNr, tst, mask, tall, levels);
        if tst % (mask + 1) != 0 { break; }
        var r := levels - rowLvl;
        rows := rows[r := rows[r][..rowHead[r]] + [id] + rows[r][rowHead[r]..]];
        tst := tst / (mask + 1);
        tall := tall + 1;
        rowLvl := rowLvl + 1;
      }
    }

    /** _rt_timer_remove: unlinks the timer from every row. */
    method Unlink(id: Id)
      requires ListOk() && Listed(plain, id)
      modifies this`rows, this`plain
      ensures ListOk()
      ensures plain == PlainRemove(old(plain), id)
      ensures forall x :: x in plain <==> x in old(plain) && x.id != id
    {
      hide PlainRemove, Sequences.Without;
      ghost var p := plain;
      RemoveKeepsOrder(p, id);
      RemoveContents(p, id);
      forall r: nat | r < levels
        ensures Sequences.Without(rows[r], id) == Row(PlainRemove(p, id), height, levels - r)
      {
        RowRemove(p, height, levels - r, id);
      }
      for r := 0 to levels
        invariant |rows| == levels && plain == p
        invariant forall i :: 0 <= i < levels ==>
                    rows[i] == if i < r then Sequences.Without(old(rows[i]), id) else old(rows[i])
      {
        rows := rows[r := Sequences.Without(rows[r], id)];
      }
      plain := PlainRemove(plain, id);
    }

    /** rt_timer_stop. */
    method Stop(id: Id) returns (err: Err)
      requires Valid() && id in timers
      modifies this
      ensures Valid() && now == old(now) && stamp == old(stamp) && Setups() == old(Setups())
      ensures err == if old(timers[id].activated) then EOK else ERROR
      ensures err == ERROR ==> plain == old(plain) && rows == old(rows) && timers == old(timers)
      ensures err == EOK ==> plain == PlainRemove(old(plain), id)
                             && timers == old(timers)[id := old(timers[id]).(activated := false)]
    {
      if !timers[id].activated {
        return ERROR;
      }
      Unlink(id);
      timers := timers[id := timers[id].(activated := false)];
      err := EOK;
    }

    /** rt_list_isempty on the bottom row. */
    predicate IsEmpty()
      requires Valid()
      reads this
      ensures IsEmpty() <==> plain == []
    {
      BottomRow();
      rows[levels - 1] == []
    }

    /** The first timer's due test in the check loop, by wrapped ticks. */
    predicate FirstReached()
      requires Valid() && plain != []
      reads this
      ensures FirstReached() <==> plain[0].due <= now
    {
      BottomRow();
      assert EntryOk(plain[0]);
      WrappedDueExact(now, plain[0].due);
      TickReached(tick, timers[rows[levels - 1][0]].timeoutTick)
    }

    method PopFirst() returns (t: Id)
      requires Valid() && plain != []
      modifies this`rows, this`plain
      ensures ListOk() && plain == old(plain)[1..] && t == old(plain)[0].id
      ensures t in timers && timers[t].activated && !Listed(plain, t)
      ensures forall id :: id in timers && timers[id].activated && id != t ==> Listed(plain, id)
    {
      BottomRow();
      t := rows[levels - 1][0];
      assert plain[0] in plain && EntryOk(plain[0]) && Listed(plain, t);
      hide EntryOk;
      Unlink(t);
    }

    /** One round of the check loop: the first timer is taken out, fires, and restarts if periodic. */
    method FireFirst() returns (t: Id)
      requires Valid() && plain != []
      requires var s := SetupOf(Setups(), plain[0].id); s.periodic ==> Fits(plain, now, s.init)
      modifies this
      ensures Valid() && now == old(now) && Setups() == old(Setups())
      ensures t == old(plain)[0].id
      ensures plain == AfterFire(old(plain), now, Setups(), old(stamp))
      ensures stamp == StampAfterFire(old(plain), Setups(), old(stamp))
    {
      hide PlainInsert, PlainRemove, Row, Wrap, Sorted, Distinct;
      t := PopFirst();
      assert SetupOf(Setups(), t) == timers[t].setup;
      var again := timers[t].setup.periodic && timers[t].activated;
      Deactivate(t);
      if again {
        var err := Start(t);
      }
    }

    /** Clears the active flag of a timer that has been taken out. */
    method Deactivate(id: Id)
      requires ListOk() && id in timers && !Listed(plain, id)
      requires forall x :: x in timers && timers[x].activated && x != id ==> Listed(plain, x)
      modifies this`timers
      ensures Valid() && Setups() == old(Setups())
      ensures timers == old(timers)[id := old(timers[id]).(activated := false)]
    {
      hide Row, Sorted, Distinct;
      timers := timers[id := timers[id].(activated := false)];
    }

    /** rt_timer_check; the result lists the timeout functions called, in order. */
    method Check() returns (fired: seq<Id>)
      requires Valid() && CanCheck(plain, now, Setups())
      modifies this
      ensures Valid() && now == old(now) && Setups() == old(Setups())
      ensures fired == FiredBy(old(plain), now)
      ensures plain == AfterCheck(old(plain), now, Setups(), old(stamp))
      ensures stamp == StampAfterCheck(old(plain), now, Setups(), old(stamp))
    {
      ghost var setups := Setups();
      ghost var c := CheckingStart(plain, stamp, now, setups);
      fired := [];
      hide *;
      while !IsEmpty() && FirstReached()
        invariant Valid() && now == old(now) && Setups() == setups && c.fired == fired
        invariant Checking(c, plain, stamp, old(plain), old(stamp), now, setups)
        decreases |c.todo|
      {
        c := CheckingStep(c, plain, stamp, old(plain), old(stamp), now, setups);
        var t := FireFirst();
        fired := fired + [t];
      }
      CheckingEnd(c, plain, stamp, old(plain), old(stamp), now, setups);
    }

    /** rt_timer_control with SET_TIME, SET_ONESHOT or SET_PERIODIC: allowed on an active timer. */
    method Control(id: Id, setup: Setup)
      requires Valid() && id in timers
      modifies this`timers
      ensures Valid() && Setups() == old(Setups())[id := setup]
    {
      timers := timers[id := timers[id].(setup := setup)];
    }

    /** The tick counter's part of rt_tick_increase. */
    method TickIncrease()
      requires Valid()
      requires forall x :: x in plain ==> now + 1 - x.due < HALF
      modifies this`tick, this`now
      ensures Valid() && now == old(now) + 1
    {
      WrapAdd(now, 1);
      tick := (tick + 1) % WORD;
      now := now + 1;
    }

    /**
     * Every row is ordered by true expiry, and among equal expiries by start order: the timers at any two of its places
     * are pending, and come in this order.
     */
    lemma RowOrdered(r: nat, i: nat, j: nat)
      requires Valid() && r < levels && i < j < |rows[r]|
      ensures Pos(plain, rows[r][i]) < Pos(plain, rows[r][j]) < |plain|
      ensures Before(plain[Pos(plain, rows[r][i])], plain[Pos(plain, rows[r][j])])
    {
      RowPlaces(plain, height, levels - r, i, j);
    }

    /** rt_timer_next_timeout_tick. */
    method NextTimeout() returns (t: u32)
      requires Valid()
      ensures plain != [] ==> t == Wrap(plain[0].due) && forall x :: x in plain ==> plain[0].due <= x.due
      ensures t == 0xFFFF_FFFF <==> (plain == [] || Wrap(plain[0].due) == 0xFFFF_FFFF)
    {
      BottomRow();
      if rows[levels - 1] == [] { return 0xFFFF_FFFF; }
      t := timers[rows[levels - 1][0]].timeoutTick;
      assert EntryOk(plain[0]);
      assert forall i :: 0 < i < |plain| ==> Before(plain[0], plain[i]);
    }

    lemma BottomRow()
      requires ListOk()
      ensures rows[levels - 1] == Ids(plain)
      ensures plain != [] ==> rows[levels - 1] != [] && rows[levels - 1][0] == plain[0].id && plain[0].id in timers
    {
      RowAll(plain, height, 1);
      if plain != [] { assert EntryOk(plain[0]); }
    }
  }

  /** (mask + 1)^n: a random number is a multiple of it if its lowest n groups of mask bits are 0. */
  function Base(mask: nat, n: nat): (b: nat)
    ensures b > 0
  {
    if n == 0 then 1 else (mask + 1) * Base(mask, n - 1)
  }

  /** x consists of t and n groups of zeros below it. */
  predicate Shifted(x: nat, t: nat, mask: nat, n: nat) { x == t * Base(mask, n) }

  /** The timer is in one row more than groups at the low end of the random number are 0, as far as there are rows. */
  predicate HeightFor(tall: nat, x: nat, mask: nat, levels: nat) {
    1 <= tall <= levels && x % Base(mask, tall - 1) == 0 && (tall < levels ==> x % Base(mask, tall) != 0)
  }

  lemma NotShifted(x: nat, mask: nat)
    ensures Shifted(x, x, mask, 0) && HeightFor(1, x, mask, 1)
  {}

  lemma NextGroup(x: nat, t: nat, mask: nat, tall: nat, levels: nat)
    requires 1 <= tall < levels && Shifted(x, t, mask, tall - 1)
    ensures if t % (mask + 1) != 0 then HeightFor(tall, x, mask, levels)
            else Shifted(x, t / (mask + 1), mask, tall) && HeightFor(tall + 1, x, mask, tall + 1)
  {
    Digit(x, t, mask, tall - 1);
    if t % (mask + 1) == 0 { MultipleOf(t / (mask + 1), Base(mask, tall)); }
    hide Base;
  }

  lemma Digit(x: nat, t: nat, mask: nat, n: nat)
    requires Shifted(x, t, mask, n)
    ensures x % Base(mask, n) == 0
    ensures if t % (mask + 1) == 0 then Shifted(x, t / (mask + 1), mask, n + 1) else x % Base(mask, n + 1) != 0
  {
    var b, p := mask + 1, Base(mask, n);
    var q, r := t / b, t % b;
    MultipleOf(t, p);
    assert b * p == Base(mask, n + 1);
    hide Base;
    assert t == q * b + r;
    Grouped(q, b, r, p);
    FarFromZero(b - r, p);
    FarFromZero(r, p);
    Subtract(b, r, p);
    RemainderIs(x, b * p, q, r * p);
  }

  lemma Grouped(q: nat, b: nat, r: nat, p: nat)
    ensures (q * b + r) * p == q * (b * p) + r * p
    ensures r * p >= 0
  {}
}
