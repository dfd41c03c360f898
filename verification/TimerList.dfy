/**
 * The meaning of a timer list: a plain list of pending timers ordered by unbounded expiry time,
 * and the rows of a skip list seen as the sub-lists of the timers that are tall enough.
 */
module TimerList {
  import opened Ticks
  import opened Sequences

  type Id = nat

  /** A pending timer: its true (unwrapped) expiry, and the running number of its start. */
  datatype Entry = Entry(id: Id, due: int, stamp: nat)

  /** What rt_timer_control may set: the interval, and one-shot or periodic. */
  datatype Setup = Setup(init: int, periodic: bool)

  predicate Before(a: Entry, b: Entry) {
    a.due < b.due || (a.due == b.due && a.stamp < b.stamp)
  }

  /** Ordered by expiry, and among equal expiries by start order. */
  ghost predicate Sorted(p: seq<Entry>) {
    forall i, j :: 0 <= i < j < |p| ==> Before(p[i], p[j])
  }

  ghost predicate Distinct(p: seq<Entry>) {
    forall i, j :: 0 <= i < j < |p| ==> p[i].id != p[j].id
  }

  ghost predicate Stamped(p: seq<Entry>, stamp: nat) {
    forall x :: x in p ==> x.stamp < stamp
  }

  ghost predicate Listed(p: seq<Entry>, id: Id) {
    exists x :: x in p && x.id == id
  }

  /** How many leading entries expire no later than d. */
  function CountLe(p: seq<Entry>, d: int): (m: nat)
    ensures m <= |p|
    ensures forall i :: 0 <= i < m ==> p[i].due <= d
    ensures m < |p| ==> p[m].due > d
  {
    if p == [] || p[0].due > d then 0 else 1 + CountLe(p[1..], d)
  }

  /** Insertion behind every entry that expires no later. */
  function PlainInsert(p: seq<Entry>, e: Entry): seq<Entry> {
    var m := CountLe(p, e.due);
    p[..m] + [e] + p[m..]
  }

  /** Where the timer is listed, or |p|. */
  function Pos(p: seq<Entry>, id: Id): (j: nat)
    ensures j <= |p| && forall i :: 0 <= i < j ==> p[i].id != id
    ensures j < |p| ==> p[j].id == id
  {
    if p == [] || p[0].id == id then 0 else 1 + Pos(p[1..], id)
  }

  function PlainRemove(p: seq<Entry>, id: Id): seq<Entry> {
    var j := Pos(p, id);
    if j < |p| then p[..j] + p[j + 1..] else p
  }

  function SetupOf(setups: map<Id, Setup>, id: Id): Setup {
    if id in setups then setups[id] else Setup(0, false)
  }

  /** Puts the periodic timers among the fired entries q back, one interval from now. */
  function Restart(q: seq<Entry>, rest: seq<Entry>, now: int, setups: map<Id, Setup>, stamp: nat): seq<Entry> {
    if q == [] then rest
    else
      var s := SetupOf(setups, q[0].id);
      if s.periodic then
        Restart(q[1..], PlainInsert(rest, Entry(q[0].id, now + s.init, stamp)), now, setups, stamp + 1)
      else Restart(q[1..], rest, now, setups, stamp)
  }

  /** How many timers a check puts back. */
  function Restarts(q: seq<Entry>, setups: map<Id, Setup>): nat {
    if q == [] then 0 else (if SetupOf(setups, q[0].id).periodic then 1 else 0) + Restarts(q[1..], setups)
  }

  function Ids(p: seq<Entry>): (s: seq<Id>)
    ensures |s| == |p| && forall i :: 0 <= i < |p| ==> s[i] == p[i].id
  {
    seq(|p|, i requires 0 <= i < |p| => p[i].id)
  }

  lemma SortedTail(p: seq<Entry>, d: int)
    requires Sorted(p)
    ensures forall i :: CountLe(p, d) <= i < |p| ==> p[i].due > d
  {
    var m := CountLe(p, d);
    forall i | m < i < |p| ensures p[i].due > d { assert Before(p[m], p[i]); }
  }

  lemma InsertAt(p: seq<Entry>, e: Entry, k: nat)
    requires k <= |p|
    ensures |PlainInsert(p, e)| == |p| + 1
    ensures var m := CountLe(p, e.due);
            PlainInsert(p, e)[k] == if k < m then p[k] else if k == m then e else p[k - 1]
  {}

  lemma InsertPair(p: seq<Entry>, e: Entry, i: nat, j: nat)
    requires Sorted(p) && Distinct(p) && Stamped(p, e.stamp) && !Listed(p, e.id)
    requires i < j <= |p|
    ensures |PlainInsert(p, e)| == |p| + 1
    ensures Before(PlainInsert(p, e)[i], PlainInsert(p, e)[j]) && PlainInsert(p, e)[i].id != PlainInsert(p, e)[j].id
  {
    SortedTail(p, e.due);
    InsertAt(p, e, i);
    InsertAt(p, e, j);
  }

  /** The new timer goes in order, behind the timers of equal expiry, and nothing else changes. */
  lemma InsertKeepsOrder(p: seq<Entry>, e: Entry)
    requires Sorted(p) && Distinct(p) && Stamped(p, e.stamp) && !Listed(p, e.id)
    ensures Sorted(PlainInsert(p, e)) && Distinct(PlainInsert(p, e)) && Stamped(PlainInsert(p, e), e.stamp + 1)
    ensures multiset(PlainInsert(p, e)) == multiset(p) + multiset{e}
  {
    var r := PlainInsert(p, e);
    InsertAt(p, e, 0);
    forall i, j | 0 <= i < j < |r| ensures Before(r[i], r[j]) && r[i].id != r[j].id { InsertPair(p, e, i, j); }
    InsertContents(p, e);
  }

  lemma InsertContents(p: seq<Entry>, e: Entry)
    ensures multiset(PlainInsert(p, e)) == multiset(p) + multiset{e}
    ensures forall x :: x in PlainInsert(p, e) <==> x in p || x == e
  {
    var m := CountLe(p, e.due);
    assert p == p[..m] + p[m..];
  }

  /** Stopping a timer takes out that timer only. */
  lemma RemoveKeepsOrder(p: seq<Entry>, id: Id)
    requires Sorted(p) && Distinct(p)
    ensures Sorted(PlainRemove(p, id)) && Distinct(PlainRemove(p, id))
  {
    var j, r := Pos(p, id), PlainRemove(p, id);
    forall i, k | 0 <= i < k < |r| ensures Before(r[i], r[k]) && r[i].id != r[k].id {
      assert Before(p[if i < j then i else i + 1], p[if k < j then k else k + 1]);
    }
  }

  lemma RemoveContents(p: seq<Entry>, id: Id)
    requires Distinct(p)
    ensures forall x :: x in PlainRemove(p, id) <==> x in p && x.id != id
  {
    var j, r := Pos(p, id), PlainRemove(p, id);
    if j < |p| {
      assert p == p[..j] + [p[j]] + p[j + 1..];
      forall x | x in r ensures x.id != id {
        if x in p[..j] {
          var i :| 0 <= i < j && p[i] == x;
        } else {
          var i :| 0 <= i < |p[j + 1..]| && p[j + 1..][i] == x;
          assert x == p[j + 1 + i];
        }
      }
    }
  }

  // ---- rows of the skip list

  /** The timers of p whose height reaches k. */
  ghost function Row(p: seq<Entry>, height: map<Id, nat>, k: nat): seq<Id> {
    if p == [] then []
    else (if p[0].id in height && height[p[0].id] >= k then [p[0].id] else []) + Row(p[1..], height, k)
  }

  lemma RowConcat(p: seq<Entry>, q: seq<Entry>, height: map<Id, nat>, k: nat)
    ensures Row(p + q, height, k) == Row(p, height, k) + Row(q, height, k)
  {
    if p == [] {
      assert p + q == q;
    } else {
      assert (p + q)[1..] == p[1..] + q;
    }
  }

  lemma RowEntry(p: seq<Entry>, height: map<Id, nat>, k: nat, i: nat) returns (j: nat)
    requires i < |Row(p, height, k)|
    ensures j < |p| && p[j].id == Row(p, height, k)[i]
    ensures p[j].id in height && height[p[j].id] >= k
  {
    var tall := p[0].id in height && height[p[0].id] >= k;
    if tall && i == 0 {
      j := 0;
    } else {
      var n := RowEntry(p[1..], height, k, if tall then i - 1 else i);
      j := n + 1;
    }
  }

  /** Timers stand in a row as in the list. */
  lemma {:induction false} RowPlaces(p: seq<Entry>, height: map<Id, nat>, k: nat, i: nat, j: nat)
    requires Distinct(p) && i < j < |Row(p, height, k)|
    ensures Pos(p, Row(p, height, k)[i]) < Pos(p, Row(p, height, k)[j]) < |p|
  {
    var first := if p[0].id in height && height[p[0].id] >= k then 1 else 0;
    var n := RowEntry(p[1..], height, k, j - first);
    assert p[n + 1].id == p[1..][n].id;
    if i >= first { RowPlaces(p[1..], height, k, i - first, j - first); }
  }

  lemma RowHas(p: seq<Entry>, height: map<Id, nat>, k: nat, j: nat)
    requires j < |p| && p[j].id in height && height[p[j].id] >= k
    ensures p[j].id in Row(p, height, k)
  {
    if j > 0 { RowHas(p[1..], height, k, j - 1); }
  }

  lemma RowFrame(p: seq<Entry>, h: map<Id, nat>, h': map<Id, nat>, k: nat)
    requires forall x :: x in p ==> x.id in h && x.id in h' && h[x.id] == h'[x.id]
    ensures Row(p, h, k) == Row(p, h', k)
  {
    if p != [] {
      RowFrame(p[1..], h, h', k);
    }
  }

  lemma RowAll(p: seq<Entry>, h: map<Id, nat>, k: nat)
    requires forall x :: x in p ==> x.id in h && h[x.id] >= k
    ensures Row(p, h, k) == Ids(p)
  {
    if p != [] {
      RowAll(p[1..], h, k);
      assert Ids(p) == [p[0].id] + Ids(p[1..]);
    }
  }

  lemma RowInsertParts(p: seq<Entry>, q: seq<Entry>, e: Entry, h: map<Id, nat>, h': map<Id, nat>, k: nat)
    requires forall x :: x in p ==> x.id in h && x.id in h' && h[x.id] == h'[x.id]
    requires forall x :: x in q ==> x.id in h && x.id in h' && h[x.id] == h'[x.id]
    requires e.id in h'
    ensures Row(p + q, h, k) == Row(p, h, k) + Row(q, h, k)
    ensures Row(p + [e] + q, h', k) ==
            Row(p, h, k) + (if h'[e.id] >= k then [e.id] else []) + Row(q, h, k)
  {
    RowConcat(p, q, h, k);
    RowConcat(p + [e], q, h', k);
    RowConcat(p, [e], h', k);
    RowFrame(p, h, h', k);
    RowFrame(q, h, h', k);
    assert Row([e], h', k) == if h'[e.id] >= k then [e.id] else [];
  }

  /** Rows at least as low as the new timer's height gain it behind the timers that expire no later. */
  lemma RowInsert(plain: seq<Entry>, height: map<Id, nat>, e: Entry, tall: nat, k: nat)
    requires forall x :: x in plain ==> x.id in height && x.id != e.id
    ensures var m := CountLe(plain, e.due);
            var before := |Row(plain[..m], height, k)|;
            var row := Row(plain, height, k);
            before <= |row| &&
            Row(PlainInsert(plain, e), height[e.id := tall], k) ==
            if tall >= k then row[..before] + [e.id] + row[before..] else row
  {
    var m := CountLe(plain, e.due);
    var p, q := plain[..m], plain[m..];
    assert plain == p + q && PlainInsert(plain, e) == p + [e] + q;
    assert forall x :: x in p || x in q ==> x in plain;
    var h', ra, rb := height[e.id := tall], Row(p, height, k), Row(q, height, k);
    hide *;
    RowInsertParts(p, q, e, height, h', k);
    Parts(ra, rb);
    Spliced(ra, rb, if tall >= k then [e.id] else []);
  }

  lemma Spliced<T>(a: seq<T>, b: seq<T>, s: seq<T>)
    ensures (a + b)[..|a|] + s + (a + b)[|a|..] == a + s + b
    ensures s == [] ==> a + s + b == a + b
  {
    Parts(a, b);
  }

  lemma Parts<T>(a: seq<T>, b: seq<T>)
    ensures (a + b)[..|a|] == a && (a + b)[|a|..] == b
  {}

  /** s is obtained from t by leaving elements out. */
  ghost predicate IsSubsequence(s: seq<Id>, t: seq<Id>) {
    s == [] || (t != [] && ((s[0] == t[0] && IsSubsequence(s[1..], t[1..])) || IsSubsequence(s, t[1..])))
  }

  /** Every row is a subsequence of the row below it. */
  lemma {:induction false} RowNesting(p: seq<Entry>, h: map<Id, nat>, k: nat)
    ensures IsSubsequence(Row(p, h, k + 1), Row(p, h, k))
  {
    if p != [] {
      RowNesting(p[1..], h, k);
      var s, t := Row(p, h, k + 1), Row(p, h, k);
      if p[0].id in h && h[p[0].id] >= k + 1 {
        assert s[1..] == Row(p[1..], h, k + 1) && t[1..] == Row(p[1..], h, k);
      } else if p[0].id in h && h[p[0].id] >= k {
        assert s == Row(p[1..], h, k + 1) && t[1..] == Row(p[1..], h, k);
      } else {
        assert s == Row(p[1..], h, k + 1) && t == Row(p[1..], h, k);
      }
    }
  }

  lemma RowRemove(p: seq<Entry>, h: map<Id, nat>, k: nat, id: Id)
    requires Distinct(p) && Listed(p, id) && id in h
    ensures Row(PlainRemove(p, id), h, k) == Without(Row(p, h, k), id)
  {
    var j := Pos(p, id);
    var a, e, b := p[..j], p[j], p[j + 1..];
    assert p == a + [e] + b;
    RowConcat(a, b, h, k);
    RowConcat(a + [e], b, h, k);
    RowConcat(a, [e], h, k);
    var ra, rb := Row(a, h, k), Row(b, h, k);
    forall i | 0 <= i < |ra| ensures ra[i] != e.id { var n := RowEntry(a, h, k, i); }
    forall i | 0 <= i < |rb| ensures rb[i] != e.id { var n := RowEntry(b, h, k, i); }
    if h[e.id] >= k {
      assert Row([e], h, k) == [e.id];
      WithoutAfter(ra, rb, e.id);
    } else {
      assert Row([e], h, k) == [];
      assert Row(p, h, k) == ra + rb;
      WithoutAbsent(ra + rb, e.id);
    }
  }

  function IndexOf(s: seq<Id>, id: Id): (i: nat)
    requires id in s
    ensures i < |s| && s[i] == id && id !in s[..i]
  {
    if s[0] == id then 0
    else
      var i := IndexOf(s[1..], id);
      assert s[..i + 1] == [s[0]] + s[1..][..i];
      i + 1
  }

  /** A timer seen in one row stands in the row below, among the same leading part of the list. */
  lemma FoundBelow(p: seq<Entry>, q: seq<Entry>, height: map<Id, nat>, h: nat, i: nat)
    requires i < |Row(p, height, h + 1)|
    ensures i < |Row(p + q, height, h + 1)| && Row(p + q, height, h + 1)[i] in Row(p + q, height, h)
    ensures IndexOf(Row(p + q, height, h), Row(p + q, height, h + 1)[i]) < |Row(p, height, h)|
  {
    var j := RowEntry(p, height, h + 1, i);
    RowHas(p, height, h, j);
    RowConcat(p, q, height, h);
    RowConcat(p, q, height, h + 1);
    hide Row;
    Parts(Row(p, height, h), Row(q, height, h));
    assert p[j].id == Row(p + q, height, h + 1)[i];
  }

  // ---- what a check leaves behind

  ghost predicate AllAfter(p: seq<Entry>, now: int) {
    forall x :: x in p ==> x.due > now
  }

  lemma DueFirst(p: seq<Entry>, now: int)
    requires Sorted(p)
    ensures var m := CountLe(p, now);
            p == p[0..m] + p[m..] && p[0..m] == p[..m] && AllAfter(p[m..], now)
            && forall x :: x in p[..m] ==> x.due <= now
  {
    SortedTail(p, now);
  }

  lemma FirstOf(todo: seq<Entry>, rest: seq<Entry>, now: int)
    requires todo + rest != [] && (todo + rest)[0].due <= now && AllAfter(rest, now)
    ensures todo != [] && todo[0] == (todo + rest)[0] && Ids(todo) == [todo[0].id] + Ids(todo[1..])
  {
    assert (todo + rest)[0] in todo + rest;
    assert [] + rest == rest;
  }

  /** A timer started now stays within half a wrap of every pending one. */
  ghost predicate Fits(p: seq<Entry>, now: int, init: int) {
    0 <= init < HALF && forall x :: x in p ==> now + init - x.due <= HALF
  }

  /** The due timers may be put back: a periodic one has a positive interval that fits the window. */
  ghost predicate Restartable(todo: seq<Entry>, p: seq<Entry>, now: int, setups: map<Id, Setup>) {
    forall x :: x in todo ==>
      x.due <= now
      && (SetupOf(setups, x.id).periodic ==> SetupOf(setups, x.id).init > 0 && Fits(p, now, SetupOf(setups, x.id).init))
  }

  function NextEntry(e: Entry, now: int, setups: map<Id, Setup>, stamp: nat): Entry {
    Entry(e.id, now + SetupOf(setups, e.id).init, stamp)
  }

  function AfterFire(p: seq<Entry>, now: int, setups: map<Id, Setup>, stamp: nat): seq<Entry>
    requires p != []
  {
    if SetupOf(setups, p[0].id).periodic then PlainInsert(p[1..], NextEntry(p[0], now, setups, stamp)) else p[1..]
  }

  function StampAfterFire(p: seq<Entry>, setups: map<Id, Setup>, stamp: nat): nat
    requires p != []
  {
    if SetupOf(setups, p[0].id).periodic then stamp + 1 else stamp
  }

  /** The later part of the list after the first due entry e has fired. */
  function RestAfter(e: Entry, rest: seq<Entry>, now: int, setups: map<Id, Setup>, stamp: nat): seq<Entry> {
    if SetupOf(setups, e.id).periodic then PlainInsert(rest, NextEntry(e, now, setups, stamp)) else rest
  }

  /** The entries still due after one has fired can still be put back. */
  lemma RestartableStep(todo: seq<Entry>, rest: seq<Entry>, now: int, setups: map<Id, Setup>, stamp: nat)
    requires todo != [] && Restartable(todo, todo + rest, now, setups)
    ensures Restartable(todo[1..], todo[1..] + RestAfter(todo[0], rest, now, setups, stamp), now, setups)
  {
    var e := NextEntry(todo[0], now, setups, stamp);
    assert todo[0] in todo;
    if SetupOf(setups, todo[0].id).periodic {
      InsertContents(rest, e);
      RestartableShift(todo, todo[1..], todo + rest, todo[1..] + PlainInsert(rest, e), e.due, now, setups);
    } else {
      RestartableShift(todo, todo[1..], todo + rest, todo[1..] + rest, now, now, setups);
    }
  }

  lemma RestartableShift(
      todo: seq<Entry>, todo': seq<Entry>, p: seq<Entry>, p': seq<Entry>, due: int, now: int, setups: map<Id, Setup>)
    requires Restartable(todo, p, now, setups) && due >= now
    requires forall x :: x in todo' ==> x in todo
    requires forall x :: x in p' ==> x in p || x.due == due
    ensures Restartable(todo', p', now, setups)
  {}

  /** One timer of a check: the first of the remaining due entries, then what is left to do. */
  lemma RestartStep(q: seq<Entry>, rest: seq<Entry>, now: int, setups: map<Id, Setup>, stamp: nat)
    requires q != [] && Restartable(q, q + rest, now, setups)
    ensures Restart(q, rest, now, setups, stamp)
            == Restart(q[1..], RestAfter(q[0], rest, now, setups, stamp), now, setups, StampAfterFire(q, setups, stamp))
    ensures AfterFire(q + rest, now, setups, stamp) == q[1..] + RestAfter(q[0], rest, now, setups, stamp)
    ensures AllAfter(rest, now) ==> AllAfter(RestAfter(q[0], rest, now, setups, stamp), now)
  {
    var e := NextEntry(q[0], now, setups, stamp);
    assert q[0] in q && (q + rest)[1..] == q[1..] + rest;
    if SetupOf(setups, q[0].id).periodic {
      assert forall x :: x in q[1..] ==> x in q;
      InsertIntoSuffix(q[1..], rest, e);
      InsertAfterAll(rest, e, now);
    }
  }

  lemma InsertAfterAll(rest: seq<Entry>, e: Entry, now: int)
    requires e.due > now
    ensures AllAfter(rest, now) ==> AllAfter(PlainInsert(rest, e), now)
  {
    InsertContents(rest, e);
    hide PlainInsert;
  }

  lemma InsertIntoSuffix(a: seq<Entry>, b: seq<Entry>, e: Entry)
    requires forall x :: x in a ==> x.due <= e.due
    ensures PlainInsert(a + b, e) == a + PlainInsert(b, e)
  {
    CountLeConcat(a, b, e.due);
    Slices(a, b, CountLe(b, e.due));
  }

  lemma Slices<T>(a: seq<T>, b: seq<T>, m: nat)
    requires m <= |b|
    ensures (a + b)[..|a| + m] == a + b[..m] && (a + b)[|a| + m..] == b[m..]
  {}

  lemma CountLeConcat(a: seq<Entry>, b: seq<Entry>, d: int)
    requires forall x :: x in a ==> x.due <= d
    ensures CountLe(a + b, d) == |a| + CountLe(b, d)
  {
    if a == [] {
      assert a + b == b;
    } else {
      assert (a + b)[1..] == a[1..] + b;
      CountLeConcat(a[1..], b, d);
    }
  }

  // ---- a check as a whole

  /** The timers a check at `now` fires, in order. */
  function FiredBy(p: seq<Entry>, now: int): seq<Id> {
    Ids(p[..CountLe(p, now)])
  }

  /** The list a check at `now` leaves. */
  function AfterCheck(p: seq<Entry>, now: int, setups: map<Id, Setup>, stamp: nat): seq<Entry> {
    var m := CountLe(p, now);
    Restart(p[..m], p[m..], now, setups, stamp)
  }

  /** ... and the running number of the next start. */
  function StampAfterCheck(p: seq<Entry>, now: int, setups: map<Id, Setup>, stamp: nat): nat {
    stamp + Restarts(p[..CountLe(p, now)], setups)
  }

  ghost predicate CanCheck(p: seq<Entry>, now: int, setups: map<Id, Setup>) {
    Restartable(p[..CountLe(p, now)], p, now, setups)
  }

  /** How far a check has come: what has fired, the due entries left, and the rest of the list. */
  datatype Progress = Progress(fired: seq<Id>, todo: seq<Entry>, rest: seq<Entry>)

  /** In the middle of a check of p0: carrying on from here leads to the same end. */
  ghost predicate Checking(
      c: Progress, p: seq<Entry>, stamp: nat, p0: seq<Entry>, stamp0: nat, now: int, setups: map<Id, Setup>) {
    && p == c.todo + c.rest && AllAfter(c.rest, now) && Restartable(c.todo, p, now, setups)
    && Restart(c.todo, c.rest, now, setups, stamp) == AfterCheck(p0, now, setups, stamp0)
    && c.fired + Ids(c.todo) == FiredBy(p0, now)
    && stamp + Restarts(c.todo, setups) == StampAfterCheck(p0, now, setups, stamp0)
  }

  lemma CheckingStart(p: seq<Entry>, stamp: nat, now: int, setups: map<Id, Setup>) returns (c: Progress)
    requires Sorted(p) && CanCheck(p, now, setups)
    ensures c.fired == [] && Checking(c, p, stamp, p, stamp, now, setups)
  {
    DueFirst(p, now);
    var m := CountLe(p, now);
    c := Progress([], p[..m], p[m..]);
    assert [] + Ids(c.todo) == Ids(c.todo);
  }

  lemma CheckingStep(
      c: Progress, p: seq<Entry>, stamp: nat, p0: seq<Entry>, stamp0: nat, now: int, setups: map<Id, Setup>)
    returns (c': Progress)
    requires Checking(c, p, stamp, p0, stamp0, now, setups) && p != [] && p[0].due <= now
    ensures SetupOf(setups, p[0].id).periodic ==> Fits(p, now, SetupOf(setups, p[0].id).init)
    ensures c'.fired == c.fired + [p[0].id] && |c'.todo| < |c.todo|
    ensures Checking(c', AfterFire(p, now, setups, stamp), StampAfterFire(p, setups, stamp), p0, stamp0, now, setups)
  {
    var todo, rest := c.todo, c.rest;
    FirstOf(todo, rest, now);
    RestartableStep(todo, rest, now, setups, stamp);
    RestartStep(todo, rest, now, setups, stamp);
    assert todo[0] in todo;
    c' := Progress(c.fired + [p[0].id], todo[1..], RestAfter(p[0], rest, now, setups, stamp));
    hide PlainInsert, Restart, AllAfter, SetupOf, RestAfter, AfterFire, FiredBy, StampAfterCheck;
    assert c.fired + Ids(todo) == c'.fired + Ids(todo[1..]);
  }

  lemma HeadDue(todo: seq<Entry>, rest: seq<Entry>, p: seq<Entry>, now: int, setups: map<Id, Setup>)
    requires todo != [] && p == todo + rest && Restartable(todo, p, now, setups)
    ensures p != [] && p[0].due <= now
  {
    assert todo[0] in todo;
  }

  lemma CheckingEnd(
      c: Progress, p: seq<Entry>, stamp: nat, p0: seq<Entry>, stamp0: nat, now: int, setups: map<Id, Setup>)
    requires Checking(c, p, stamp, p0, stamp0, now, setups)
    requires p == [] || p[0].due > now
    ensures c.fired == FiredBy(p0, now) && p == AfterCheck(p0, now, setups, stamp0) && AllAfter(p, now)
    ensures stamp == StampAfterCheck(p0, now, setups, stamp0)
  {
    if c.todo != [] { HeadDue(c.todo, c.rest, p, now, setups); }
    assert [] + c.rest == c.rest;
    assert c.fired + Ids([]) == c.fired;
  }
}
