/** rtt/src/ipc.c, event objects: rt_event_send serves waiting threads as their own receives would. */
module Event {
  import opened WaitList
  import opened Sequences

  // ---- 32-bit sets

  type Bits = bv32

  function And(a: Bits, b: Bits): Bits { a & b }

  function Or(a: Bits, b: Bits): Bits { a | b }

  function Minus(a: Bits, b: Bits): Bits { a & !b }

  /** One of the 32 events. */
  predicate OneBit(m: Bits) { m != 0 && m & (m - 1) == 0 }

  /** The event is in the set. */
  predicate Has(a: Bits, m: Bits) { a & m != 0 }

  /** The three operations are intersection, union and difference of sets of events. */
  lemma SetOperations(a: Bits, b: Bits, m: Bits)
    requires OneBit(m)
    ensures Has(And(a, b), m) <==> Has(a, m) && Has(b, m)
    ensures Has(Or(a, b), m) <==> Has(a, m) || Has(b, m)
    ensures Has(Minus(a, b), m) <==> Has(a, m) && !Has(b, m)
  {
    hide And, Or, Minus, OneBit, Has;
    Undivided(a, m);
    Undivided(b, m);
    if Has(a, m) {
      if Has(b, m) { HasBoth(a, b, m); } else { HasFirst(a, b, m); }
    } else {
      HasNotFirst(a, b, m);
    }
  }

  /** An event is not in a set in part. */
  lemma Undivided(a: Bits, m: Bits)
    requires OneBit(m)
    ensures m != 0 && if Has(a, m) then a & m == m else a & m == 0
  {
    Single(a, m);
  }

  lemma Single(a: bv32, m: bv32)
    requires m & (m - 1) == 0
    ensures a & m == 0 || a & m == m
  {}

  lemma HasBoth(a: Bits, b: Bits, m: Bits)
    requires m != 0 && a & m == m && b & m == m
    ensures Has(And(a, b), m) && Has(Or(a, b), m) && !Has(Minus(a, b), m)
  {
    HasBothAnd(a, b, m);
    HasFirstOr(a, b, m);
    HasSecondMinus(a, b, m);
    hide And, Or, Minus, Has;
  }

  lemma HasBothAnd(a: Bits, b: Bits, m: Bits)
    requires m != 0 && a & m == m && b & m == m
    ensures Has(And(a, b), m)
  {
    AndBoth(a, b, m);
  }

  lemma HasFirstOr(a: Bits, b: Bits, m: Bits)
    requires m != 0 && a & m == m
    ensures Has(Or(a, b), m)
  {
    OrFirst(a, b, m);
  }

  lemma HasSecondMinus(a: Bits, b: Bits, m: Bits)
    requires b & m == m
    ensures !Has(Minus(a, b), m)
  {
    MinusSecond(a, b, m);
  }

  lemma HasFirst(a: Bits, b: Bits, m: Bits)
    requires m != 0 && a & m == m && b & m == 0
    ensures !Has(And(a, b), m) && Has(Or(a, b), m) && Has(Minus(a, b), m)
  {
    OrFirst(a, b, m);
    AndNeither(b, a, m);
    MinusFirst(a, b, m);
  }

  lemma HasNotFirst(a: Bits, b: Bits, m: Bits)
    requires m != 0 && a & m == 0 && (b & m == 0 || b & m == m)
    ensures !Has(And(a, b), m) && (Has(Or(a, b), m) <==> Has(b, m)) && !Has(Minus(a, b), m)
  {
    AndNeither(a, b, m);
    if b & m == 0 { OrNeither(a, b, m); } else { OrFirst(b, a, m); }
  }

  lemma AndBoth(a: bv32, b: bv32, m: bv32)
    requires a & m == m && b & m == m
    ensures (a & b) & m == m
  {}

  lemma AndNeither(a: bv32, b: bv32, m: bv32)
    requires a & m == 0
    ensures (a & b) & m == 0 == (b & a) & m && (a & !b) & m == 0
  {}

  lemma OrFirst(a: bv32, b: bv32, m: bv32)
    requires a & m == m
    ensures (a | b) & m == m == (b | a) & m
  {}

  lemma OrNeither(a: bv32, b: bv32, m: bv32)
    requires a & m == 0 && b & m == 0
    ensures (a | b) & m == 0
  {}

  lemma MinusFirst(a: bv32, b: bv32, m: bv32)
    requires a & m == m && b & m == 0
    ensures (a & !b) & m == m
  {}

  lemma MinusSecond(a: bv32, b: bv32, m: bv32)
    requires b & m == m
    ensures (a & !b) & m == 0
  {}

  /** The events of c are those of a and those of b. */
  ghost predicate Union(a: Bits, b: Bits, c: Bits) {
    forall m :: OneBit(m) ==> (Has(c, m) <==> Has(a, m) || Has(b, m))
  }

  lemma OrUnion(a: Bits, b: Bits)
    ensures Union(a, b, Or(a, b))
  {
    hide Or, OneBit, Has;
    forall m | OneBit(m) ensures Has(Or(a, b), m) <==> Has(a, m) || Has(b, m) {
      SetOperations(a, b, m);
    }
  }

  /** An event of a set that is not empty. */
  lemma SomeBit(a: Bits) returns (m: Bits)
    requires a != 0
    ensures OneBit(m) && Has(a, m)
  {
    m := a & (0 - a);
  }

  predicate Within(a: Bits, b: Bits) { And(a, b) == a }

  lemma WithinTrans(a: Bits, b: Bits, c: Bits)
    requires Within(a, b) && Within(b, c)
    ensures Within(a, c)
  {}

  lemma WithinSelf(a: Bits)
    ensures Within(a, a)
  {}

  // ---- one receive

  /** event_set and event_info of a thread: RT_EVENT_FLAG_AND, _OR and _CLEAR; AND goes before OR. */
  datatype Interest = Interest(bits: Bits, all: bool, any: bool, clear: bool)

  predicate Satisfied(i: Interest, flags: Bits) {
    if i.all then And(i.bits, flags) == i.bits else i.any && And(i.bits, flags) != 0
  }

  /** With AND all, with OR some of the events asked for have arrived. */
  ghost predicate Wants(i: Interest, flags: Bits) {
    if i.all then forall m :: OneBit(m) && Has(i.bits, m) ==> Has(flags, m)
    else i.any && exists m :: OneBit(m) && Has(i.bits, m) && Has(flags, m)
  }

  lemma SatisfiedExactly(i: Interest, flags: Bits)
    ensures Satisfied(i, flags) <==> Wants(i, flags)
  {
    if i.all {
      if Satisfied(i, flags) {
        forall m | OneBit(m) && Has(i.bits, m) ensures Has(flags, m) { SetOperations(i.bits, flags, m); }
      } else {
        var m := MissingBit(i.bits, flags);
      }
    } else if Satisfied(i, flags) {
      var m := SomeBit(And(i.bits, flags));
      SetOperations(i.bits, flags, m);
    } else if i.any {
      forall m | OneBit(m) && Has(i.bits, m) ensures !Has(flags, m) {
        SetOperations(i.bits, flags, m);
        NoBit(m);
      }
    }
    hide And, OneBit, Has;
  }

  lemma NoBit(m: Bits)
    ensures !Has(0, m)
  {}

  lemma MissingBit(a: Bits, b: Bits) returns (m: Bits)
    requires And(a, b) != a
    ensures OneBit(m) && Has(a, m) && !Has(b, m)
  {
    MinusNone(a, b);
    m := SomeBit(Minus(a, b));
    SetOperations(a, b, m);
  }

  lemma MinusNone(a: Bits, b: Bits)
    ensures And(a, b) == a <==> Minus(a, b) == 0
  {}

  /** The bits a receive delivers. */
  function Taken(i: Interest, flags: Bits): Bits { And(i.bits, flags) }

  /** What it leaves of the event's flags. */
  function Left(i: Interest, flags: Bits): Bits { if i.clear then Minus(flags, i.bits) else flags }

  /** Of the events asked for, those that have arrived are delivered, and with CLEAR all are taken off the flags. */
  ghost predicate Delivers(i: Interest, flags: Bits, taken: Bits, left: Bits) {
    forall m :: OneBit(m) ==>
      && (Has(taken, m) <==> Has(i.bits, m) && Has(flags, m))
      && (Has(left, m) <==> Has(flags, m) && !(i.clear && Has(i.bits, m)))
  }

  lemma DeliversExactly(i: Interest, flags: Bits, taken: Bits, left: Bits)
    ensures Delivers(i, flags, taken, left) <==> taken == Taken(i, flags) && left == Left(i, flags)
  {
    hide And, Minus, OneBit, Has;
    forall m | OneBit(m)
      ensures Has(Taken(i, flags), m) <==> Has(i.bits, m) && Has(flags, m)
      ensures Has(Left(i, flags), m) <==> Has(flags, m) && !(i.clear && Has(i.bits, m))
    {
      SetOperations(i.bits, flags, m);
      SetOperations(flags, i.bits, m);
    }
    if Delivers(i, flags, taken, left) {
      SameSets(taken, Taken(i, flags));
      SameSets(left, Left(i, flags));
    }
  }

  /** A set is determined by its events. */
  lemma SameSets(a: Bits, b: Bits)
    requires forall m :: OneBit(m) ==> (Has(a, m) <==> Has(b, m))
    ensures a == b
  {
    if And(a, b) != a { var m := MissingBit(a, b); }
    if And(b, a) != b { var m := MissingBit(b, a); }
    Antisymmetric(a, b);
    hide And, OneBit, Has;
  }

  lemma Antisymmetric(a: Bits, b: Bits)
    requires And(a, b) == a && And(b, a) == b
    ensures a == b
  {}

  lemma BitFacts(a: Bits, b: Bits)
    ensures And(And(a, b), b) == And(a, b)
    ensures And(Minus(b, a), b) == Minus(b, a)
    ensures And(b, b) == b
  {}

  lemma LeftWithin(i: Interest, flags: Bits)
    ensures Within(Left(i, flags), flags) && Within(Taken(i, flags), flags)
  {
    BitFacts(i.bits, flags);
    hide And, Minus;
  }

  lemma TakenCleared(i: Interest, flags: Bits, later: Bits)
    requires i.clear && Within(later, Left(i, flags))
    ensures And(Taken(i, flags), later) == 0
  {}

  lemma MoreSatisfied(i: Interest, small: Bits, large: Bits)
    requires Within(small, large) && Satisfied(i, small)
    ensures Satisfied(i, large)
  {}

  // ---- a scan of the waiting threads

  datatype Delivery = Delivery(t: Thread, bits: Bits)

  datatype Served = Served(flags: Bits, waiting: seq<Thread>, out: seq<Delivery>)

  /** The waiting threads, one after the other, receive from the flags as they find them. */
  function Serve(flags: Bits, waiting: seq<Thread>, info: Thread -> Interest): Served {
    if waiting == [] then Served(flags, [], [])
    else
      var t := waiting[0];
      if Satisfied(info(t), flags) then
        var r := Serve(Left(info(t), flags), waiting[1..], info);
        Served(r.flags, r.waiting, [Delivery(t, Taken(info(t), flags))] + r.out)
      else
        var r := Serve(flags, waiting[1..], info);
        Served(r.flags, [t] + r.waiting, r.out)
  }

  lemma {:induction false} ServeShrinks(flags: Bits, waiting: seq<Thread>, info: Thread -> Interest)
    ensures Within(Serve(flags, waiting, info).flags, flags)
    decreases |waiting|
  {
    WithinSelf(flags);
    if waiting != [] {
      var t := waiting[0];
      var left := Left(info(t), flags);
      hide Within, Satisfied, Left, Taken;
      ServeShrinks(flags, waiting[1..], info);
      ServeShrinks(left, waiting[1..], info);
      LeftWithin(info(t), flags);
      WithinTrans(Serve(left, waiting[1..], info).flags, left, flags);
    }
  }

  /** Although receives clear bits during the scan, no thread left waiting is satisfied by the flags left. */
  lemma {:induction false} ServeQuiet(flags: Bits, waiting: seq<Thread>, info: Thread -> Interest)
    ensures var r := Serve(flags, waiting, info); forall t :: t in r.waiting ==> !Satisfied(info(t), r.flags)
    decreases |waiting|
  {
    if waiting != [] {
      var t := waiting[0];
      hide Within, Satisfied, Left, Taken;
      ServeQuiet(flags, waiting[1..], info);
      ServeQuiet(Left(info(t), flags), waiting[1..], info);
      ServeShrinks(flags, waiting[1..], info);
      var r := Serve(flags, waiting[1..], info);
      if Satisfied(info(t), r.flags) { MoreSatisfied(info(t), r.flags, flags); }
    }
  }

  /** Every waiting thread is either served or still waiting. */
  lemma {:induction false} ServePartition(flags: Bits, waiting: seq<Thread>, info: Thread -> Interest)
    requires Distinct(waiting)
    ensures var r := Serve(flags, waiting, info);
            && Distinct(r.waiting)
            && (forall t :: t in r.waiting ==> t in waiting)
            && (forall d :: d in r.out ==> d.t in waiting && d.t !in r.waiting)
            && (forall t :: t in waiting && t !in r.waiting ==> exists d :: d in r.out && d.t == t)
    decreases |waiting|
  {
    if waiting != [] {
      var t := waiting[0];
      assert t !in waiting[1..];
      assert forall u :: u in waiting <==> u == t || u in waiting[1..];
      hide Within, Satisfied, Left, Taken;
      ServePartition(flags, waiting[1..], info);
      ServePartition(Left(info(t), flags), waiting[1..], info);
      var r, s := Serve(Left(info(t), flags), waiting[1..], info), Serve(flags, waiting, info);
      if Satisfied(info(t), flags) {
        assert s.out[0].t == t;
        assert forall d :: d in s.out <==> d == s.out[0] || d in r.out;
      }
    }
  }

  ghost predicate AllWithin(out: seq<Delivery>, flags: Bits) {
    forall d :: d in out ==> Within(d.bits, flags)
  }

  /** What a thread receives with CLEAR is disjoint from what every thread after it receives. */
  ghost predicate ClearedApart(out: seq<Delivery>, info: Thread -> Interest) {
    forall i, j :: 0 <= i < j < |out| && info(out[i].t).clear ==> And(out[i].bits, out[j].bits) == 0
  }

  lemma {:induction false} ClearedOnce(flags: Bits, waiting: seq<Thread>, info: Thread -> Interest)
    ensures AllWithin(Serve(flags, waiting, info).out, flags)
    ensures ClearedApart(Serve(flags, waiting, info).out, info)
    decreases |waiting|
  {
    if waiting != [] {
      var t := waiting[0];
      var left := Left(info(t), flags);
      ClearedOnce(flags, waiting[1..], info);
      ClearedOnce(left, waiting[1..], info);
      LeftWithin(info(t), flags);
      if Satisfied(info(t), flags) {
        var r := Serve(left, waiting[1..], info).out;
        assert Serve(flags, waiting, info).out == [Delivery(t, Taken(info(t), flags))] + r;
        hide Satisfied, Left, Taken, And, Serve;
        forall d | d in r
          ensures Within(d.bits, flags) && (info(t).clear ==> And(Taken(info(t), flags), d.bits) == 0)
        {
          WithinTrans(d.bits, left, flags);
          if info(t).clear { TakenCleared(info(t), flags, d.bits); }
        }
      }
    }
  }

  // ---- the event object

  datatype Ev = Ev(flags: Bits, waiting: seq<Thread>, info: Thread -> Interest)

  datatype Outcome = Failed | TimedOut | Waits | Got(bits: Bits)

  /** One thread asks for something else. */
  function Asking(info: Thread -> Interest, t: Thread, i: Interest): Thread -> Interest {
    (u: Thread) => if u == t then i else info(u)
  }

  /** rt_event_recv up to its first exit from the lock. */
  function RecvStep(e: Ev, prio: Priorities, flag: Flag, t: Thread, i: Interest, timeout: int): (Ev, Outcome) {
    if i.bits == 0 then (e, Failed)
    else if Satisfied(i, e.flags) then (e.(flags := Left(i, e.flags)), Got(Taken(i, e.flags)))
    else if timeout == 0 then (e, TimedOut)
    else (e.(waiting := Suspended(e.waiting, prio, flag, t), info := Asking(e.info, t, i)), Waits)
  }

  lemma {:induction false} ServeFrame(flags: Bits, waiting: seq<Thread>, info: Thread -> Interest, other: Thread -> Interest)
    requires forall t :: t in waiting ==> info(t) == other(t)
    ensures Serve(flags, waiting, info) == Serve(flags, waiting, other)
    decreases |waiting|
  {
    if waiting != [] {
      var t := waiting[0];
      hide Satisfied, Left, Taken;
      ServeFrame(flags, waiting[1..], info, other);
      ServeFrame(Left(info(t), flags), waiting[1..], info, other);
    }
  }

  /** The deliveries are recorded in the threads' own event_set. */
  ghost predicate Recorded(out: seq<Delivery>, woken: seq<Thread>, info: Thread -> Interest) {
    && |woken| == |out|
    && forall k :: 0 <= k < |out| ==> woken[k] == out[k].t && info(out[k].t).bits == out[k].bits
  }

  lemma RecordedNext(out: seq<Delivery>, woken: seq<Thread>, info: Thread -> Interest, t: Thread, i: Interest)
    requires Recorded(out, woken, info) && t !in woken
    ensures Recorded(out + [Delivery(t, i.bits)], woken + [t], Asking(info, t, i))
  {
    forall k | 0 <= k < |out|
      ensures out[k].t != t
    {
      assert woken[k] in woken;
    }
  }

  /** What the scan computes for a satisfied thread: an OR thread's event_set becomes the bits it receives. */
  lemma OrTakenIf(i: Interest, flags: Bits)
    ensures Taken(i, flags) == And(i.bits, flags)
    ensures Satisfied(i, flags) && i.all ==> Taken(i, flags) == i.bits
    ensures i.clear ==> Minus(flags, Taken(i, flags)) == Left(i, flags)
    ensures !i.clear ==> Left(i, flags) == flags
  {}

  lemma TakenLeft(i: Interest, flags: Bits)
    ensures Taken(i, flags) == And(i.bits, flags) && Left(i, flags) == if i.clear then Minus(flags, i.bits) else flags
  {
    hide And, Minus;
  }

  lemma AndCommutes(a: Bits, b: Bits)
    ensures And(a, b) == And(b, a)
  {}

  /** The scan of the list from its n-th thread on, the threads before it staying. */
  ghost function Scan(flags: Bits, waiting: seq<Thread>, n: nat, info: Thread -> Interest, out: seq<Delivery>): Served
    requires n <= |waiting|
  {
    var r := Serve(flags, waiting[n..], info);
    Served(r.flags, waiting[..n] + r.waiting, out + r.out)
  }

  lemma ScanNext(flags: Bits, waiting: seq<Thread>, n: nat, info: Thread -> Interest, out: seq<Delivery>)
    requires n < |waiting|
    ensures var t := waiting[n];
            Scan(flags, waiting, n, info, out) ==
            if Satisfied(info(t), flags) then
              Scan(Left(info(t), flags), waiting[..n] + waiting[n + 1..], n, info, out + [Delivery(t, Taken(info(t), flags))])
            else Scan(flags, waiting, n + 1, info, out)
  {
    hide Satisfied, Left, Taken;
    var t := waiting[n];
    assert waiting[n..][1..] == waiting[n + 1..];
    if Satisfied(info(t), flags) {
      var rest := waiting[..n] + waiting[n + 1..];
      assert rest[n..] == waiting[n + 1..] && rest[..n] == waiting[..n];
    } else {
      assert waiting[..n + 1] == waiting[..n] + [t];
    }
  }

  lemma ScanEnds(flags: Bits, waiting: seq<Thread>, info: Thread -> Interest, out: seq<Delivery>)
    ensures Scan(flags, waiting, 0, info, []) == Serve(flags, waiting, info)
    ensures Scan(flags, waiting, |waiting|, info, out) == Served(flags, waiting, out)
  {
    hide Satisfied, Left, Taken;
    assert waiting[0..] == waiting && waiting[..|waiting|] == waiting;
    var r := Serve(flags, waiting, info);
    assert waiting[..0] + r.waiting == r.waiting && [] + r.out == r.out;
    assert waiting[|waiting|..] == [];
  }

  lemma RemoveAt(s: seq<Thread>, n: nat)
    requires n < |s| && Distinct(s)
    ensures Distinct(s[..n] + s[n + 1..])
    ensures forall u :: u in s[..n] + s[n + 1..] <==> u in s && u != s[n]
  {
    assert s == s[..n] + [s[n]] + s[n + 1..];
  }

  /** Between two threads of the scan: asked are the interests before it, goal what the whole scan serves. */
  ghost predicate Scanning(e: Ev, n: nat, woken: seq<Thread>, out: seq<Delivery>, asked: Thread -> Interest, goal: Served) {
    && n <= |e.waiting| && Distinct(e.waiting)
    && (forall t :: t in e.waiting ==> e.info(t) == asked(t) && t !in woken)
    && Recorded(out, woken, e.info)
    && goal == Scan(e.flags, e.waiting, n, asked, out)
  }

  lemma ScanServes(e: Ev, n: nat, woken: seq<Thread>, out: seq<Delivery>, asked: Thread -> Interest, goal: Served, i: Interest)
    requires Scanning(e, n, woken, out, asked, goal) && n < |e.waiting| && Satisfied(e.info(e.waiting[n]), e.flags)
    requires i == e.info(e.waiting[n]).(bits := Taken(e.info(e.waiting[n]), e.flags))
    ensures var t := e.waiting[n];
            Scanning(Ev(Left(e.info(t), e.flags), e.waiting[..n] + e.waiting[n + 1..], Asking(e.info, t, i)), n,
                     woken + [t], out + [Delivery(t, i.bits)], asked, goal)
  {
    hide Satisfied, Left, Taken, Scan, Distinct, Recorded;
    ScanNext(e.flags, e.waiting, n, asked, out);
    RemoveAt(e.waiting, n);
    assert e.waiting[n] in e.waiting;
    RecordedNext(out, woken, e.info, e.waiting[n], i);
  }

  lemma ScanSkips(e: Ev, n: nat, woken: seq<Thread>, out: seq<Delivery>, asked: Thread -> Interest, goal: Served)
    requires Scanning(e, n, woken, out, asked, goal) && n < |e.waiting| && !Satisfied(e.info(e.waiting[n]), e.flags)
    ensures Scanning(e, n + 1, woken, out, asked, goal)
  {
    hide Satisfied, Left, Taken, Scan, Distinct, Recorded;
    ScanNext(e.flags, e.waiting, n, asked, out);
    assert e.waiting[n] in e.waiting;
  }

  class Object {
    const flag: Flag
    var flags: Bits
    var waiting: seq<Thread>
    var info: Thread -> Interest

    ghost function View(): Ev
      reads this
    {
      Ev(flags, waiting, info)
    }

    /** rt_event_recv up to its first exit from the lock. */
    method Recv(prio: Priorities, t: Thread, i: Interest, timeout: int) returns (r: Outcome)
      requires i.all || i.any
      modifies this
      ensures (View(), r) == RecvStep(old(View()), prio, flag, t, i, timeout)
      ensures r.Failed? <==> i.bits == 0
      ensures r.Got? <==> i.bits != 0 && Wants(i, old(flags))
      ensures r.TimedOut? <==> i.bits != 0 && !Wants(i, old(flags)) && timeout == 0
      ensures r.Failed? || r.TimedOut? ==> View() == old(View())
      ensures r.Got? ==> Delivers(i, old(flags), r.bits, flags) && waiting == old(waiting) && info == old(info)
      ensures r.Waits? ==> flags == old(flags) && waiting == Suspended(old(waiting), prio, flag, t) && info(t) == i
                           && forall u :: u != t ==> info(u) == old(info)(u)
    {
      hide Satisfied, And, Minus, Wants, Delivers;
      SatisfiedExactly(i, flags);
      DeliversExactly(i, flags, Taken(i, flags), Left(i, flags));
      TakenLeft(i, flags);
      if i.bits == 0 { return Failed; }
      if Satisfied(i, flags) {
        r := Got(And(flags, i.bits));
        AndCommutes(flags, i.bits);
        if i.clear { flags := Minus(flags, i.bits); }
      } else if timeout == 0 {
        r := TimedOut;
      } else {
        info := Asking(info, t, i);
        waiting := Suspend(waiting, prio, flag, t);
        r := Waits;
      }
    }

    /** rt_event_send: the scan serves the waiting threads in the order of the list. */
    method Send(bits: Bits) returns (ok: bool, woken: seq<Thread>, ghost out: seq<Delivery>)
      requires Distinct(waiting)
      modifies this`flags, this`waiting, this`info
      ensures ok == (bits != 0) && (!ok ==> View() == old(View()) && woken == [])
      ensures ok ==> Served(flags, waiting, out) == Serve(Or(old(flags), bits), old(waiting), old(info))
      ensures Union(old(flags), bits, Or(old(flags), bits))
      ensures ok ==> Recorded(out, woken, info)
      ensures forall t :: t in waiting ==> info(t) == old(info)(t)
    {
      OrUnion(flags, bits);
      hide Union;
      woken, out := [], [];
      ok := bits != 0;
      if !ok { return; }
      flags := Or(flags, bits);
      ghost var goal, asked := Serve(flags, waiting, info), info;
      var n := 0;
      ScanEnds(flags, waiting, info, []);
      assert Scanning(View(), 0, [], [], asked, goal);
      while n < |waiting|
        invariant n <= |waiting| && Scanning(View(), n, woken, out, asked, goal)
        decreases |waiting| - n
      {
        hide Satisfied, Or, And, Minus, Left, Taken, Scanning, Serve;
        var t, i := waiting[n], info(waiting[n]);
        OrTakenIf(i, flags);
        if Satisfied(i, flags) {
          if !i.all { i := i.(bits := And(i.bits, flags)); }
          ScanServes(View(), n, woken, out, asked, goal, i);
          out := out + [Delivery(t, i.bits)];
          if i.clear { flags := Minus(flags, i.bits); }
          info := Asking(info, t, i);
          waiting := waiting[..n] + waiting[n + 1..];
          woken := woken + [t];
        } else {
          ScanSkips(View(), n, woken, out, asked, goal);
          n := n + 1;
        }
      }
      ScanEnds(flags, waiting, asked, out);
    }
  }
}
