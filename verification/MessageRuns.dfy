/**
 * Message queues over all interleavings of the regions of rt_mq_send, rt_mq_urgent, rt_mq_recv and
 * RT_IPC_CMD_RESET in rtt/src/ipc.c, by any number of threads.
 */
module MessageRuns {
  import opened Wrappers
  import opened MessageQueue
  import opened Sequences

  /** Where a thread stands between two regions; receipt numbers the messages taken off the queue. */
  datatype Local =
    | Taken(cell: nat, urgent: bool, buffer: Bytes)
    | Filled(cell: nat, urgent: bool, buffer: Bytes)
    | Holding(cell: nat, size: nat, receipt: nat)
    | Delivered(cell: nat, receipt: nat)

  datatype Delivery = Delivery(receipt: nat, size: nat, bytes: Bytes)

  /**
   * The queue object and the threads inside its functions, beside what a plain list of messages would hold:
   * pending, and the histories of messages linked, taken and dropped, and of the copies handed to receivers.
   */
  datatype State = State(mq: Mq, locals: map<nat, Local>, pending: seq<Bytes>,
                         linked: seq<Bytes>, taken: seq<Bytes>, dropped: seq<Bytes>, out: seq<Delivery>)

  datatype Event =
    | Send(t: nat, urgent: bool, buffer: Bytes)
    | CopyIn(t: nat)
    | LinkIn(t: nat)
    | Receive(t: nat, size: nat)
    | CopyOut(t: nat)
    | PutFree(t: nat)
    | Clear

  ghost predicate Holds(m: Mq, c: nat, b: Bytes) {
    c < |m.data| && b <= m.data[c]
  }

  /** What a receiver got: as much of the cell as it asked for, starting with its message. */
  ghost predicate Faithful(d: Delivery, taken: seq<Bytes>, msgSize: nat) {
    && d.receipt < |taken| && |d.bytes| == Min(d.size, msgSize)
    && var n := Min(|taken[d.receipt]|, |d.bytes|); d.bytes[..n] == taken[d.receipt][..n]
  }

  ghost predicate LocalInv(m: Mq, taken: seq<Bytes>, l: Local) {
    match l
    case Taken(c, _, b) => c in m.filling && |b| <= m.msgSize
    case Filled(c, _, b) => c in m.filling && |b| <= m.msgSize && Holds(m, c, b)
    case Holding(c, _, k) => c in m.draining && k < |taken| && Holds(m, c, taken[k])
    case Delivered(c, k) => c in m.draining && k < |taken|
  }

  ghost predicate Locals(m: Mq, taken: seq<Bytes>, locals: map<nat, Local>) {
    forall t :: t in locals ==> LocalInv(m, taken, locals[t])
  }

  ghost predicate Apart(locals: map<nat, Local>) {
    forall t, u :: t in locals && u in locals && t != u ==> locals[t].cell != locals[u].cell
  }

  ghost predicate HasOwner(locals: map<nat, Local>, c: nat) { exists t :: t in locals && locals[t].cell == c }

  /** The cells that are in no list are held by threads, one by each. */
  ghost predicate Owned(m: Mq, locals: map<nat, Local>) {
    Apart(locals) && forall c :: c in m.filling + m.draining ==> HasOwner(locals, c)
  }

  ghost predicate Contents(s: State) {
    && |s.pending| == |s.mq.queue|
    && forall i :: 0 <= i < |s.pending| ==> Holds(s.mq, s.mq.queue[i], s.pending[i])
  }

  ghost predicate Receipts(s: State) {
    && (forall t, u :: t in s.locals && u in s.locals && t != u && Receiver(s.locals[t]) && Receiver(s.locals[u])
                       ==> s.locals[t].receipt != s.locals[u].receipt)
    && (forall i, t :: 0 <= i < |s.out| && t in s.locals && s.locals[t].Holding?
                       ==> s.locals[t].receipt != s.out[i].receipt)
    && (forall i, j :: 0 <= i < j < |s.out| ==> s.out[i].receipt != s.out[j].receipt)
    && (forall i :: 0 <= i < |s.out| ==> Faithful(s.out[i], s.taken, s.mq.msgSize))
  }

  predicate Receiver(l: Local) { l.Holding? || l.Delivered? }

  ghost predicate Inv(s: State) {
    && Wf(s.mq) && Locals(s.mq, s.taken, s.locals) && Owned(s.mq, s.locals) && Contents(s) && Receipts(s)
    && multiset(s.linked) == multiset(s.taken) + multiset(s.pending) + multiset(s.dropped)
  }

  /** A step that is not enabled changes nothing: the call failed, or would wait. */
  ghost function Step(s: State, e: Event): State
    requires Inv(s)
  {
    match e
    case Send(t, urgent, b) =>
      if t in s.locals || |b| > s.mq.msgSize || s.mq.free == [] then s
      else s.(mq := Take(s.mq), locals := s.locals[t := Taken(s.mq.free[0], urgent, b)])
    case CopyIn(t) =>
      if t !in s.locals || !s.locals[t].Taken? then s
      else
        var l := s.locals[t];
        assert LocalInv(s.mq, s.taken, l);
        s.(mq := Fill(s.mq, l.cell, l.buffer), locals := s.locals[t := Filled(l.cell, l.urgent, l.buffer)])
    case LinkIn(t) =>
      if t !in s.locals || !s.locals[t].Filled? then s
      else
        var l := s.locals[t];
        s.(mq := Link(s.mq, l.cell, l.urgent), locals := s.locals - {t}, linked := s.linked + [l.buffer],
           pending := if l.urgent then [l.buffer] + s.pending else s.pending + [l.buffer])
    case Receive(t, size) =>
      if t in s.locals || s.mq.queue == [] then s
      else s.(mq := Unlink(s.mq), locals := s.locals[t := Holding(s.mq.queue[0], size, |s.taken|)],
              pending := s.pending[1..], taken := s.taken + [s.pending[0]])
    case CopyOut(t) =>
      if t !in s.locals || !s.locals[t].Holding? then s
      else
        var l := s.locals[t];
        assert LocalInv(s.mq, s.taken, l);
        s.(locals := s.locals[t := Delivered(l.cell, l.receipt)],
           out := s.out + [Delivery(l.receipt, l.size, s.mq.data[l.cell][..Min(l.size, s.mq.msgSize)])])
    case PutFree(t) =>
      if t !in s.locals || !s.locals[t].Delivered? then s
      else s.(mq := Release(s.mq, s.locals[t].cell), locals := s.locals - {t})
    case Clear => s.(mq := Reset(s.mq), pending := [], dropped := s.dropped + s.pending)
  }

  // ---- what one thread's step leaves to the others

  lemma LocalFrame(m: Mq, m': Mq, taken: seq<Bytes>, taken': seq<Bytes>, l: Local)
    requires LocalInv(m, taken, l) && taken <= taken' && m'.msgSize == m.msgSize && |m'.data| == |m.data|
    requires l.cell < |m.data| ==> m'.data[l.cell] == m.data[l.cell]
    requires (l.cell in m.filling ==> l.cell in m'.filling) && (l.cell in m.draining ==> l.cell in m'.draining)
    ensures LocalInv(m', taken', l)
  {}

  /** The locals after thread t moved to l, all others being where they were. */
  lemma MoveThread(s: State, m': Mq, taken': seq<Bytes>, t: nat, l: Local)
    requires Locals(s.mq, s.taken, s.locals) && Owned(s.mq, s.locals) && LocalInv(m', taken', l)
    requires s.taken <= taken' && m'.msgSize == s.mq.msgSize && |m'.data| == |s.mq.data|
    requires if t in s.locals then s.locals[t].cell == l.cell else l.cell !in s.mq.filling + s.mq.draining
    requires m'.filling + m'.draining == s.mq.filling + s.mq.draining + {l.cell}
    requires forall c: nat :: c < |s.mq.data| && c != l.cell ==> m'.data[c] == s.mq.data[c]
    requires forall c :: c != l.cell ==> (c in s.mq.filling <==> c in m'.filling) && (c in s.mq.draining <==> c in m'.draining)
    ensures Locals(m', taken', s.locals[t := l]) && Owned(m', s.locals[t := l])
  {
    var locals := s.locals[t := l];
    forall u | u in locals
      ensures LocalInv(m', taken', locals[u]) && (u != t ==> locals[u].cell != l.cell)
    {
      if u != t {
        assert LocalInv(s.mq, s.taken, s.locals[u]);
        assert s.locals[u].cell in s.mq.filling + s.mq.draining;
        LocalFrame(s.mq, m', s.taken, taken', s.locals[u]);
      }
    }
    forall c | c in m'.filling + m'.draining
      ensures HasOwner(locals, c)
    {
      if c == l.cell {
        assert t in locals && locals[t].cell == c;
      } else {
        assert HasOwner(s.locals, c);
        var u :| u in s.locals && s.locals[u].cell == c;
        assert u in locals && locals[u].cell == c;
      }
    }
  }

  /** The locals after thread t left, its cell being back in a list. */
  lemma LeaveThread(s: State, m': Mq, t: nat)
    requires Locals(s.mq, s.taken, s.locals) && Owned(s.mq, s.locals) && t in s.locals
    requires m'.msgSize == s.mq.msgSize && m'.data == s.mq.data
    requires m'.filling == s.mq.filling - {s.locals[t].cell} && m'.draining == s.mq.draining - {s.locals[t].cell}
    ensures Locals(m', s.taken, s.locals - {t}) && Owned(m', s.locals - {t})
  {
    var locals := s.locals - {t};
    forall u | u in locals
      ensures LocalInv(m', s.taken, locals[u])
    {
      assert LocalInv(s.mq, s.taken, s.locals[u]);
      LocalFrame(s.mq, m', s.taken, s.taken, s.locals[u]);
    }
    forall c | c in m'.filling + m'.draining
      ensures HasOwner(locals, c)
    {
      assert HasOwner(s.locals, c);
      var u :| u in s.locals && s.locals[u].cell == c;
      assert u in locals && locals[u].cell == c;
    }
  }

  lemma ContentsFrame(s: State, s': State)
    requires Contents(s) && s'.pending == s.pending && s'.mq.queue == s.mq.queue && |s'.mq.data| == |s.mq.data|
    requires forall c :: c in s.mq.queue && c < |s.mq.data| ==> s'.mq.data[c] == s.mq.data[c]
    ensures Contents(s')
  {}

  // ---- every step keeps the invariant

  /** Receipts depend on the receivers inside only. */
  lemma ReceiptsFrame(s: State, s': State)
    requires Receipts(s) && s'.out == s.out && s'.taken == s.taken && s'.mq.msgSize == s.mq.msgSize
    requires forall u :: u in s'.locals && Receiver(s'.locals[u]) ==> u in s.locals && s.locals[u] == s'.locals[u]
    ensures Receipts(s')
  {
    hide Faithful;
  }

  /** The cell of a thread inside is where its phase says, and nowhere else. */
  lemma HeldCell(s: State, t: nat)
    requires Inv(s) && t in s.locals
    ensures var m, c := s.mq, s.locals[t].cell;
            && LocalInv(m, s.taken, s.locals[t])
            && c !in m.queue && c !in m.free && Cell(m, c) && (c in m.filling ==> c !in m.draining)
  {
    hide Holds, Owned, Contents, Receipts;
    assert LocalInv(s.mq, s.taken, s.locals[t]);
  }

  lemma FillWf(m: Mq, c: nat, b: Bytes)
    requires Wf(m) && Cell(m, c) && |b| <= m.msgSize
    ensures Wf(Fill(m, c, b)) && Holds(Fill(m, c, b), c, b)
  {}

  lemma SendInv(s: State, t: nat, urgent: bool, b: Bytes)
    requires Inv(s) && t !in s.locals && |b| <= s.mq.msgSize && s.mq.free != []
    ensures Inv(Step(s, Send(t, urgent, b)))
  {
    hide Holds, Faithful, Receipts, Contents, Owned, Locals, Wf;
    var s' := Step(s, Send(t, urgent, b));
    TakeWf(s.mq);
    FreeCell(s.mq);
    MoveThread(s, Take(s.mq), s.taken, t, Taken(s.mq.free[0], urgent, b));
    ContentsFrame(s, s');
    ReceiptsFrame(s, s');
  }

  lemma FreeCell(m: Mq)
    requires Wf(m) && m.free != []
    ensures m.free[0] !in m.filling && m.free[0] !in m.draining
  {
    assert m.free[0] in m.free;
  }

  lemma CopyInInv(s: State, t: nat)
    requires Inv(s) && t in s.locals && s.locals[t].Taken?
    ensures Inv(Step(s, CopyIn(t)))
  {
    hide Holds, Faithful, Receipts, Contents, Owned, Locals, Wf;
    HeldCell(s, t);
    var s', l := Step(s, CopyIn(t)), s.locals[t];
    FillWf(s.mq, l.cell, l.buffer);
    MoveThread(s, s'.mq, s.taken, t, Filled(l.cell, l.urgent, l.buffer));
    ContentsFrame(s, s');
    ReceiptsFrame(s, s');
  }

  lemma LinkContents(s: State, l: Local)
    requires Contents(s) && l.Filled? && Holds(s.mq, l.cell, l.buffer)
    ensures var pending := if l.urgent then [l.buffer] + s.pending else s.pending + [l.buffer];
            Contents(s.(mq := Link(s.mq, l.cell, l.urgent), pending := pending))
            && multiset(pending) == multiset(s.pending) + multiset{l.buffer}
  {
    hide Holds;
    assert multiset([l.buffer] + s.pending) == multiset{l.buffer} + multiset(s.pending);
    HoldsSame(s.mq, Link(s.mq, l.cell, l.urgent));
  }

  lemma HoldsSame(m: Mq, m': Mq)
    requires m'.data == m.data
    ensures forall c: nat, b: Bytes :: Holds(m, c, b) ==> Holds(m', c, b)
  {}

  lemma LinkInInv(s: State, t: nat)
    requires Inv(s) && t in s.locals && s.locals[t].Filled?
    ensures Inv(Step(s, LinkIn(t)))
  {
    hide Holds, Faithful, Receipts, Contents, Owned, Locals, Wf;
    HeldCell(s, t);
    var s', l := Step(s, LinkIn(t)), s.locals[t];
    LinkWf(s.mq, l.cell, l.urgent);
    LeaveThread(s, s'.mq, t);
    LinkContents(s, l);
    SameContents(s.(mq := s'.mq, pending := s'.pending), s');
    ReceiptsFrame(s, s');
  }

  lemma SameContents(s: State, s': State)
    requires Contents(s) && s'.mq == s.mq && s'.pending == s.pending
    ensures Contents(s')
  {}

  lemma ReceiveContents(s: State)
    requires Contents(s) && s.mq.queue != []
    ensures Holds(s.mq, s.mq.queue[0], s.pending[0])
    ensures Contents(s.(mq := Unlink(s.mq), pending := s.pending[1..]))
    ensures multiset(s.pending) == multiset{s.pending[0]} + multiset(s.pending[1..])
  {
    assert s.pending == [s.pending[0]] + s.pending[1..];
    assert s.mq.queue == [s.mq.queue[0]] + s.mq.queue[1..];
    hide Wf;
  }

  lemma ReceiveReceipts(s: State, t: nat, c: nat, size: nat, b: Bytes)
    requires Locals(s.mq, s.taken, s.locals) && Receipts(s) && t !in s.locals
    ensures Receipts(s.(locals := s.locals[t := Holding(c, size, |s.taken|)], taken := s.taken + [b]))
  {
    assert forall i :: 0 <= i < |s.out| ==> Faithful(s.out[i], s.taken, s.mq.msgSize);
    assert forall i :: 0 <= i < |s.out| ==> Faithful(s.out[i], s.taken + [b], s.mq.msgSize);
    assert forall i :: 0 <= i < |s.out| ==> s.out[i].receipt < |s.taken|;
    assert forall u :: u in s.locals ==> LocalInv(s.mq, s.taken, s.locals[u]);
    assert forall u :: u in s.locals && Receiver(s.locals[u]) ==> s.locals[u].receipt < |s.taken|;
    hide Faithful, LocalInv;
  }

  lemma ReceiveInv(s: State, t: nat, size: nat)
    requires Inv(s) && t !in s.locals && s.mq.queue != []
    ensures Inv(Step(s, Receive(t, size)))
  {
    hide Holds, Faithful, Receipts, Contents, Owned, Locals, Wf;
    var s', l := Step(s, Receive(t, size)), Holding(s.mq.queue[0], size, |s.taken|);
    UnlinkWf(s.mq);
    ReceiveContents(s);
    QueuedCell(s.mq);
    assert s'.taken[|s.taken|] == s.pending[0];
    HoldsFrame(s.mq, s'.mq, s.mq.queue[0], s.pending[0]);
    MoveThread(s, s'.mq, s'.taken, t, l);
    SameContents(s.(mq := s'.mq, pending := s'.pending), s');
    ReceiveReceipts(s, t, s.mq.queue[0], size, s.pending[0]);
    ReceiptsFrame(s.(locals := s'.locals, taken := s'.taken), s');
  }

  lemma QueuedCell(m: Mq)
    requires Wf(m) && m.queue != []
    ensures m.queue[0] !in m.filling && m.queue[0] !in m.draining
  {
    assert m.queue[0] in m.queue;
  }

  lemma HoldsFrame(m: Mq, m': Mq, c: nat, b: Bytes)
    requires Holds(m, c, b) && m'.data == m.data
    ensures Holds(m', c, b)
  {}

  lemma CopyOutReceipts(s: State, t: nat, d: Delivery)
    requires Receipts(s) && t in s.locals && s.locals[t].Holding? && d.receipt == s.locals[t].receipt
    requires Faithful(d, s.taken, s.mq.msgSize)
    ensures Receipts(s.(locals := s.locals[t := Delivered(s.locals[t].cell, d.receipt)], out := s.out + [d]))
  {
    hide Faithful;
  }

  lemma CopyOutInv(s: State, t: nat)
    requires Inv(s) && t in s.locals && s.locals[t].Holding?
    ensures Inv(Step(s, CopyOut(t)))
  {
    var s', l := Step(s, CopyOut(t)), s.locals[t];
    assert LocalInv(s.mq, s.taken, l);
    assert Faithful(s'.out[|s.out|], s.taken, s.mq.msgSize);
    CopyOutReceipts(s, t, s'.out[|s.out|]);
    ContentsFrame(s, s');
    assert l.cell in s.mq.draining;
    hide Wf, Holds, Owned, Locals, Faithful, Contents, Receipts;
    MoveThread(s, s'.mq, s.taken, t, Delivered(l.cell, l.receipt));
  }

  lemma PutFreeInv(s: State, t: nat)
    requires Inv(s) && t in s.locals && s.locals[t].Delivered?
    ensures Inv(Step(s, PutFree(t)))
  {
    hide Holds, Faithful, Receipts, Contents, Owned, Locals, Wf;
    HeldCell(s, t);
    var s', l := Step(s, PutFree(t)), s.locals[t];
    ReleaseWf(s.mq, l.cell);
    LeaveThread(s, s'.mq, t);
    ContentsFrame(s, s');
    ReceiptsFrame(s, s');
  }

  lemma ClearInv(s: State)
    requires Inv(s)
    ensures Inv(Step(s, Clear))
  {
    hide Holds, Faithful, Receipts, Contents, Owned, Locals, Wf;
    var s' := Step(s, Clear);
    ResetWf(s.mq);
    LocalsFrame(s, s'.mq);
    NoContents(s');
    ReceiptsFrame(s, s');
    assert multiset(s.dropped + s.pending) == multiset(s.dropped) + multiset(s.pending);
  }

  lemma LocalsFrame(s: State, m': Mq)
    requires Locals(s.mq, s.taken, s.locals) && Owned(s.mq, s.locals)
    requires m'.msgSize == s.mq.msgSize && m'.data == s.mq.data && m'.filling == s.mq.filling && m'.draining == s.mq.draining
    ensures Locals(m', s.taken, s.locals) && Owned(m', s.locals)
  {
    forall u | u in s.locals
      ensures LocalInv(m', s.taken, s.locals[u])
    {
      assert LocalInv(s.mq, s.taken, s.locals[u]);
      LocalFrame(s.mq, m', s.taken, s.taken, s.locals[u]);
    }
  }

  lemma NoContents(s: State)
    requires s.mq.queue == [] && s.pending == []
    ensures Contents(s)
  {}

  lemma StepInv(s: State, e: Event)
    requires Inv(s)
    ensures Inv(Step(s, e))
  {
    match e
    case Send(t, urgent, b) =>
      if t !in s.locals && |b| <= s.mq.msgSize && s.mq.free != [] { SendInv(s, t, urgent, b); }
    case CopyIn(t) => if t in s.locals && s.locals[t].Taken? { CopyInInv(s, t); }
    case LinkIn(t) => if t in s.locals && s.locals[t].Filled? { LinkInInv(s, t); }
    case Receive(t, size) => if t !in s.locals && s.mq.queue != [] { ReceiveInv(s, t, size); }
    case CopyOut(t) => if t in s.locals && s.locals[t].Holding? { CopyOutInv(s, t); }
    case PutFree(t) => if t in s.locals && s.locals[t].Delivered? { PutFreeInv(s, t); }
    case Clear => ClearInv(s);
  }

  // ---- runs

  /** What the constructor of the queue object leaves, no thread being inside. */
  ghost predicate Initial(s: State) {
    && Wf(s.mq) && s.mq.queue == [] && s.mq.filling == {} && s.mq.draining == {} && s.locals == map[]
    && s.pending == s.linked == s.taken == s.dropped == [] && s.out == []
  }

  ghost function Run(s: State, events: seq<Event>): (r: State)
    requires Inv(s)
    ensures Inv(r)
    decreases |events|
  {
    if events == [] then s else StepInv(s, events[0]); Run(Step(s, events[0]), events[1..])
  }

  lemma InitialInv(s: State)
    requires Initial(s)
    ensures Inv(s)
  {}

  /**
   * Over every interleaving: every receiver gets the bytes of one linked message, no message twice, and the
   * linked messages are those taken, those still queued and those a reset dropped.
   */
  lemma ReceivedOnce(s: State, events: seq<Event>)
    requires Initial(s)
    ensures Inv(s)
    ensures var r := Run(s, events);
            && (forall d :: d in r.out ==> Faithful(d, r.taken, r.mq.msgSize))
            && (forall i, j :: 0 <= i < j < |r.out| ==> r.out[i].receipt != r.out[j].receipt)
            && multiset(r.linked) == multiset(r.taken) + multiset(r.pending) + multiset(r.dropped)
            && |r.mq.queue| == |r.pending| && forall i :: 0 <= i < |r.pending| ==> Holds(r.mq, r.mq.queue[i], r.pending[i])
  {
    InitialInv(s);
    hide Wf, Locals, Owned, Faithful, Holds, Run;
    assert Inv(Run(s, events));
  }

  // ---- what one whole call does

  lemma Three(s: State, a: Event, b: Event, c: Event)
    requires Inv(s)
    ensures Inv(Step(s, a)) && Inv(Step(Step(s, a), b))
    ensures Run(s, [a, b, c]) == Step(Step(Step(s, a), b), c)
  {
    hide Inv, Step;
    StepInv(s, a);
    StepInv(Step(s, a), b);
    StepInv(Step(Step(s, a), b), c);
    assert [a, b, c][1..] == [b, c] && [b, c][1..] == [c] && [c][1..] == [];
    assert Run(Step(s, a), [b, c]) == Run(Step(Step(s, a), b), [c]);
    assert Run(Step(Step(s, a), b), [c]) == Run(Step(Step(Step(s, a), b), c), []);
  }

  /** A send with a free cell and nothing in between: its message is linked, at the end or in front. */
  lemma SentLinked(s: State, t: nat, urgent: bool, b: Bytes)
    requires Inv(s) && t !in s.locals && |b| <= s.mq.msgSize && s.mq.free != []
    ensures var r := Run(s, [Send(t, urgent, b), CopyIn(t), LinkIn(t)]);
            && r.pending == (if urgent then [b] + s.pending else s.pending + [b])
            && r.locals == s.locals && r.taken == s.taken && r.out == s.out && r.mq.free == s.mq.free[1..]
            && |r.mq.queue| == |s.mq.queue| + 1 && r.mq.msgSize == s.mq.msgSize
  {
    hide Inv, Run, Step;
    Three(s, Send(t, urgent, b), CopyIn(t), LinkIn(t));
    SendIs(s, t, urgent, b);
    CopyInIs(Step(s, Send(t, urgent, b)), t);
    LinkInIs(Step(Step(s, Send(t, urgent, b)), CopyIn(t)), t);
    assert s.locals[t := Taken(s.mq.free[0], urgent, b)][t := Filled(s.mq.free[0], urgent, b)] - {t} == s.locals;
  }

  /** The parts of the state that a copy leaves alone. */
  ghost predicate SameQueue(s: State, r: State) {
    && r.pending == s.pending && r.taken == s.taken && r.mq.queue == s.mq.queue && r.mq.free == s.mq.free
    && r.mq.msgSize == s.mq.msgSize
  }

  lemma SendIs(s: State, t: nat, urgent: bool, b: Bytes)
    requires Inv(s) && t !in s.locals && |b| <= s.mq.msgSize && s.mq.free != []
    ensures var r := Step(s, Send(t, urgent, b));
            r == s.(mq := Take(s.mq), locals := s.locals[t := Taken(s.mq.free[0], urgent, b)])
  {
    hide Inv;
  }

  lemma CopyInIs(s: State, t: nat)
    requires Inv(s) && t in s.locals && s.locals[t].Taken?
    ensures var r, l := Step(s, CopyIn(t)), s.locals[t];
            SameQueue(s, r) && r.out == s.out && r.locals == s.locals[t := Filled(l.cell, l.urgent, l.buffer)]
  {
    HeldCell(s, t);
    hide Inv;
  }

  lemma LinkInIs(s: State, t: nat)
    requires Inv(s) && t in s.locals && s.locals[t].Filled?
    ensures var r, l := Step(s, LinkIn(t)), s.locals[t];
            && r.pending == (if l.urgent then [l.buffer] + s.pending else s.pending + [l.buffer])
            && r.locals == s.locals - {t} && r.taken == s.taken && r.out == s.out && r.mq.free == s.mq.free
            && |r.mq.queue| == |s.mq.queue| + 1 && r.mq.msgSize == s.mq.msgSize
  {
    hide Inv;
  }

  lemma ReceiveIs(s: State, t: nat, size: nat)
    requires Inv(s) && t !in s.locals && s.mq.queue != []
    ensures |s.pending| == |s.mq.queue|
    ensures var r := Step(s, Receive(t, size));
            && r.pending == s.pending[1..] && r.taken == s.taken + [s.pending[0]] && r.out == s.out && r.mq.free == s.mq.free
            && r.locals == s.locals[t := Holding(s.mq.queue[0], size, |s.taken|)] && r.mq.msgSize == s.mq.msgSize
  {
    assert |s.pending| == |s.mq.queue|;
    hide Inv;
  }

  lemma CopyOutIs(s: State, t: nat)
    requires Inv(s) && t in s.locals && s.locals[t].Holding?
    ensures var r, l := Step(s, CopyOut(t)), s.locals[t];
            && SameQueue(s, r) && r.locals == s.locals[t := Delivered(l.cell, l.receipt)]
            && |r.out| == |s.out| + 1 && r.out[..|s.out|] == s.out
  {
    HeldCell(s, t);
    hide Inv;
  }

  lemma PutFreeIs(s: State, t: nat)
    requires Inv(s) && t in s.locals && s.locals[t].Delivered?
    ensures var r := Step(s, PutFree(t));
            && r.pending == s.pending && r.taken == s.taken && r.out == s.out && r.locals == s.locals - {t}
            && |r.mq.free| == |s.mq.free| + 1 && r.mq.msgSize == s.mq.msgSize
  {
    hide Inv;
  }

  /** A receive with a message there and nothing in between: the thread gets the first message, and its cell is free. */
  lemma ReceivedReturned(s: State, t: nat, size: nat)
    requires Inv(s) && t !in s.locals && s.mq.queue != []
    ensures s.pending != []
    ensures var r, b := Run(s, [Receive(t, size), CopyOut(t), PutFree(t)]), s.pending[0];
            && r.pending == s.pending[1..] && r.locals == s.locals && r.taken == s.taken + [b]
            && |r.out| == |s.out| + 1 && r.out[..|s.out|] == s.out && |r.mq.free| == |s.mq.free| + 1
            && var d, n := r.out[|s.out|].bytes, Min(|b|, Min(size, s.mq.msgSize));
               |d| == Min(size, s.mq.msgSize) && n <= |d| && n <= |b| && d[..n] == b[..n]
  {
    hide Inv, Run, Step, Faithful;
    Three(s, Receive(t, size), CopyOut(t), PutFree(t));
    ReceiveIs(s, t, size);
    var s1 := Step(s, Receive(t, size));
    CopyOutIs(s1, t);
    var s2 := Step(s1, CopyOut(t));
    PutFreeIs(s2, t);
    LastFaithful(s1, t);
    var l := Holding(s.mq.queue[0], size, |s.taken|);
    assert s.locals[t := l][t := Delivered(l.cell, l.receipt)] - {t} == s.locals;
    FaithfulIs(s2.out[|s.out|], s1.taken, s.mq.msgSize, s.pending[0]);
  }

  lemma LastFaithful(s: State, t: nat)
    requires Inv(s) && t in s.locals && s.locals[t].Holding?
    ensures var r := Step(s, CopyOut(t));
            |r.out| == |s.out| + 1 && r.out[|s.out|].receipt == s.locals[t].receipt && r.out[|s.out|].size == s.locals[t].size
            && Faithful(r.out[|s.out|], s.taken, s.mq.msgSize)
  {
    CopyOutInv(s, t);
    hide Faithful, Wf, Locals, Owned, Contents;
    var r := Step(s, CopyOut(t));
    assert Receipts(r);
  }

  lemma FaithfulIs(d: Delivery, taken: seq<Bytes>, msgSize: nat, b: Bytes)
    requires Faithful(d, taken, msgSize) && taken[d.receipt] == b
    ensures var n := Min(|b|, Min(d.size, msgSize));
            |d.bytes| == Min(d.size, msgSize) && n <= |d.bytes| && n <= |b| && d.bytes[..n] == b[..n]
  {}

  predicate Ordinary(e: Event) { !e.Clear? && (e.Send? ==> !e.urgent) }

  ghost predicate NoneUrgent(locals: map<nat, Local>) {
    forall t :: t in locals && (locals[t].Taken? || locals[t].Filled?) ==> !locals[t].urgent
  }

  ghost predicate Fifo(s: State) { s.linked == s.taken + s.pending && NoneUrgent(s.locals) }

  lemma NoneUrgentStep(s: State, e: Event)
    requires Inv(s) && NoneUrgent(s.locals) && Ordinary(e)
    ensures NoneUrgent(Step(s, e).locals)
  {
    hide Inv, Fill, Take, Link, Unlink, Reset, Release;
  }

  lemma FifoStep(s: State, e: Event)
    requires Inv(s) && Fifo(s) && Ordinary(e)
    ensures Fifo(Step(s, e))
  {
    NoneUrgentStep(s, e);
    assert |s.pending| == |s.mq.queue| by { hide Wf, Locals, Owned, Receipts; }
    match e {
      case LinkIn(t) =>
        if t in s.locals && s.locals[t].Filled? {
          var b := s.locals[t].buffer;
          assert !s.locals[t].urgent;
          hide Inv, NoneUrgent;
          assert s.linked + [b] == s.taken + (s.pending + [b]);
        }
      case Receive(_, _) =>
        hide Inv, NoneUrgent;
        if s.pending != [] { assert s.taken + s.pending == s.taken + [s.pending[0]] + s.pending[1..]; }
      case _ => hide Inv, NoneUrgent;
    }
  }

  lemma {:induction false} FifoRun(s: State, events: seq<Event>)
    requires Inv(s) && Fifo(s) && forall e :: e in events ==> Ordinary(e)
    ensures Fifo(Run(s, events))
    decreases |events|
  {
    if events != [] {
      assert events[0] in events;
      FifoStep(s, events[0]);
      StepInv(s, events[0]);
      hide Inv, Fifo, Ordinary, Step;
      FifoRun(Step(s, events[0]), events[1..]);
    }
  }

  /** Without urgent messages and resets, messages leave the queue in the order in which they were linked. */
  lemma FifoOrder(s: State, events: seq<Event>)
    requires Initial(s) && forall e :: e in events ==> Ordinary(e)
    ensures Inv(s) && var r := Run(s, events); r.linked == r.taken + r.pending
  {
    InitialInv(s);
    assert Fifo(s);
    FifoRun(s, events);
  }

  /** An urgent message is the next one to be received. */
  lemma UrgentFirst(s: State, t: nat, u: nat, size: nat)
    requires Inv(s) && t in s.locals && s.locals[t].Filled? && s.locals[t].urgent && u !in s.locals
    ensures Inv(Step(s, LinkIn(t)))
    ensures Step(Step(s, LinkIn(t)), Receive(u, size)).taken == s.taken + [s.locals[t].buffer]
    ensures Step(Step(s, LinkIn(t)), Receive(u, size)).pending == s.pending
  {
    LinkInInv(s, t);
    hide Inv;
    assert ([s.locals[t].buffer] + s.pending)[1..] == s.pending;
  }

  // ---- conservation of cells

  lemma {:induction false} DistinctCount(s: seq<nat>)
    requires Distinct(s)
    ensures |Elements(s)| == |s|
  {
    if s != [] {
      DistinctCount(s[1..]);
      assert s[0] !in s[1..];
      assert Elements(s) == {s[0]} + Elements(s[1..]);
    }
  }

  ghost function Cells(n: nat): (r: set<nat>)
    ensures |r| == n && forall c :: c in r <==> 1 <= c <= n
  {
    if n == 0 then {} else Cells(n - 1) + {n}
  }

  lemma UnionCount(a: set<nat>, b: set<nat>, c: set<nat>, d: set<nat>, u: set<nat>)
    requires a !! b && (a + b) !! c && (a + b + c) !! d && u == a + b + c + d
    ensures |u| == |a| + |b| + |c| + |d|
  {
    assert |a + b| == |a| + |b|;
    assert |a + b + c| == |a + b| + |c|;
  }

  lemma PoolUnion(m: Mq)
    requires |m.data| >= 1 && Partition(m)
    ensures var q, f := Elements(m.queue), Elements(m.free);
            && q !! f && (q + f) !! m.filling && (q + f + m.filling) !! m.draining
            && Cells(|m.data| - 1) == q + f + m.filling + m.draining
  {
    hide Distinct, Cells;
    var q, f, cells := Elements(m.queue), Elements(m.free), Cells(|m.data| - 1);
    assert forall c :: c in cells <==> c in q || c in f || c in m.filling || c in m.draining;
  }

  /** A send is refused exactly when all cells are queued or held by threads that are inside send or receive. */
  lemma CellsConserved(s: State)
    requires Inv(s)
    ensures |s.mq.free| + |s.mq.queue| + |s.mq.filling| + |s.mq.draining| == |s.mq.data| - 1
    ensures s.mq.free == [] <==> |s.mq.queue| + |s.mq.filling| + |s.mq.draining| == |s.mq.data| - 1
    ensures forall c :: c in s.mq.filling + s.mq.draining ==> HasOwner(s.locals, c)
  {
    var m := s.mq;
    assert Partition(m) && Distinct(m.queue) && Distinct(m.free);
    assert Owned(m, s.locals);
    hide Partition, Inv, Elements, Distinct, Cells, HasOwner, Apart;
    PoolUnion(m);
    DistinctCount(m.queue);
    DistinctCount(m.free);
    UnionCount(Elements(m.queue), Elements(m.free), m.filling, m.draining, Cells(|m.data| - 1));
  }
}
