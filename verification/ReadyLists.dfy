/** rtt/src/scheduler.c: the ready lists, one for each priority, and the bitmaps that say which are not empty. */
module ReadyLists {
  import opened Bits
  import opened WaitList

  type Queues = seq<seq<Thread>>

  /** The ready bitmap: one word for up to 32 priorities, or a word over 32 bytes for up to 256. */
  datatype Bitmap = Bitmap(two: bool, group: nat, table: seq<nat>)

  function Limit(b: Bitmap): nat { if b.two then 256 else 32 }

  ghost predicate Words(b: Bitmap) {
    && b.group < 0x1_0000_0000
    && (b.two ==> |b.table| == 32 && (forall n :: 0 <= n < 32 ==> b.table[n] < 256))
  }

  /** The bit of one priority. */
  ghost predicate Marked(b: Bitmap, p: nat)
    requires Words(b) && p < Limit(b)
  {
    if b.two then Bit(b.table[p / 8], p % 8) else Bit(b.group, p)
  }

  /** Bits of the group say which bytes are not 0. */
  ghost predicate Grouped(b: Bitmap, n: nat)
    requires Words(b) && b.two && n < 32
  {
    Bit(b.group, n) <==> b.table[n] != 0
  }

  ghost predicate Agrees(b: Bitmap, q: Queues) {
    && Words(b) && |q| <= Limit(b)
    && (forall p {:trigger Marked(b, p)} :: 0 <= p < Limit(b) ==> (Marked(b, p) <==> p < |q| && q[p] != []))
    && (b.two ==> forall n {:trigger Grouped(b, n)} :: 0 <= n < 32 ==> Grouped(b, n))
  }

  // ---- rt_schedule_insert_thread and rt_schedule_remove_thread on the bitmap

  function Mark(b: Bitmap, p: nat): Bitmap
    requires b.two ==> p / 8 < |b.table|
  {
    if b.two then b.(table := b.table[p / 8 := SetBit(b.table[p / 8], p % 8)], group := SetBit(b.group, p / 8))
    else b.(group := SetBit(b.group, p))
  }

  function Unmark(b: Bitmap, p: nat): Bitmap
    requires b.two ==> p / 8 < |b.table|
  {
    if b.two then
      var byte := ClearBit(b.table[p / 8], p % 8);
      b.(table := b.table[p / 8 := byte], group := if byte == 0 then ClearBit(b.group, p / 8) else b.group)
    else b.(group := ClearBit(b.group, p))
  }

  lemma ByteBits(p: nat, r: nat)
    ensures p / 8 == r / 8 && p % 8 == r % 8 ==> p == r
    ensures p < 256 ==> p / 8 < 32
  {}

  lemma MarkedIs(b: Bitmap, p: nat, r: nat)
    requires Words(b) && p < Limit(b) && r < Limit(b)
    ensures Words(Mark(b, p)) && Words(Unmark(b, p))
    ensures Marked(Mark(b, p), r) <==> r == p || Marked(b, r)
    ensures Marked(Unmark(b, p), r) <==> r != p && Marked(b, r)
  {
    if b.two {
      ByteBits(p, r);
      var w := b.table[p / 8];
      SetBitBound(w, p % 8, 8);
      PowerSum(1, 1);
      PowerSum(2, 2);
      PowerSum(4, 4);
      SetBitSmall(b.group, p / 8);
      SetBitIs(w, p % 8, r % 8);
      ClearBitIs(w, p % 8, r % 8);
    } else {
      SetBitSmall(b.group, p);
      SetBitIs(b.group, p, r);
      ClearBitIs(b.group, p, r);
    }
    hide SetBit, ClearBit, Bit;
  }

  lemma GroupedIs(b: Bitmap, p: nat, n: nat)
    requires Words(b) && b.two && p < 256 && n < 32 && Grouped(b, n) && Words(Mark(b, p)) && Words(Unmark(b, p))
    ensures Grouped(Mark(b, p), n) && Grouped(Unmark(b, p), n)
  {
    SetBitIs(b.group, p / 8, n);
    ClearBitIs(b.group, p / 8, n);
    SetBitIs(b.table[p / 8], p % 8, p % 8);
    NoBits(p % 8);
    ClearBitZero(b.table[p / 8], p % 8);
    hide SetBit, ClearBit, Bit;
  }

  lemma {:induction false} ClearBitZero(w: nat, i: nat)
    ensures w == 0 ==> ClearBit(w, i) == 0
  {
    if i > 0 && w == 0 { ClearBitZero(0, i - 1); }
  }

  lemma MarkAgrees(b: Bitmap, q: Queues, p: nat, s: seq<Thread>)
    requires Agrees(b, q) && p < |q|
    ensures s != [] ==> Agrees(Mark(b, p), q[p := s])
    ensures s == [] ==> Agrees(Unmark(b, p), q[p := s])
    ensures q[p] != [] && s != [] ==> Agrees(b, q[p := s])
  {
    var c := if s != [] then Mark(b, p) else Unmark(b, p);
    MarkedIs(b, p, p);
    forall r | 0 <= r < Limit(b)
      ensures Marked(c, r) <==> r < |q| && q[p := s][r] != []
    {
      MarkedIs(b, p, r);
      assert Marked(b, r) <==> r < |q| && q[r] != [];
    }
    if b.two {
      forall n | 0 <= n < 32
        ensures Grouped(c, n)
      {
        assert Grouped(b, n);
        GroupedIs(b, p, n);
      }
    }
    if q[p] != [] && s != [] {
      forall r | 0 <= r < Limit(b)
        ensures Marked(b, r) <==> r < |q| && q[p := s][r] != []
      {
        assert Marked(b, r) <==> r < |q| && q[r] != [];
      }
    }
    hide Mark, Unmark, Marked, Grouped;
  }

  // ---- the most urgent list

  /** What rt_schedule computes from the bitmap. */
  function Highest(b: Bitmap): int
    requires b.group < 0x1_0000_0000 && (b.two ==> |b.table| == 32 && forall n :: 0 <= n < 32 ==> b.table[n] < 256)
  {
    if b.two then
      var number := Ffs(b.group) - 1;
      if 0 <= number < 32 then number * 8 + Ffs(b.table[number]) - 1 else -1
    else Ffs(b.group) - 1
  }

  ghost predicate MostUrgent(q: Queues, h: nat) {
    h < |q| && q[h] != [] && forall p :: 0 <= p < h ==> q[p] == []
  }

  /** Both bitmaps lead to the most urgent list that is not empty. */
  lemma HighestExact(b: Bitmap, q: Queues, p: nat)
    requires Agrees(b, q) && p < |q| && q[p] != []
    ensures Highest(b) >= 0 && MostUrgent(q, Highest(b))
  {
    if b.two { TwoLevelHighest(b, q, p); } else { OneLevelHighest(b, q, p); }
  }

  lemma OneLevelHighest(b: Bitmap, q: Queues, p: nat)
    requires Agrees(b, q) && !b.two && p < |q| && q[p] != []
    ensures Ffs(b.group) > 0 && MostUrgent(q, Ffs(b.group) - 1)
  {
    hide Ffs, Bit;
    assert Marked(b, p);
    NoBits(p);
    FfsExact(b.group, p);
    var h := Ffs(b.group) - 1;
    assert Marked(b, h);
    forall r | 0 <= r < h
      ensures r < |q| ==> q[r] == []
    {
      FfsExact(b.group, r);
      assert !Marked(b, r);
    }
  }

  lemma TwoLevelHighest(b: Bitmap, q: Queues, p: nat)
    requires Agrees(b, q) && b.two && p < |q| && q[p] != []
    ensures Highest(b) >= 0 && MostUrgent(q, Highest(b))
  {
    hide Ffs, Bit;
    assert Marked(b, p);
    ByteBits(p, p);
    NoBits(p % 8);
    assert Grouped(b, p / 8);
    FfsExact(b.group, p / 8);
    NoBits(p / 8);
    var number := Ffs(b.group) - 1;
    assert number <= p / 8 < 32 && Grouped(b, number);
    TwoLevels(b, q, number);
  }

  lemma TwoLevels(b: Bitmap, q: Queues, number: nat)
    requires Agrees(b, q) && b.two && number < 32 && b.group > 0 && number == Ffs(b.group) - 1 && b.table[number] > 0
    ensures Ffs(b.table[number]) > 0 && MostUrgent(q, number * 8 + Ffs(b.table[number]) - 1)
  {
    hide Ffs, Bit;
    var low := Ffs(b.table[number]) - 1;
    FfsExact(b.table[number], 0);
    LowBits(b.table[number], low);
    var h := number * 8 + low;
    assert h / 8 == number && h % 8 == low;
    assert Marked(b, h);
    forall r | 0 <= r < h && r < |q|
      ensures q[r] == []
    {
      FfsExact(b.group, r / 8);
      FfsExact(b.table[number], r % 8);
      assert r / 8 <= number;
      assert Grouped(b, r / 8);
      NoBits(r % 8);
      assert !Marked(b, r);
    }
  }

  lemma {:induction false} LowBits(w: nat, i: nat)
    requires w < 256 && Bit(w, i)
    ensures i < 8
  {
    BitSize(w, i, 8);
    PowerSum(1, 1);
    PowerSum(2, 2);
    PowerSum(4, 4);
  }

  lemma {:induction false} BitSize(w: nat, i: nat, n: nat)
    requires Bit(w, i)
    ensures w < Power(n) ==> i < n
    decreases n
  {
    if n == 0 { NoBits(i); } else if i > 0 { BitSize(w / 2, i - 1, n - 1); }
  }
}
