/** rtt/src/kservice.c, __rt_ffs, and the bit operations of the ready bitmaps; words are numbers. */
module Bits {
  predicate Bit(w: nat, i: nat) { if i == 0 then w % 2 == 1 else Bit(w / 2, i - 1) }

  /** w |= 1 << i */
  function SetBit(w: nat, i: nat): nat {
    if i == 0 then w - w % 2 + 1 else w % 2 + 2 * SetBit(w / 2, i - 1)
  }

  /** w &= ~(1 << i) */
  function ClearBit(w: nat, i: nat): nat {
    if i == 0 then w - w % 2 else w % 2 + 2 * ClearBit(w / 2, i - 1)
  }

  lemma {:induction false} SetBitIs(w: nat, i: nat, j: nat)
    ensures Bit(SetBit(w, i), j) <==> i == j || Bit(w, j)
    decreases i
  {
    var s := SetBit(w, i);
    if i > 0 && j > 0 {
      assert s / 2 == SetBit(w / 2, i - 1);
      SetBitIs(w / 2, i - 1, j - 1);
    } else if i == 0 && j > 0 {
      assert s / 2 == w / 2;
    }
  }

  lemma {:induction false} ClearBitIs(w: nat, i: nat, j: nat)
    ensures Bit(ClearBit(w, i), j) <==> i != j && Bit(w, j)
    decreases i
  {
    var s := ClearBit(w, i);
    if i > 0 && j > 0 {
      assert s / 2 == ClearBit(w / 2, i - 1);
      ClearBitIs(w / 2, i - 1, j - 1);
    } else if i == 0 && j > 0 {
      assert s / 2 == w / 2;
    }
  }

  // ---- the lowest bit

  function Lowest(w: nat): nat
    requires w > 0
  {
    if w % 2 == 1 then 0 else 1 + Lowest(w / 2)
  }

  lemma {:induction false} LowestIs(w: nat, i: nat)
    requires w > 0
    ensures Bit(w, Lowest(w)) && (Bit(w, i) ==> Lowest(w) <= i)
  {
    if w % 2 == 0 { LowestIs(w / 2, if i > 0 then i - 1 else 0); }
  }

  lemma {:induction false} NoBits(i: nat)
    ensures !Bit(0, i)
  {
    if i > 0 { NoBits(i - 1); }
  }

  const ROW_START: seq<nat> := [0, 4, 5, 4, 6, 4, 5, 4, 7, 4, 5, 4, 6, 4, 5, 4]
  const ROW_REST: seq<nat> := [0, 0, 1, 0, 2, 0, 1, 0, 3, 0, 1, 0, 2, 0, 1, 0]

  /** __lowest_bit_bitmap: its 16 rows of 16 differ in their first entries only. */
  function LowestBitmap(b: nat): nat
    requires b < 256
  {
    if b % 16 == 0 then ROW_START[b / 16] else ROW_REST[b % 16]
  }

  lemma LowNibble(r: nat)
    requires 0 < r < 16
    ensures ROW_REST[r] == Lowest(r) && ROW_START[r] == 4 + Lowest(r)
  {
    assert Lowest(1) == 0 && Lowest(2) == 1 && Lowest(4) == 2 && Lowest(8) == 3;
    assert Lowest(6) == 1 && Lowest(10) == 1 && Lowest(12) == 2 && Lowest(14) == 1;
  }

  lemma Shift2(w: nat)
    requires w > 0
    ensures if w % 4 == 0 then w / 4 > 0 && Lowest(w) == 2 + Lowest(w / 4) else Lowest(w) == Lowest(w % 4)
  {
    assert w / 2 / 2 == w / 4;
    assert Lowest(1) == 0 && Lowest(2) == 1 && Lowest(3) == 0;
    if w % 4 == 0 {
      assert Lowest(w) == 1 + Lowest(w / 2) && Lowest(w / 2) == 1 + Lowest(w / 2 / 2);
    } else if w % 2 == 0 {
      assert Lowest(w) == 1 + Lowest(w / 2) && w / 2 % 2 == 1;
    }
  }

  lemma {:induction false} Shift4(w: nat)
    requires w > 0
    ensures if w % 16 == 0 then w / 16 > 0 && Lowest(w) == 4 + Lowest(w / 16) else Lowest(w) == Lowest(w % 16)
  {
    Shift2(w);
    assert w / 4 / 4 == w / 16 && w % 16 % 4 == w % 4 && w % 16 / 4 == w / 4 % 4;
    if w % 4 == 0 { Shift2(w / 4); }
    if w % 16 != 0 { Shift2(w % 16); }
  }

  lemma {:induction false} Shift8(w: nat)
    requires w > 0
    ensures if w % 256 == 0 then w / 256 > 0 && Lowest(w) == 8 + Lowest(w / 256) else Lowest(w) == Lowest(w % 256)
  {
    Shift4(w);
    assert w / 16 / 16 == w / 256 && w % 256 % 16 == w % 16 && w % 256 / 16 == w / 16 % 16;
    if w % 16 == 0 { Shift4(w / 16); }
    if w % 256 != 0 { Shift4(w % 256); }
  }

  /** The table holds the lowest bit of every byte but 0. */
  lemma {:induction false} BitmapIs(b: nat)
    requires 0 < b < 256
    ensures LowestBitmap(b) == Lowest(b)
  {
    Shift4(b);
    if b % 16 == 0 { LowNibble(b / 16); } else { LowNibble(b % 16); }
  }

  /** __rt_ffs, byte by byte. */
  function Ffs(value: nat): nat
    requires value < 0x1_0000_0000
  {
    if value == 0 then 0
    else if value % 256 != 0 then LowestBitmap(value % 256) + 1
    else if value / 256 % 256 != 0 then LowestBitmap(value / 256 % 256) + 9
    else if value / 65536 % 256 != 0 then LowestBitmap(value / 65536 % 256) + 17
    else LowestBitmap(value / 16777216) + 25
  }

  /** __rt_ffs finds the lowest bit set, numbered from 1. */
  lemma {:induction false} FfsLowest(value: nat)
    requires 0 < value < 0x1_0000_0000
    ensures Ffs(value) == Lowest(value) + 1
  {
    Shift8(value);
    if value % 256 != 0 {
      BitmapIs(value % 256);
    } else {
      Shift8(value / 256);
      assert value / 256 / 256 == value / 65536;
      if value / 256 % 256 != 0 {
        BitmapIs(value / 256 % 256);
      } else {
        Shift8(value / 65536);
        assert value / 65536 / 256 == value / 16777216;
        if value / 65536 % 256 != 0 {
          BitmapIs(value / 65536 % 256);
        } else {
          BitmapIs(value / 16777216);
        }
      }
    }
  }

  /** Hence the bit it finds is set, and no lower one is. */
  lemma FfsExact(value: nat, i: nat)
    requires value < 0x1_0000_0000
    ensures value == 0 ==> Ffs(value) == 0 && !Bit(value, i)
    ensures value > 0 ==> Ffs(value) > 0 && Bit(value, Ffs(value) - 1) && (Bit(value, i) ==> Ffs(value) - 1 <= i)
  {
    hide Ffs;
    NoBits(i);
    if value > 0 {
      FfsLowest(value);
      LowestIs(value, i);
    }
    assert value == 0 ==> Ffs(value) == 0 by { FfsZero(); }
  }

  lemma FfsZero()
    ensures Ffs(0) == 0
  {}

  // ---- the size of words

  lemma {:induction false} SetBitSmall(w: nat, i: nat)
    requires w < 0x1_0000_0000 && i < 32
    ensures SetBit(w, i) < 0x1_0000_0000 && ClearBit(w, i) <= w
  {
    PowerSum(1, 1);
    PowerSum(2, 2);
    PowerSum(4, 4);
    PowerSum(8, 8);
    PowerSum(16, 16);
    SetBitBound(w, i, 32);
  }

  function Power(n: nat): nat { if n == 0 then 1 else 2 * Power(n - 1) }

  lemma {:induction false} PowerSum(a: nat, b: nat)
    ensures Power(a + b) == Power(a) * Power(b)
    decreases a
  {
    if a > 0 { PowerSum(a - 1, b); }
  }

  lemma {:induction false} SetBitBound(w: nat, i: nat, n: nat)
    requires w < Power(n) && i < n
    ensures SetBit(w, i) < Power(n) && ClearBit(w, i) <= w
    decreases n
  {
    hide Power, SetBit, ClearBit;
    PowerStep(n);
    Halves(w);
    if i > 0 {
      SetBitBound(w / 2, i - 1, n - 1);
      Halved(w, i);
    }
  }

  lemma PowerStep(n: nat)
    requires n > 0
    ensures Power(n) == 2 * Power(n - 1)
  {}

  lemma Halves(w: nat)
    ensures w == w % 2 + 2 * (w / 2) && w % 2 <= 1
    ensures SetBit(w, 0) == 2 * (w / 2) + 1 && ClearBit(w, 0) == 2 * (w / 2)
  {}

  lemma Halved(w: nat, i: nat)
    requires i > 0
    ensures SetBit(w, i) == w % 2 + 2 * SetBit(w / 2, i - 1) && ClearBit(w, i) == w % 2 + 2 * ClearBit(w / 2, i - 1)
  {}
}
