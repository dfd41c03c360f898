/**
 * What the dword operators of rtt/components/finsh/finsh_ops.c yield, as C has it for 32-bit signed numbers: a
 * relation between operands and result that does not compute, and the proof that Apply is the one function in it.
 */
module FinshArithmetic {
  import opened Wrappers
  import opened Arithmetic
  import opened Bits
  import opened FinshOps

  const LEAST: int := -0x8000_0000

  /** The signed reading is the one number of the signed range that the word is congruent to. */
  lemma SignedIs(v: u32, x: int)
    ensures Signed(v) == x <==> LEAST <= x < -LEAST && x % WORD == v
  {
    if LEAST <= x < 0 { assert (x + WORD) % WORD == x % WORD; }
  }

  // ---- sums, differences and products

  lemma Congruent(x: int, k: int)
    ensures (x + k * WORD) % WORD == x % WORD
  {
    var q, r := x / WORD, x % WORD;
    assert x + k * WORD == (q + k) * WORD + r;
    Remainder(q + k, r);
  }

  lemma Remainder(q: int, r: int)
    requires 0 <= r < WORD
    ensures (q * WORD + r) % WORD == r
  {}

  lemma SignedShift(v: u32) returns (k: int)
    ensures Signed(v) == v + k * WORD
  {
    k := if v < 0x8000_0000 then 0 else -1;
  }

  /** Sums, differences and products of the signed values, wrapped to 32 bits. */
  lemma WrappedIs(a: u32, b: u32)
    ensures Apply(Add, a, b) == Some((Signed(a) + Signed(b)) % WORD)
    ensures Apply(Sub, a, b) == Some((Signed(a) - Signed(b)) % WORD)
    ensures Apply(Mul, a, b) == Some(Signed(a) * Signed(b) % WORD)
  {
    var j := SignedShift(a);
    var k := SignedShift(b);
    Congruent(a + b, j + k);
    assert Signed(a) + Signed(b) == a + b + (j + k) * WORD;
    Congruent(a - b, j - k);
    assert Signed(a) - Signed(b) == a - b + (j - k) * WORD;
    var m := a * k + j * b + j * k * WORD;
    assert Signed(a) * Signed(b) == a * b + m * WORD by { Product(a, b, j, k); }
    Congruent(a * b, m);
  }

  lemma Product(a: int, b: int, j: int, k: int)
    ensures (a + j * WORD) * (b + k * WORD) == a * b + (a * k + j * b + j * k * WORD) * WORD
  {}

  // ---- division

  /** The quotient truncated towards zero, and its remainder. */
  lemma QuotientIs(a: int, b: int)
    requires b != 0
    ensures var q := Quotient(a, b); var r := a - q * b;
            -Abs(b) < r < Abs(b) && (r == 0 || (r < 0 <==> a < 0)) && Abs(q) <= Abs(a)
  {
    var n, m := Abs(a), Abs(b);
    var q, r := n / m, n % m;
    DivisionIdentity(n, m);
    Grows(m, q);
    Signs(q, m);
  }

  function Abs(x: int): int { if x < 0 then -x else x }

  /**
   * / and % fail exactly for a zero divisor and for the one quotient that is out of range. Otherwise they are the
   * quotient and remainder of the signed values, with the remainder smaller than the divisor and of the sign of
   * the dividend.
   */
  lemma DivisionIs(a: u32, b: u32)
    ensures Apply(Div, a, b) == None <==> Apply(Mod, a, b) == None
    ensures Apply(Div, a, b) == None <==> Signed(b) == 0 || (Signed(a) == LEAST && Signed(b) == -1)
    ensures Apply(Div, a, b) != None ==>
              var q, r := Signed(Apply(Div, a, b).value), Signed(Apply(Mod, a, b).value);
              q * Signed(b) + r == Signed(a) && Abs(r) < Abs(Signed(b)) && (r == 0 || (r < 0 <==> Signed(a) < 0))
  {
    if Divides(a, b) {
      var x, y := Signed(a), Signed(b);
      QuotientIs(x, y);
      var q := Quotient(x, y);
      QuotientRange(x, y);
      SignedIs(Unsigned(q), q);
      SignedIs(Unsigned(x - q * y), x - q * y);
    }
  }

  lemma QuotientRange(x: int, y: int)
    requires LEAST <= x < -LEAST && y != 0 && !(x == LEAST && y == -1)
    ensures LEAST <= Quotient(x, y) < -LEAST
  {
    QuotientIs(x, y);
    if Abs(y) > 1 { Halved(Abs(x), Abs(y)); }
  }

  lemma Halved(x: nat, y: nat)
    requires y > 1
    ensures x / y <= x / 2
  {
    var q := x / y;
    assert x == q * y + x % y;
    assert q * y >= q * 2 by { NotNegative(q, y - 2); }
  }

  // ---- bits

  /** A word is determined by its 32 bits. */
  lemma {:induction false} SameBits(a: nat, b: nat, n: nat)
    requires a < Power(n) && b < Power(n)
    requires forall i :: 0 <= i < n ==> (Bit(a, i) <==> Bit(b, i))
    ensures a == b
  {
    if n > 0 {
      assert Bit(a, 0) <==> Bit(b, 0);
      forall i | 0 <= i < n - 1 ensures Bit(a / 2, i) <==> Bit(b / 2, i) {
        assert Bit(a, i + 1) <==> Bit(b, i + 1);
      }
      SameBits(a / 2, b / 2, n - 1);
    }
  }

  /** The bit that &, | or ^ makes of two bits. */
  predicate Combined(op: BinOp, x: bool, y: bool) {
    match op
    case And => x && y
    case Or => x || y
    case _ => x != y
  }

  lemma {:induction false} DigitsBit(op: BinOp, a: nat, b: nat, n: nat, i: nat)
    requires op in {And, Or, Xor} && i < n
    ensures Bit(Digits(op, a, b, n), i) <==> Combined(op, Bit(a, i), Bit(b, i))
  {
    var r := Digits(op, a, b, n);
    assert r / 2 == Digits(op, a / 2, b / 2, n - 1) && r % 2 == Digit(op, a % 2, b % 2);
    if i > 0 { DigitsBit(op, a / 2, b / 2, n - 1, i - 1); }
  }

  /** &, | and ^, bit by bit. */
  lemma BitwiseIs(op: BinOp, a: u32, b: u32, i: nat)
    requires op in {And, Or, Xor} && i < 32
    ensures Apply(op, a, b).Some? && (Bit(Apply(op, a, b).value, i) <==> Combined(op, Bit(a, i), Bit(b, i)))
  {
    DigitsBit(op, a, b, 32, i);
  }

  lemma {:induction false} ComplementBit(a: nat, n: nat, i: nat)
    requires a < Power(n) && i < n
    ensures Bit(Power(n) - 1 - a, i) <==> !Bit(a, i)
  {
    assert (Power(n) - 1 - a) / 2 == Power(n - 1) - 1 - a / 2;
    if i > 0 { ComplementBit(a / 2, n - 1, i - 1); }
  }

  /** The complement turns every bit over. */
  lemma ComplementIs(a: u32, i: nat)
    requires i < 32
    ensures Bit(Complement(a), i) <==> !Bit(a, i)
  {
    WordSize();
    ComplementBit(a, 32, i);
  }

  /** v has every bit of a turned over. */
  ghost predicate Inverted(a: u32, v: u32) { forall i :: 0 <= i < 32 ==> (Bit(v, i) <==> !Bit(a, i)) }

  lemma ComplementExactly(a: u32, v: u32)
    ensures Inverted(a, v) <==> v == Complement(a)
  {
    WordSize();
    hide Bit, Complement;
    forall i | 0 <= i < 32 ensures Bit(Complement(a), i) <==> !Bit(a, i) {
      ComplementIs(a, i);
    }
    if Inverted(a, v) { SameBits(v, Complement(a), 32); }
  }

  // ---- shifts

  lemma {:induction false} LowBits(x: nat, n: nat, i: nat)
    ensures Power(n) > 0
    ensures Bit(x % Power(n), i) <==> i < n && Bit(x, i)
    decreases n
  {
    if n == 0 {
      NoBits(i);
    } else {
      LowBits(x / 2, n - 1, if i > 0 then i - 1 else 0);
      var p, h := Power(n - 1), x / 2;
      var q, r := h / p, h % p;
      assert x == q * (2 * p) + (2 * r + x % 2);
      assert x % Power(n) == 2 * r + x % 2 by { RemainderIs(x, 2 * p, q, 2 * r + x % 2); }
      assert (x % Power(n)) / 2 == r;
    }
  }

  lemma {:induction false} ShiftedBit(x: nat, b: nat, i: nat)
    ensures Bit(x * Power(b), i) <==> i >= b && Bit(x, i - b)
    decreases b
  {
    if b > 0 {
      var y := x * Power(b - 1);
      assert x * Power(b) == 2 * y;
      if i > 0 { ShiftedBit(x, b - 1, i - 1); }
    }
  }

  /** << fails exactly for counts of 32 and more; bit i of its result is bit i - b of the operand. */
  lemma ShlIs(a: u32, b: u32, i: nat)
    requires i < 32
    ensures Apply(Shl, a, b) == None <==> b >= 32
    ensures b < 32 ==> (Bit(Apply(Shl, a, b).value, i) <==> i >= b && Bit(a, i - b))
  {
    if b < 32 {
      WordSize();
      LowBits(a * Power(b), 32, i);
      ShiftedBit(a, b, i);
    }
  }

  /** >> fails exactly for such counts; its result is the floor of the signed operand over the power of 2. */
  lemma ShrIs(a: u32, b: u32)
    ensures Apply(Shr, a, b) == None <==> b >= 32
    ensures b < 32 ==>
              var r := Signed(Apply(Shr, a, b).value);
              Power(b) * r <= Signed(a) < Power(b) * (r + 1)
  {
    if b < 32 {
      PowerPositive(b);
      var p, x := Power(b), Signed(a);
      var q := x / p;
      SignedIs(a, x);
      hide Power, Signed;
      DivisionIdentity(x, p);
      ShiftedRange(x, p, q);
      SignedIs(Unsigned(q), q);
      Distribute(p, q);
    }
  }

  lemma ShiftedRange(x: int, p: int, q: int)
    requires p > 0 && LEAST <= x < -LEAST && 0 <= x - p * q < p
    ensures LEAST <= q < -LEAST
  {
    Grows(p, q);
    Grows(p, q + 1);
    Distribute(p, q);
  }

  // ---- all operators

  /** The operands for which C defines a result. */
  predicate Defined(op: BinOp, a: u32, b: u32) {
    match op
    case Div => Signed(b) != 0 && !(Signed(a) == LEAST && Signed(b) == -1)
    case Mod => Signed(b) != 0 && !(Signed(a) == LEAST && Signed(b) == -1)
    case Shl => b < 32
    case Shr => b < 32
    case _ => true
  }

  /** Division that leaves a remainder nearer to 0 than the divisor and of the sign of the dividend. */
  predicate Divided(x: int, y: int, q: int, r: int) {
    q * y + r == x && Abs(r) < Abs(y) && (r == 0 || (r < 0 <==> x < 0))
  }

  /** v is the result of the operator. */
  ghost predicate Yields(op: BinOp, a: u32, b: u32, v: u32) {
    var x, y, z := Signed(a), Signed(b), Signed(v);
    match op
    case Add => v == (x + y) % WORD
    case Sub => v == (x - y) % WORD
    case Mul => v == x * y % WORD
    case Div => Divided(x, y, z, x - z * y)
    case Mod => exists q :: Divided(x, y, q, z)
    case And => forall i :: 0 <= i < 32 ==> (Bit(v, i) <==> Bit(a, i) && Bit(b, i))
    case Or => forall i :: 0 <= i < 32 ==> (Bit(v, i) <==> Bit(a, i) || Bit(b, i))
    case Xor => forall i :: 0 <= i < 32 ==> (Bit(v, i) <==> Bit(a, i) != Bit(b, i))
    case Shl => forall i :: 0 <= i < 32 ==> (Bit(v, i) <==> i >= b && Bit(a, i - b))
    case Shr => Power(b) * z <= x < Power(b) * (z + 1)
  }

  /** Apply fails exactly where C defines no result, and its value is what the operator yields. */
  lemma ApplyYields(op: BinOp, a: u32, b: u32)
    ensures Apply(op, a, b).Some? <==> Defined(op, a, b)
    ensures Defined(op, a, b) ==> Yields(op, a, b, Apply(op, a, b).value)
  {
    hide Apply, Bit, Signed, Power;
    match op
    case Add | Sub | Mul => WrappedIs(a, b);
    case Div | Mod => DivisionYields(a, b);
    case Shr => ShrIs(a, b);
    case Shl => ShlYields(a, b);
    case _ => BitwiseYields(op, a, b);
  }

  lemma DivisionYields(a: u32, b: u32)
    ensures Apply(Div, a, b).Some? <==> Defined(Div, a, b)
    ensures Apply(Mod, a, b).Some? <==> Defined(Mod, a, b)
    ensures Defined(Div, a, b) ==> Yields(Div, a, b, Apply(Div, a, b).value) && Yields(Mod, a, b, Apply(Mod, a, b).value)
  {
    hide Apply, Bit, Signed, Power, Abs;
    DivisionIs(a, b);
    if Defined(Div, a, b) {
      var q, r := Signed(Apply(Div, a, b).value), Signed(Apply(Mod, a, b).value);
      assert Divided(Signed(a), Signed(b), q, r);
      assert r == Signed(a) - q * Signed(b);
    }
  }

  lemma ShlYields(a: u32, b: u32)
    ensures Apply(Shl, a, b).Some? <==> Defined(Shl, a, b)
    ensures Defined(Shl, a, b) ==> Yields(Shl, a, b, Apply(Shl, a, b).value)
  {
    hide Apply, Bit, Signed, Power;
    ShlIs(a, b, 0);
    forall i | 0 <= i < 32 && b < 32
      ensures Bit(Apply(Shl, a, b).value, i) <==> i >= b && Bit(a, i - b)
    {
      ShlIs(a, b, i);
    }
  }

  lemma BitwiseYields(op: BinOp, a: u32, b: u32)
    requires op in {And, Or, Xor}
    ensures Apply(op, a, b).Some? && Yields(op, a, b, Apply(op, a, b).value)
  {
    hide Apply, Bit, Signed, Power;
    BitwiseIs(op, a, b, 0);
    forall i | 0 <= i < 32
      ensures Bit(Apply(op, a, b).value, i) <==> Combined(op, Bit(a, i), Bit(b, i))
    {
      BitwiseIs(op, a, b, i);
    }
  }

  /** No operator yields two results. */
  lemma YieldsOnce(op: BinOp, a: u32, b: u32, v: u32, w: u32)
    requires Defined(op, a, b) && Yields(op, a, b, v) && Yields(op, a, b, w)
    ensures v == w
  {
    var x, y := Signed(a), Signed(b);
    SignedIs(v, Signed(v));
    SignedIs(w, Signed(w));
    WordSize();
    hide Signed, Bit, Divided, Power;
    match op
    case Add | Sub | Mul =>
    case Div => DividedOnce(x, y, Signed(v), x - Signed(v) * y, Signed(w), x - Signed(w) * y);
    case Mod =>
      var q :| Divided(x, y, q, Signed(v));
      var p :| Divided(x, y, p, Signed(w));
      DividedOnce(x, y, q, Signed(v), p, Signed(w));
    case Shr =>
      PowerPositive(b);
      Bracketed(x, Power(b), Signed(v), Signed(w));
    case _ => SameBits(v, w, 32);
  }

  lemma Bracketed(x: int, p: int, q: int, r: int)
    requires p > 0 && p * q <= x < p * (q + 1) && p * r <= x < p * (r + 1)
    ensures q == r
  {
    Distribute(p, q);
    Distribute(p, r);
    Subtract(q, r, p);
    Grows(p, q - r);
    Grows(p, r - q);
    Subtract(r, q, p);
  }

  lemma DividedOnce(x: int, y: int, q: int, r: int, p: int, t: int)
    requires y != 0 && Divided(x, y, q, r) && Divided(x, y, p, t)
    ensures q == p && r == t
  {
    Subtract(q, p, y);
    Apart(q - p, y);
  }

  lemma Apart(k: int, y: int)
    requires y != 0 && (k != 0 ==> Abs(y * k) < Abs(y))
    ensures k == 0
  {
    var m := Abs(y);
    Signs(y, k);
    Signs(k, y);
    Grows(m, Abs(k) - 1);
    Distribute(m, Abs(k) - 1);
  }

  /** Hence Apply is the operator: it has value v exactly if the operator is defined and yields v. */
  lemma ApplyExactly(op: BinOp, a: u32, b: u32, v: u32)
    ensures Apply(op, a, b) == Some(v) <==> Defined(op, a, b) && Yields(op, a, b, v)
  {
    ApplyYields(op, a, b);
    if Defined(op, a, b) && Yields(op, a, b, v) { YieldsOnce(op, a, b, v, Apply(op, a, b).value); }
  }
}
