/**
 * rtt/components/finsh/finsh_ops.c, dword operations only: the instructions of the stack machine,
 * their meaning, and their byte encoding.
 */
module FinshOps {
  import opened Wrappers
  import opened Bits

  const WORD: int := 0x1_0000_0000
  type u32 = x: int | 0 <= x < 0x1_0000_0000
  type byte = x: int | 0 <= x < 256

  /** Byte-addressed memory. */
  type Mem = u32 -> byte

  /** A system call: function address, parameters and memory to result and memory. */
  type Syscalls = (u32, seq<u32>, Mem) -> (u32, Mem)

  datatype BinOp = Add | Sub | Mul | Div | Mod | And | Or | Xor | Shl | Shr

  // ---- 32-bit arithmetic

  function Signed(v: u32): int { if v < 0x8000_0000 then v else v - WORD }

  function Unsigned(x: int): u32 { x % WORD }

  /** C division: towards zero. */
  function Quotient(a: int, b: int): int
    requires b != 0
  {
    var q := (if a < 0 then -a else a) / (if b < 0 then -b else b);
    if (a < 0) == (b < 0) then q else -q
  }

  lemma PowerPositive(n: nat)
    ensures Power(n) > 0
  {}

  /** One binary digit of a bitwise operation. */
  function Digit(op: BinOp, x: nat, y: nat): (d: nat)
    ensures d <= 1
  {
    match op
    case And => if x == 1 && y == 1 then 1 else 0
    case Or => if x == 1 || y == 1 then 1 else 0
    case _ => if x != y then 1 else 0
  }

  /** The lowest n digits of a bitwise operation. */
  function Digits(op: BinOp, a: nat, b: nat, n: nat): (r: nat)
    ensures r < Power(n)
  {
    if n == 0 then 0 else Digit(op, a % 2, b % 2) + 2 * Digits(op, a / 2, b / 2, n - 1)
  }

  function Bitwise(op: BinOp, a: u32, b: u32): u32 {
    WordSize();
    Digits(op, a, b, 32)
  }

  lemma WordSize()
    ensures Power(31) == 0x8000_0000 && Power(32) == WORD
  {
    assert Power(8) == 256;
    assert Power(16) == 65536;
    assert Power(24) == 16777216;
  }

  /** A division C defines: not by zero, and not of the least number by -1, whose quotient is no 32-bit number. */
  predicate Divides(a: u32, b: u32) { b != 0 && !(a == 0x8000_0000 && b == 0xFFFF_FFFF) }

  /**
   * OP_BIN_DWORD; sums, differences and products wrap. None for divisions C leaves undefined and for shift counts
   * outside 0..31.
   */
  function Apply(op: BinOp, a: u32, b: u32): Option<u32> {
    match op
    case Add => Some(Unsigned(a + b))
    case Sub => Some(Unsigned(a - b))
    case Mul => Some(Unsigned(a * b))
    case Div => if !Divides(a, b) then None else Some(Unsigned(Quotient(Signed(a), Signed(b))))
    case Mod => if !Divides(a, b) then None
                else Some(Unsigned(Signed(a) - Quotient(Signed(a), Signed(b)) * Signed(b)))
    case And => Some(Bitwise(op, a, b))
    case Or => Some(Bitwise(op, a, b))
    case Xor => Some(Bitwise(op, a, b))
    case Shl => if b >= 32 then None else Some(Unsigned(a * Power(b)))
    case Shr => if b >= 32 then None else (PowerPositive(b); Some(Unsigned(Signed(a) / Power(b))))
  }

  function Complement(a: u32): u32 { 0xFFFF_FFFF - a }

  // ---- little-endian operands and memory cells

  /** FINSH_SET32. */
  function Set32(v: u32): (b: seq<byte>)
    ensures |b| == 4
  {
    [v % 256, v / 256 % 256, v / 65536 % 256, v / 16777216]
  }

  /** FINSH_GET32. */
  function Get32(a: byte, b: byte, c: byte, d: byte): u32 {
    a + 256 * b + 65536 * c + 16777216 * d
  }

  predicate LowestFirst(v: int, a: int, b: int, c: int, d: int) {
    v == a + 0x100 * b + 0x10000 * c + 0x1000000 * d
  }

  lemma GetSet(v: u32)
    ensures var b := Set32(v);
            Get32(b[0], b[1], b[2], b[3]) == v && LowestFirst(v, b[0], b[1], b[2], b[3])
  {
    assert v / 65536 == v / 256 / 256 && v / 16777216 == v / 65536 / 256;
  }

  function Load(m: Mem, a: u32): u32 {
    Get32(m(a), m(Unsigned(a + 1)), m(Unsigned(a + 2)), m(Unsigned(a + 3)))
  }

  function Store(m: Mem, a: u32, v: u32): Mem {
    var b := Set32(v);
    (x: u32) => if Unsigned(x - a) < 4 then b[Unsigned(x - a)] else m(x)
  }

  lemma Offset(a: u32, c: u32, k: nat)
    requires k < 4
    ensures Unsigned(Unsigned(c + k) - a) == Unsigned(Unsigned(c - a) + k)
  {
    var d := if c >= a then c - a else c - a + WORD;
    assert Unsigned(c - a) == d;
    var e := if c + k < WORD then c + k else c + k - WORD;
    assert Unsigned(c + k) == e;
  }

  /** A cell is four bytes of memory, the lowest first, where addresses wrap. */
  predicate CellHolds(m: Mem, a: u32, v: u32) {
    LowestFirst(v, m(a), m((a + 1) % WORD), m((a + 2) % WORD), m((a + 3) % WORD))
  }

  lemma LoadCell(m: Mem, a: u32)
    ensures CellHolds(m, a, Load(m, a))
  {}

  lemma StoreCell(m: Mem, a: u32, v: u32)
    ensures CellHolds(Store(m, a, v), a, v)
  {
    LoadStore(m, a, v);
    LoadCell(Store(m, a, v), a);
    hide Store, Load, CellHolds;
  }

  /** A store changes no byte outside its cell. */
  lemma StoreOnly(m: Mem, a: u32, v: u32, x: u32)
    requires x != a && x != (a + 1) % WORD && x != (a + 2) % WORD && x != (a + 3) % WORD
    ensures Store(m, a, v)(x) == m(x)
  {
    var d := if x >= a then x - a else x - a + WORD;
    assert Unsigned(x - a) == d;
    hide Set32;
  }

  lemma LoadStore(m: Mem, a: u32, v: u32)
    ensures Load(Store(m, a, v), a) == v
  {
    GetSet(v);
    Offset(a, a, 1);
    Offset(a, a, 2);
    Offset(a, a, 3);
  }

  lemma CellElsewhere(m: Mem, a: u32, v: u32, c: u32, k: nat)
    requires 4 <= Unsigned(c - a) <= WORD - 4 && k < 4
    ensures Store(m, a, v)(Unsigned(c + k)) == m(Unsigned(c + k))
  {
    Offset(a, c, k);
  }

  /** A store leaves the cells that do not overlap it. */
  lemma LoadElsewhere(m: Mem, a: u32, v: u32, c: u32)
    requires 4 <= Unsigned(c - a) <= WORD - 4
    ensures Load(Store(m, a, v), c) == Load(m, c)
  {
    CellElsewhere(m, a, v, c, 0);
    CellElsewhere(m, a, v, c, 1);
    CellElsewhere(m, a, v, c, 2);
    CellElsewhere(m, a, v, c, 3);
    assert Unsigned(c) == c;
    hide Store, Set32, Get32, Unsigned;
  }

  // ---- the machine

  datatype Instr =
    | Noop
    | Ld(v: u32)
    | LdValue(a: u32)
    | LdValueStack
    | St
    | Pop
    | Bin(op: BinOp)
    | Not
    | Call(n: byte)

  /** The stack, top last, and memory. */
  datatype State = State(stack: seq<u32>, mem: Mem)

  const MAX_PARAMETERS := 16

  /** The parameters as the called function sees them: OP_call passes 0 when there are none. */
  function Parameters(p: seq<u32>): seq<u32> { if p == [] then [0] else p }

  /** One operation; None where the C code leaves the stack, or the result undefined. */
  function ExecInstr(sys: Syscalls, i: Instr, st: State): Option<State> {
    var s, n := st.stack, |st.stack|;
    match i
    case Noop => Some(st)
    case Ld(v) => Some(State(s + [v], st.mem))
    case LdValue(a) => Some(State(s + [Load(st.mem, a)], st.mem))
    case LdValueStack => if n < 1 then None else Some(State(s[..n - 1] + [Load(st.mem, s[n - 1])], st.mem))
    case St => if n < 2 then None else Some(State(s[..n - 1], Store(st.mem, s[n - 2], s[n - 1])))
    case Pop => if n < 1 then None else Some(State(s[..n - 1], st.mem))
    case Bin(op) =>
      if n < 2 then None
      else (match Apply(op, s[n - 2], s[n - 1]) case None => None case Some(v) => Some(State(s[..n - 2] + [v], st.mem)))
    case Not => if n < 1 then None else Some(State(s[..n - 1] + [Complement(s[n - 1])], st.mem))
    case Call(k) =>
      if k > MAX_PARAMETERS || n < k + 1 then None
      else
        var (r, m) := sys(s[n - k - 1], Parameters(s[n - k..]), st.mem);
        Some(State(s[..n - k - 1] + [r], m))
  }

  function Exec(sys: Syscalls, code: seq<Instr>, st: State): Option<State> {
    if code == [] then Some(st)
    else match ExecInstr(sys, code[0], st)
         case None => None
         case Some(st') => Exec(sys, code[1..], st')
  }

  lemma {:induction false} ExecConcat(sys: Syscalls, a: seq<Instr>, b: seq<Instr>, st: State)
    ensures Exec(sys, a + b, st) == match Exec(sys, a, st) case None => None case Some(st') => Exec(sys, b, st')
  {
    if a == [] {
      assert a + b == b;
    } else {
      assert (a + b)[1..] == a[1..] + b;
      match ExecInstr(sys, a[0], st)
      case None =>
      case Some(st') => ExecConcat(sys, a[1..], b, st');
    }
  }

  // ---- encoding, finsh_ops.h

  function Opcode(i: Instr): byte {
    match i
    case Noop => 0x00
    case Bin(op) => (match op
                     case Add => 0x03 case Sub => 0x06 case Div => 0x09 case Mod => 0x0C case Mul => 0x0F
                     case And => 0x12 case Or => 0x15 case Xor => 0x18 case Shl => 0x1E case Shr => 0x21)
    case Not => 0x1B
    case Ld(_) => 0x24
    case LdValue(_) => 0x27
    case St => 0x2A
    case Pop => 0x2B
    case Call(_) => 0x2C
    case LdValueStack => 0x2F
  }

  function Encode(i: Instr): (b: seq<byte>)
    ensures |b| >= 1
  {
    match i
    case Ld(v) => [Opcode(i)] + Set32(v)
    case LdValue(a) => [Opcode(i)] + Set32(a)
    case Call(n) => [Opcode(i), n]
    case _ => [Opcode(i)]
  }

  function EncodeAll(code: seq<Instr>): seq<byte> {
    if code == [] then [] else Encode(code[0]) + EncodeAll(code[1..])
  }

  lemma EncodeConcat(a: seq<Instr>, b: seq<Instr>)
    ensures EncodeAll(a + b) == EncodeAll(a) + EncodeAll(b)
  {
    if a == [] {
      assert a + b == b;
    } else {
      assert (a + b)[1..] == a[1..] + b;
    }
  }

  function SimpleOp(op: byte): Option<Instr> {
    match op
    case 0x00 => Some(Noop)
    case 0x03 => Some(Bin(Add))
    case 0x06 => Some(Bin(Sub))
    case 0x09 => Some(Bin(Div))
    case 0x0C => Some(Bin(Mod))
    case 0x0F => Some(Bin(Mul))
    case 0x12 => Some(Bin(And))
    case 0x15 => Some(Bin(Or))
    case 0x18 => Some(Bin(Xor))
    case 0x1B => Some(Not)
    case 0x1E => Some(Bin(Shl))
    case 0x21 => Some(Bin(Shr))
    case 0x2A => Some(St)
    case 0x2B => Some(Pop)
    case 0x2F => Some(LdValueStack)
    case _ => None
  }

  /** The instruction at pc of the text segment, if it is one of the modelled ones and lies within it. */
  function Decode(text: seq<byte>, pc: nat): Option<Instr>
    requires pc < |text|
  {
    var op := text[pc];
    if op == 0x24 || op == 0x27 then
      if pc + 4 < |text| then
        var v := Get32(text[pc + 1], text[pc + 2], text[pc + 3], text[pc + 4]);
        Some(if op == 0x24 then Ld(v) else LdValue(v))
      else None
    else if op == 0x2C then if pc + 1 < |text| then Some(Call(text[pc + 1])) else None
    else SimpleOp(op)
  }

  lemma DecodeEncode(pre: seq<byte>, i: Instr, post: seq<byte>)
    ensures Decode(pre + Encode(i) + post, |pre|) == Some(i)
  {
    var text, pc := pre + Encode(i) + post, |pre|;
    assert forall k :: 0 <= k < |Encode(i)| ==> text[pc + k] == Encode(i)[k];
    assert text[pc] == Encode(i)[0];
    match i {
      case Ld(v) => GetSet(v);
      case LdValue(a) => GetSet(a);
      case Bin(op) => assert SimpleOp(Opcode(i)) == Some(i);
      case _ =>
    }
  }

  /** The dispatch loop of finsh_vm_run, from pc to the end of the text segment. */
  function RunBytes(sys: Syscalls, text: seq<byte>, pc: nat, st: State): Option<State>
    decreases |text| - pc
  {
    if pc >= |text| then Some(st)
    else match Decode(text, pc)
         case None => None
         case Some(i) =>
           match ExecInstr(sys, i, st)
           case None => None
           case Some(st') => RunBytes(sys, text, pc + |Encode(i)|, st')
  }

  lemma {:induction false} RunZeros(sys: Syscalls, text: seq<byte>, pc: nat, st: State)
    requires forall k :: pc <= k < |text| ==> text[k] == 0
    ensures RunBytes(sys, text, pc, st) == Some(st)
    decreases |text| - pc
  {
    if pc < |text| { RunZeros(sys, text, pc + 1, st); }
  }

  /** Running encoded instructions, followed by zero bytes, is executing the instructions. */
  lemma {:induction false} RunEncoded(sys: Syscalls, pre: seq<byte>, code: seq<Instr>, post: seq<byte>, st: State)
    requires forall k :: 0 <= k < |post| ==> post[k] == 0
    ensures RunBytes(sys, pre + EncodeAll(code) + post, |pre|, st) == Exec(sys, code, st)
    decreases |code|
  {
    hide Decode, ExecInstr, Encode;
    var text := pre + EncodeAll(code) + post;
    if code == [] {
      assert text == pre + post;
      RunZeros(sys, text, |pre|, st);
    } else {
      var rest := EncodeAll(code[1..]) + post;
      assert text == pre + Encode(code[0]) + rest;
      DecodeEncode(pre, code[0], rest);
      match ExecInstr(sys, code[0], st)
      case None =>
      case Some(st') =>
        RunEncoded(sys, pre + Encode(code[0]), code[1..], post, st');
        assert pre + Encode(code[0]) + EncodeAll(code[1..]) + post == text;
    }
  }
}
