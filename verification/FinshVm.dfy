/**
 * rtt/components/finsh: the code generator writing into the text segment, and the machine running it,
 * on the arrays the C code uses.
 */
module FinshVm {
  import opened Wrappers
  import opened FinshOps
  import opened FinshArithmetic
  import opened FinshCompiler
  import opened FinshMeaning

  const FINSH_TEXT_MAX := 128
  const FINSH_STACK_MAX := 64

  // ---- finsh_compiler.c

  lemma {:induction false} EncodeSnoc(code: seq<Instr>, i: Instr)
    ensures EncodeAll(code + [i]) == EncodeAll(code) + Encode(i)
  {
    EncodeConcat(code, [i]);
    assert EncodeAll([i]) == Encode(i) + EncodeAll([i][1..]) == Encode(i) + [];
  }

  lemma {:induction false} Prefix(a: seq<Instr>, b: seq<Instr>, c: seq<Instr>)
    ensures |EncodeAll(a + b)| == |EncodeAll(a)| + |EncodeAll(b)|
    ensures |EncodeAll(a + b + c)| == |EncodeAll(a)| + |EncodeAll(b)| + |EncodeAll(c)|
  {
    EncodeConcat(a + b, c);
    EncodeConcat(a, b);
  }

  lemma {:induction false} EncodeFour(code: seq<Instr>, a: Instr, b: Instr, c: Instr, d: Instr)
    ensures |EncodeAll(code + [a])| == |EncodeAll(code)| + |Encode(a)|
    ensures |EncodeAll(code + [a] + [b])| == |EncodeAll(code)| + |Encode(a)| + |Encode(b)|
    ensures |EncodeAll(code + [a] + [b] + [c])| == |EncodeAll(code)| + |Encode(a)| + |Encode(b)| + |Encode(c)|
    ensures |EncodeAll(code + [a] + [b] + [c] + [d])|
            == |EncodeAll(code)| + |Encode(a)| + |Encode(b)| + |Encode(c)| + |Encode(d)|
    ensures code + [a] + [b] + [c] + [d] == code + [a, b, c, d]
  {
    hide *;
    EncodeSnoc(code, a);
    EncodeSnoc(code + [a], b);
    EncodeSnoc(code + [a] + [b], c);
    EncodeSnoc(code + [a] + [b] + [c], d);
  }

  lemma {:induction false} SizeTwo(a: Instr, b: Instr)
    ensures |EncodeAll([a])| == |Encode(a)| && |EncodeAll([a, b])| == |Encode(a)| + |Encode(b)|
  {
    assert EncodeAll([]) == [];
    hide *;
    EncodeFour([], a, b, a, b);
    assert [] + [a] == [a] && [] + [a] + [b] == [a, b];
  }

  lemma {:induction false} SizeSix(a: Instr, b: Instr, c: Instr, d: Instr, e: Instr, f: Instr)
    ensures |EncodeAll([a, b, c, d, e])| == |Encode(a)| + |Encode(b)| + |Encode(c)| + |Encode(d)| + |Encode(e)|
    ensures |EncodeAll([a, b, c, d, e, f])|
            == |Encode(a)| + |Encode(b)| + |Encode(c)| + |Encode(d)| + |Encode(e)| + |Encode(f)|
  {
    assert EncodeAll([]) == [];
    hide *;
    EncodeFour([], a, b, c, d);
    EncodeSnoc([] + [a, b, c, d], e);
    EncodeSnoc([] + [a, b, c, d] + [e], f);
    assert [] + [a, b, c, d] + [e] == [a, b, c, d, e];
    assert [] + [a, b, c, d] + [e] + [f] == [a, b, c, d, e, f];
  }

  lemma {:induction false} NodeCodeSize(node: Node)
    requires node.Node?
    ensures NodeCode(node) == [] || |NodeCode(node)| == 1 ==>
              |EncodeAll(NodeCode(node))| == if NodeCode(node) == [] then 0 else |Encode(NodeCode(node)[0])|
    ensures NodeCode(node) != [] && node.kind.NodeAssign? ==> |EncodeAll(NodeCode(node))| == 2
    ensures NodeCode(node) != [] && (node.kind.NodePreInc? || node.kind.NodePreDec?) ==> |EncodeAll(NodeCode(node))| == 13
    ensures NodeCode(node) != [] && (node.kind.NodeInc? || node.kind.NodeDec?) ==> |EncodeAll(NodeCode(node))| == 18
  {
    hide Encode, EncodeAll;
    NoSize();
    InstrSizes();
    var code := NodeCode(node);
    if |code| == 1 {
      OneSize(code[0]);
      assert code == [code[0]];
    } else if |code| == 2 {
      SizeTwo(St, LdValueStack);
    } else if |code| == 5 {
      assert code == [code[0], code[1], code[2], code[3], code[4]];
      SizeSix(code[0], code[1], code[2], code[3], code[4], Pop);
    } else if |code| == 6 {
      assert code == [code[0], code[1], code[2], code[3], code[4], code[5]];
      SizeSix(code[0], code[1], code[2], code[3], code[4], code[5]);
    }
  }

  lemma NoSize()
    ensures EncodeAll([]) == []
  {}

  lemma OneSize(i: Instr)
    ensures EncodeAll([i]) == Encode(i)
  {
    hide Encode;
    assert EncodeAll([]) == [] && [i][1..] == [];
  }

  lemma InstrSizes()
    ensures forall i: Instr :: |Encode(i)| == if i.Ld? || i.LdValue? then 5 else if i.Call? then 2 else 1
  {}

  lemma Pieces<T>(a: seq<T>, b: seq<T>, c: seq<T>, d: seq<T>)
    ensures a + [] == a && a + b + [] == a + b && a + b + c + [] == a + b + c
    ensures a + b + c + d == a + (b + c + d)
  {}

  class Compiler {
    const text: array<byte>
    var pc: nat
    ghost var code: seq<Instr>

    ghost predicate Clean()
      reads this, text
    {
      text.Length == FINSH_TEXT_MAX && pc <= FINSH_TEXT_MAX && forall k :: pc <= k < FINSH_TEXT_MAX ==> text[k] == 0
    }

    /** The text segment holds the instructions emitted so far, and zeros. */
    ghost predicate Valid()
      reads this, text
    {
      Clean() && pc == |EncodeAll(code)| && text[..pc] == EncodeAll(code)
    }

    constructor ()
      ensures Valid() && fresh(text) && code == []
    {
      text := new byte[FINSH_TEXT_MAX](_ => 0);
      pc := 0;
      code := [];
    }

    /** finsh_code_byte */
    method CodeByte(b: byte)
      requires Clean() && pc < FINSH_TEXT_MAX
      modifies this`pc, text
      ensures Clean() && pc == old(pc) + 1 && text[..pc] == old(text[..pc]) + [b]
    {
      text[pc] := b;
      pc := pc + 1;
    }

    /** finsh_code_dword */
    method CodeDword(v: u32)
      requires Clean() && pc + 4 <= FINSH_TEXT_MAX
      modifies this`pc, text
      ensures Clean() && pc == old(pc) + 4 && text[..pc] == old(text[..pc]) + Set32(v)
      ensures LowestFirst(v, text[pc - 4], text[pc - 3], text[pc - 2], text[pc - 1])
    {
      GetSet(v);
      var b := Set32(v);
      text[pc], text[pc + 1], text[pc + 2], text[pc + 3] := b[0], b[1], b[2], b[3];
      pc := pc + 4;
      hide Set32;
    }

    /** One operation byte and its operand. */
    method Emit(i: Instr)
      requires Valid() && pc + |Encode(i)| <= FINSH_TEXT_MAX
      modifies this`pc, this`code, text
      ensures Valid() && code == old(code) + [i] && pc == old(pc) + |Encode(i)|
    {
      ghost var before := text[..pc];
      assert before == EncodeAll(code);
      CodeByte(Opcode(i));
      match i {
        case Ld(v) => CodeDword(v);
        case LdValue(a) => CodeDword(a);
        case Call(n) => CodeByte(n);
        case _ =>
      }
      assert text[..pc] == before + Encode(i);
      EncodeSnoc(code, i);
      code := code + [i];
      hide Encode, EncodeAll, Opcode;
    }

    /** The common part of the four increments: load the variable and 1, operate, store. */
    method EmitStep(x: u32, op: BinOp)
      requires Valid() && pc + 12 <= FINSH_TEXT_MAX
      modifies this`pc, this`code, text
      ensures Valid() && code == old(code) + [LdValue(x), Ld(1), Bin(op), St] && pc == old(pc) + 12
    {
      EncodeFour(code, LdValue(x), Ld(1), Bin(op), St);
      Emit(LdValue(x));
      Emit(Ld(1));
      Emit(Bin(op));
      Emit(St);
      assert code == old(code) + [LdValue(x), Ld(1), Bin(op), St];
    }

    /** The four increments: before the operand's value is pushed again, or after it was pushed. */
    method EmitIncrement(x: u32, op: BinOp, after: bool)
      requires Valid() && pc + (if after then 18 else 13) <= FINSH_TEXT_MAX
      modifies this`pc, this`code, text
      ensures Valid()
      ensures code == old(code) + if after then [Ld(x), LdValue(x), Ld(1), Bin(op), St, Pop]
                                  else [LdValue(x), Ld(1), Bin(op), St, LdValueStack]
    {
      if after {
        Emit(Ld(x));
        EmitStep(x, op);
        Emit(Pop);
        hide *;
        assert code == old(code) + [Ld(x), LdValue(x), Ld(1), Bin(op), St, Pop];
      } else {
        EmitStep(x, op);
        Emit(LdValueStack);
        hide *;
        assert code == old(code) + [LdValue(x), Ld(1), Bin(op), St, LdValueStack];
      }
    }

    /** The number of actual parameters of a call node. */
    method CountSiblings(first: Node) returns (parameters: nat)
      ensures parameters == Siblings(first)
    {
      var sibling := first;
      parameters := 0;
      while sibling.Node?
        invariant parameters + Siblings(sibling) == Siblings(first)
        decreases sibling
      {
        parameters, sibling := parameters + 1, sibling.sibling;
      }
    }

    /** The switch of finsh_compile. */
    method EmitNode(node: Node)
      requires Valid() && node.Node? && pc + |EncodeAll(NodeCode(node))| <= FINSH_TEXT_MAX
      modifies this`pc, this`code, text
      ensures Valid() && code == old(code) + NodeCode(node)
    {
      var child := node.child;
      NodeCodeSize(node);
      match node.kind {
        case NodeId =>
          if node.id.IdSyscall? || node.address { Emit(Ld(node.value)); } else { Emit(LdValue(node.value)); }
        case NodeLong => Emit(Ld(node.value));
        case NodeBin(op) => if node.dataType.Dword? { Emit(Bin(op)); }
        case NodeBitwise => if node.dataType.Dword? { Emit(Not); }
        case NodeFunc =>
          if child.Node? {
            var parameters := CountSiblings(child.sibling);
            Emit(Instr.Call(parameters % 256));
          }
        case NodeAssign =>
          if child.Node? && (child.kind.NodeId? || child.kind.NodeGetValue?) && child.dataType.Dword? {
            Emit(St);
            Emit(LdValueStack);
            assert code == old(code) + [St, LdValueStack];
          }
        case NodePreInc =>
          if child.Node? && child.kind.NodeId? && node.dataType.Dword? { EmitIncrement(child.value, Add, false); }
        case NodePreDec =>
          if child.Node? && child.kind.NodeId? && node.dataType.Dword? { EmitIncrement(child.value, Sub, false); }
        case NodeInc =>
          if child.Node? && child.kind.NodeId? && node.dataType.Dword? { EmitIncrement(child.value, Add, true); }
        case NodeDec =>
          if child.Node? && child.kind.NodeId? && node.dataType.Dword? { EmitIncrement(child.value, Sub, true); }
        case NodeGetValue =>
          if !node.address && node.dataType.Dword? { Emit(LdValueStack); }
        case NodeGetAddr =>
      }
      assert NodeCode(node) == [] ==> old(code) + NodeCode(node) == old(code);
    }

    /** finsh_compile: child, node, sibling. */
    method Compile(node: Node)
      requires Valid() && pc + |EncodeAll(Code(node))| <= FINSH_TEXT_MAX
      modifies this`pc, this`code, text
      ensures Valid() && code == old(code) + Code(node)
      decreases node
    {
      if node.Null? {
        assert code == code + [];
        return;
      }
      ghost var before, c1, c2, c3 := code, Code(node.child), NodeCode(node), Code(node.sibling);
      assert Code(node) == c1 + c2 + c3;
      assert node.child.Null? ==> c1 == [];
      assert node.sibling.Null? ==> c3 == [];
      assert pc == |EncodeAll(before)|;
      hide Code, NodeCode, EncodeAll, Clean;
      Prefix(c1, c2, c3);
      Prefix(before, c1, c2);
      Pieces(before, c1, c2, c3);
      if node.child.Node? { Compile(node.child); }
      assert pc == |EncodeAll(code)|;
      EmitNode(node);
      assert pc == |EncodeAll(code)|;
      if node.sibling.Node? { Compile(node.sibling); }
    }

    /** finsh_compiler_run: every statement on its own, its value popped if another statement follows. */
    method Run(node: Node)
      requires Valid() && code == []
      requires |EncodeAll(ProgramCode(TypeCheck(node, false)))| <= FINSH_TEXT_MAX
      modifies this`pc, this`code, text
      ensures Valid() && code == ProgramCode(TypeCheck(node, false))
    {
      var sibling := TypeCheck(node, false);
      ghost var goal := ProgramCode(sibling);
      assert code + goal == goal;
      assert goal + [] == goal;
      while sibling.Node?
        invariant Valid() && code + ProgramCode(sibling) == goal
        decreases sibling
      {
        var current := sibling;
        sibling := current.sibling;
        ghost var c1, c2, c3 := Code(current.(sibling := Null)), if sibling.Node? then [Pop] else [], ProgramCode(sibling);
        assert ProgramCode(current) == c1 + c2 + c3;
        assert EncodeAll([]) == [];
        hide ProgramCode, TypeCheck, Code, EncodeAll, Clean;
        Pieces(code, c1, c2, c3);
        Prefix(code + c1, c2, c3);
        Prefix(code, c1, c2);
        SizeTwo(Pop, Pop);
        Compile(current.(sibling := Null));
        if sibling.Node? { Emit(Pop); }
      }
      assert ProgramCode(Null) == [] && code + [] == code;
    }
  }

  // ---- finsh_ops.c and finsh_vm.c

  lemma SimpleSize(op: byte)
    ensures SimpleOp(op).Some? ==> |Encode(SimpleOp(op).value)| == 1
    ensures op == 0x24 || op == 0x27 || op == 0x2C ==> SimpleOp(op).None?
  {}

  lemma CallNeeds(sys: Syscalls, st: State)
    ensures forall n: byte :: n > MAX_PARAMETERS || |st.stack| < n + 1 ==> ExecInstr(sys, Instr.Call(n), st) == None
  {}

  lemma RunStep(sys: Syscalls, text: seq<byte>, pc: nat, st: State)
    requires pc < |text|
    ensures RunBytes(sys, text, pc, st) ==
            match Decode(text, pc)
            case None => None
            case Some(i) =>
              match ExecInstr(sys, i, st) case None => None case Some(st') => RunBytes(sys, text, pc + |Encode(i)|, st')
    ensures Decode(text, pc).Some? ==> pc + |Encode(Decode(text, pc).value)| <= |text|
  {
    SimpleSize(text[pc]);
    hide SimpleOp, ExecInstr;
  }

  class Vm {
    const stack: array<u32>
    const text: array<byte>
    const sys: Syscalls
    var sp: nat
    var pc: nat
    var mem: Mem

    ghost predicate Valid()
      reads this, stack, text
    {
      stack.Length == FINSH_STACK_MAX && text.Length == FINSH_TEXT_MAX && sp <= stack.Length
    }

    ghost function View(): State
      requires Valid()
      reads this, stack, text
    {
      State(stack[..sp], mem)
    }

    constructor (text: array<byte>, sys: Syscalls, mem: Mem)
      requires text.Length == FINSH_TEXT_MAX
      ensures Valid() && this.text == text && this.sys == sys && this.mem == mem && fresh(stack)
    {
      stack := new u32[FINSH_STACK_MAX](_ => 0);
      this.text := text;
      this.sys := sys;
      this.mem := mem;
      sp, pc := 0, 0;
    }

    /** The constant of OP_ld_dword and OP_ld_value_dword. */
    method Operand() returns (v: u32)
      requires Valid() && pc + 4 <= text.Length
      modifies this`pc
      ensures v == Get32(text[old(pc)], text[old(pc) + 1], text[old(pc) + 2], text[old(pc) + 3]) && pc == old(pc) + 4
      ensures LowestFirst(v, text[pc - 4], text[pc - 3], text[pc - 2], text[pc - 1])
    {
      v := Get32(text[pc], text[pc + 1], text[pc + 2], text[pc + 3]);
      pc := pc + 4;
    }

    method Push(v: u32)
      requires Valid() && sp < stack.Length
      modifies this`sp, stack
      ensures Valid() && View() == State(old(View().stack) + [v], mem) && sp == old(sp) + 1
    {
      stack[sp] := v;
      sp := sp + 1;
    }

    /** OP_ld_dword, and with value set OP_ld_value_dword */
    method PushOperand(value: bool)
      requires Valid() && pc + 4 <= text.Length && sp < stack.Length
      modifies this`pc, this`sp, stack
      ensures Valid() && pc == old(pc) + 4 && sp == old(sp) + 1
      ensures var v := Get32(text[old(pc)], text[old(pc) + 1], text[old(pc) + 2], text[old(pc) + 3]);
              ExecInstr(sys, if value then LdValue(v) else Ld(v), old(View())) == Some(View())
    {
      hide FinshOps.Apply, Load, Store, Complement, LowestFirst, Get32;
      var v := Operand();
      if value { Push(Load(mem, v)); } else { Push(v); }
    }

    /** OP_ld_value_dword_stack */
    method LdValueDwordStack()
      requires Valid() && sp >= 1
      modifies stack
      ensures Valid() && ExecInstr(sys, LdValueStack, old(View())) == Some(View())
      ensures stack[sp - 1] == Load(mem, old(stack[sp - 1])) && stack[..sp - 1] == old(stack[..sp - 1])
    {
      ghost var s := stack[..sp];
      stack[sp - 1] := Load(mem, stack[sp - 1]);
      assert stack[..sp] == s[..|s| - 1] + [Load(mem, s[|s| - 1])];
      hide Load;
    }

    /** OP_bitwise_dword */
    method BitwiseDword()
      requires Valid() && sp >= 1
      modifies stack
      ensures Valid() && ExecInstr(sys, Not, old(View())) == Some(View())
      ensures Inverted(old(stack[sp - 1]), stack[sp - 1]) && stack[..sp - 1] == old(stack[..sp - 1])
    {
      hide Inverted, Complement;
      ComplementExactly(stack[sp - 1], Complement(stack[sp - 1]));
      ghost var s := stack[..sp];
      stack[sp - 1] := Complement(stack[sp - 1]);
      assert stack[..sp] == s[..|s| - 1] + [Complement(s[|s| - 1])];
    }

    /** OP_pop */
    method PopTop()
      requires Valid() && sp >= 1
      modifies this`sp
      ensures Valid() && ExecInstr(sys, Pop, old(View())) == Some(View()) && sp == old(sp) - 1
    {
      ghost var s := stack[..sp];
      sp := sp - 1;
      assert stack[..sp] == s[..|s| - 1];
    }

    /** OP_st_dword */
    method StDword()
      requires Valid() && sp >= 2
      modifies this`sp, this`mem
      ensures Valid() && ExecInstr(sys, St, old(View())) == Some(View()) && sp == old(sp) - 1
      ensures Load(mem, stack[sp - 1]) == stack[sp] && mem == Store(old(mem), stack[sp - 1], stack[sp])
    {
      ghost var s := stack[..sp];
      LoadStore(mem, stack[sp - 2], stack[sp - 1]);
      mem := Store(mem, stack[sp - 2], stack[sp - 1]);
      sp := sp - 1;
      assert stack[..sp] == s[..|s| - 1];
      hide Store;
    }

    /** OP_BIN_DWORD */
    method BinDword(op: BinOp) returns (ok: bool)
      requires Valid() && sp >= 2
      modifies this`sp, stack
      ensures Valid()
      ensures ExecInstr(sys, Bin(op), old(View())) == if ok then Some(View()) else None
      ensures ok <==> Defined(op, old(stack[sp - 2]), old(stack[sp - 1]))
      ensures ok ==> sp == old(sp) - 1 && stack[..sp - 1] == old(stack[..sp - 2])
                     && Yields(op, old(stack[sp - 2]), old(stack[sp - 1]), stack[sp - 1])
    {
      hide FinshOps.Apply, Load, Store, Complement, Yields, Defined;
      ghost var s := stack[..sp];
      ApplyYields(op, stack[sp - 2], stack[sp - 1]);
      match FinshOps.Apply(op, stack[sp - 2], stack[sp - 1]) {
        case None => ok := false;
        case Some(v) =>
          ok := true;
          stack[sp - 2] := v;
          sp := sp - 1;
          assert stack[..sp] == s[..|s| - 2] + [v];
      }
    }

    /** OP_call: the parameters are taken off the stack from the last to the first, then the function. */
    method Call(parameters: byte)
      requires Valid() && parameters <= MAX_PARAMETERS && parameters + 1 <= sp
      modifies this`sp, this`mem, stack
      ensures Valid() && ExecInstr(sys, Instr.Call(parameters), old(View())) == Some(View())
      ensures sp == old(sp) - parameters && stack[..sp - 1] == old(stack[..sp - parameters - 1])
      ensures var p := if parameters == 0 then [0] else old(stack[sp - parameters..sp]);
              (stack[sp - 1], mem) == sys(old(stack[sp - parameters - 1]), p, old(mem))
    {
      hide FinshOps.Apply, Load, Store, Complement;
      ghost var s, n := stack[..sp], sp;
      var p := PopParameters(parameters);
      assert stack[..sp + 1] == s[..n - parameters];
      var (r, m) := sys(stack[sp], if parameters == 0 then [0] else p, mem);
      mem := m;
      stack[sp] := r;
      sp := sp + 1;
      assert stack[..sp] == s[..n - parameters - 1] + [r];
    }

    /** The loop of OP_call; sp is left at the function. */
    method PopParameters(parameters: byte) returns (p: seq<u32>)
      requires Valid() && parameters <= MAX_PARAMETERS && parameters + 1 <= sp
      modifies this`sp
      ensures sp == old(sp) - 1 - parameters && p == stack[sp + 1..old(sp)]
    {
      var parameterv := new u32[MAX_PARAMETERS](_ => 0);
      var i, n := 0, sp;
      sp := sp - 1;
      while i < parameters
        invariant i <= parameters && sp == n - 1 - i
        invariant forall k :: parameters - i <= k < parameters ==> parameterv[k] == stack[n - parameters + k]
      {
        parameterv[parameters - 1 - i] := stack[sp];
        sp := sp - 1;
        i := i + 1;
      }
      p := parameterv[..parameters];
    }

    /** One round of the dispatch loop; false where the operation is not modelled or its result undefined. */
    method Step() returns (ok: bool)
      requires Valid() && 5 * sp <= pc < text.Length
      modifies this`sp, this`pc, this`mem, stack
      ensures Valid()
      ensures match Decode(text[..], old(pc))
              case None => !ok
              case Some(i) =>
                if ok then ExecInstr(sys, i, old(View())) == Some(View()) && pc == old(pc) + |Encode(i)| && 5 * sp <= pc
                else ExecInstr(sys, i, old(View())) == None
    {
      hide FinshOps.Apply, Load, Store, Complement, Yields, Defined, Inverted, LowestFirst, ExecInstr, Encode;
      var op := text[pc];
      pc := pc + 1;
      ok := true;
      SimpleSize(op);
      InstrSizes();
      CallNeeds(sys, View());
      hide SimpleOp;
      if op == 0x24 || op == 0x27 {
        ok := pc + 4 <= text.Length;
        if ok { PushOperand(op == 0x27); }
      } else if op == 0x2C {
        ok := pc < text.Length && text[pc] <= MAX_PARAMETERS && text[pc] + 1 <= sp;
        if ok {
          pc := pc + 1;
          Call(text[pc - 1]);
        }
      } else {
        ok := Simple(op);
      }
    }

    /** The operations without an operand. */
    method Simple(op: byte) returns (ok: bool)
      requires Valid()
      modifies this`sp, this`mem, stack
      ensures Valid()
      ensures match SimpleOp(op)
              case None => !ok
              case Some(i) => ExecInstr(sys, i, old(View())) == if ok then Some(View()) else None
      ensures ok ==> sp <= old(sp)
    {
      hide FinshOps.Apply, Store, Yields, Defined, Inverted, LowestFirst;
      match SimpleOp(op) {
        case None => ok := false;
        case Some(i) =>
          assert sp < (match i case Noop => 0 case Bin(_) => 2 case St => 2 case _ => 1) ==> ExecInstr(sys, i, View()) == None;
          match i {
            case Noop => ok := true;
            case Bin(o) =>
              ok := sp >= 2;
              if ok { ok := BinDword(o); }
            case Not =>
              ok := sp >= 1;
              if ok { BitwiseDword(); }
            case St =>
              ok := sp >= 2;
              if ok { StDword(); }
            case Pop =>
              ok := sp >= 1;
              if ok { PopTop(); }
            case LdValueStack =>
              ok := sp >= 1;
              if ok { LdValueDwordStack(); }
            case _ => assert false;
          }
          hide SimpleOp, Load, Complement;
      }
    }

    /** finsh_vm_run. No text segment overflows the stack: a push takes at least five bytes of text. */
    method Run() returns (ok: bool)
      requires Valid()
      modifies this`sp, this`pc, this`mem, stack
      ensures Valid() && (ok ==> 5 * sp <= FINSH_TEXT_MAX)
      ensures RunBytes(sys, text[..], 0, State([], old(mem))) == if ok then Some(View()) else None
    {
      sp, pc, ok := 0, 0, true;
      ghost var goal := RunBytes(sys, text[..], 0, State([], mem));
      assert View().stack == [];
      while pc < text.Length
        invariant Valid() && 5 * sp <= pc <= FINSH_TEXT_MAX
        invariant RunBytes(sys, text[..], pc, View()) == goal
        decreases text.Length - pc
      {
        RunStep(sys, text[..], pc, View());
        hide RunBytes, Decode, ExecInstr, Encode;
        ok := Step();
        if !ok { return; }
      }
      assert RunBytes(sys, text[..], pc, View()) == Some(View());
    }
  }

  // ---- finsh_run_line, from the tree on

  /** Compiling and running a list of well-formed statements evaluates them, if the code fits the text segment. */
  method Evaluate(sys: Syscalls, es: Exprs, mem: Mem) returns (r: Option<Values>)
    requires WellFormedAll(es)
    requires |EncodeAll(ProgramCode(TypeCheck(Forest(es), false)))| <= FINSH_TEXT_MAX
    ensures r == EvalProgram(sys, es, mem)
  {
    var compiler := new Compiler();
    compiler.Run(Forest(es));
    var vm := new Vm(compiler.text, sys, mem);
    hide WellFormedAll, Forest, TypeCheck, ProgramCode, EncodeAll, RunBytes, EvalProgram;
    assert compiler.text[..] == compiler.text[..compiler.pc] + compiler.text[compiler.pc..];
    TextCorrect(sys, es, compiler.text[..], mem);
    var ok := vm.Run();
    r := if ok then Some(Values(vm.stack[..vm.sp], vm.mem)) else None;
  }
}
