/** The finsh compiler preserves meaning: running the generated bytes is evaluating the expression. */
module FinshMeaning {
  import opened Wrappers
  import opened FinshOps
  import opened FinshArithmetic
  import opened FinshCompiler

  function Pushed(s: seq<u32>, r: Option<Value>): Option<State> {
    match r case None => None case Some(x) => Some(State(s + [x.v], x.mem))
  }

  lemma ExecCons(sys: Syscalls, i: Instr, rest: seq<Instr>, st: State)
    ensures Exec(sys, [i] + rest, st) ==
            match ExecInstr(sys, i, st) case None => None case Some(st') => Exec(sys, rest, st')
    ensures Exec(sys, [i], st) == ExecInstr(sys, i, st)
  {
    assert ([i] + rest)[1..] == rest;
    assert [i][1..] == [];
    match ExecInstr(sys, i, st) {
      case None =>
      case Some(st') => assert Exec(sys, [], st') == Some(st');
    }
  }

  lemma StackTop(s: seq<u32>, x: u32, y: u32)
    ensures (s + [x])[..|s|] == s && (s + [x] + [y])[..|s|] == s && (s + [x] + [y])[..|s| + 1] == s + [x]
  {}

  // ---- what evaluation does, in terms of the operands

  /** A binary operator is applied to the value of its left operand and then that of its right operand. */
  lemma OperatorMeaning(sys: Syscalls, op: BinOp, l: Expr, r: Expr, m: Mem, x: Value, y: Value)
    requires Eval(sys, l, m) == Some(x) && Eval(sys, r, x.mem) == Some(y)
    ensures Eval(sys, Binary(op, l, r), m).Some? <==> Defined(op, x.v, y.v)
    ensures Defined(op, x.v, y.v) ==>
              var z := Eval(sys, Binary(op, l, r), m).value; Yields(op, x.v, y.v, z.v) && z.mem == y.mem
  {
    ApplyYields(op, x.v, y.v);
    hide Yields, Defined, FinshOps.Apply;
  }

  /**
   * An increment or decrement makes the cell one more or less, modulo 2^32, and no other; before the operand it has
   * the new value, after it the old one.
   */
  lemma StepMeaning(sys: Syscalls, k: Step, x: Expr, m: Mem, p: Value, c: u32)
    requires Address(sys, x, m) == Some(p)
    ensures Eval(sys, IncDec(k, x), m).Some?
    ensures var was := Load(p.mem, p.v);
            var z := Eval(sys, IncDec(k, x), m).value;
            Load(z.mem, p.v) == (was + if k.PreInc? || k.PostInc? then 1 else WORD - 1) % WORD
            && z.v == (if k.PreInc? || k.PreDec? then Load(z.mem, p.v) else was)
            && (4 <= Unsigned(c - p.v) <= WORD - 4 ==> Load(z.mem, c) == Load(p.mem, c))
  {
    hide Load, Store, Unsigned, After;
    var up, v := k.PreInc? || k.PostInc?, Load(p.mem, p.v);
    var after := After(up, v);
    AfterIs(up, v);
    LoadStore(p.mem, p.v, after);
    if 4 <= Unsigned(c - p.v) <= WORD - 4 { LoadElsewhere(p.mem, p.v, after, c); }
  }

  lemma AfterIs(up: bool, v: u32)
    ensures After(up, v) == (v + if up then 1 else WORD - 1) % WORD
  {}

  function Constants(vs: seq<u32>): Exprs { if vs == [] then End else More(Const(vs[0]), Constants(vs[1..])) }

  lemma {:induction false} ConstantsAre(sys: Syscalls, vs: seq<u32>, m: Mem)
    ensures EvalArgs(sys, Constants(vs), m) == Some(Values(vs, m))
  {
    if vs != [] {
      ConstantsAre(sys, vs[1..], m);
      assert vs == [vs[0]] + vs[1..];
    }
  }

  /** A call hands its arguments over in their order, and 0 if it has none. */
  lemma CallMeaning(sys: Syscalls, f: u32, vs: seq<u32>, m: Mem)
    ensures var (r, m') := sys(f, if |vs| == 0 then [0] else vs, m);
            Eval(sys, Expr.Apply(SysCall(f), Constants(vs)), m) == Some(Value(r, m'))
  {
    ConstantsAre(sys, vs, m);
    CallOfName(sys, f, Constants(vs), m, vs);
  }

  lemma CallOfName(sys: Syscalls, f: u32, args: Exprs, m: Mem, vs: seq<u32>)
    requires EvalArgs(sys, args, m) == Some(Values(vs, m))
    ensures var (r, m') := sys(f, if |vs| == 0 then [0] else vs, m);
            Eval(sys, Expr.Apply(SysCall(f), args), m) == Some(Value(r, m'))
  {
    hide EvalArgs;
  }

  // ---- single operations on a stack with its top values named

  lemma PushOps(sys: Syscalls, s: seq<u32>, v: u32, m: Mem, rest: seq<Instr>)
    ensures Exec(sys, [Ld(v)] + rest, State(s, m)) == Exec(sys, rest, State(s + [v], m))
    ensures Exec(sys, [LdValue(v)] + rest, State(s, m)) == Exec(sys, rest, State(s + [Load(m, v)], m))
  {
    ExecCons(sys, Ld(v), rest, State(s, m));
    ExecCons(sys, LdValue(v), rest, State(s, m));
  }

  lemma TopOps(sys: Syscalls, s: seq<u32>, x: u32, m: Mem, rest: seq<Instr>)
    ensures Exec(sys, [Not] + rest, State(s + [x], m)) == Exec(sys, rest, State(s + [Complement(x)], m))
    ensures Exec(sys, [LdValueStack] + rest, State(s + [x], m)) == Exec(sys, rest, State(s + [Load(m, x)], m))
    ensures Exec(sys, [Pop] + rest, State(s + [x], m)) == Exec(sys, rest, State(s, m))
  {
    StackTop(s, x, 0);
    ExecCons(sys, Not, rest, State(s + [x], m));
    ExecCons(sys, LdValueStack, rest, State(s + [x], m));
    ExecCons(sys, Pop, rest, State(s + [x], m));
    hide Exec, Load;
  }

  lemma StoreOp(sys: Syscalls, s: seq<u32>, x: u32, y: u32, m: Mem, rest: seq<Instr>)
    ensures Exec(sys, [St] + rest, State(s + [x] + [y], m)) == Exec(sys, rest, State(s + [x], Store(m, x, y)))
  {
    StackTop(s, x, y);
    ExecCons(sys, St, rest, State(s + [x] + [y], m));
    hide Exec, Store;
  }

  lemma BinaryOp(sys: Syscalls, op: BinOp, s: seq<u32>, x: u32, y: u32, m: Mem, rest: seq<Instr>)
    ensures Exec(sys, [Bin(op)] + rest, State(s + [x] + [y], m)) ==
            match FinshOps.Apply(op, x, y) case None => None case Some(v) => Exec(sys, rest, State(s + [v], m))
  {
    StackTop(s, x, y);
    ExecCons(sys, Bin(op), rest, State(s + [x] + [y], m));
    hide Exec, FinshOps.Apply;
  }

  lemma CallOp(sys: Syscalls, s: seq<u32>, f: u32, p: seq<u32>, m: Mem)
    requires |p| <= MAX_PARAMETERS
    ensures Exec(sys, [Instr.Call(|p|)], State(s + [f] + p, m)) ==
            var (r, m') := sys(f, Parameters(p), m); Some(State(s + [r], m'))
  {
    var s' := s + [f] + p;
    assert s'[|s'| - |p| - 1] == f && s'[|s'| - |p|..] == p && s'[..|s'| - |p| - 1] == s;
    ExecCons(sys, Instr.Call(|p|), [], State(s', m));
  }

  lemma NoMore(sys: Syscalls, i: Instr, st: State)
    ensures [i] + [] == [i] && Exec(sys, [], st) == Some(st)
  {}

  lemma {:induction false} ValueCorrect(sys: Syscalls, e: Expr, s: seq<u32>, m: Mem)
    requires WellFormed(e)
    ensures Exec(sys, ValueCode(e), State(s, m)) == Pushed(s, Eval(sys, e, m))
    decreases e, 1
  {
    var st := State(s, m);
    match e
    case Binary(op, l, r) => BinaryCorrect(sys, op, l, r, s, m);
    case BitNot(x) =>
      ValueCorrect(sys, x, s, m);
      Chain(sys, ValueCode(x), [Not], s, m, Eval(sys, x, m));
      if Eval(sys, x, m).Some? { LastTop(sys, s, Eval(sys, x, m).value); }
    case Assign(l, r) => AssignCorrect(sys, l, r, s, m);
    case IncDec(k, x) => IncDecCorrect(sys, k, x.a, s, m);
    case Deref(x) =>
      ValueCorrect(sys, x, s, m);
      Chain(sys, ValueCode(x), [LdValueStack], s, m, Eval(sys, x, m));
      if Eval(sys, x, m).Some? { LastTop(sys, s, Eval(sys, x, m).value); }
    case AddrOf(x) => AddressCorrect(sys, x, s, m);
    case Apply(f, args) => ApplyCorrect(sys, f, args, s, m);
    case Const(v) => ExecCons(sys, Ld(v), [], st);
    case Var(a) => ExecCons(sys, LdValue(a), [], st);
    case SysVar(a) => ExecCons(sys, LdValue(a), [], st);
    case SysCall(f) => ExecCons(sys, Ld(f), [], st);
  }

  lemma {:induction false} AddressCorrect(sys: Syscalls, e: Expr, s: seq<u32>, m: Mem)
    requires WellFormedPlace(e)
    ensures Exec(sys, AddressCode(e), State(s, m)) == Pushed(s, Address(sys, e, m))
    decreases e, 0
  {
    match e
    case Var(a) => ExecCons(sys, Ld(a), [], State(s, m));
    case SysVar(a) => ExecCons(sys, Ld(a), [], State(s, m));
    case SysCall(f) => ExecCons(sys, Ld(f), [], State(s, m));
    case Deref(x) => ValueCorrect(sys, x, s, m);
  }

  lemma LastTop(sys: Syscalls, s: seq<u32>, x: Value)
    ensures Exec(sys, [Not], State(s + [x.v], x.mem)) == Some(State(s + [Complement(x.v)], x.mem))
    ensures Exec(sys, [LdValueStack], State(s + [x.v], x.mem)) == Some(State(s + [Load(x.mem, x.v)], x.mem))
  {
    TopOps(sys, s, x.v, x.mem, []);
    NoMore(sys, Not, State(s + [Complement(x.v)], x.mem));
    NoMore(sys, LdValueStack, State(s + [Load(x.mem, x.v)], x.mem));
    hide Exec, Load, Complement;
  }

  /** Running first then second, when first pushes one value. */
  lemma Chain(sys: Syscalls, first: seq<Instr>, second: seq<Instr>, s: seq<u32>, m: Mem, r: Option<Value>)
    requires Exec(sys, first, State(s, m)) == Pushed(s, r)
    ensures Exec(sys, first + second, State(s, m)) ==
            match r case None => None case Some(x) => Exec(sys, second, State(s + [x.v], x.mem))
  {
    ExecConcat(sys, first, second, State(s, m));
  }

  lemma {:induction false} BinaryCorrect(sys: Syscalls, op: BinOp, l: Expr, r: Expr, s: seq<u32>, m: Mem)
    requires WellFormed(Binary(op, l, r))
    ensures Exec(sys, ValueCode(Binary(op, l, r)), State(s, m)) == Pushed(s, Eval(sys, Binary(op, l, r), m))
    decreases Binary(op, l, r), 0
  {
    var a, b := ValueCode(l), ValueCode(r);
    Assoc(a, b, [Bin(op)]);
    ValueCorrect(sys, l, s, m);
    Chain(sys, a, b + [Bin(op)], s, m, Eval(sys, l, m));
    if Eval(sys, l, m).Some? {
      var x := Eval(sys, l, m).value;
      ValueCorrect(sys, r, s + [x.v], x.mem);
      Chain(sys, b, [Bin(op)], s + [x.v], x.mem, Eval(sys, r, x.mem));
      if Eval(sys, r, x.mem).Some? {
        var y := Eval(sys, r, x.mem).value;
        BinaryOp(sys, op, s, x.v, y.v, y.mem, []);
        assert [Bin(op)] + [] == [Bin(op)];
        hide FinshOps.Apply;
      }
    }
  }

  lemma StoreAndReload(sys: Syscalls, s: seq<u32>, a: u32, v: u32, m: Mem)
    ensures Exec(sys, [St, LdValueStack], State(s + [a] + [v], m)) == Some(State(s + [v], Store(m, a, v)))
    ensures Exec(sys, [St, Pop], State(s + [a] + [v], m)) == Some(State(s, Store(m, a, v)))
  {
    assert [St, LdValueStack] == [St] + [LdValueStack] && [St, Pop] == [St] + [Pop];
    StoreOp(sys, s, a, v, m, [LdValueStack]);
    StoreOp(sys, s, a, v, m, [Pop]);
    TopOps(sys, s, a, Store(m, a, v), []);
    LoadStore(m, a, v);
    NoMore(sys, LdValueStack, State(s + [v], Store(m, a, v)));
    NoMore(sys, Pop, State(s, Store(m, a, v)));
    hide Exec, Load, Store;
  }

  lemma {:induction false} AssignCorrect(sys: Syscalls, l: Expr, r: Expr, s: seq<u32>, m: Mem)
    requires WellFormed(Assign(l, r))
    ensures Exec(sys, ValueCode(Assign(l, r)), State(s, m)) == Pushed(s, Eval(sys, Assign(l, r), m))
    decreases Assign(l, r), 0
  {
    var a, b, c := AddressCode(l), ValueCode(r), [St, LdValueStack];
    Assoc(a, b, c);
    AddressCorrect(sys, l, s, m);
    Chain(sys, a, b + c, s, m, Address(sys, l, m));
    if Address(sys, l, m).Some? {
      var x := Address(sys, l, m).value;
      ValueCorrect(sys, r, s + [x.v], x.mem);
      Chain(sys, b, c, s + [x.v], x.mem, Eval(sys, r, x.mem));
      if Eval(sys, r, x.mem).Some? {
        var y := Eval(sys, r, x.mem).value;
        StoreAndReload(sys, s, x.v, y.v, y.mem);
        hide Store, Load;
      }
    }
  }

  /** The shared middle of the four increments: the address below the old value, then the new value. */
  lemma StepUp(sys: Syscalls, op: BinOp, a: u32, after: u32, last: seq<Instr>, s: seq<u32>, m: Mem)
    requires FinshOps.Apply(op, Load(m, a), 1) == Some(after)
    ensures Exec(sys, [Ld(a), LdValue(a), Ld(1), Bin(op)] + last, State(s, m))
            == Exec(sys, last, State(s + [a] + [after], m))
  {
    hide *;
    var v := Load(m, a);
    var c3 := [Bin(op)] + last;
    var c2 := [Ld(1)] + c3;
    var c1 := [LdValue(a)] + c2;
    assert [Ld(a), LdValue(a), Ld(1), Bin(op)] + last == [Ld(a)] + c1;
    PushOps(sys, s, a, m, c1);
    PushOps(sys, s + [a], a, m, c2);
    PushOps(sys, s + [a] + [v], 1, m, c3);
    BinaryOp(sys, op, s + [a], v, 1, m, last);
  }

  lemma PreStepCorrect(sys: Syscalls, op: BinOp, up: bool, a: u32, s: seq<u32>, m: Mem)
    requires op == if up then Add else Sub
    ensures Exec(sys, [Ld(a), LdValue(a), Ld(1), Bin(op), St, LdValueStack], State(s, m))
            == Some(State(s + [After(up, Load(m, a))], Store(m, a, After(up, Load(m, a)))))
  {
    assert FinshOps.Apply(op, Load(m, a), 1) == Some(After(up, Load(m, a)));
    hide *;
    assert [Ld(a), LdValue(a), Ld(1), Bin(op), St, LdValueStack] == [Ld(a), LdValue(a), Ld(1), Bin(op)] + [St, LdValueStack];
    StepUp(sys, op, a, After(up, Load(m, a)), [St, LdValueStack], s, m);
    StoreAndReload(sys, s, a, After(up, Load(m, a)), m);
  }

  lemma PostStepCorrect(sys: Syscalls, op: BinOp, up: bool, a: u32, s: seq<u32>, m: Mem)
    requires op == if up then Add else Sub
    ensures Exec(sys, [LdValue(a), Ld(a), LdValue(a), Ld(1), Bin(op), St, Pop], State(s, m))
            == Some(State(s + [Load(m, a)], Store(m, a, After(up, Load(m, a)))))
  {
    assert FinshOps.Apply(op, Load(m, a), 1) == Some(After(up, Load(m, a)));
    hide *;
    var rest := [Ld(a), LdValue(a), Ld(1), Bin(op)] + [St, Pop];
    assert [LdValue(a), Ld(a), LdValue(a), Ld(1), Bin(op), St, Pop] == [LdValue(a)] + rest;
    PushOps(sys, s, a, m, rest);
    StepUp(sys, op, a, After(up, Load(m, a)), [St, Pop], s + [Load(m, a)], m);
    StoreAndReload(sys, s + [Load(m, a)], a, After(up, Load(m, a)), m);
  }

  lemma IncDecCorrect(sys: Syscalls, k: Step, a: u32, s: seq<u32>, m: Mem)
    ensures Exec(sys, IncDecCode(k, a), State(s, m)) == Pushed(s, Eval(sys, IncDec(k, Var(a)), m))
  {
    hide Store, Load, Exec, Unsigned;
    match k
    case PreInc => PreStepCorrect(sys, Add, true, a, s, m);
    case PreDec => PreStepCorrect(sys, Sub, false, a, s, m);
    case PostInc => PostStepCorrect(sys, Add, true, a, s, m);
    case PostDec => PostStepCorrect(sys, Sub, false, a, s, m);
  }

  lemma {:induction false} ArgsCorrect(sys: Syscalls, es: Exprs, s: seq<u32>, m: Mem)
    requires WellFormedAll(es)
    ensures Exec(sys, ArgsCode(es), State(s, m)) ==
            match EvalArgs(sys, es, m) case None => None case Some(p) => Some(State(s + p.vs, p.mem))
    decreases es, 0
  {
    match es
    case End => assert s + [] == s;
    case More(e, rest) =>
      ValueCorrect(sys, e, s, m);
      Chain(sys, ValueCode(e), ArgsCode(rest), s, m, Eval(sys, e, m));
      if Eval(sys, e, m).Some? {
        var x := Eval(sys, e, m).value;
        ArgsCorrect(sys, rest, s + [x.v], x.mem);
        if EvalArgs(sys, rest, x.mem).Some? {
          Assoc(s, [x.v], EvalArgs(sys, rest, x.mem).value.vs);
        }
      }
  }

  lemma {:induction false} ApplyCorrect(sys: Syscalls, f: Expr, args: Exprs, s: seq<u32>, m: Mem)
    requires WellFormed(Expr.Apply(f, args))
    ensures Exec(sys, ValueCode(Expr.Apply(f, args)), State(s, m)) == Pushed(s, Eval(sys, Expr.Apply(f, args), m))
    decreases Expr.Apply(f, args), 0
  {
    var k := Length(args);
    var a, b, c := ValueCode(f), ArgsCode(args), [Instr.Call(k)];
    assert ValueCode(Expr.Apply(f, args)) == a + b + c;
    assert WellFormed(f) && WellFormedAll(args) && k <= MAX_PARAMETERS;
    hide Exec, WellFormed, ValueCode, ArgsCode;
    Assoc(a, b, c);
    ValueCorrect(sys, f, s, m);
    Chain(sys, a, b + c, s, m, Eval(sys, f, m));
    if Eval(sys, f, m).Some? {
      var g := Eval(sys, f, m).value;
      ArgsCorrect(sys, args, s + [g.v], g.mem);
      ExecConcat(sys, b, c, State(s + [g.v], g.mem));
      if EvalArgs(sys, args, g.mem).Some? {
        var p := EvalArgs(sys, args, g.mem).value;
        CallOp(sys, s, g.v, p.vs, p.mem);
      }
    }
  }

  // ---- programs

  /** The loop of finsh_compiler_run over the checked statements: each on its own, its value popped. */
  function ProgramCode(node: Node): seq<Instr> {
    if node.Null? then []
    else Code(node.(sibling := Null)) + (if node.sibling.Node? then [Pop] else []) + ProgramCode(node.sibling)
  }

  /** The last statement's value, if there is a statement. */
  function EvalProgram(sys: Syscalls, es: Exprs, m: Mem): Option<Values> {
    match es
    case End => Some(Values([], m))
    case More(e, rest) =>
      match Eval(sys, e, m)
      case None => None
      case Some(x) => if rest.End? then Some(Values([x.v], x.mem)) else EvalProgram(sys, rest, x.mem)
  }

  lemma StatementCode(e: Expr, rest: Exprs)
    requires WellFormed(e)
    ensures var n := TypeCheck(Forest(More(e, rest)), false);
            n.Node? && Code(n.(sibling := Null)) == ValueCode(e)
            && n.sibling == TypeCheck(Forest(rest), false) && n.sibling.Node? == rest.More?
  {
    var n, alone := TypeCheck(Tree(e, Forest(rest)), false), TypeCheck(Tree(e, Null), false);
    CheckedSibling(e, Forest(rest), false);
    assert n.(sibling := Null) == alone by { assert TypeCheck(Null, false) == Null; }
    TreeCode(e, Null);
    Assoc(ValueCode(e), [], []);
    if rest.More? { CheckedSibling(rest.e, Forest(rest.rest), false); }
  }

  /** The whole compiler preserves meaning, for every list of well-formed statements. */
  lemma {:induction false} ProgramCorrect(sys: Syscalls, es: Exprs, m: Mem)
    requires WellFormedAll(es)
    ensures Exec(sys, ProgramCode(TypeCheck(Forest(es), false)), State([], m)) ==
            match EvalProgram(sys, es, m) case None => None case Some(p) => Some(State(p.vs, p.mem))
  {
    match es
    case End =>
    case More(e, rest) =>
      StatementCode(e, rest);
      var n, tail := TypeCheck(Forest(es), false), ProgramCode(TypeCheck(Forest(rest), false));
      assert ProgramCode(n) == ValueCode(e) + (if rest.More? then [Pop] else []) + tail;
      assert rest.End? ==> tail == [] && ValueCode(e) + [] + [] == ValueCode(e);
      hide Exec, TypeCheck, Code, ProgramCode, Forest, ValueCode;
      ValueCorrect(sys, e, [], m);
      if rest.More? {
        Assoc(ValueCode(e), [Pop], tail);
        Chain(sys, ValueCode(e), [Pop] + tail, [], m, Eval(sys, e, m));
        if Eval(sys, e, m).Some? {
          var x := Eval(sys, e, m).value;
          TopOps(sys, [], x.v, x.mem, tail);
          ProgramCorrect(sys, rest, x.mem);
        }
      } else if Eval(sys, e, m).Some? {
        assert [] + [Eval(sys, e, m).value.v] == [Eval(sys, e, m).value.v];
      }
  }

  // ---- what the data type of the leftmost leaf decides

  /** The code of an operator node, whatever the type of its left operand. */
  lemma OperatorCode(op: BinOp, l: Expr, r: Expr)
    requires WellFormed(l) && WellFormed(r)
    ensures Code(TypeCheck(Tree(Binary(op, l, r), Null), false))
            == ValueCode(l) + ValueCode(r) + IfDword(TypeOf(l), [Bin(op)])
  {
    TreeType(l, Tree(r, Null), false);
    TreeCode(l, Tree(r, Null));
    TreeCode(r, Null);
    SysNodeCode(NodeBin(op), Tree(l, Tree(r, Null)), Null, false);
    Flat(ValueCode(l), ValueCode(r));
    Flat(ValueCode(l) + ValueCode(r) + IfDword(TypeOf(l), [Bin(op)]), []);
    assert Code(TypeCheck(Null, false)) == [];
    hide TypeCheck, TypeOf, WellFormed;
  }

  /** Without its operator, the code of a binary node leaves both operand values on the stack. */
  lemma OperatorDropped(sys: Syscalls, op: BinOp, l: Expr, r: Expr, s: seq<u32>, m: Mem)
    requires WellFormed(l) && WellFormed(r) && TypeOf(l).Void?
    requires Eval(sys, l, m).Some? && Eval(sys, r, Eval(sys, l, m).value.mem).Some?
    ensures var x := Eval(sys, l, m).value;
            var y := Eval(sys, r, x.mem).value;
            Exec(sys, Code(TypeCheck(Tree(Binary(op, l, r), Null), false)), State(s, m))
            == Some(State(s + [x.v] + [y.v], y.mem))
  {
    OperatorCode(op, l, r);
    assert IfDword(TypeOf(l), [Bin(op)]) == [];
    Flat(ValueCode(l), ValueCode(r));
    Flat(ValueCode(l) + ValueCode(r), []);
    hide *;
    ValueCorrect(sys, l, s, m);
    Chain(sys, ValueCode(l), ValueCode(r), s, m, Eval(sys, l, m));
    ValueCorrect(sys, r, s + [Eval(sys, l, m).value.v], Eval(sys, l, m).value.mem);
  }

  /**
   * A binary operator keeps its meaning exactly when its left operand does not begin with a system call's
   * name: otherwise no operator is emitted, and both operand values are left on the stack.
   */
  lemma OperatorExact(sys: Syscalls, op: BinOp, l: Expr, r: Expr, s: seq<u32>, m: Mem)
    requires WellFormed(l) && WellFormed(r) && Eval(sys, Binary(op, l, r), m).Some?
    ensures Exec(sys, Code(TypeCheck(Tree(Binary(op, l, r), Null), false)), State(s, m))
            == Pushed(s, Eval(sys, Binary(op, l, r), m))
            <==> TypeOf(l).Dword?
  {
    var z := Eval(sys, Binary(op, l, r), m);
    assert Pushed(s, z) == Some(State(s + [z.value.v], z.value.mem));
    if TypeOf(l).Dword? {
      OperatorCode(op, l, r);
      assert ValueCode(Binary(op, l, r)) == ValueCode(l) + ValueCode(r) + IfDword(TypeOf(l), [Bin(op)]);
      assert WellFormed(Binary(op, l, r));
      hide *;
      ValueCorrect(sys, Binary(op, l, r), s, m);
    } else {
      var x := Eval(sys, l, m).value;
      var y := Eval(sys, r, x.mem).value;
      OperatorDropped(sys, op, l, r, s, m);
      hide *;
      assert |s + [x.v] + [y.v]| == |s + [z.value.v]| + 1;
    }
  }

  /** For instance f() + 2, where f is a system call, is compiled to code that calls f and never adds. */
  lemma CallPlusConstant(f: u32)
    ensures Code(TypeCheck(Tree(Binary(Add, Expr.Apply(SysCall(f), End), Const(2)), Null), false))
            == [Ld(f), Instr.Call(0), Ld(2)]
  {
    OperatorCode(Add, Expr.Apply(SysCall(f), End), Const(2));
  }

  lemma UnaryCode(e: Expr, x: Expr, kind: Kind, own: seq<Instr>)
    requires WellFormed(x) && ((e == BitNot(x) && kind == NodeBitwise && own == [Not])
                               || (e == Deref(x) && kind == NodeGetValue && own == [LdValueStack]))
    ensures Code(TypeCheck(Tree(e, Null), false)) == if TypeOf(x).Dword? then ValueCode(e) else ValueCode(x)
    ensures TypeOf(x).Dword? ==> WellFormed(e) && ValueCode(e) == ValueCode(x) + own
  {
    hide Code, TypeCheck, Tree;
    UnaryTreeCode(e, x, kind, own, Null);
    NullCode();
    Flat(ValueCode(x), []);
    Flat(ValueCode(x) + own, []);
  }

  /** Likewise for the complement: ~ is dropped exactly when its operand begins with a system call's name. */
  lemma ComplementExact(sys: Syscalls, x: Expr, s: seq<u32>, m: Mem)
    requires WellFormed(x) && Eval(sys, x, m).Some?
    ensures Exec(sys, Code(TypeCheck(Tree(BitNot(x), Null), false)), State(s, m)) == Pushed(s, Eval(sys, BitNot(x), m))
            <==> TypeOf(x).Dword?
  {
    hide Code, TypeCheck, Tree, Exec, ValueCode, WellFormed, TypeOf;
    UnaryCode(BitNot(x), x, NodeBitwise, [Not]);
    ValueCorrect(sys, x, s, m);
    if TypeOf(x).Dword? {
      ValueCorrect(sys, BitNot(x), s, m);
    } else {
      var v := Eval(sys, x, m).value.v;
      assert (s + [v])[|s|] == v && (s + [Complement(v)])[|s|] == Complement(v) != v;
    }
  }

  /**
   * Where * is not an lvalue, it is dropped in the same way: the pointer itself is left on the stack, which is
   * right only for a pointer to its own address.
   */
  lemma DerefExact(sys: Syscalls, x: Expr, s: seq<u32>, m: Mem)
    requires WellFormed(x) && Eval(sys, x, m).Some?
    ensures var p := Eval(sys, x, m).value;
            Exec(sys, Code(TypeCheck(Tree(Deref(x), Null), false)), State(s, m)) == Pushed(s, Eval(sys, Deref(x), m))
            <==> TypeOf(x).Dword? || Load(p.mem, p.v) == p.v
  {
    hide Code, TypeCheck, Tree, Exec, ValueCode, WellFormed, Load, TypeOf;
    UnaryCode(Deref(x), x, NodeGetValue, [LdValueStack]);
    ValueCorrect(sys, x, s, m);
    if TypeOf(x).Dword? {
      ValueCorrect(sys, Deref(x), s, m);
    } else {
      var p := Eval(sys, x, m).value;
      assert (s + [p.v])[|s|] == p.v && (s + [Load(p.mem, p.v)])[|s|] == Load(p.mem, p.v);
    }
  }

  /** Without its store, an assignment leaves both the pointer and the value on the stack. */
  lemma StoreDropped(sys: Syscalls, x: Expr, r: Expr, s: seq<u32>, m: Mem)
    requires WellFormed(x) && WellFormed(r) && TypeOf(x).Void?
    requires Eval(sys, x, m).Some? && Eval(sys, r, Eval(sys, x, m).value.mem).Some?
    ensures var p := Eval(sys, x, m).value;
            var v := Eval(sys, r, p.mem).value;
            Exec(sys, Code(TypeCheck(Tree(Assign(Deref(x), r), Null), false)), State(s, m)) == Some(State(s + [p.v] + [v.v], v.mem))
  {
    hide *;
    AssignCode(x, r);
    ValueCorrect(sys, x, s, m);
    Chain(sys, ValueCode(x), ValueCode(r), s, m, Eval(sys, x, m));
    ValueCorrect(sys, r, s + [Eval(sys, x, m).value.v], Eval(sys, x, m).value.mem);
    PushedIs(s, Eval(sys, x, m).value);
    PushedIs(s + [Eval(sys, x, m).value.v], Eval(sys, r, Eval(sys, x, m).value.mem).value);
  }

  lemma PushedIs(s: seq<u32>, x: Value)
    ensures Pushed(s, Some(x)) == Some(State(s + [x.v], x.mem))
  {}

  /**
   * An assignment through * keeps its meaning exactly when the pointer does not begin with a system call's name:
   * otherwise nothing is stored.
   */
  lemma AssignExact(sys: Syscalls, x: Expr, r: Expr, s: seq<u32>, m: Mem)
    requires WellFormed(x) && WellFormed(r) && Eval(sys, Assign(Deref(x), r), m).Some?
    ensures Exec(sys, Code(TypeCheck(Tree(Assign(Deref(x), r), Null), false)), State(s, m))
            == Pushed(s, Eval(sys, Assign(Deref(x), r), m))
            <==> TypeOf(x).Dword?
  {
    hide Code, TypeCheck, Tree, Exec, ValueCode, Load, Store, WellFormed, TypeOf;
    AssignCode(x, r);
    if TypeOf(x).Dword? {
      AssignCorrect(sys, Deref(x), r, s, m);
    } else {
      var p := Eval(sys, x, m).value;
      var v := Eval(sys, r, p.mem).value;
      StoreDropped(sys, x, r, s, m);
      assert |s + [p.v] + [v.v]| == |s + [v.v]| + 1;
    }
  }

  lemma AssignCode(x: Expr, r: Expr)
    requires WellFormed(x) && WellFormed(r)
    ensures Code(TypeCheck(Tree(Assign(Deref(x), r), Null), false))
            == if TypeOf(x).Dword? then ValueCode(Assign(Deref(x), r)) else ValueCode(x) + ValueCode(r)
    ensures TypeOf(x).Dword? ==> WellFormed(Assign(Deref(x), r))
  {
    hide Code, TypeCheck, Tree;
    PlaceTreeCode(Deref(x), r, Null);
    NullCode();
    Flat(ValueCode(x), ValueCode(r));
    Flat(ValueCode(x) + ValueCode(r) + IfDword(TypeOf(x), [St, LdValueStack]), []);
  }

  /** For instance *f() = v calls f and stores nothing. */
  lemma StoreThroughCall(f: u32, v: u32)
    ensures Code(TypeCheck(Tree(Assign(Deref(Expr.Apply(SysCall(f), End)), Const(v)), Null), false))
            == [Ld(f), Instr.Call(0), Ld(v)]
  {
    hide Code, TypeCheck, Tree;
    AssignCode(Expr.Apply(SysCall(f), End), Const(v));
  }

  /** An increment through a pointer leaves the memory as evaluating the pointer left it. */
  lemma StepDropped(sys: Syscalls, k: Step, x: Expr, s: seq<u32>, m: Mem)
    requires WellFormed(x) && Eval(sys, x, m).Some?
    ensures var p := Eval(sys, x, m).value;
            var v := if k.PreInc? || k.PreDec? || TypeOf(x).Void? then p.v else Load(p.mem, p.v);
            Exec(sys, Code(TypeCheck(Tree(IncDec(k, Deref(x)), Null), false)), State(s, m)) == Some(State(s + [v], p.mem))
  {
    hide Code, TypeCheck, Tree, Exec, ValueCode, WellFormed, Load;
    var p := Eval(sys, x, m).value;
    PointerStepCode(k, x);
    ValueCorrect(sys, x, s, m);
    Flat(ValueCode(x), []);
    if !(k.PreInc? || k.PreDec?) && TypeOf(x).Dword? {
      Chain(sys, ValueCode(x), [LdValueStack], s, m, Eval(sys, x, m));
      LastTop(sys, s, p);
    }
  }

  /**
   * An increment or decrement of a place in memory keeps its meaning exactly when the place is a variable: through a
   * pointer nothing is incremented.
   */
  lemma IncDecExact(sys: Syscalls, k: Step, e: Expr, s: seq<u32>, m: Mem)
    requires (e.Var? || (e.Deref? && WellFormed(e.e))) && Eval(sys, IncDec(k, e), m).Some?
    ensures Exec(sys, Code(TypeCheck(Tree(IncDec(k, e), Null), false)), State(s, m)) == Pushed(s, Eval(sys, IncDec(k, e), m))
            <==> e.Var?
  {
    hide Code, TypeCheck, Tree, Exec, ValueCode, Load, Store, Unsigned;
    if e.Var? {
      NullCode();
      TreeCode(IncDec(k, e), Null);
      Flat(ValueCode(IncDec(k, e)), []);
      ValueCorrect(sys, IncDec(k, e), s, m);
    } else {
      var p := Eval(sys, e.e, m).value;
      StepDropped(sys, k, e.e, s, m);
      Changed(p.mem, p.v, k.PreInc? || k.PostInc?);
    }
  }

  lemma Changed(m: Mem, a: u32, up: bool)
    ensures Store(m, a, After(up, Load(m, a))) != m
  {
    hide Store, Load;
    LoadStore(m, a, After(up, Load(m, a)));
  }

  /** For instance ++*p pushes the pointer, and (*p)++ the old value. */
  lemma PointerSteps(a: u32)
    ensures Code(TypeCheck(Tree(IncDec(PreInc, Deref(Var(a))), Null), false)) == [LdValue(a)]
    ensures Code(TypeCheck(Tree(IncDec(PostInc, Deref(Var(a))), Null), false)) == [LdValue(a), LdValueStack]
  {
    hide Code, TypeCheck, Tree;
    PointerStepCode(PreInc, Var(a));
    PointerStepCode(PostInc, Var(a));
  }

  // ---- the text segment

  /** Running a text segment that holds the program and then zeros is evaluating the statements. */
  lemma TextCorrect(sys: Syscalls, es: Exprs, text: seq<byte>, m: Mem)
    requires WellFormedAll(es)
    requires var code := EncodeAll(ProgramCode(TypeCheck(Forest(es), false)));
             code <= text && forall k :: |code| <= k < |text| ==> text[k] == 0
    ensures RunBytes(sys, text, 0, State([], m)) ==
            match EvalProgram(sys, es, m) case None => None case Some(p) => Some(State(p.vs, p.mem))
  {
    hide WellFormedAll, Forest, TypeCheck, ProgramCode, EncodeAll, RunBytes, EvalProgram, Exec;
    var code := ProgramCode(TypeCheck(Forest(es), false));
    var post := text[|EncodeAll(code)|..];
    assert [] + EncodeAll(code) + post == text;
    RunEncoded(sys, [], code, post, State([], m));
    ProgramCorrect(sys, es, m);
  }
}
