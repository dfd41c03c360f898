/**
 * rtt/components/finsh/finsh_compiler.c over dword operands: the type check and the code generator on
 * child/sibling trees, against a direct evaluation of expressions.
 */
module FinshCompiler {
  import opened Wrappers
  import opened FinshOps

  // ---- the syntax tree of finsh_node.h

  datatype Kind =
    | NodeId | NodeLong | NodeBin(op: BinOp) | NodeBitwise | NodeFunc | NodeAssign
    | NodePreInc | NodePreDec | NodeInc | NodeDec | NodeGetValue | NodeGetAddr

  /** idtype without its address flag. */
  datatype IdType = NotId | IdVar | IdSysvar | IdSyscall

  datatype DataType = Void | Dword

  /** value is the constant, the address of the variable, or the address of the function. */
  datatype Node =
    | Null
    | Node(kind: Kind, id: IdType, address: bool, dataType: DataType, value: u32, child: Node, sibling: Node)

  /** finsh_type_check; is_addr is true for FINSH_IDTYPE_ADDRESS. */
  function TypeCheck(node: Node, isAddr: bool): Node {
    if node.Null? then Null
    else
      var child :=
        if node.kind.NodeAssign? || node.kind.NodePreInc? || node.kind.NodePreDec? || node.kind.NodeGetAddr? then
          TypeCheck(node.child, true)
        else if node.kind.NodeGetValue? && isAddr then TypeCheck(node.child, false)
        else TypeCheck(node.child, isAddr);
      node.(child := child,
            sibling := TypeCheck(node.sibling, false),
            address := if node.id.IdSyscall? then node.address else node.address || isAddr,
            dataType :=
              if child.Node? then child.dataType
              else if node.kind.NodeId? then (if node.id.IdVar? || node.id.IdSysvar? then Dword else node.dataType)
              else if node.kind.NodeLong? then Dword
              else node.dataType)
  }

  function Siblings(node: Node): nat {
    if node.Null? then 0 else 1 + Siblings(node.sibling)
  }

  function IfDword(t: DataType, code: seq<Instr>): seq<Instr> {
    if t.Dword? then code else []
  }

  /** The code finsh_compile emits for the node itself, its children being compiled already. */
  function NodeCode(node: Node): seq<Instr>
    requires node.Node?
  {
    var child := node.child;
    var x := if child.Node? then child.value else 0;
    var onId := child.Node? && child.kind.NodeId?;
    match node.kind
    case NodeId =>
      if node.id.IdSyscall? || node.address then [Ld(node.value)] else [LdValue(node.value)]
    case NodeLong => [Ld(node.value)]
    case NodeBin(op) => IfDword(node.dataType, [Bin(op)])
    case NodeBitwise => IfDword(node.dataType, [Not])
    case NodeFunc => if child.Node? then [Call(Siblings(child.sibling) % 256)] else []
    case NodeAssign =>
      if child.Node? && (child.kind.NodeId? || child.kind.NodeGetValue?)
      then IfDword(child.dataType, [St, LdValueStack]) else []
    case NodePreInc => if onId then IfDword(node.dataType, [LdValue(x), Ld(1), Bin(Add), St, LdValueStack]) else []
    case NodePreDec => if onId then IfDword(node.dataType, [LdValue(x), Ld(1), Bin(Sub), St, LdValueStack]) else []
    case NodeInc => if onId then IfDword(node.dataType, [Ld(x), LdValue(x), Ld(1), Bin(Add), St, Pop]) else []
    case NodeDec => if onId then IfDword(node.dataType, [Ld(x), LdValue(x), Ld(1), Bin(Sub), St, Pop]) else []
    case NodeGetValue => if node.address then [] else IfDword(node.dataType, [LdValueStack])
    case NodeGetAddr => []
  }

  /** finsh_compile: child, node, sibling. */
  function Code(node: Node): seq<Instr> {
    if node.Null? then [] else Code(node.child) + NodeCode(node) + Code(node.sibling)
  }

  // ---- expressions, and the trees the parser builds for them

  datatype Step = PreInc | PreDec | PostInc | PostDec

  datatype Expr =
    | Const(v: u32)
    | Var(a: u32)
    | SysVar(a: u32)
    | SysCall(func: u32)
    | Binary(op: BinOp, l: Expr, r: Expr)
    | BitNot(e: Expr)
    | Assign(l: Expr, r: Expr)
    | IncDec(step: Step, e: Expr)
    | Deref(e: Expr)
    | AddrOf(e: Expr)
    | Apply(f: Expr, args: Exprs)

  datatype Exprs = End | More(e: Expr, rest: Exprs)

  function StepKind(s: Step): Kind {
    match s case PreInc => NodePreInc case PreDec => NodePreDec case PostInc => NodeInc case PostDec => NodeDec
  }

  /** make_sys_node(kind, child, ...) with a zeroed new node. */
  function SysNode(kind: Kind, child: Node, sibling: Node): Node {
    Node(kind, NotId, false, Void, 0, child, sibling)
  }

  function IdNode(id: IdType, a: u32, sibling: Node): Node {
    Node(NodeId, id, false, Void, a, Null, sibling)
  }

  function Tree(e: Expr, sibling: Node): Node {
    match e
    case Const(v) => Node(NodeLong, NotId, false, Void, v, Null, sibling)
    case Var(a) => IdNode(IdVar, a, sibling)
    case SysVar(a) => IdNode(IdSysvar, a, sibling)
    case SysCall(f) => IdNode(IdSyscall, f, sibling)
    case Binary(op, l, r) => SysNode(NodeBin(op), Tree(l, Tree(r, Null)), sibling)
    case BitNot(x) => SysNode(NodeBitwise, Tree(x, Null), sibling)
    case Assign(l, r) => SysNode(NodeAssign, Tree(l, Tree(r, Null)), sibling)
    case IncDec(s, x) => SysNode(StepKind(s), Tree(x, Null), sibling)
    case Deref(x) => SysNode(NodeGetValue, Tree(x, Null), sibling)
    case AddrOf(x) => SysNode(NodeGetAddr, Tree(x, Null), sibling)
    case Apply(f, args) => SysNode(NodeFunc, Tree(f, Forest(args)), sibling)
  }

  function Forest(es: Exprs): Node {
    match es case End => Null case More(e, rest) => Tree(e, Forest(rest))
  }

  function Length(es: Exprs): nat {
    match es case End => 0 case More(_, rest) => 1 + Length(rest)
  }

  // ---- what expressions mean

  datatype Value = Value(v: u32, mem: Mem)

  datatype Values = Values(vs: seq<u32>, mem: Mem)

  /** Direct evaluation, left to right; None where C leaves the result undefined. */
  function Eval(sys: Syscalls, e: Expr, m: Mem): Option<Value>
    decreases e, 1
  {
    match e
    case Const(v) => Some(Value(v, m))
    case Var(a) => Some(Value(Load(m, a), m))
    case SysVar(a) => Some(Value(Load(m, a), m))
    case SysCall(f) => Some(Value(f, m))
    case Binary(op, l, r) =>
      (match Eval(sys, l, m)
       case None => None
       case Some(x) =>
         match Eval(sys, r, x.mem)
         case None => None
         case Some(y) => match FinshOps.Apply(op, x.v, y.v) case None => None case Some(v) => Some(Value(v, y.mem)))
    case BitNot(x) => (match Eval(sys, x, m) case None => None case Some(r) => Some(Value(Complement(r.v), r.mem)))
    case Assign(l, r) =>
      (match Address(sys, l, m)
       case None => None
       case Some(x) =>
         match Eval(sys, r, x.mem) case None => None case Some(y) => Some(Value(y.v, Store(y.mem, x.v, y.v))))
    case IncDec(s, x) =>
      (match Address(sys, x, m)
       case None => None
       case Some(p) =>
         var before := Load(p.mem, p.v);
         var after := After(s.PreInc? || s.PostInc?, before);
         Some(Value(if s.PreInc? || s.PreDec? then after else before, Store(p.mem, p.v, after))))
    case Deref(x) => (match Eval(sys, x, m) case None => None case Some(p) => Some(Value(Load(p.mem, p.v), p.mem)))
    case AddrOf(x) => Address(sys, x, m)
    case Apply(f, args) =>
      (match Eval(sys, f, m)
       case None => None
       case Some(g) =>
         match EvalArgs(sys, args, g.mem)
         case None => None
         case Some(p) =>
           var (r, m') := sys(g.v, Parameters(p.vs), p.mem);
           Some(Value(r, m')))
  }

  /** What an increment or a decrement makes of a value. */
  function After(up: bool, v: u32): u32 { Unsigned(if up then v as int + 1 else v as int - 1) }

  /** The address that an lvalue, or the name of a function, denotes. */
  function Address(sys: Syscalls, e: Expr, m: Mem): Option<Value>
    decreases e, 0
  {
    match e
    case Var(a) => Some(Value(a, m))
    case SysVar(a) => Some(Value(a, m))
    case SysCall(f) => Some(Value(f, m))
    case Deref(p) => Eval(sys, p, m)
    case _ => None
  }

  function EvalArgs(sys: Syscalls, es: Exprs, m: Mem): (r: Option<Values>)
    ensures r.Some? ==> |r.value.vs| == Length(es)
    decreases es, 0
  {
    match es
    case End => Some(Values([], m))
    case More(e, rest) =>
      match Eval(sys, e, m)
      case None => None
      case Some(x) =>
        match EvalArgs(sys, rest, x.mem) case None => None case Some(xs) => Some(Values([x.v] + xs.vs, xs.mem))
  }

  // ---- well-formed expressions

  predicate IsLvalue(e: Expr) { e.Var? || e.SysVar? || e.Deref? }

  /** The data type the type check finds: that of the leftmost leaf; a system call's name has none. */
  function TypeOf(e: Expr): DataType {
    match e
    case SysCall(_) => Void
    case Binary(_, l, _) => TypeOf(l)
    case BitNot(x) => TypeOf(x)
    case Assign(l, _) => TypeOf(l)
    case IncDec(_, x) => TypeOf(x)
    case Deref(x) => TypeOf(x)
    case AddrOf(x) => TypeOf(x)
    case Apply(f, _) => TypeOf(f)
    case _ => Dword
  }

  /**
   * Operators apply to dword operands, increments to variables, assignment to lvalues and & to places; calls have at
   * most 16 arguments.
   */
  predicate WellFormed(e: Expr) {
    match e
    case Binary(_, l, r) => WellFormed(l) && WellFormed(r) && TypeOf(l).Dword?
    case BitNot(x) => WellFormed(x) && TypeOf(x).Dword?
    case Assign(l, r) => WellFormed(l) && WellFormed(r) && IsLvalue(l)
    case Deref(x) => WellFormed(x) && TypeOf(x).Dword?
    case IncDec(_, x) => x.Var?
    case AddrOf(x) => WellFormedPlace(x)
    case Apply(f, args) => WellFormed(f) && WellFormedAll(args) && Length(args) <= MAX_PARAMETERS
    case _ => true
  }

  /** What an address can be taken of: variables, functions, and what is behind *, of any type. */
  predicate WellFormedPlace(e: Expr) { e.Var? || e.SysVar? || e.SysCall? || (e.Deref? && WellFormed(e.e)) }

  predicate WellFormedAll(es: Exprs) {
    match es case End => true case More(e, rest) => WellFormed(e) && WellFormedAll(rest)
  }

  // ---- generated code, expression by expression

  function IncDecCode(s: Step, a: u32): seq<Instr> {
    match s
    case PreInc => [Ld(a), LdValue(a), Ld(1), Bin(Add), St, LdValueStack]
    case PreDec => [Ld(a), LdValue(a), Ld(1), Bin(Sub), St, LdValueStack]
    case PostInc => [LdValue(a), Ld(a), LdValue(a), Ld(1), Bin(Add), St, Pop]
    case PostDec => [LdValue(a), Ld(a), LdValue(a), Ld(1), Bin(Sub), St, Pop]
  }

  function ValueCode(e: Expr): seq<Instr>
    decreases e, 1
  {
    match e
    case Const(v) => [Ld(v)]
    case Var(a) => [LdValue(a)]
    case SysVar(a) => [LdValue(a)]
    case SysCall(f) => [Ld(f)]
    case Binary(op, l, r) => ValueCode(l) + ValueCode(r) + [Bin(op)]
    case BitNot(x) => ValueCode(x) + [Not]
    case Assign(l, r) => AddressCode(l) + ValueCode(r) + [St, LdValueStack]
    case IncDec(s, x) => if x.Var? then IncDecCode(s, x.a) else []
    case Deref(x) => ValueCode(x) + [LdValueStack]
    case AddrOf(x) => AddressCode(x)
    case Apply(f, args) => ValueCode(f) + ArgsCode(args) + [Call(Length(args) % 256)]
  }

  function AddressCode(e: Expr): seq<Instr>
    decreases e, 0
  {
    match e
    case Var(a) => [Ld(a)]
    case SysVar(a) => [Ld(a)]
    case SysCall(f) => [Ld(f)]
    case Deref(x) => ValueCode(x)
    case _ => []
  }

  function ArgsCode(es: Exprs): seq<Instr>
    decreases es, 0
  {
    match es case End => [] case More(e, rest) => ValueCode(e) + ArgsCode(rest)
  }

  lemma ForestSiblings(es: Exprs)
    ensures Siblings(TypeCheck(Forest(es), false)) == Length(es)
  {}

  lemma Assoc<T>(a: seq<T>, b: seq<T>, c: seq<T>)
    ensures a + b + c == a + (b + c)
    ensures a + [] == a && [] + a == a
  {}

  lemma IdChild(a: u32, isAddr: bool)
    ensures TypeCheck(IdNode(IdVar, a, Null), isAddr) == Node(NodeId, IdVar, isAddr, Dword, a, Null, Null)
    ensures Code(TypeCheck(IdNode(IdVar, a, Null), isAddr)) == [if isAddr then Ld(a) else LdValue(a)]
  {}

  lemma IncDecTree(s: Step, a: u32, sibling: Node, isAddr: bool)
    ensures TypeCheck(Tree(IncDec(s, Var(a)), sibling), isAddr).dataType == Dword
    ensures var n := TypeCheck(Tree(IncDec(s, Var(a)), sibling), false);
            Code(n.child) + NodeCode(n) == IncDecCode(s, a)
  {
    IdChild(a, true);
    IdChild(a, false);
    IdChild(a, isAddr);
  }

  /** The kind, type and child of a checked tree. */
  lemma TreeType(e: Expr, sibling: Node, isAddr: bool)
    ensures TypeCheck(Tree(e, sibling), isAddr).Node?
    ensures TypeCheck(Tree(e, sibling), isAddr).dataType == TypeOf(e)
  {
    match e
    case Binary(op, l, r) => TreeType(l, Tree(r, Null), isAddr);
    case BitNot(x) => TreeType(x, Null, isAddr);
    case Assign(l, r) => TreeType(l, Tree(r, Null), true);
    case Deref(x) => TreeType(x, Null, false);
    case AddrOf(x) => TreeType(x, Null, true);
    case Apply(f, args) => TreeType(f, Forest(args), isAddr);
    case IncDec(s, x) => TreeType(x, Null, isAddr || s.PreInc? || s.PreDec?);
    case _ =>
  }

  /** One checked system node: the code of its children, its own code, the code of its siblings. */
  lemma SysNodeCode(kind: Kind, child: Node, sibling: Node, childAddr: bool)
    requires !kind.NodeLong? && childAddr == (kind.NodeAssign? || kind.NodePreInc? || kind.NodePreDec? || kind.NodeGetAddr?)
    ensures var n := TypeCheck(SysNode(kind, child, sibling), false);
            n.Node? && n.kind == kind && !n.address && n.child == TypeCheck(child, childAddr)
            && n.dataType == (if n.child.Node? then n.child.dataType else Void)
            && Code(n) == Code(TypeCheck(child, childAddr)) + NodeCode(n) + Code(TypeCheck(sibling, false))
  {}

  lemma LvalueNode(e: Expr, sibling: Node)
    requires IsLvalue(e) || e.SysCall?
    ensures var n := TypeCheck(Tree(e, sibling), true);
            n.Node? && (n.kind.NodeId? || n.kind.NodeGetValue?)
            && n.sibling == TypeCheck(sibling, false)
            && Code(n) == (if e.Deref? then Code(TypeCheck(Tree(e.e, Null), false)) else AddressCode(e))
                          + Code(TypeCheck(sibling, false))
  {
    var n := TypeCheck(Tree(e, sibling), true);
    assert Code(n) == Code(n.child) + NodeCode(n) + Code(n.sibling);
    if e.Deref? {
      assert n.child == TypeCheck(Tree(e.e, Null), false) && NodeCode(n) == [];
      Assoc(Code(n.child), [], []);
    } else {
      assert TypeCheck(Null, true) == Null;
      assert n.child == Null && NodeCode(n) == AddressCode(e);
      Assoc(AddressCode(e), [], []);
    }
  }

  lemma CheckedSibling(e: Expr, sibling: Node, isAddr: bool)
    ensures TypeCheck(Tree(e, sibling), isAddr).Node?
    ensures TypeCheck(Tree(e, sibling), isAddr).sibling == TypeCheck(sibling, false)
  {}

  /** The code generator applied to a checked tree, on a value position and on an lvalue position. */
  lemma {:induction false} TreeCode(e: Expr, sibling: Node)
    ensures WellFormed(e) ==> Code(TypeCheck(Tree(e, sibling), false)) == ValueCode(e) + Code(TypeCheck(sibling, false))
    ensures WellFormedPlace(e) ==>
              Code(TypeCheck(Tree(e, sibling), true)) == AddressCode(e) + Code(TypeCheck(sibling, false))
    decreases e, 1
  {
    if WellFormed(e) { ValueTreeCode(e, sibling); }
    if WellFormedPlace(e) {
      LvalueNode(e, sibling);
      if e.Deref? {
        TreeCode(e.e, Null);
        Assoc(ValueCode(e.e), [], []);
      }
    }
  }

  lemma {:induction false} ValueTreeCode(e: Expr, sibling: Node)
    requires WellFormed(e)
    ensures Code(TypeCheck(Tree(e, sibling), false)) == ValueCode(e) + Code(TypeCheck(sibling, false))
    decreases e, 0
  {
    match e
    case Binary(op, l, r) => BinaryTreeCode(op, l, r, sibling);
    case BitNot(x) => UnaryTreeCode(e, x, NodeBitwise, [Not], sibling);
    case Assign(l, r) => AssignTreeCode(l, r, sibling);
    case Deref(x) => UnaryTreeCode(e, x, NodeGetValue, [LdValueStack], sibling);
    case AddrOf(x) => AddrOfTreeCode(x, sibling);
    case Apply(f, args) => ApplyTreeCode(f, args, sibling);
    case IncDec(s, x) => IncDecTree(s, x.a, sibling, false);
    case _ => assert TypeCheck(Null, false) == Null;
  }

  lemma {:induction false} BinaryTreeCode(op: BinOp, l: Expr, r: Expr, sibling: Node)
    requires WellFormed(Binary(op, l, r))
    ensures Code(TypeCheck(Tree(Binary(op, l, r), sibling), false))
            == ValueCode(Binary(op, l, r)) + Code(TypeCheck(sibling, false))
    decreases Binary(op, l, r), 0, 0
  {
    TreeType(l, Tree(r, Null), false);
    TreeCode(l, Tree(r, Null));
    TreeCode(r, Null);
    SysNodeCode(NodeBin(op), Tree(l, Tree(r, Null)), sibling, false);
    Flat(ValueCode(l), ValueCode(r));
    hide Code, TypeCheck, TypeOf, WellFormed;
  }

  /** The code of ~ or *, whatever the type of the operand. */
  lemma {:induction false} UnaryTreeCode(e: Expr, x: Expr, kind: Kind, own: seq<Instr>, sibling: Node)
    requires WellFormed(x) && ((e == BitNot(x) && kind == NodeBitwise && own == [Not])
                               || (e == Deref(x) && kind == NodeGetValue && own == [LdValueStack]))
    ensures Code(TypeCheck(Tree(e, sibling), false))
            == ValueCode(x) + IfDword(TypeOf(x), own) + Code(TypeCheck(sibling, false))
    decreases e, 0, 0
  {
    TreeType(x, Null, false);
    TreeCode(x, Null);
    SysNodeCode(kind, Tree(x, Null), sibling, false);
    Assoc(ValueCode(x), [], []);
    hide Code, TypeCheck, TypeOf, WellFormed;
  }

  lemma {:induction false} AddrOfTreeCode(x: Expr, sibling: Node)
    requires WellFormed(AddrOf(x))
    ensures Code(TypeCheck(Tree(AddrOf(x), sibling), false))
            == ValueCode(AddrOf(x)) + Code(TypeCheck(sibling, false))
    decreases AddrOf(x), 0, 0
  {
    TreeCode(x, Null);
    SysNodeCode(NodeGetAddr, Tree(x, Null), sibling, true);
    Flat(AddressCode(x), []);
    hide Code, TypeCheck, TypeOf, WellFormed;
  }

  /** The code of an increment through a pointer: the operator is left out. */
  lemma {:induction false} PointerStepCode(s: Step, x: Expr)
    requires WellFormed(x)
    ensures Code(TypeCheck(Tree(IncDec(s, Deref(x)), Null), false))
            == ValueCode(x) + if s.PreInc? || s.PreDec? then [] else IfDword(TypeOf(x), [LdValueStack])
  {
    hide Code, TypeCheck, WellFormed;
    var pre := s.PreInc? || s.PreDec?;
    NullCode();
    TreeCode(x, Null);
    PointerNode(x, pre);
    LvalueNode(Deref(x), Null);
    UnaryTreeCode(Deref(x), x, NodeGetValue, [LdValueStack], Null);
    SysNodeCode(StepKind(s), Tree(Deref(x), Null), Null, pre);
    var n := TypeCheck(SysNode(StepKind(s), Tree(Deref(x), Null), Null), false);
    assert Tree(IncDec(s, Deref(x)), Null) == SysNode(StepKind(s), Tree(Deref(x), Null), Null);
    assert NodeCode(n) == [];
    Flat(ValueCode(x), []);
    Flat(ValueCode(x) + IfDword(TypeOf(x), [LdValueStack]), []);
  }

  lemma PointerNode(x: Expr, isAddr: bool)
    ensures TypeCheck(Tree(Deref(x), Null), isAddr).Node? && TypeCheck(Tree(Deref(x), Null), isAddr).kind.NodeGetValue?
  {}

  lemma NullCode()
    ensures Code(Null) == [] && TypeCheck(Null, false) == Null
  {}

  lemma Flat<T>(a: seq<T>, b: seq<T>)
    ensures a + (b + []) == a + b && a + [] == a
  {
    Assoc(a, b, []);
    Assoc(b, [], []);
  }

  /** The code of an assignment, whatever the type of its left side. */
  lemma {:induction false} PlaceTreeCode(l: Expr, r: Expr, sibling: Node)
    requires WellFormedPlace(l) && WellFormed(r)
    ensures Code(TypeCheck(Tree(Assign(l, r), sibling), false))
            == AddressCode(l) + ValueCode(r) + IfDword(TypeOf(l), [St, LdValueStack]) + Code(TypeCheck(sibling, false))
    decreases Assign(l, r), 0, 0
  {
    TreeType(l, Tree(r, Null), true);
    LvalueNode(l, Tree(r, Null));
    TreeCode(l, Tree(r, Null));
    TreeCode(r, Null);
    SysNodeCode(NodeAssign, Tree(l, Tree(r, Null)), sibling, true);
    Flat(AddressCode(l), ValueCode(r));
    hide Code, TypeCheck, TypeOf, WellFormed;
  }

  lemma {:induction false} AssignTreeCode(l: Expr, r: Expr, sibling: Node)
    requires WellFormed(Assign(l, r))
    ensures Code(TypeCheck(Tree(Assign(l, r), sibling), false))
            == ValueCode(Assign(l, r)) + Code(TypeCheck(sibling, false))
    decreases Assign(l, r), 0, 1
  {
    TypedLvalue(l);
    PlaceTreeCode(l, r, sibling);
    hide Code, TypeCheck;
  }

  lemma {:induction false} ApplyTreeCode(f: Expr, args: Exprs, sibling: Node)
    requires WellFormed(Apply(f, args))
    ensures Code(TypeCheck(Tree(Apply(f, args), sibling), false))
            == ValueCode(Apply(f, args)) + Code(TypeCheck(sibling, false))
    decreases Apply(f, args), 0, 0
  {
    CheckedSibling(f, Forest(args), false);
    TreeCode(f, Forest(args));
    ForestCode(args);
    ForestSiblings(args);
    SysNodeCode(NodeFunc, Tree(f, Forest(args)), sibling, false);
    hide Code, TypeCheck, TypeOf, WellFormed, Siblings, Forest;
  }

  lemma TypedLvalue(e: Expr)
    requires IsLvalue(e) && WellFormed(e)
    ensures TypeOf(e) == Dword && WellFormedPlace(e)
  {}

  lemma {:induction false} ForestCode(es: Exprs)
    requires WellFormedAll(es)
    ensures Code(TypeCheck(Forest(es), false)) == ArgsCode(es)
    decreases es, 0
  {
    match es
    case End =>
    case More(e, rest) =>
      TreeCode(e, Forest(rest));
      ForestCode(rest);
  }
}
