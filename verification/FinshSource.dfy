/** The expressions a finsh user writes, on 32-bit variables, and what they mean. */
module FinshSource {
  import opened Options
  import opened FinshWords
  import opened FinshCode
  import opened FinshCompiler

  /** Expressions without operands: a constant, a variable, the address of a
      variable, ++x or --x, x++ or x--. */
  datatype Leaf = Num(v: Word) | Var(a: Word) | AddrVar(a: Word) | PreStep(up: bool, a: Word) | PostStep(up: bool,
    a: Word)

  /** ~e, *e, &*e and x = e. */
  datatype Unary = Not | Deref | AddrAt | AssignVar(a: Word)

  /** l op r and *l = r. */
  datatype Binary = Op(op: BinOp) | AssignAt

  datatype Expr =
    | Zero(k: Leaf)
    | One(u: Unary, e: Expr)
    | Two(b: Binary, l: Expr, r: Expr)
    | Call(f: Word, args: Args)

  datatype Args = Done | Arg(e: Expr, rest: Args)

  /** A value and the memory after the evaluation. */
  datatype Value = Value(w: Word, mem: Memory)

  datatype Values = Values(ws: seq<Word>, mem: Memory)

  function StepOp(up: bool): BinOp { if up then Add else Sub }

  /** One more or one less. */
  function Stepped(up: bool, x: Word): Word {
    ToWord(if up then x + 1 else x - 1)
  }

  function EvalLeaf(k: Leaf, m: Memory): Value {
    match k
    case Num(v) => Value(v, m)
    case Var(a) => Value(Load32(m, a), m)
    case AddrVar(a) => Value(a, m)
    case PreStep(up, a) => var y := Stepped(up, Load32(m, a)); Value(y, Store32(m, a, y))
    case PostStep(up, a) => var x := Load32(m, a); Value(x, Store32(m, a, Stepped(up, x)))
  }

  function EvalOne(u: Unary, x: Option<Value>): Option<Value> {
    if x.None? then None
    else match u
      case Not => Some(Value(Invert(x.value.w), x.value.mem))
      case Deref => Some(Value(Load32(x.value.mem, x.value.w), x.value.mem))
      case AddrAt => x
      case AssignVar(a) => Some(Value(x.value.w, Store32(x.value.mem, a, x.value.w)))
  }

  function EvalTwo(b: Binary, x: Option<Value>, y: Option<Value>): Option<Value> {
    if x.None? || y.None? then None
    else match b
      case Op(op) =>
        var z := Arith(op, x.value.w, y.value.w);
        if z.None? then None else Some(Value(z.value, y.value.mem))
      case AssignAt => Some(Value(y.value.w, Store32(y.value.mem, x.value.w, y.value.w)))
  }

  /** The meaning of an expression: left to right, with its effects on memory.
      None where C leaves an operation undefined. */
  function Eval(e: Expr, m: Memory, host: Host): Option<Value>
    decreases e
  {
    match e
    case Zero(k) => Some(EvalLeaf(k, m))
    case One(u, e) => EvalOne(u, Eval(e, m, host))
    case Two(b, l, r) =>
      var x := Eval(l, m, host);
      EvalTwo(b, x, if x.None? then None else Eval(r, x.value.mem, host))
    case Call(f, args) =>
      var xs := EvalArgs(args, m, host);
      if xs.None? then None
      else Some(Value(host(f, xs.value.ws, xs.value.mem).0, host(f, xs.value.ws, xs.value.mem).1))
  }

  function EvalArgs(args: Args, m: Memory, host: Host): Option<Values>
    decreases args
  {
    match args
    case Done => Some(Values([], m))
    case Arg(e, rest) =>
      var x := Eval(e, m, host);
      if x.None? then None else
      var xs := EvalArgs(rest, x.value.mem, host);
      if xs.None? then None else Some(Values([x.value.w] + xs.value.ws, xs.value.mem))
  }

  function ArgCount(args: Args): nat {
    match args case Done => 0 case Arg(_, rest) => 1 + ArgCount(rest)
  }

  // ------------------------------------------------------ from source to tree

  function Raw(k: Kind, child: Tree, sib: Tree): Tree {
    Node(k, false, VOID, child, sib)
  }

  function VarNode(a: Word, sib: Tree): Tree {
    Raw(Id(a, DWORD), Nil, sib)
  }

  function LowerLeaf(k: Leaf, sib: Tree): Tree {
    match k
    case Num(v) => Raw(ValueLong(v), Nil, sib)
    case Var(a) => VarNode(a, sib)
    case AddrVar(a) => Raw(SysGetAddr, VarNode(a, Nil), sib)
    case PreStep(up, a) => Raw(if up then SysPreInc else SysPreDec, VarNode(a, Nil), sib)
    case PostStep(up, a) => Raw(if up then SysInc else SysDec, VarNode(a, Nil), sib)
  }

  function LowerOne(u: Unary, x: Tree, sib: Tree): Tree {
    match u
    case Not => Raw(SysBitwise, x, sib)
    case Deref => Raw(SysGetValue, x, sib)
    case AddrAt => Raw(SysGetAddr, Raw(SysGetValue, x, Nil), sib)
    case AssignVar(a) => Raw(SysAssign, VarNode(a, x), sib)
  }

  /** The tree that the parser builds for an expression, followed by `sib`. */
  function Lower(e: Expr, sib: Tree): (t: Tree)
    ensures t.Node?
    decreases e
  {
    match e
    case Zero(k) => LowerLeaf(k, sib)
    case One(u, e) => LowerOne(u, Lower(e, Nil), sib)
    case Two(b, l, r) =>
      if b.Op? then Raw(SysBin(b.op), Lower(l, Lower(r, Nil)), sib)
      else Raw(SysAssign, Raw(SysGetValue, Lower(l, Nil), Lower(r, Nil)), sib)
    case Call(f, args) => Raw(SysFunc, Raw(Syscall(f), Nil, LowerArgs(args)), sib)
  }

  function LowerArgs(args: Args): Tree
    decreases args
  {
    match args case Done => Nil case Arg(e, rest) => Lower(e, LowerArgs(rest))
  }

  // ------------------------------------------- the code an expression should get

  /** The data type the type check gives to an expression: that of its leftmost
      leaf, and none at all when this is a function name. */
  function TypeOf(e: Expr): DataType {
    match e
    case Zero(_) => DWORD
    case One(u, e) => if u.AssignVar? then DWORD else TypeOf(e)
    case Two(_, l, _) => TypeOf(l)
    case Call(_, _) => VOID
  }

  function OperandType(e: Expr, typed: bool): DataType {
    if typed then TypeOf(e) else DWORD
  }

  function StoreCode(d: DataType): seq<Instr> {
    Sized(ST_DWORD, d) + Sized(LD_VALUE_DWORD_STACK, d)
  }

  function GenLeaf(k: Leaf): seq<Instr> {
    match k
    case Num(v) => [WithWord(LD_DWORD, v)]
    case Var(a) => [WithWord(LD_VALUE_DWORD, a)]
    case AddrVar(a) => [WithWord(LD_DWORD, a)]
    case PreStep(up, a) => [WithWord(LD_DWORD, a)] + Pre(a, DWORD, StepOp(up))
    case PostStep(up, a) => [WithWord(LD_VALUE_DWORD, a)] + Post(a, DWORD, StepOp(up))
  }

  function GenOne(u: Unary, g: seq<Instr>, d: DataType): seq<Instr> {
    match u
    case Not => g + Sized(BITWISE_DWORD, d)
    case Deref => g + Sized(LD_VALUE_DWORD_STACK, d)
    case AddrAt => g
    case AssignVar(a) => [WithWord(LD_DWORD, a)] + g + StoreCode(DWORD)
  }

  function GenTwo(b: Binary, g: seq<Instr>, h: seq<Instr>, d: DataType): seq<Instr> {
    g + h + (if b.Op? then Sized(DwordCode(b.op), d) else StoreCode(d))
  }

  function GenCall(f: Word, n: nat, h: seq<Instr>): seq<Instr> {
    [WithWord(LD_DWORD, f)] + h + [WithByte(SYSCALL, (n % 256) as Byte)]
  }

  /** The instructions for an expression.  With `typed` false every operator is
      emitted for 32-bit operands; with `typed` true an operator is emitted for
      the data type of its first operand, as the compiler does. */
  function Gen(e: Expr, typed: bool): seq<Instr>
    decreases e
  {
    match e
    case Zero(k) => GenLeaf(k)
    case One(u, e) => GenOne(u, Gen(e, typed), OperandType(e, typed))
    case Two(b, l, r) => GenTwo(b, Gen(l, typed), Gen(r, typed), OperandType(l, typed))
    case Call(f, args) => GenCall(f, ArgCount(args), GenArgs(args, typed))
  }

  function GenArgs(args: Args, typed: bool): seq<Instr>
    decreases args
  {
    match args case Done => [] case Arg(e, rest) => Gen(e, typed) + GenArgs(rest, typed)
  }

  // ------------------------------------------------- type check and compilation

  /** Type check and compilation give expression e the code Gen(e, true). */
  ghost predicate Lowered(e: Expr, sib: Tree) {
    var t := TypeCheck(Lower(e, sib), false);
    t.dtype == TypeOf(e) && Code(t) == Gen(e, true) + Code(TypeCheck(sib, false))
  }

  lemma LeafCode(t: Tree)
    requires t.Node? && t.child.Nil?
    ensures Code(t) == Emit(t) + Code(t.sibling)
  {
  }

  lemma NodeCode(t: Tree)
    requires t.Node?
    ensures Code(t) == Code(t.child) + Emit(t) + Code(t.sibling)
  {
  }

  lemma RightUnit(a: seq<Instr>)
    ensures a + [] == a
  {
  }

  lemma NoSibling(e: Expr)
    requires Lowered(e, Nil)
    ensures Code(TypeCheck(Lower(e, Nil), false)) == Gen(e, true)
  {
    RightUnit(Gen(e, true));
  }

  /** Tree x, checked as a value, has data type d and code g. */
  ghost predicate Has(x: Tree, d: DataType, g: seq<Instr>) {
    x.Node? && TypeCheck(x, false).dtype == d && Code(TypeCheck(x, false)) == g
  }

  /** Tree x, checked as an address, has data type d and code g. */
  ghost predicate HasAddress(x: Tree, d: DataType, g: seq<Instr>) {
    x.Node? && TypeCheck(x, true).dtype == d && Code(TypeCheck(x, true)) == g
  }

  /** A node whose child is checked as a value. */
  lemma ValueNode(k: Kind, x: Tree, sib: Tree, d: DataType, g: seq<Instr>) returns (t: Tree)
    requires Has(x, d, g) && !k.Syscall?
    requires !k.SysAssign? && !k.SysPreInc? && !k.SysPreDec? && !k.SysGetAddr?
    ensures t == TypeCheck(Raw(k, x, sib), false)
    ensures t == Node(k, false, d, TypeCheck(x, false), TypeCheck(sib, false))
    ensures Code(t) == g + Emit(t) + Code(TypeCheck(sib, false))
  {
    t := TypeCheck(Raw(k, x, sib), false);
    NodeCode(t);
  }

  /** A node whose first child is checked as an address. */
  lemma AddressNode(k: Kind, x: Tree, sib: Tree, d: DataType, g: seq<Instr>) returns (t: Tree)
    requires HasAddress(x, d, g)
    requires k.SysAssign? || k.SysPreInc? || k.SysPreDec? || k.SysGetAddr?
    ensures t == TypeCheck(Raw(k, x, sib), false)
    ensures t == Node(k, false, d, TypeCheck(x, true), TypeCheck(sib, false))
    ensures Code(t) == g + Emit(t) + Code(TypeCheck(sib, false))
  {
    t := TypeCheck(Raw(k, x, sib), false);
    NodeCode(t);
  }

  /** A variable that is wanted as an address. */
  lemma AddressLeaf(a: Word, sib: Tree)
    ensures HasAddress(Raw(Id(a, DWORD), Nil, sib), DWORD, [WithWord(LD_DWORD, a)] + Code(TypeCheck(sib, false)))
  {
    LeafCode(TypeCheck(Raw(Id(a, DWORD), Nil, sib), true));
  }

  /** A dereference that is wanted as an address emits nothing itself. */
  lemma AddressDeref(x: Tree, sib: Tree, d: DataType, g: seq<Instr>)
    requires Has(x, d, g)
    ensures HasAddress(Raw(SysGetValue, x, sib), d, g + Code(TypeCheck(sib, false)))
  {
    var t := TypeCheck(Raw(SysGetValue, x, sib), true);
    NodeCode(t);
    assert Emit(t) == [];
    RightUnit(g);
  }

  lemma VarLeaf(a: Word)
    ensures Has(VarNode(a, Nil), DWORD, [WithWord(LD_VALUE_DWORD, a)])
    ensures HasAddress(VarNode(a, Nil), DWORD, [WithWord(LD_DWORD, a)])
  {
    LeafCode(TypeCheck(VarNode(a, Nil), false));
    AddressLeaf(a, Nil);
    RightUnit([WithWord(LD_DWORD, a)]);
    RightUnit([WithWord(LD_VALUE_DWORD, a)]);
  }

  /** What follows an expression in the tree is compiled after it. */
  function Tail(sib: Tree): seq<Instr> {
    Code(TypeCheck(sib, false))
  }

  lemma PreLeaf(up: bool, a: Word, sib: Tree)
    ensures Has(LowerLeaf(PreStep(up, a), sib), DWORD, GenLeaf(PreStep(up, a)) + Tail(sib))
  {
    VarLeaf(a);
    var k := if up then SysPreInc else SysPreDec;
    var t := AddressNode(k, VarNode(a, Nil), sib, DWORD, [WithWord(LD_DWORD, a)]);
    assert Emit(t) == Pre(a, DWORD, StepOp(up));
  }

  lemma PostLeaf(up: bool, a: Word, sib: Tree)
    ensures Has(LowerLeaf(PostStep(up, a), sib), DWORD, GenLeaf(PostStep(up, a)) + Tail(sib))
  {
    VarLeaf(a);
    var k := if up then SysInc else SysDec;
    var t := ValueNode(k, VarNode(a, Nil), sib, DWORD, [WithWord(LD_VALUE_DWORD, a)]);
    assert Emit(t) == Post(a, DWORD, StepOp(up));
  }

  lemma LeafTree(k: Leaf, sib: Tree)
    ensures Has(LowerLeaf(k, sib), DWORD, GenLeaf(k) + Tail(sib))
  {
    match k
    case Num(v) => LeafCode(TypeCheck(LowerLeaf(k, sib), false));
    case Var(a) => LeafCode(TypeCheck(LowerLeaf(k, sib), false));
    case AddrVar(a) =>
      VarLeaf(a);
      var t := AddressNode(SysGetAddr, VarNode(a, Nil), sib, DWORD, [WithWord(LD_DWORD, a)]);
      assert Emit(t) == [];
      RightUnit([WithWord(LD_DWORD, a)]);
    case PreStep(up, a) => PreLeaf(up, a, sib);
    case PostStep(up, a) => PostLeaf(up, a, sib);
  }

  lemma AddrAtTree(x: Tree, sib: Tree, d: DataType, g: seq<Instr>)
    requires Has(x, d, g)
    ensures Has(Raw(SysGetAddr, Raw(SysGetValue, x, Nil), sib), d, g + Tail(sib))
  {
    AddressDeref(x, Nil, d, g);
    RightUnit(g);
    var t := AddressNode(SysGetAddr, Raw(SysGetValue, x, Nil), sib, d, g);
    assert Emit(t) == [];
  }

  lemma AssignVarTree(a: Word, x: Tree, sib: Tree, d: DataType, g: seq<Instr>)
    requires Has(x, d, g)
    ensures Has(Raw(SysAssign, VarNode(a, x), sib), DWORD, [WithWord(LD_DWORD, a)] + g + StoreCode(DWORD) + Tail(sib))
  {
    AddressLeaf(a, x);
    var t := AddressNode(SysAssign, VarNode(a, x), sib, DWORD, [WithWord(LD_DWORD, a)] + g);
    assert Emit(t) == StoreCode(DWORD);
  }

  lemma OneTree(u: Unary, x: Tree, sib: Tree, d: DataType, g: seq<Instr>)
    requires Has(x, d, g)
    ensures Has(LowerOne(u, x, sib), if u.AssignVar? then DWORD else d, GenOne(u, g, d) + Tail(sib))
  {
    match u
    case Not => var t := ValueNode(SysBitwise, x, sib, d, g);
    case Deref => var t := ValueNode(SysGetValue, x, sib, d, g);
    case AddrAt => AddrAtTree(x, sib, d, g);
    case AssignVar(a) => AssignVarTree(a, x, sib, d, g);
  }

  lemma OpTree(op: BinOp, x: Tree, sib: Tree, d: DataType, g: seq<Instr>)
    requires Has(x, d, g)
    ensures Has(Raw(SysBin(op), x, sib), d, g + Sized(DwordCode(op), d) + Tail(sib))
  {
    var t := ValueNode(SysBin(op), x, sib, d, g);
  }

  lemma AssignEmit(t: Tree)
    requires t.Node? && t.kind.SysAssign? && t.child.Node? && t.child.kind.SysGetValue?
    ensures Emit(t) == StoreCode(t.child.dtype)
  {
  }

  lemma AssignAtTree(x: Tree, y: Tree, sib: Tree, d: DataType, g: seq<Instr>, h: seq<Instr>)
    requires Has(x, d, g) && y.Node? && Code(TypeCheck(y, false)) == h
    ensures Has(Raw(SysAssign, Raw(SysGetValue, x, y), sib), d, g + h + StoreCode(d) + Tail(sib))
  {
    AddressDeref(x, y, d, g);
    var t := AddressNode(SysAssign, Raw(SysGetValue, x, y), sib, d, g + h);
    AssignEmit(t);
  }

  lemma CallTree(f: Word, x: Tree, sib: Tree, n: nat, h: seq<Instr>)
    requires Code(TypeCheck(x, false)) == h && Count(TypeCheck(x, false)) == n
    ensures Has(Raw(SysFunc, Raw(Syscall(f), Nil, x), sib), VOID, GenCall(f, n, h) + Tail(sib))
  {
    LeafCode(TypeCheck(Raw(Syscall(f), Nil, x), false));
    NodeCode(TypeCheck(Raw(SysFunc, Raw(Syscall(f), Nil, x), sib), false));
  }

  lemma LowerOp(op: BinOp, l: Expr, r: Expr, sib: Tree)
    requires Lowered(r, Nil) && Lowered(l, Lower(r, Nil))
    ensures Lowered(Two(Op(op), l, r), sib)
  {
    NoSibling(r);
    OpTree(op, Lower(l, Lower(r, Nil)), sib, TypeOf(l), Gen(l, true) + Gen(r, true));
  }

  lemma LowerAssignAt(l: Expr, r: Expr, sib: Tree)
    requires Lowered(r, Nil) && Lowered(l, Nil)
    ensures Lowered(Two(AssignAt, l, r), sib)
  {
    NoSibling(l);
    NoSibling(r);
    AssignAtTree(Lower(l, Nil), Lower(r, Nil), sib, TypeOf(l), Gen(l, true), Gen(r, true));
  }

  ghost predicate LoweredArgs(args: Args) {
    var t := TypeCheck(LowerArgs(args), false);
    Code(t) == GenArgs(args, true) && Count(t) == ArgCount(args)
  }

  lemma {:induction false} LowerCode(e: Expr, sib: Tree)
    ensures Lowered(e, sib)
    decreases e
  {
    match e
    case Zero(k) => LeafTree(k, sib);
    case One(u, x) =>
      LowerCode(x, Nil);
      NoSibling(x);
      OneTree(u, Lower(x, Nil), sib, TypeOf(x), Gen(x, true));
    case Two(b, l, r) =>
      LowerCode(r, Nil);
      if b.Op? {
        LowerCode(l, Lower(r, Nil));
        LowerOp(b.op, l, r, sib);
      } else {
        LowerCode(l, Nil);
        LowerAssignAt(l, r, sib);
      }
    case Call(f, args) =>
      LowerArgsCode(args);
      CallTree(f, LowerArgs(args), sib, ArgCount(args), GenArgs(args, true));
  }

  lemma {:induction false} LowerArgsCode(args: Args)
    ensures LoweredArgs(args)
    decreases args
  {
    match args
    case Done =>
    case Arg(e, rest) =>
      LowerArgsCode(rest);
      LowerCode(e, LowerArgs(rest));
      LowerSibling(e, LowerArgs(rest));
  }

  lemma LowerSibling(e: Expr, sib: Tree)
    ensures TypeCheck(Lower(e, sib), false).sibling == TypeCheck(sib, false)
  {
  }
}
