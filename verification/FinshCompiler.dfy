/** The syntax tree of finsh in child/sibling form and finsh_compiler.c on it:
    the type check that annotates the tree and the code each node emits. */
module FinshCompiler {
  import opened FinshWords
  import opened FinshCode

  datatype DataType = VOID | BYTE | WORD | DWORD

  datatype Kind =
    | Id(address: Word, width: DataType)
    | Syscall(func: Word)
    | ValueChar(c: Byte)
    | ValueLong(v: Word)
    | SysBin(op: BinOp)
    | SysBitwise
    | SysFunc
    | SysAssign
    | SysPreInc
    | SysPreDec
    | SysInc
    | SysDec
    | SysGetValue
    | SysGetAddr
    | SysNull

  /** `addr` is the ADDRESS bit of idtype. */
  datatype Tree =
    | Nil
    | Node(kind: Kind, addr: bool, dtype: DataType, child: Tree, sibling: Tree)

  /** finsh_type_check: mark the nodes whose address is wanted and give every
      node the data type of its first child. */
  function TypeCheck(t: Tree, isAddr: bool): (r: Tree)
    ensures t.Nil? <==> r.Nil?
    ensures t.Node? ==> r.kind == t.kind
  {
    match t
    case Nil => Nil
    case Node(kind, addr, dtype, child, sibling) =>
      var childAddr :=
        if kind.SysAssign? || kind.SysPreInc? || kind.SysPreDec? || kind.SysGetAddr? then true
        else if kind.SysGetValue? && isAddr then false
        else isAddr;
      var child' := TypeCheck(child, childAddr);
      var sibling' := TypeCheck(sibling, false);
      var addr' := if kind.Syscall? then addr else addr || isAddr;
      var dtype' :=
        if child'.Node? then child'.dtype
        else if kind.Id? then kind.width
        else if kind.ValueChar? then BYTE
        else if kind.ValueLong? then DWORD
        else dtype;
      Node(kind, addr', dtype', child', sibling')
  }

  /** The byte, word and dword codes of one operation are neighbours. */
  function Sized(dwordCode: Byte, d: DataType): seq<Instr>
    requires dwordCode >= 2
  {
    match d
    case VOID => []
    case BYTE => [Plain(dwordCode - 2)]
    case WORD => [Plain(dwordCode - 1)]
    case DWORD => [Plain(dwordCode)]
  }

  function LoadValue(a: Word, d: DataType): seq<Instr> {
    match d
    case VOID => []
    case BYTE => [WithWord(LD_VALUE_BYTE, a)]
    case WORD => [WithWord(LD_VALUE_WORD, a)]
    case DWORD => [WithWord(LD_VALUE_DWORD, a)]
  }

  function LoadOne(d: DataType): seq<Instr> {
    match d
    case VOID => []
    case BYTE => [WithByte(LD_BYTE, 1)]
    case WORD => [WithHalf(LD_WORD, 1, 0)]
    case DWORD => [WithWord(LD_DWORD, 1)]
  }

  function Count(t: Tree): nat {
    if t.Nil? then 0 else 1 + Count(t.sibling)
  }

  /** What finsh_compile emits for the node itself, between its children and its
      siblings. */
  function Emit(t: Tree): seq<Instr>
    requires t.Node?
  {
    var d := t.dtype;
    match t.kind
    case Syscall(f) => [WithWord(LD_DWORD, f)]
    case Id(a, w) => if w == VOID then [] else if t.addr then [WithWord(LD_DWORD, a)] else LoadValue(a, w)
    case ValueChar(c) => [WithByte(LD_BYTE, c)]
    case ValueLong(v) => [WithWord(LD_DWORD, v)]
    case SysBin(op) => Sized(DwordCode(op), d)
    case SysBitwise => Sized(BITWISE_DWORD, d)
    case SysFunc =>
      if t.child.Nil? then [] else [WithByte(SYSCALL, (Count(t.child.sibling) % 256) as Byte)]
    case SysAssign =>
      if t.child.Node? && (t.child.kind.Id? || t.child.kind.SysGetValue?)
      then Sized(ST_DWORD, t.child.dtype) + Sized(LD_VALUE_DWORD_STACK, t.child.dtype)
      else []
    case SysPreInc => if t.child.Node? && t.child.kind.Id? then Pre(t.child.kind.address, d, Add) else []
    case SysPreDec => if t.child.Node? && t.child.kind.Id? then Pre(t.child.kind.address, d, Sub) else []
    case SysInc => if t.child.Node? && t.child.kind.Id? then Post(t.child.kind.address, d, Add) else []
    case SysDec => if t.child.Node? && t.child.kind.Id? then Post(t.child.kind.address, d, Sub) else []
    case SysGetValue => if t.addr then [] else Sized(LD_VALUE_DWORD_STACK, d)
    case SysGetAddr => []
    case SysNull => [Plain(NOOP), Plain(NOOP), Plain(NOOP), Plain(NOOP)]
  }

  /** ++x and --x: the address is on the stack; add, store, load the new value. */
  function Pre(a: Word, d: DataType, op: BinOp): seq<Instr> {
    if d == VOID then []
    else LoadValue(a, d) + LoadOne(d) + Sized(DwordCode(op), d) + Sized(ST_DWORD, d) + [Plain(LD_VALUE_DWORD_STACK)]
  }

  /** x++ and x--: the old value stays on the stack below the update. */
  function Post(a: Word, d: DataType, op: BinOp): seq<Instr> {
    if d == VOID then []
    else [WithWord(LD_DWORD, a)] + LoadValue(a, d) + LoadOne(d) + Sized(DwordCode(op), d) + Sized(ST_DWORD,
      d) + [Plain(POP)]
  }

  /** finsh_compile: children, the node, siblings. */
  function Code(t: Tree): seq<Instr> {
    if t.Nil? then [] else Code(t.child) + Emit(t) + Code(t.sibling)
  }

  /** finsh_compiler_run: every statement compiled without its siblings, the
      value of each but the last popped. */
  function Program(t: Tree): seq<Instr> {
    if t.Nil? then []
    else Code(t.(sibling := Nil)) + (if t.sibling.Nil? then [] else [Plain(POP)]) + Program(t.sibling)
  }

  ghost predicate AllFormed(prog: seq<Instr>) {
    forall k :: 0 <= k < |prog| ==> Formed(prog[k])
  }

  lemma SizedFormed(c: Byte, d: DataType)
    requires c >= 2 && Operand(c) == 0 && Operand(c - 1) == 0 && Operand(c - 2) == 0
    ensures AllFormed(Sized(c, d))
  {
  }

  lemma BinFormed(op: BinOp, d: DataType)
    ensures AllFormed(Sized(DwordCode(op), d))
  {
    SizedFormed(DwordCode(op), d);
  }

  lemma AppendFormed(a: seq<Instr>, b: seq<Instr>)
    requires AllFormed(a) && AllFormed(b)
    ensures AllFormed(a + b)
  {
  }

  lemma PreFormed(a: Word, d: DataType, op: BinOp)
    ensures AllFormed(Pre(a, d, op)) && AllFormed(Post(a, d, op))
  {
    BinFormed(op, d);
    SizedFormed(ST_DWORD, d);
    if d != VOID {
      var m := LoadValue(a, d) + LoadOne(d);
      AppendFormed(m, Sized(DwordCode(op), d));
      AppendFormed(m + Sized(DwordCode(op), d), Sized(ST_DWORD, d));
      AppendFormed(m + Sized(DwordCode(op), d) + Sized(ST_DWORD, d), [Plain(LD_VALUE_DWORD_STACK)]);
      var n := [WithWord(LD_DWORD, a)] + LoadValue(a, d) + LoadOne(d);
      AppendFormed(n, Sized(DwordCode(op), d));
      AppendFormed(n + Sized(DwordCode(op), d), Sized(ST_DWORD, d));
      AppendFormed(n + Sized(DwordCode(op), d) + Sized(ST_DWORD, d), [Plain(POP)]);
    }
  }

  lemma EmitFormed(t: Tree)
    requires t.Node?
    ensures AllFormed(Emit(t))
  {
    match t.kind
    case SysBin(op) => BinFormed(op, t.dtype);
    case SysBitwise => SizedFormed(BITWISE_DWORD, t.dtype);
    case SysAssign =>
      if t.child.Node? {
        SizedFormed(ST_DWORD, t.child.dtype);
        SizedFormed(LD_VALUE_DWORD_STACK, t.child.dtype);
        AppendFormed(Sized(ST_DWORD, t.child.dtype), Sized(LD_VALUE_DWORD_STACK, t.child.dtype));
      }
    case SysPreInc => if t.child.Node? && t.child.kind.Id? { PreFormed(t.child.kind.address, t.dtype, Add); }
    case SysPreDec => if t.child.Node? && t.child.kind.Id? { PreFormed(t.child.kind.address, t.dtype, Sub); }
    case SysInc => if t.child.Node? && t.child.kind.Id? { PreFormed(t.child.kind.address, t.dtype, Add); }
    case SysDec => if t.child.Node? && t.child.kind.Id? { PreFormed(t.child.kind.address, t.dtype, Sub); }
    case SysGetValue => SizedFormed(LD_VALUE_DWORD_STACK, t.dtype);
    case _ =>
  }

  lemma {:induction false} CodeFormed(t: Tree)
    ensures AllFormed(Code(t))
  {
    if t.Node? {
      CodeFormed(t.child);
      EmitFormed(t);
      CodeFormed(t.sibling);
    }
  }

  lemma {:induction false} ProgramFormed(t: Tree)
    ensures AllFormed(Program(t))
  {
    if t.Node? {
      CodeFormed(t.(sibling := Nil));
      ProgramFormed(t.sibling);
    }
  }
}
