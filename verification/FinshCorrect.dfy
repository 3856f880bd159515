/** Compiler correctness: the bytes of a compiled statement list, run by the
    virtual machine, compute what the source means. */
module FinshCorrect {
  import opened Options
  import opened FinshWords
  import opened FinshCode
  import opened FinshCompiler
  import opened FinshSource

  /** Code g, started in s, pushes the value r and has its effect on memory. */
  ghost predicate Runs(g: seq<Instr>, s: Machine, host: Host, r: Option<Value>) {
    Exec(g, s, host) == Pushed(s, r)
  }

  function Pushed(s: Machine, r: Option<Value>): Option<Machine> {
    match r case None => None case Some(v) => Some(Machine(s.stack + [v.w], v.mem))
  }

  /** Stack cells that the code of an expression needs at most. */
  function Need(e: Expr): (n: nat)
    ensures n >= 1
    decreases e
  {
    match e
    case Zero(k) => NeedLeaf(k)
    case One(u, e) => if u.AssignVar? then 1 + Need(e) else Need(e)
    case Two(_, l, r) => Max(Need(l), 1 + Need(r))
    case Call(_, args) => 1 + NeedArgs(args)
  }

  function NeedLeaf(k: Leaf): nat {
    match k case PreStep(_, _) => 3 case PostStep(_, _) => 4 case _ => 1
  }

  function NeedArgs(args: Args): nat
    decreases args
  {
    match args case Done => 0 case Arg(e, rest) => Max(Need(e), 1 + NeedArgs(rest))
  }

  function Max(a: nat, b: nat): nat { if a > b then a else b }

  /** No call has more arguments than OP_call passes on. */
  predicate FewArgs(e: Expr)
    decreases e
  {
    match e
    case Zero(_) => true
    case One(_, e) => FewArgs(e)
    case Two(_, l, r) => FewArgs(l) && FewArgs(r)
    case Call(_, args) => ArgCount(args) <= 16 && FewInArgs(args)
  }

  predicate FewInArgs(args: Args)
    decreases args
  {
    match args case Done => true case Arg(e, rest) => FewArgs(e) && FewInArgs(rest)
  }

  // ------------------------------------------------------- single instructions

  lemma Exec1(i: Instr, s: Machine, host: Host)
    ensures Exec([i], s, host) == Step(i, s, host)
  {
    assert [i][1..] == [];
  }

  lemma PushRuns(i: Instr, s: Machine, host: Host, w: Word)
    requires |s.stack| < STACK_MAX
    requires i == WithWord(LD_DWORD, w) || (i.WithWord? && i.op == LD_VALUE_DWORD && w == Load32(s.mem, i.w))
    ensures Runs([i], s, host, Some(Value(w, s.mem)))
  {
    Exec1(i, s, host);
  }

  lemma SplitOne(stack: seq<Word>, x: Word)
    ensures var t := stack + [x]; t[|t| - 1] == x && t[..|t| - 1] == stack
  {
  }

  lemma SplitTwo(stack: seq<Word>, x: Word, y: Word)
    ensures var t := stack + [x] + [y];
      t[|t| - 2] == x && t[|t| - 1] == y && t[..|t| - 2] == stack && t[..|t| - 1] == stack + [x]
  {
  }

  lemma BinaryStep(op: BinOp, stack: seq<Word>, x: Word, y: Word, m: Memory, host: Host)
    ensures Step(Plain(DwordCode(op)), Machine(stack + [x] + [y], m), host) ==
            match Arith(op, x, y) { case None => None case Some(z) => Some(Machine(stack + [z], m)) }
  {
    SplitTwo(stack, x, y);
    assert BinaryOf(DwordCode(op)) == Some(op);
    assert DwordCode(op) != NOOP;
  }

  lemma NotStep(stack: seq<Word>, x: Word, m: Memory, host: Host)
    ensures Step(Plain(BITWISE_DWORD), Machine(stack + [x], m), host) == Some(Machine(stack + [Invert(x)], m))
  {
    SplitOne(stack, x);
  }

  lemma LoadStep(stack: seq<Word>, x: Word, m: Memory, host: Host)
    ensures Step(Plain(LD_VALUE_DWORD_STACK), Machine(stack + [x], m), host) == Some(Machine(stack + [Load32(m, x)], m))
  {
    SplitOne(stack, x);
  }

  lemma PopStep(stack: seq<Word>, x: Word, m: Memory, host: Host)
    ensures Step(Plain(POP), Machine(stack + [x], m), host) == Some(Machine(stack, m))
  {
    SplitOne(stack, x);
  }

  lemma StoreStep(stack: seq<Word>, a: Word, x: Word, m: Memory, host: Host)
    ensures Step(Plain(ST_DWORD), Machine(stack + [a] + [x], m), host) == Some(Machine(stack + [a], Store32(m, a, x)))
  {
    SplitTwo(stack, a, x);
  }

  /** Store, then load again: the value assigned is left on the stack. */
  lemma StoreCodeExec(stack: seq<Word>, a: Word, x: Word, m: Memory, host: Host)
    ensures Exec(StoreCode(DWORD), Machine(stack + [a] + [x], m), host) == Some(Machine(stack + [x], Store32(m, a, x)))
  {
    assert StoreCode(DWORD) == [Plain(ST_DWORD)] + [Plain(LD_VALUE_DWORD_STACK)];
    ExecAppend([Plain(ST_DWORD)], [Plain(LD_VALUE_DWORD_STACK)], Machine(stack + [a] + [x], m), host);
    Exec1(Plain(ST_DWORD), Machine(stack + [a] + [x], m), host);
    StoreStep(stack, a, x, m, host);
    Exec1(Plain(LD_VALUE_DWORD_STACK), Machine(stack + [a], Store32(m, a, x)), host);
    LoadStep(stack, a, Store32(m, a, x), host);
    LoadStored(m, a, x);
  }

  // ------------------------------------------------------------ code in sequence

  /** Two pieces of code, one value each, with what follows still to run. */
  lemma TwoRun(g: seq<Instr>, h: seq<Instr>, tail: seq<Instr>, s: Machine, host: Host, x: Option<Value>,
               y: Option<Value>)
    requires Runs(g, s, host, x)
    requires x.Some? ==> Runs(h, Machine(s.stack + [x.value.w], x.value.mem), host, y)
    ensures Exec(g + h + tail, s, host) ==
            if x.None? || y.None? then None
            else Exec(tail, Machine(s.stack + [x.value.w] + [y.value.w], y.value.mem), host)
  {
    ExecAppend(g + h, tail, s, host);
    ExecAppend(g, h, s, host);
  }

  lemma OneRun(g: seq<Instr>, tail: seq<Instr>, s: Machine, host: Host, x: Option<Value>)
    requires Runs(g, s, host, x)
    ensures Exec(g + tail, s, host) ==
            if x.None? then None else Exec(tail, Machine(s.stack + [x.value.w], x.value.mem), host)
  {
    ExecAppend(g, tail, s, host);
  }

  lemma TwoRuns(b: Binary, g: seq<Instr>, h: seq<Instr>, s: Machine, host: Host, x: Option<Value>, y: Option<Value>)
    requires Runs(g, s, host, x)
    requires x.Some? ==> Runs(h, Machine(s.stack + [x.value.w], x.value.mem), host, y)
    ensures Runs(GenTwo(b, g, h, DWORD), s, host, EvalTwo(b, x, y))
  {
    if b.Op? {
      OpRuns(b.op, g, h, s, host, x, y);
    } else {
      AssignRuns(g, h, s, host, x, y);
    }
  }

  lemma OpRuns(op: BinOp, g: seq<Instr>, h: seq<Instr>, s: Machine, host: Host, x: Option<Value>, y: Option<Value>)
    requires Runs(g, s, host, x)
    requires x.Some? ==> Runs(h, Machine(s.stack + [x.value.w], x.value.mem), host, y)
    ensures Runs(g + h + Sized(DwordCode(op), DWORD), s, host, EvalTwo(Op(op), x, y))
  {
    TwoRun(g, h, Sized(DwordCode(op), DWORD), s, host, x, y);
    if x.Some? && y.Some? {
      var t := Machine(s.stack + [x.value.w] + [y.value.w], y.value.mem);
      Exec1(Plain(DwordCode(op)), t, host);
      BinaryStep(op, s.stack, x.value.w, y.value.w, y.value.mem, host);
    }
  }

  lemma AssignRuns(g: seq<Instr>, h: seq<Instr>, s: Machine, host: Host, a: Option<Value>, x: Option<Value>)
    requires Runs(g, s, host, a)
    requires a.Some? ==> Runs(h, Machine(s.stack + [a.value.w], a.value.mem), host, x)
    ensures Runs(g + h + StoreCode(DWORD), s, host, EvalTwo(AssignAt, a, x))
  {
    TwoRun(g, h, StoreCode(DWORD), s, host, a, x);
    if a.Some? && x.Some? {
      StoreCodeExec(s.stack, a.value.w, x.value.w, x.value.mem, host);
    }
  }

  lemma TopRuns(u: Unary, c: Byte, g: seq<Instr>, s: Machine, host: Host, x: Option<Value>)
    requires Runs(g, s, host, x)
    requires (u == Not && c == BITWISE_DWORD) || (u == Deref && c == LD_VALUE_DWORD_STACK)
    ensures Runs(g + Sized(c, DWORD), s, host, EvalOne(u, x))
  {
    OneRun(g, Sized(c, DWORD), s, host, x);
    if x.Some? {
      Exec1(Plain(c), Machine(s.stack + [x.value.w], x.value.mem), host);
      if u.Not? {
        NotStep(s.stack, x.value.w, x.value.mem, host);
      } else {
        LoadStep(s.stack, x.value.w, x.value.mem, host);
      }
    }
  }

  lemma AssignVarRuns(a: Word, g: seq<Instr>, s: Machine, host: Host, x: Option<Value>)
    requires |s.stack| < STACK_MAX && Runs(g, Machine(s.stack + [a], s.mem), host, x)
    ensures Runs([WithWord(LD_DWORD, a)] + g + StoreCode(DWORD), s, host, EvalOne(AssignVar(a), x))
  {
    PushRuns(WithWord(LD_DWORD, a), s, host, a);
    AssignRuns([WithWord(LD_DWORD, a)], g, s, host, Some(Value(a, s.mem)), x);
  }

  lemma OneRuns(u: Unary, g: seq<Instr>, s: Machine, host: Host, x: Option<Value>)
    requires u.AssignVar? ==> |s.stack| < STACK_MAX
    requires Runs(g, if u.AssignVar? then Machine(s.stack + [u.a], s.mem) else s, host, x)
    ensures Runs(GenOne(u, g, DWORD), s, host, EvalOne(u, x))
  {
    match u
    case Not => TopRuns(u, BITWISE_DWORD, g, s, host, x);
    case Deref => TopRuns(u, LD_VALUE_DWORD_STACK, g, s, host, x);
    case AddrAt =>
    case AssignVar(a) => AssignVarRuns(a, g, s, host, x);
  }

  /** Load the variable, load 1, add or subtract. */
  lemma StepRuns(a: Word, up: bool, s: Machine, host: Host)
    requires |s.stack| + 2 <= STACK_MAX
    ensures Runs(StepCode(a, up), s, host, Some(Value(Stepped(up, Load32(s.mem, a)), s.mem)))
  {
    var x := Load32(s.mem, a);
    PushRuns(WithWord(LD_VALUE_DWORD, a), s, host, x);
    PushRuns(WithWord(LD_DWORD, 1), Machine(s.stack + [x], s.mem), host, 1);
    OpRuns(StepOp(up), [WithWord(LD_VALUE_DWORD, a)], [WithWord(LD_DWORD, 1)], s, host, Some(Value(x, s.mem)),
      Some(Value(1, s.mem)));
  }

  function StepCode(a: Word, up: bool): seq<Instr> {
    [WithWord(LD_VALUE_DWORD, a)] + [WithWord(LD_DWORD, 1)] + Sized(DwordCode(StepOp(up)), DWORD)
  }

  lemma PreRuns(a: Word, up: bool, s: Machine, host: Host)
    requires |s.stack| + 3 <= STACK_MAX
    ensures Runs(GenLeaf(PreStep(up, a)), s, host, Some(EvalLeaf(PreStep(up, a), s.mem)))
  {
    var g, y := [WithWord(LD_DWORD, a)], Stepped(up, Load32(s.mem, a));
    PushRuns(g[0], s, host, a);
    StepRuns(a, up, Machine(s.stack + [a], s.mem), host);
    AssignRuns(g, StepCode(a, up), s, host, Some(Value(a, s.mem)), Some(Value(y, s.mem)));
    assert GenLeaf(PreStep(up, a)) == g + StepCode(a, up) + StoreCode(DWORD);
  }

  lemma PostUpdates(a: Word, up: bool, s: Machine, host: Host)
    requires |s.stack| + 3 <= STACK_MAX
    ensures Exec(Post(a, DWORD, StepOp(up)), s, host) ==
            Some(Machine(s.stack, Store32(s.mem, a, Stepped(up, Load32(s.mem, a)))))
  {
    var y := Stepped(up, Load32(s.mem, a));
    var g, tail := [WithWord(LD_DWORD, a)], [Plain(ST_DWORD)] + [Plain(POP)];
    PushRuns(g[0], s, host, a);
    StepRuns(a, up, Machine(s.stack + [a], s.mem), host);
    TwoRun(g, StepCode(a, up), tail, s, host, Some(Value(a, s.mem)), Some(Value(y, s.mem)));
    PostCode(a, up);
    PopStored(s.stack, a, y, s.mem, host);
  }

  lemma PostCode(a: Word, up: bool)
    ensures Post(a, DWORD, StepOp(up)) ==
            [WithWord(LD_DWORD, a)] + StepCode(a, up) + ([Plain(ST_DWORD)] + [Plain(POP)])
  {
  }

  lemma PostRuns(a: Word, up: bool, s: Machine, host: Host)
    requires |s.stack| + 4 <= STACK_MAX
    ensures Runs(GenLeaf(PostStep(up, a)), s, host, Some(EvalLeaf(PostStep(up, a), s.mem)))
  {
    var x := Load32(s.mem, a);
    PushRuns(WithWord(LD_VALUE_DWORD, a), s, host, x);
    OneRun([WithWord(LD_VALUE_DWORD, a)], Post(a, DWORD, StepOp(up)), s, host, Some(Value(x, s.mem)));
    PostUpdates(a, up, Machine(s.stack + [x], s.mem), host);
  }

  lemma LeafRuns(k: Leaf, s: Machine, host: Host)
    requires |s.stack| + NeedLeaf(k) <= STACK_MAX
    ensures Runs(GenLeaf(k), s, host, Some(EvalLeaf(k, s.mem)))
  {
    match k
    case Num(v) => PushRuns(WithWord(LD_DWORD, v), s, host, v);
    case Var(a) => PushRuns(WithWord(LD_VALUE_DWORD, a), s, host, Load32(s.mem, a));
    case AddrVar(a) => PushRuns(WithWord(LD_DWORD, a), s, host, a);
    case PreStep(up, a) => PreRuns(a, up, s, host);
    case PostStep(up, a) => PostRuns(a, up, s, host);
  }

  lemma PopStored(stack: seq<Word>, a: Word, x: Word, m: Memory, host: Host)
    ensures Exec([Plain(ST_DWORD)] + [Plain(POP)], Machine(stack + [a] + [x], m), host) ==
            Some(Machine(stack, Store32(m, a, x)))
  {
    ExecAppend([Plain(ST_DWORD)], [Plain(POP)], Machine(stack + [a] + [x], m), host);
    Exec1(Plain(ST_DWORD), Machine(stack + [a] + [x], m), host);
    StoreStep(stack, a, x, m, host);
    Exec1(Plain(POP), Machine(stack + [a], Store32(m, a, x)), host);
    PopStep(stack, a, Store32(m, a, x), host);
  }

  /** The call instruction takes the arguments and the function off the stack. */
  lemma CallExec(stack: seq<Word>, f: Word, ws: seq<Word>, m: Memory, host: Host)
    requires |ws| <= 16
    ensures Step(WithByte(SYSCALL, (|ws| % 256) as Byte), Machine(stack + [f] + ws, m), host) ==
            Some(Machine(stack + [host(f, ws, m).0], host(f, ws, m).1))
  {
    var k := |ws|;
    SmallByte(k);
    var t := stack + [f] + ws;
    SplitCall(stack, f, ws);
  }

  lemma SmallByte(k: nat)
    requires k <= 16
    ensures ((k % 256) as Byte) as nat == k
  {
  }

  lemma SplitCall(stack: seq<Word>, f: Word, ws: seq<Word>)
    ensures var t, k := stack + [f] + ws, |ws|;
      t[|t| - k - 1] == f && t[|t| - k..] == ws && t[..|t| - k - 1] == stack
  {
  }

  ghost predicate ArgsRun(g: seq<Instr>, s: Machine, host: Host, r: Option<Values>) {
    Exec(g, s, host) == match r case None => None case Some(v) => Some(Machine(s.stack + v.ws, v.mem))
  }

  lemma Assoc(a: seq<Word>, b: seq<Word>, c: seq<Word>)
    ensures a + b + c == a + (b + c)
  {
  }

  lemma ArgsCons(g: seq<Instr>, h: seq<Instr>, s: Machine, host: Host, x: Option<Value>, xs: Option<Values>)
    requires Runs(g, s, host, x)
    requires x.Some? ==> ArgsRun(h, Machine(s.stack + [x.value.w], x.value.mem), host, xs)
    ensures ArgsRun(g + h, s, host,
      if x.None? || xs.None? then None else Some(Values([x.value.w] + xs.value.ws, xs.value.mem)))
  {
    OneRun(g, h, s, host, x);
    if x.Some? && xs.Some? {
      Assoc(s.stack, [x.value.w], xs.value.ws);
    }
  }

  lemma CallRuns(f: Word, n: nat, h: seq<Instr>, s: Machine, host: Host, xs: Option<Values>)
    requires |s.stack| < STACK_MAX && n <= 16 && (xs.Some? ==> |xs.value.ws| == n)
    requires ArgsRun(h, Machine(s.stack + [f], s.mem), host, xs)
    ensures Runs(GenCall(f, n, h), s, host,
      if xs.None? then None
      else Some(Value(host(f, xs.value.ws, xs.value.mem).0, host(f, xs.value.ws, xs.value.mem).1)))
  {
    var g, c := [WithWord(LD_DWORD, f)], [WithByte(SYSCALL, (n % 256) as Byte)];
    PushRuns(g[0], s, host, f);
    OneRun(g, h, s, host, Some(Value(f, s.mem)));
    ExecAppend(g + h, c, s, host);
    if xs.Some? {
      Exec1(c[0], Machine(s.stack + [f] + xs.value.ws, xs.value.mem), host);
      CallExec(s.stack, f, xs.value.ws, xs.value.mem, host);
    }
  }

  lemma {:induction false} ArgCountLen(args: Args, m: Memory, host: Host)
    ensures EvalArgs(args, m, host).Some? ==> |EvalArgs(args, m, host).value.ws| == ArgCount(args)
    decreases args
  {
    match args
    case Done =>
    case Arg(e, rest) =>
      var x := Eval(e, m, host);
      if x.Some? {
        ArgCountLen(rest, x.value.mem, host);
      }
  }

  // --------------------------------------------------------- the main induction

  ghost predicate Correct(e: Expr, s: Machine, host: Host) {
    Runs(Gen(e, false), s, host, Eval(e, s.mem, host))
  }

  /** The state in which the second operand of a two-operand node starts. */
  function AfterFirst(s: Machine, x: Option<Value>): Machine {
    match x case None => s case Some(v) => Machine(s.stack + [v.w], v.mem)
  }

  /** The 32-bit code of an expression pushes exactly the source value, leaves
      the rest of the stack alone and makes exactly the source's changes to
      memory; it is undefined exactly when the source is. */
  lemma {:induction false} GenCorrect(e: Expr, s: Machine, host: Host)
    requires FewArgs(e) && |s.stack| + Need(e) <= STACK_MAX
    ensures Correct(e, s, host)
    decreases e
  {
    match e
    case Zero(k) => LeafRuns(k, s, host);
    case One(u, x) =>
      var s1 := if u.AssignVar? then Machine(s.stack + [u.a], s.mem) else s;
      GenCorrect(x, s1, host);
      OneRuns(u, Gen(x, false), s, host, Eval(x, s.mem, host));
    case Two(b, l, r) =>
      GenCorrect(l, s, host);
      var x := Eval(l, s.mem, host);
      var y := if x.None? then None else Eval(r, x.value.mem, host);
      if x.Some? { GenCorrect(r, AfterFirst(s, x), host); }
      TwoRuns(b, Gen(l, false), Gen(r, false), s, host, x, y);
    case Call(f, args) =>
      GenArgsCorrect(args, Machine(s.stack + [f], s.mem), host);
      ArgCountLen(args, s.mem, host);
      CallRuns(f, ArgCount(args), GenArgs(args, false), s, host, EvalArgs(args, s.mem, host));
  }

  lemma {:induction false} GenArgsCorrect(args: Args, s: Machine, host: Host)
    requires FewInArgs(args) && |s.stack| + NeedArgs(args) <= STACK_MAX
    ensures ArgsRun(GenArgs(args, false), s, host, EvalArgs(args, s.mem, host))
    decreases args
  {
    match args
    case Done =>
      assert s.stack + [] == s.stack;
    case Arg(e, rest) =>
      GenCorrect(e, s, host);
      var x := Eval(e, s.mem, host);
      var xs := if x.None? then None else EvalArgs(rest, x.value.mem, host);
      if x.Some? {
        GenArgsCorrect(rest, Machine(s.stack + [x.value.w], x.value.mem), host);
      }
      ArgsCons(Gen(e, false), GenArgs(rest, false), s, host, x, xs);
  }

  // ------------------------------------------- which operators the compiler drops

  /** Every operator finds a data type on its first operand: no call is the
      leftmost operand of an operator, a dereference or an assignment target. */
  predicate Typed(e: Expr)
    decreases e
  {
    match e
    case Zero(_) => true
    case One(u, e) => Typed(e) && (u.Not? || u.Deref? ==> TypeOf(e) == DWORD)
    case Two(_, l, r) => TypeOf(l) == DWORD && Typed(l) && Typed(r)
    case Call(_, args) => TypedArgs(args)
  }

  predicate TypedArgs(args: Args)
    decreases args
  {
    match args case Done => true case Arg(e, rest) => Typed(e) && TypedArgs(rest)
  }

  lemma {:induction false} TwoTypes(e: Expr)
    ensures TypeOf(e) == VOID || TypeOf(e) == DWORD
    decreases e
  {
    match e
    case Zero(_) =>
    case One(_, x) => TwoTypes(x);
    case Two(_, l, _) => TwoTypes(l);
    case Call(_, _) =>
  }

  /** A call as leftmost operand costs the program an instruction. */
  lemma {:induction false} DroppedShorter(e: Expr)
    ensures |Gen(e, true)| <= |Gen(e, false)|
    ensures !Typed(e) ==> |Gen(e, true)| < |Gen(e, false)|
    decreases e
  {
    match e
    case Zero(_) =>
    case One(_, x) => TwoTypes(x); DroppedShorter(x);
    case Two(_, l, r) => TwoTypes(l); DroppedShorter(l); DroppedShorter(r);
    case Call(_, args) => DroppedShorterArgs(args);
  }

  lemma {:induction false} DroppedShorterArgs(args: Args)
    ensures |GenArgs(args, true)| <= |GenArgs(args, false)|
    ensures !TypedArgs(args) ==> |GenArgs(args, true)| < |GenArgs(args, false)|
    decreases args
  {
    match args
    case Done =>
    case Arg(e, rest) => DroppedShorter(e); DroppedShorterArgs(rest);
  }

  lemma {:induction false} TypedKeepsAll(e: Expr)
    requires Typed(e)
    ensures Gen(e, true) == Gen(e, false)
    decreases e
  {
    match e
    case Zero(_) =>
    case One(_, x) => TypedKeepsAll(x);
    case Two(_, l, r) => TypedKeepsAll(l); TypedKeepsAll(r);
    case Call(_, args) => TypedKeepsAllArgs(args);
  }

  lemma {:induction false} TypedKeepsAllArgs(args: Args)
    requires TypedArgs(args)
    ensures GenArgs(args, true) == GenArgs(args, false)
    decreases args
  {
    match args
    case Done =>
    case Arg(e, rest) => TypedKeepsAll(e); TypedKeepsAllArgs(rest);
  }

  /** The compiler emits the 32-bit code of an expression exactly when no call
      stands where an operator looks for its data type. */
  lemma CompilesFullyIff(e: Expr)
    ensures Code(TypeCheck(Lower(e, Nil), false)) == Gen(e, false) <==> Typed(e)
  {
    LowerCode(e, Nil);
    NoSibling(e);
    DroppedShorter(e);
    if Typed(e) {
      TypedKeepsAll(e);
    }
  }

  // --------------------------------------------------------------- whole programs

  function LowerList(es: seq<Expr>): Tree {
    if es == [] then Nil else Lower(es[0], LowerList(es[1..]))
  }

  /** The value of a statement list is that of its last statement. */
  function EvalList(es: seq<Expr>, m: Memory, host: Host): Option<Value>
    requires es != []
    decreases |es|
  {
    var x := Eval(es[0], m, host);
    if x.None? || |es| == 1 then x else EvalList(es[1..], x.value.mem, host)
  }

  function GenList(es: seq<Expr>, typed: bool): seq<Instr> {
    if es == [] then []
    else Gen(es[0], typed) + (if |es| == 1 then [] else [Plain(POP)] + GenList(es[1..], typed))
  }

  lemma LowerAlone(e: Expr, sib: Tree)
    ensures var t := Lower(e, sib); t.Node? && t.(sibling := Nil) == Lower(e, Nil)
  {
  }

  lemma CheckAlone(t: Tree)
    requires t.Node?
    ensures var r := TypeCheck(t, false); r.Node? && r.(sibling := Nil) == TypeCheck(t.(sibling := Nil), false)
  {
  }

  lemma AloneTree(e: Expr, sib: Tree)
    ensures var t := TypeCheck(Lower(e, sib), false);
      t.Node? && t.(sibling := Nil) == TypeCheck(Lower(e, Nil), false)
  {
    LowerAlone(e, sib);
    CheckAlone(Lower(e, sib));
  }

  lemma {:induction false} ProgramIsGenList(es: seq<Expr>)
    ensures Program(TypeCheck(LowerList(es), false)) == GenList(es, true)
    decreases |es|
  {
    if es != [] {
      var t := TypeCheck(LowerList(es), false);
      AloneTree(es[0], LowerList(es[1..]));
      LowerSibling(es[0], LowerList(es[1..]));
      LowerCode(es[0], Nil);
      NoSibling(es[0]);
      ProgramIsGenList(es[1..]);
    }
  }

  ghost predicate Fits(e: Expr) {
    Typed(e) && FewArgs(e) && Need(e) <= STACK_MAX
  }

  lemma PopExec(x: Value, host: Host)
    ensures Exec([Plain(POP)], Machine([] + [x.w], x.mem), host) == Some(Machine([], x.mem))
  {
    Exec1(Plain(POP), Machine([] + [x.w], x.mem), host);
    PopStep([], x.w, x.mem, host);
  }

  /** One statement, its value popped, and the statements after it. */
  lemma ThenRuns(g: seq<Instr>, h: seq<Instr>, m: Memory, host: Host, x: Option<Value>, y: Option<Value>)
    requires Runs(g, Machine([], m), host, x)
    requires if x.None? then y.None? else Runs(h, Machine([], x.value.mem), host, y)
    ensures Runs(g + ([Plain(POP)] + h), Machine([], m), host, y)
  {
    OneRun(g, [Plain(POP)] + h, Machine([], m), host, x);
    if x.Some? {
      PopExec(x.value, host);
      ExecAppend([Plain(POP)], h, Machine([] + [x.value.w], x.value.mem), host);
    }
  }

  lemma {:induction false} ListCorrect(es: seq<Expr>, m: Memory, host: Host)
    requires es != [] && forall k :: 0 <= k < |es| ==> Fits(es[k])
    ensures Runs(GenList(es, true), Machine([], m), host, EvalList(es, m, host))
    decreases |es|
  {
    var e, rest := es[0], es[1..];
    TypedKeepsAll(e);
    GenCorrect(e, Machine([], m), host);
    var x := Eval(e, m, host);
    if |es| == 1 {
      RightUnit(Gen(e, false));
    } else {
      if x.Some? {
        ListCorrect(rest, x.value.mem, host);
      }
      var y := if x.None? then None else EvalList(rest, x.value.mem, host);
      ThenRuns(Gen(e, false), GenList(rest, true), m, host, x, y);
    }
  }

  /** A text segment of FINSH_TEXT_MAX bytes: the program, then no-operation bytes. */
  ghost function Padded(code: seq<Byte>): (text: seq<Byte>)
    requires |code| <= TEXT_MAX
    ensures |text| == TEXT_MAX
  {
    code + seq(TEXT_MAX - |code|, i => NOOP)
  }

  /** The bytes finsh_compiler_run emits for a statement list. */
  ghost function Code32(es: seq<Expr>): seq<Byte> {
    Encode(Program(TypeCheck(LowerList(es), false)))
  }

  lemma RunPadded(prog: seq<Instr>, code: seq<Byte>, s: Machine, host: Host)
    requires AllFormed(prog) && code == Encode(prog) && |code| <= TEXT_MAX
    ensures RunText(Padded(code), s, host) == Exec(prog, s, host)
  {
    var n := TEXT_MAX - |code|;
    var pad := seq(n, i => NOOP);
    RunAppend(prog, pad, s, host);
    assert Padded(code) == code + pad;
    var r := Exec(prog, s, host);
    if r.Some? {
      RunPadding(n, r.value, host);
    }
  }

  /** Compiler correctness, from the statement list to the bottom of the stack,
      for code that fits the text segment. */
  lemma CompilerCorrect(es: seq<Expr>, m: Memory, host: Host)
    requires es != [] && forall k :: 0 <= k < |es| ==> Fits(es[k])
    requires |Code32(es)| <= TEXT_MAX
    ensures RunText(Padded(Code32(es)), Machine([], m), host) ==
            match EvalList(es, m, host) { case None => None case Some(v) => Some(Machine([v.w], v.mem)) }
  {
    var prog := Program(TypeCheck(LowerList(es), false));
    ProgramFormed(TypeCheck(LowerList(es), false));
    RunPadded(prog, Code32(es), Machine([], m), host);
    ProgramIsGenList(es);
    ListCorrect(es, m, host);
    var r := EvalList(es, m, host);
    if r.Some? {
      assert [] + [r.value.w] == [r.value.w];
    }
  }
}
