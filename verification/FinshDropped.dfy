/** What the compiled code does when an operator is dropped: finsh_type_check gives
    a call no data type, and finsh_compile emits nothing for an operator without one. */
module FinshDropped {
  import opened Options
  import opened FinshWords
  import opened FinshCode
  import opened FinshCompiler
  import opened FinshSource
  import opened FinshCorrect

  // ------------------------------------------------------------ words left behind

  /** How many words an instruction adds to the stack. */
  function Delta(i: Instr): int {
    match i
    case Plain(op) =>
      if op == NOOP || op == BITWISE_DWORD || op == LD_VALUE_DWORD_STACK then 0 else -1
    case WithByte(_, b) => -(b as int)
    case WithHalf(_, _, _) => 0
    case WithWord(_, _) => 1
  }

  function Deltas(prog: seq<Instr>): int {
    if prog == [] then 0 else Delta(prog[0]) + Deltas(prog[1..])
  }

  lemma {:induction false} DeltasAppend(a: seq<Instr>, b: seq<Instr>)
    ensures Deltas(a + b) == Deltas(a) + Deltas(b)
  {
    if a == [] {
      assert a + b == b;
    } else {
      assert (a + b)[0] == a[0] && (a + b)[1..] == a[1..] + b;
      DeltasAppend(a[1..], b);
    }
  }

  lemma DeltasAppend3(a: seq<Instr>, b: seq<Instr>, c: seq<Instr>)
    ensures Deltas(a + b + c) == Deltas(a) + Deltas(b) + Deltas(c)
  {
    DeltasAppend(a + b, c);
    DeltasAppend(a, b);
  }

  lemma Deltas1(i: Instr)
    ensures Deltas([i]) == Delta(i)
  {
    assert [i][1..] == [];
  }

  lemma StepDelta(i: Instr, s: Machine, host: Host)
    requires Step(i, s, host).Some?
    ensures |Step(i, s, host).value.stack| == |s.stack| + Delta(i)
  {
  }

  /** A program that comes to its end has moved the stack by the sum of its steps. */
  lemma {:induction false} ExecDelta(prog: seq<Instr>, s: Machine, host: Host)
    requires Exec(prog, s, host).Some?
    ensures |Exec(prog, s, host).value.stack| == |s.stack| + Deltas(prog)
    decreases |prog|
  {
    if prog != [] {
      StepDelta(prog[0], s, host);
      ExecDelta(prog[1..], Step(prog[0], s, host).value, host);
    }
  }

  /** The two-operand operators and assignments that get no code: their left
      operand begins with a call. */
  function Lost(e: Expr): nat
    decreases e
  {
    match e
    case Zero(_) => 0
    case One(_, x) => Lost(x)
    case Two(_, l, r) => Lost(l) + Lost(r) + (if TypeOf(l) == DWORD then 0 else 1)
    case Call(_, args) => LostArgs(args)
  }

  function LostArgs(args: Args): nat
    decreases args
  {
    match args case Done => 0 case Arg(e, rest) => Lost(e) + LostArgs(rest)
  }

  lemma SizedDelta(op: BinOp, d: DataType)
    requires d == VOID || d == DWORD
    ensures Deltas(Sized(DwordCode(op), d)) == if d == DWORD then -1 else 0
  {
    if d == DWORD { Deltas1(Plain(DwordCode(op))); }
  }

  lemma TopDelta(c: Byte, d: DataType)
    requires d == VOID || d == DWORD
    requires c == BITWISE_DWORD || c == LD_VALUE_DWORD_STACK
    ensures Deltas(Sized(c, d)) == 0
  {
    if d == DWORD { Deltas1(Plain(c)); }
  }

  lemma StoreDelta(d: DataType)
    requires d == VOID || d == DWORD
    ensures Deltas(StoreCode(d)) == if d == DWORD then -1 else 0
  {
    DeltasAppend(Sized(ST_DWORD, d), Sized(LD_VALUE_DWORD_STACK, d));
    TopDelta(LD_VALUE_DWORD_STACK, d);
    if d == DWORD { Deltas1(Plain(ST_DWORD)); }
  }

  lemma StepCodeDelta(a: Word, up: bool)
    ensures Deltas(StepCode(a, up)) == 1
  {
    DeltasAppend3([WithWord(LD_VALUE_DWORD, a)], [WithWord(LD_DWORD, 1)], Sized(DwordCode(StepOp(up)), DWORD));
    Deltas1(WithWord(LD_VALUE_DWORD, a));
    Deltas1(WithWord(LD_DWORD, 1));
    SizedDelta(StepOp(up), DWORD);
  }

  lemma PreDelta(up: bool, a: Word)
    ensures Deltas(GenLeaf(PreStep(up, a))) == 1
  {
    var g := [WithWord(LD_DWORD, a)];
    assert GenLeaf(PreStep(up, a)) == g + StepCode(a, up) + StoreCode(DWORD);
    DeltasAppend3(g, StepCode(a, up), StoreCode(DWORD));
    Deltas1(g[0]);
    StepCodeDelta(a, up);
    StoreDelta(DWORD);
  }

  lemma PostDelta(up: bool, a: Word)
    ensures Deltas(GenLeaf(PostStep(up, a))) == 1
  {
    var g, h, tail := [WithWord(LD_VALUE_DWORD, a)], [WithWord(LD_DWORD, a)], [Plain(ST_DWORD)] + [Plain(POP)];
    assert Post(a, DWORD, StepOp(up)) == h + StepCode(a, up) + tail;
    DeltasAppend(g, Post(a, DWORD, StepOp(up)));
    DeltasAppend3(h, StepCode(a, up), tail);
    DeltasAppend([Plain(ST_DWORD)], [Plain(POP)]);
    Deltas1(g[0]);
    Deltas1(h[0]);
    Deltas1(Plain(ST_DWORD));
    Deltas1(Plain(POP));
    StepCodeDelta(a, up);
  }

  lemma LeafDelta(k: Leaf)
    ensures Deltas(GenLeaf(k)) == 1
  {
    match k
    case Num(v) => Deltas1(WithWord(LD_DWORD, v));
    case Var(a) => Deltas1(WithWord(LD_VALUE_DWORD, a));
    case AddrVar(a) => Deltas1(WithWord(LD_DWORD, a));
    case PreStep(up, a) => PreDelta(up, a);
    case PostStep(up, a) => PostDelta(up, a);
  }

  lemma OneDelta(u: Unary, g: seq<Instr>, d: DataType)
    requires d == VOID || d == DWORD
    ensures Deltas(GenOne(u, g, d)) == Deltas(g)
  {
    match u
    case Not =>
      DeltasAppend(g, Sized(BITWISE_DWORD, d));
      TopDelta(BITWISE_DWORD, d);
    case Deref =>
      DeltasAppend(g, Sized(LD_VALUE_DWORD_STACK, d));
      TopDelta(LD_VALUE_DWORD_STACK, d);
    case AddrAt =>
    case AssignVar(a) =>
      DeltasAppend3([WithWord(LD_DWORD, a)], g, StoreCode(DWORD));
      Deltas1(WithWord(LD_DWORD, a));
      StoreDelta(DWORD);
  }

  lemma TwoDelta(b: Binary, g: seq<Instr>, h: seq<Instr>, d: DataType)
    requires d == VOID || d == DWORD
    ensures Deltas(GenTwo(b, g, h, d)) == Deltas(g) + Deltas(h) - (if d == DWORD then 1 else 0)
  {
    if b.Op? {
      DeltasAppend3(g, h, Sized(DwordCode(b.op), d));
      SizedDelta(b.op, d);
    } else {
      DeltasAppend3(g, h, StoreCode(d));
      StoreDelta(d);
    }
  }

  lemma CallDelta(f: Word, n: nat, h: seq<Instr>)
    requires n <= 16
    ensures Deltas(GenCall(f, n, h)) == 1 + Deltas(h) - n
  {
    var g, c := WithWord(LD_DWORD, f), WithByte(SYSCALL, (n % 256) as Byte);
    DeltasAppend3([g], h, [c]);
    Deltas1(g);
    Deltas1(c);
    SmallByte(n);
  }

  lemma {:induction false} GenDelta(e: Expr)
    requires FewArgs(e)
    ensures Deltas(Gen(e, true)) == 1 + Lost(e)
    decreases e
  {
    match e
    case Zero(k) => LeafDelta(k);
    case One(u, x) =>
      GenDelta(x);
      TwoTypes(x);
      OneDelta(u, Gen(x, true), TypeOf(x));
    case Two(b, l, r) =>
      GenDelta(l);
      GenDelta(r);
      TwoTypes(l);
      TwoDelta(b, Gen(l, true), Gen(r, true), TypeOf(l));
    case Call(f, args) =>
      GenArgsDelta(args);
      CallDelta(f, ArgCount(args), GenArgs(args, true));
  }

  lemma {:induction false} GenArgsDelta(args: Args)
    requires FewInArgs(args)
    ensures Deltas(GenArgs(args, true)) == ArgCount(args) + LostArgs(args)
    decreases args
  {
    match args
    case Done =>
    case Arg(e, rest) =>
      GenDelta(e);
      GenArgsDelta(rest);
      DeltasAppend(Gen(e, true), GenArgs(rest, true));
  }

  /** The code the compiler emits for one expression. */
  ghost function Compiled(e: Expr): (g: seq<Instr>)
    ensures g == Gen(e, true)
  {
    LowerCode(e, Nil);
    NoSibling(e);
    Code(TypeCheck(Lower(e, Nil), false))
  }

  /** Whatever the host and the memory: compiled code that comes to its end leaves
      one word for the value and one more for every two-operand operator that
      begins with a call. */
  lemma LeavesLost(e: Expr, s: Machine, host: Host)
    requires FewArgs(e) && Exec(Compiled(e), s, host).Some?
    ensures |Exec(Compiled(e), s, host).value.stack| == |s.stack| + 1 + Lost(e)
  {
    GenDelta(e);
    ExecDelta(Compiled(e), s, host);
  }

  // ---------------------------------------------------- the expression that is run

  /** The expression without the ~ and * that get no code. */
  function Erased(e: Expr): Expr
    decreases e
  {
    match e
    case Zero(_) => e
    case One(u, x) =>
      if (u.Not? || u.Deref?) && TypeOf(x) == VOID then Erased(x) else One(u, Erased(x))
    case Two(b, l, r) => Two(b, Erased(l), Erased(r))
    case Call(f, args) => Call(f, ErasedArgs(args))
  }

  function ErasedArgs(args: Args): Args
    decreases args
  {
    match args case Done => Done case Arg(e, rest) => Arg(Erased(e), ErasedArgs(rest))
  }

  /** Nothing is erased exactly when no operator is dropped. */
  lemma {:induction false} ErasedNothing(e: Expr)
    requires Typed(e)
    ensures Erased(e) == e && Lost(e) == 0
    decreases e
  {
    match e
    case Zero(_) =>
    case One(_, x) => ErasedNothing(x);
    case Two(_, l, r) => ErasedNothing(l); ErasedNothing(r);
    case Call(_, args) => ErasedNothingArgs(args);
  }

  lemma {:induction false} ErasedNothingArgs(args: Args)
    requires TypedArgs(args)
    ensures ErasedArgs(args) == args && LostArgs(args) == 0
    decreases args
  {
    match args
    case Done =>
    case Arg(e, rest) => ErasedNothing(e); ErasedNothingArgs(rest);
  }

  lemma {:induction false} ErasedCode(e: Expr)
    requires Lost(e) == 0
    ensures Gen(e, true) == Gen(Erased(e), false)
    decreases e
  {
    match e
    case Zero(_) =>
    case One(u, x) =>
      TwoTypes(x);
      ErasedCode(x);
      RightUnit(Gen(x, true));
    case Two(_, l, r) =>
      ErasedCode(l);
      ErasedCode(r);
    case Call(_, args) => ErasedCodeArgs(args);
  }

  lemma {:induction false} ErasedCodeArgs(args: Args)
    requires LostArgs(args) == 0
    ensures GenArgs(args, true) == GenArgs(ErasedArgs(args), false) && ArgCount(ErasedArgs(args)) == ArgCount(args)
    decreases args
  {
    match args
    case Done =>
    case Arg(e, rest) => ErasedCode(e); ErasedCodeArgs(rest);
  }

  lemma {:induction false} ErasedFits(e: Expr)
    requires FewArgs(e)
    ensures FewArgs(Erased(e)) && Need(Erased(e)) <= Need(e)
    decreases e
  {
    match e
    case Zero(_) =>
    case One(_, x) => ErasedFits(x);
    case Two(_, l, r) => ErasedFits(l); ErasedFits(r);
    case Call(_, args) => ErasedFitsArgs(args);
  }

  lemma {:induction false} ErasedFitsArgs(args: Args)
    requires FewInArgs(args)
    ensures FewInArgs(ErasedArgs(args)) && NeedArgs(ErasedArgs(args)) <= NeedArgs(args)
    ensures ArgCount(ErasedArgs(args)) == ArgCount(args)
    decreases args
  {
    match args
    case Done =>
    case Arg(e, rest) => ErasedFits(e); ErasedFitsArgs(rest);
  }

  /** Where only ~ and * are dropped, the compiled code means the erased expression. */
  lemma ErasedRuns(e: Expr, s: Machine, host: Host)
    requires FewArgs(e) && |s.stack| + Need(e) <= STACK_MAX && Lost(e) == 0
    ensures Runs(Compiled(e), s, host, Eval(Erased(e), s.mem, host))
  {
    ErasedCode(e);
    ErasedFits(e);
    GenCorrect(Erased(e), s, host);
  }

  lemma PushedSame(s: Machine, x: Option<Value>, y: Option<Value>)
    requires Pushed(s, x) == Pushed(s, y)
    ensures x == y
  {
    if x.Some? {
      SplitOne(s.stack, x.value.w);
      SplitOne(s.stack, y.value.w);
    }
  }

  /** For every expression with a value, every host and every memory: the compiled
      code computes that value exactly when no two-operand operator begins with a
      call and the ~ and * applied to calls make no difference. */
  lemma CompiledRightIff(e: Expr, s: Machine, host: Host)
    requires FewArgs(e) && |s.stack| + Need(e) <= STACK_MAX && Eval(e, s.mem, host).Some?
    ensures Runs(Compiled(e), s, host, Eval(e, s.mem, host)) <==>
            Lost(e) == 0 && Eval(Erased(e), s.mem, host) == Eval(e, s.mem, host)
  {
    if Lost(e) == 0 {
      ErasedRuns(e, s, host);
      if Runs(Compiled(e), s, host, Eval(e, s.mem, host)) {
        PushedSame(s, Eval(e, s.mem, host), Eval(Erased(e), s.mem, host));
      }
    } else if Exec(Compiled(e), s, host).Some? {
      LeavesLost(e, s, host);
    }
  }

  // --------------------------------------------------------------- the four shapes

  /** `f(..) op r` and `*f(..) = r` leave both operands on the stack, and the
      second stores nothing. */
  lemma CallLeftBroken(b: Binary, f: Word, args: Args, r: Expr, s: Machine, host: Host)
    requires TypedArgs(args) && Typed(r) && FewArgs(Two(b, Call(f, args), r))
    requires |s.stack| + Need(Two(b, Call(f, args), r)) <= STACK_MAX
    ensures var x := Eval(Call(f, args), s.mem, host);
      var y := if x.None? then None else Eval(r, x.value.mem, host);
      Exec(Compiled(Two(b, Call(f, args), r)), s, host) ==
      if x.None? || y.None? then None else Some(Machine(s.stack + [x.value.w] + [y.value.w], y.value.mem))
  {
    var c := Call(f, args);
    TypedKeepsAll(c);
    TypedKeepsAll(r);
    GenCorrect(c, s, host);
    var x := Eval(c, s.mem, host);
    var y := if x.None? then None else Eval(r, x.value.mem, host);
    if x.Some? {
      GenCorrect(r, AfterFirst(s, x), host);
    }
    TwoRun(Gen(c, false), Gen(r, false), [], s, host, x, y);
    assert Gen(Two(b, c, r), true) == Gen(c, false) + Gen(r, false) + [];
  }

  /** `~f(..)` and `*f(..)` leave the value of the call: the first is wrong for
      every host, the second unless that word is stored at its own address. */
  lemma CallTopBroken(u: Unary, f: Word, args: Args, s: Machine, host: Host)
    requires (u.Not? || u.Deref?) && TypedArgs(args) && FewArgs(Call(f, args))
    requires |s.stack| + Need(Call(f, args)) <= STACK_MAX && Eval(Call(f, args), s.mem, host).Some?
    ensures var x := Eval(Call(f, args), s.mem, host);
      Runs(Compiled(One(u, Call(f, args))), s, host, x) &&
      (Runs(Compiled(One(u, Call(f, args))), s, host, Eval(One(u, Call(f, args)), s.mem, host)) <==>
       u.Deref? && Load32(x.value.mem, x.value.w) == x.value.w)
  {
    var c := Call(f, args);
    var x := Eval(c, s.mem, host);
    ErasedNothing(c);
    ErasedRuns(One(u, c), s, host);
    CompiledRightIff(One(u, c), s, host);
    Flipped(x.value.w);
  }

  lemma Flipped(x: Word)
    ensures Invert(x) != x
  {
  }

  function Masked(x: Expr): Expr {
    Two(Op(And), Zero(Num(0)), x)
  }

  lemma MaskedOut(x: Word)
    ensures AndWord(0, x) == 0
  {
  }

  lemma MaskedValue(x: Expr, m: Memory, host: Host)
    ensures var v := Eval(x, m, host);
      Eval(Masked(x), m, host) == if v.None? then None else Some(Value(0, v.value.mem))
  {
    var v := Eval(x, m, host);
    assert Eval(Zero(Num(0)), m, host) == Some(Value(0, m));
    if v.Some? {
      MaskedOut(v.value.w);
    }
  }

  lemma MaskedShape(f: Word)
    ensures var e := Masked(One(Not, Call(f, Done)));
      !Typed(e) && Lost(e) == 0 && FewArgs(e) && Need(e) <= 3 && Erased(e) == Masked(Call(f, Done))
  {
    var g := Call(f, Done);
    var c := One(Not, g);
    assert ErasedArgs(Done) == Done && LostArgs(Done) == 0 && NeedArgs(Done) == 0 && FewInArgs(Done);
    assert ArgCount(Done) == 0;
    assert Lost(g) == 0 && FewArgs(g) && Erased(g) == g && Need(g) <= 2;
    assert !Typed(c) && Lost(c) == 0 && FewArgs(c) && Need(c) <= 2;
    assert Erased(c) == g;
  }

  /** A dropped operator can be harmless: `0 & ~f()` is 0 for every host. */
  lemma HarmlessWitness(f: Word, m: Memory, host: Host)
    ensures var e := Masked(One(Not, Call(f, Done)));
      !Typed(e) && Runs(Compiled(e), Machine([], m), host, Eval(e, m, host))
  {
    MaskedShape(f);
    MaskedValue(Call(f, Done), m, host);
    MaskedValue(One(Not, Call(f, Done)), m, host);
    ErasedRuns(Masked(One(Not, Call(f, Done))), Machine([], m), host);
  }
}
