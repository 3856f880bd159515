/** finsh_compiler.c and finsh_vm.c as they run: a program counter that moves
    over a byte array, a stack array with a stack pointer. */
module FinshMachine {
  import opened Options
  import opened FinshWords
  import opened FinshCode
  import opened FinshCompiler
  import opened FinshSource
  import opened FinshCorrect

  // ------------------------------------------------------------ the compiler

  lemma Join3(a: seq<Byte>, b: seq<Byte>, c: seq<Byte>)
    ensures a + (b + c) == (a + b) + c
  {
  }

  lemma Join4(a: seq<Byte>, b: seq<Byte>, c: seq<Byte>, d: seq<Byte>)
    ensures a + b + c + d == a + (b + c + d)
  {
  }

  function Separator(more: bool): seq<Instr> {
    if more then [Plain(POP)] else []
  }

  lemma ProgramCons(t: Tree)
    requires t.Node?
    ensures Encode(Program(t)) ==
            Encode(Code(t.(sibling := Nil))) + Encode(Separator(t.sibling.Node?)) + Encode(Program(t.sibling))
  {
    EncodeThree(Code(t.(sibling := Nil)), Separator(t.sibling.Node?), Program(t.sibling));
  }

  class Compiler {
    /** The part of text_segment below finsh_compile_pc; the rest is zero. */
    var code: seq<Byte>

    constructor ()
      ensures code == []
    {
      code := [];
    }

    /** finsh_code_byte, finsh_code_word and finsh_code_dword. */
    method CodeInstrs(prog: seq<Instr>)
      modifies this
      ensures code == old(code) + Encode(prog)
    {
      ghost var c0 := code;
      var i := 0;
      while i < |prog|
        invariant i <= |prog| && code + Encode(prog[i..]) == c0 + Encode(prog)
      {
        Join3(code, Encode1(prog[i]), Encode(prog[i + 1..]));
        assert prog[i..][1..] == prog[i + 1..];
        code := code + Encode1(prog[i]);
        i := i + 1;
      }
    }

    /** finsh_compile: children, the node itself, siblings. */
    method Compile(t: Tree)
      modifies this
      ensures code == old(code) + Encode(Code(t))
      decreases t
    {
      if t.Node? {
        ghost var c0, a, b, c := code, Encode(Code(t.child)), Encode(Emit(t)), Encode(Code(t.sibling));
        Compile(t.child);
        CodeInstrs(Emit(t));
        Compile(t.sibling);
        assert code == c0 + a + b + c;
        assert Encode(Code(t)) == a + b + c by {
          EncodeThree(Code(t.child), Emit(t), Code(t.sibling));
        }
        Join4(c0, a, b, c);
      }
    }

    /** finsh_compiler_run: type check, clear the text, compile statement by
        statement with a pop between two statements. */
    method Run(tree: Tree)
      modifies this
      ensures code == Encode(Program(TypeCheck(tree, false)))
    {
      var t := TypeCheck(tree, false);
      ghost var all := Encode(Program(t));
      code := [];
      while t.Node?
        invariant code + Encode(Program(t)) == all
        decreases t
      {
        ghost var c0 := code;
        ProgramCons(t);
        Compile(t.(sibling := Nil));
        CodeInstrs(Separator(t.sibling.Node?));
        ghost var a, b := Encode(Code(t.(sibling := Nil))), Encode(Separator(t.sibling.Node?));
        Join3(c0, a + b, Encode(Program(t.sibling)));
        Join3(c0, a, b);
        t := t.sibling;
      }
    }
  }

  lemma EncodeThree(a: seq<Instr>, b: seq<Instr>, c: seq<Instr>)
    ensures Encode(a + b + c) == Encode(a) + Encode(b) + Encode(c)
  {
    EncodeAppend(a + b, c);
    EncodeAppend(a, b);
  }

  // -------------------------------------------------------------- the machine

  lemma TopOfPrefix(a: seq<Word>, n: nat, w: Word)
    requires n < |a|
    ensures a[n := w][..n + 1] == a[..n] + [w]
  {
  }

  class Vm {
    const stack: array<Word>
    var sp: nat
    var mem: Memory

    constructor (m: Memory)
      ensures fresh(stack) && Valid() && View() == Machine([], m)
    {
      stack := new Word[STACK_MAX];
      sp := 0;
      mem := m;
    }

    ghost predicate Valid()
      reads this
    {
      stack.Length == STACK_MAX && sp <= STACK_MAX
    }

    ghost function View(): Machine
      requires Valid()
      reads this, stack
    {
      Machine(stack[..sp], mem)
    }

    /** finsh_sp->long_value = w; finsh_sp ++. */
    method Push(w: Word) returns (ok: bool)
      requires Valid()
      modifies this`sp, stack
      ensures Valid()
      ensures ok == FinshCode.Push(old(View()), w).Some? && (ok ==> Some(View()) == FinshCode.Push(old(View()), w))
    {
      ok := sp < STACK_MAX;
      if ok {
        TopOfPrefix(stack[..], sp, w);
        stack[sp] := w;
        sp := sp + 1;
      }
    }

    /** (finsh_sp - 1)->long_value = w. */
    method SetTop(w: Word)
      requires Valid() && sp > 0
      modifies stack
      ensures Valid() && View() == Machine(old(View()).stack[..sp - 1] + [w], mem)
    {
      assert stack[..sp][..sp - 1] == stack[..sp - 1];
      TopOfPrefix(stack[..], sp - 1, w);
      stack[sp - 1] := w;
    }

    /** OP_call: the arguments come off the stack last one first. */
    method Call(k: nat, host: Host) returns (ok: bool)
      requires Valid()
      modifies this`sp, this`mem, stack
      ensures Valid()
      ensures ok == CallStep(k, old(View()), host).Some? && (ok ==> Some(View()) == CallStep(k, old(View()), host))
    {
      ok := k + 1 <= sp && k <= 16;
      if ok {
        var params := TakeParams(k);
        var r, m := host(stack[sp], params, mem).0, host(stack[sp], params, mem).1;
        mem := m;
        sp := sp + 1;
        SetTop(r);
      }
    }

    /** The loop of OP_call: afterwards the stack pointer is on the function. */
    method TakeParams(k: nat) returns (params: seq<Word>)
      requires Valid() && k + 1 <= sp
      modifies this`sp
      ensures Valid() && sp == old(sp) - k - 1
      ensures var s := old(View()).stack;
        params == s[sp + 1..] && stack[sp] == s[sp] && stack[..sp + 1][..sp] == s[..sp]
    {
      ghost var s := View().stack;
      var n, i := sp, 0;
      params := [];
      sp := sp - 1;
      while i < k
        invariant i <= k && sp == n - 1 - i && params == s[n - i..]
      {
        assert stack[sp] == s[sp];
        params := [stack[sp]] + params;
        sp := sp - 1;
        i := i + 1;
      }
      assert stack[..sp + 1][..sp] == s[..sp];
    }

    /** One entry of op_table, on the stack array. */
    method Apply(i: Instr, host: Host) returns (ok: bool)
      requires Valid()
      modifies this`sp, this`mem, stack
      ensures Valid()
      ensures ok == Step(i, old(View()), host).Some? && (ok ==> Some(View()) == Step(i, old(View()), host))
    {
      match i
      case Plain(op) =>
        ok := ApplyPlain(op);
      case WithByte(op, b) =>
        ok := op == SYSCALL;
        if ok {
          ok := Call(b as nat, host);
        }
      case WithHalf(_, _, _) =>
        ok := false;
      case WithWord(op, w) =>
        if op == LD_DWORD {
          ok := Push(w);
        } else if op == LD_VALUE_DWORD {
          ok := Push(Load32(mem, w));
        } else {
          ok := false;
        }
    }

    method ApplyPlain(op: Byte) returns (ok: bool)
      requires Valid()
      modifies this`sp, this`mem, stack
      ensures Valid()
      ensures ok == PlainStep(op, old(View())).Some? && (ok ==> Some(View()) == PlainStep(op, old(View())))
    {
      var bin := BinaryOf(op);
      ghost var s := View().stack;
      if op == NOOP {
        ok := true;
      } else if bin.Some? {
        ok := ApplyBinary(bin.value);
      } else if op == ST_DWORD {
        ok := sp >= 2;
        if ok {
          assert stack[sp - 2] == s[sp - 2] && stack[sp - 1] == s[sp - 1] && stack[..sp - 1] == s[..sp - 1];
          mem := Store32(mem, stack[sp - 2], stack[sp - 1]);
          sp := sp - 1;
        }
      } else {
        ok := ApplyTop(op);
      }
    }

    /** The operations on the top of the stack alone. */
    method ApplyTop(op: Byte) returns (ok: bool)
      requires Valid() && op != NOOP && BinaryOf(op).None? && op != ST_DWORD
      modifies this`sp, stack
      ensures Valid()
      ensures ok == PlainStep(op, old(View())).Some? && (ok ==> Some(View()) == PlainStep(op, old(View())))
    {
      ghost var s := View().stack;
      ok := sp >= 1 && (op == BITWISE_DWORD || op == LD_VALUE_DWORD_STACK || op == POP);
      if ok && op == POP {
        assert stack[..sp - 1] == s[..sp - 1];
        sp := sp - 1;
      } else if ok {
        assert stack[sp - 1] == s[sp - 1];
        SetTop(if op == BITWISE_DWORD then Invert(stack[sp - 1]) else Load32(mem, stack[sp - 1]));
      }
    }

    /** finsh_vm_run: fetch and dispatch to the end of the text segment. */
    method Run(text: seq<Byte>, host: Host) returns (ok: bool)
      requires Valid()
      modifies this`sp, this`mem, stack
      ensures Valid()
      ensures ok == RunText(text, old(View()).(stack := []), host).Some?
      ensures ok ==> Some(View()) == RunText(text, old(View()).(stack := []), host)
    {
      sp := 0;
      ghost var goal := RunText(text, View(), host);
      assert View() == old(View()).(stack := []);
      var pc := 0;
      assert text[pc..] == text;
      while pc < |text|
        invariant Valid() && pc <= |text| && RunText(text[pc..], View(), host) == goal
      {
        var i := Decode1(text[pc..]);
        if i.None? {
          return false;
        }
        ghost var s := View();
        ok := Apply(i.value, host);
        if !ok {
          return;
        }
        var size := 1 + Operand(i.value.op);
        assert text[pc..][size..] == text[pc + size..];
        pc := pc + size;
      }
      ok := true;
    }

    /** OP_BIN_DWORD. */
    method ApplyBinary(op: BinOp) returns (ok: bool)
      requires Valid()
      modifies this`sp, stack
      ensures Valid()
      ensures var n, s := old(sp), old(View()).stack;
        && ok == (n >= 2 && Arith(op, s[n - 2], s[n - 1]).Some?)
        && (ok ==> View() == Machine(s[..n - 2] + [Arith(op, s[n - 2], s[n - 1]).value], mem))
    {
      ghost var s := View().stack;
      ok := sp >= 2;
      if ok {
        assert stack[sp - 2] == s[sp - 2] && stack[sp - 1] == s[sp - 1];
        var r := Arith(op, stack[sp - 2], stack[sp - 1]);
        ok := r.Some?;
        if ok {
          assert stack[..sp - 2] == s[..sp - 2] && stack[..sp - 1][..sp - 2] == s[..sp - 2];
          sp := sp - 1;
          SetTop(r.value);
        }
      }
    }
  }

  /** A line typed at the shell: compile it, run it, read the bottom of the stack. */
  method Execute(es: seq<Expr>, m: Memory, host: Host) returns (ok: bool, bottom: Word, after: Memory)
    requires es != [] && (forall k :: 0 <= k < |es| ==> Fits(es[k]))
    requires |Code32(es)| <= TEXT_MAX
    ensures ok == EvalList(es, m, host).Some?
    ensures ok ==> EvalList(es, m, host) == Some(Value(bottom, after))
  {
    var compiler := new Compiler();
    compiler.Run(LowerList(es));
    var code := compiler.code;
    assert code == Code32(es);
    var text := code + seq(TEXT_MAX - |code|, i => NOOP);
    assert text == Padded(code);
    CompilerCorrect(es, m, host);
    ok, bottom, after := RunVm(text, m, host);
  }

  /** finsh_vm_run on a fresh stack. */
  method RunVm(text: seq<Byte>, m: Memory, host: Host) returns (ok: bool, bottom: Word, after: Memory)
    ensures ok == RunText(text, Machine([], m), host).Some?
    ensures ok ==> var r := RunText(text, Machine([], m), host).value;
      after == r.mem && (r.stack != [] ==> bottom == r.stack[0])
  {
    var vm := new Vm(m);
    ok := vm.Run(text, host);
    bottom, after := vm.stack[0], vm.mem;
    assert vm.View().stack != [] ==> vm.View().stack[0] == bottom;
  }
}
