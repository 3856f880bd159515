/** The byte code of finsh: instructions, their bytes, and the virtual machine
    of finsh_vm.c and finsh_ops.c on 32-bit operands. */
module FinshCode {
  import opened Options
  import opened FinshWords
  import Bits

  const TEXT_MAX: nat := 128
  const STACK_MAX: nat := 64

  // ------------------------------------------------------------ instructions

  const NOOP: Byte := 0x00
  const BITWISE_DWORD: Byte := 0x1B
  const LD_BYTE: Byte := 0x22
  const LD_WORD: Byte := 0x23
  const LD_DWORD: Byte := 0x24
  const LD_VALUE_BYTE: Byte := 0x25
  const LD_VALUE_WORD: Byte := 0x26
  const LD_VALUE_DWORD: Byte := 0x27
  const ST_BYTE: Byte := 0x28
  const ST_WORD: Byte := 0x29
  const ST_DWORD: Byte := 0x2A
  const POP: Byte := 0x2B
  const SYSCALL: Byte := 0x2C
  const LD_VALUE_BYTE_STACK: Byte := 0x2D
  const LD_VALUE_WORD_STACK: Byte := 0x2E
  const LD_VALUE_DWORD_STACK: Byte := 0x2F

  datatype BinOp = Add | Sub | Div | Mod | Mul | And | Or | Xor | Shl | Shr

  /** The dword code of each operator, as finsh_ops.h numbers them. */
  function DwordCode(op: BinOp): Byte {
    match op
    case Add => 0x03
    case Sub => 0x06
    case Div => 0x09
    case Mod => 0x0C
    case Mul => 0x0F
    case And => 0x12
    case Or => 0x15
    case Xor => 0x18
    case Shl => 0x1E
    case Shr => 0x21
  }

  datatype Instr =
    | Plain(op: Byte)
    | WithByte(op: Byte, b: Byte)
    | WithHalf(op: Byte, lo: Byte, hi: Byte)
    | WithWord(op: Byte, w: Word)

  /** How many operand bytes the machine fetches after each code. */
  function Operand(op: Byte): nat {
    if op == LD_BYTE || op == SYSCALL then 1
    else if op == LD_WORD then 2
    else if op == LD_DWORD || op == LD_VALUE_BYTE || op == LD_VALUE_WORD || op == LD_VALUE_DWORD then 4
    else 0
  }

  predicate Formed(i: Instr) {
    match i
    case Plain(op) => Operand(op) == 0
    case WithByte(op, _) => Operand(op) == 1
    case WithHalf(op, _, _) => Operand(op) == 2
    case WithWord(op, _) => Operand(op) == 4
  }

  /** FINSH_SET32: little endian. */
  function Bytes(w: Word): (r: seq<Byte>)
    ensures |r| == 4
  {
    [w % 256, w / 0x100 % 256, w / 0x1_0000 % 256, w / 0x100_0000 % 256]
  }

  /** FINSH_GET32. */
  function Join(b0: Byte, b1: Byte, b2: Byte, b3: Byte): Word {
    b0 + 0x100 * b1 + 0x1_0000 * b2 + 0x100_0000 * b3
  }

  lemma JoinBytes(w: Word)
    ensures Join(Bytes(w)[0], Bytes(w)[1], Bytes(w)[2], Bytes(w)[3]) == w
  {
    Bits.Bytes(w);
  }

  function Encode1(i: Instr): (r: seq<Byte>)
    ensures |r| > 0 && r[0] == i.op
    ensures Formed(i) ==> |r| == 1 + Operand(i.op)
  {
    match i
    case Plain(op) => [op]
    case WithByte(op, b) => [op, b]
    case WithHalf(op, lo, hi) => [op, lo, hi]
    case WithWord(op, w) => [op] + Bytes(w)
  }

  function Encode(prog: seq<Instr>): seq<Byte> {
    if prog == [] then [] else Encode1(prog[0]) + Encode(prog[1..])
  }

  /** The instruction at the front of the text, if its operands are all there. */
  function Decode1(text: seq<Byte>): (r: Option<Instr>)
    ensures r.Some? ==> Formed(r.value) && |text| >= 1 + Operand(r.value.op)
  {
    if text == [] || |text| < 1 + Operand(text[0]) then None
    else if Operand(text[0]) == 0 then Some(Plain(text[0]))
    else if Operand(text[0]) == 1 then Some(WithByte(text[0], text[1]))
    else if Operand(text[0]) == 2 then Some(WithHalf(text[0], text[1], text[2]))
    else Some(WithWord(text[0], Join(text[1], text[2], text[3], text[4])))
  }

  /** Decoding reads back the instruction that was encoded, whatever follows. */
  lemma DecodeEncode(i: Instr, rest: seq<Byte>)
    requires Formed(i)
    ensures Decode1(Encode1(i) + rest) == Some(i)
  {
    match i
    case Plain(op) =>
    case WithByte(op, b) =>
    case WithHalf(op, lo, hi) =>
    case WithWord(op, w) =>
      JoinBytes(w);
      var t := Encode1(i) + rest;
      assert t[1] == Bytes(w)[0] && t[2] == Bytes(w)[1] && t[3] == Bytes(w)[2] && t[4] == Bytes(w)[3];
  }

  // ------------------------------------------------------------------ memory

  datatype Addr = At(w: Word)

  type Memory = map<Addr, Byte>

  function Load8(m: Memory, a: Word): Byte {
    if At(a) in m then m[At(a)] else 0
  }

  /** The k-th byte from a on; addresses wrap. */
  function Plus(a: Word, k: nat): Word {
    ToWord(a + k)
  }

  function Load32(m: Memory, a: Word): Word {
    Join(Load8(m, a), Load8(m, Plus(a, 1)), Load8(m, Plus(a, 2)), Load8(m, Plus(a, 3)))
  }

  function Store32(m: Memory, a: Word, w: Word): Memory {
    var b := Bytes(w);
    m[At(a) := b[0]][At(Plus(a, 1)) := b[1]][At(Plus(a, 2)) := b[2]][At(Plus(a, 3)) := b[3]]
  }

  lemma Apart(a: Word)
    ensures Plus(a, 0) == a
    ensures forall i, j :: 0 <= i < j < 4 ==> Plus(a, i) != Plus(a, j)
  {
  }

  /** The four bytes of a store, least significant first. */
  lemma StoredByte(m: Memory, a: Word, w: Word, k: nat)
    requires k < 4
    ensures Load8(Store32(m, a, w), Plus(a, k)) == w / Bits.One(8 * k) % 256
  {
    Apart(a);
    Bits.Powers();
    var r := Store32(m, a, w);
    assert At(Plus(a, k)) in r && r[At(Plus(a, k))] == Bytes(w)[k];
  }

  /** A store changes no other byte. */
  lemma StoredElsewhere(m: Memory, a: Word, w: Word, x: Word)
    requires forall k :: 0 <= k < 4 ==> x != Plus(a, k)
    ensures Load8(Store32(m, a, w), x) == Load8(m, x)
  {
    Apart(a);
    assert x != Plus(a, 0) && x != Plus(a, 1) && x != Plus(a, 2) && x != Plus(a, 3);
  }

  lemma LoadStored(m: Memory, a: Word, w: Word)
    ensures Load32(Store32(m, a, w), a) == w
  {
    Apart(a);
    var b, r := Bytes(w), Store32(m, a, w);
    assert Plus(a, 0) != Plus(a, 1) && Plus(a, 0) != Plus(a, 2) && Plus(a, 0) != Plus(a, 3);
    assert Load8(r, a) == b[0] && Load8(r, Plus(a, 1)) == b[1];
    assert Load8(r, Plus(a, 2)) == b[2] && Load8(r, Plus(a, 3)) == b[3];
    JoinBytes(w);
  }

  // -------------------------------------------------------------- arithmetic

  /** OP_BIN_DWORD.  None where C leaves the operation undefined. */
  function Arith(op: BinOp, x: Word, y: Word): Option<Word> {
    match op
    case Add => Some(ToWord(x + y))
    case Sub => Some(ToWord(x - y))
    case Mul => Some(ToWord(x * y))
    case And => Some(AndWord(x, y))
    case Or => Some(OrWord(x, y))
    case Xor => Some(XorWord(x, y))
    case Div => if NoQuotient(x, y) then None else Some(QuotTrunc(x, y))
    case Mod => if NoQuotient(x, y) then None else Some(RemTrunc(x, y))
    case Shl => if y >= 32 then None else Some(ShiftLeft(x, y))
    case Shr => if y >= 32 then None else Some(ShiftRight(x, y))
  }

  predicate Digit(op: BinOp, p: bool, q: bool) {
    match op
    case And => p && q
    case Or => p || q
    case _ => p != q
  }

  /** z is what the operator of C makes of the `long` values x and y, told by the
      numbers they stand for and, for & | ^, by their bits. */
  ghost predicate Means(op: BinOp, x: Word, y: Word, z: Word) {
    var a, b, c := Signed(x), Signed(y), Signed(z);
    match op
    case Add => Congruent(c, a + b)
    case Sub => Congruent(c, a - b)
    case Mul => Congruent(c, a * b)
    case Div => exists r :: Divides(a, b, c, r)
    case Mod => exists q :: Divides(a, b, q, c)
    case Shl => Congruent(c, a * Bits.One(y))
    case Shr => c == a / Bits.One(y)
    case _ => forall i: nat :: Bits.Bit(z, i) <==> Digit(op, Bits.Bit(x, i), Bits.Bit(y, i))
  }

  /** Division by zero, a quotient out of range, a shift by the width or more. */
  predicate Undefined(op: BinOp, x: Word, y: Word) {
    match op
    case Div => Signed(y) == 0 || (Signed(x) == -HALF && Signed(y) == -1)
    case Mod => Signed(y) == 0 || (Signed(x) == -HALF && Signed(y) == -1)
    case Shl => Signed(y) < 0 || Signed(y) >= 32
    case Shr => Signed(y) < 0 || Signed(y) >= 32
    case _ => false
  }

  /** Every operator computes what it means in C on two's complement words, and has no
      result exactly where Undefined says so. */
  lemma ArithMeans(op: BinOp, x: Word, y: Word)
    ensures Arith(op, x, y).None? <==> Undefined(op, x, y)
    ensures Arith(op, x, y).Some? ==> Means(op, x, y, Arith(op, x, y).value)
  {
    match op
    case Add => AddLaw(x, y);
    case Sub => SubLaw(x, y);
    case Mul => MulLaw(x, y);
    case Div => if !NoQuotient(x, y) { DivisionLaw(x, y); }
    case Mod => if !NoQuotient(x, y) { DivisionLaw(x, y); }
    case Shl => ShiftLeftLaw(x, y);
    case Shr => ShiftRightLaw(x, y);
    case _ => DigitsMean(op, x, y);
  }

  lemma DigitsMean(op: BinOp, x: Word, y: Word)
    requires op.And? || op.Or? || op.Xor?
    ensures Means(op, x, y, Arith(op, x, y).value)
  {
    var z := Arith(op, x, y).value;
    forall i: nat ensures Bits.Bit(z, i) <==> Digit(op, Bits.Bit(x, i), Bits.Bit(y, i)) {
      match op
      case And => BothBit(x, y, i);
      case Or => Bits.OrBit(x, y, i);
      case Xor => EitherBit(x, y, i);
    }
  }

  /** And no other word is what the operator means. */
  lemma MeansOne(op: BinOp, x: Word, y: Word, z: Word, w: Word)
    requires Means(op, x, y, z) && Means(op, x, y, w)
    ensures z == w
  {
    var a, b := Signed(x), Signed(y);
    match op
    case Add => OneSigned(z, w, a + b);
    case Sub => OneSigned(z, w, a - b);
    case Mul => OneSigned(z, w, a * b);
    case Div =>
      var r :| Divides(a, b, Signed(z), r);
      var s :| Divides(a, b, Signed(w), s);
      DividesOnce(a, b, Signed(z), r, Signed(w), s);
    case Mod =>
      var q :| Divides(a, b, q, Signed(z));
      var k :| Divides(a, b, k, Signed(w));
      DividesOnce(a, b, q, Signed(z), k, Signed(w));
    case Shl => OneSigned(z, w, a * Bits.One(y));
    case Shr =>
    case _ => SameDigits(op, x, y, z, w);
  }

  lemma SameDigits(op: BinOp, x: Word, y: Word, z: Word, w: Word)
    requires forall i: nat :: Bits.Bit(z, i) <==> Digit(op, Bits.Bit(x, i), Bits.Bit(y, i))
    requires forall i: nat :: Bits.Bit(w, i) <==> Digit(op, Bits.Bit(x, i), Bits.Bit(y, i))
    ensures z == w
  {
    forall i: nat ensures Bits.Bit(z, i) <==> Bits.Bit(w, i) {
      assert Bits.Bit(z, i) <==> Digit(op, Bits.Bit(x, i), Bits.Bit(y, i));
    }
    SameBits(z, w);
  }

  // ------------------------------------------------------------- the machine

  /** What a system call does: its result and its effect on memory. */
  type Host = (Word, seq<Word>, Memory) -> (Word, Memory)

  datatype Machine = Machine(stack: seq<Word>, mem: Memory)

  function BinaryOf(op: Byte): Option<BinOp> {
    if op == 0x03 then Some(Add)
    else if op == 0x06 then Some(Sub)
    else if op == 0x09 then Some(Div)
    else if op == 0x0C then Some(Mod)
    else if op == 0x0F then Some(Mul)
    else if op == 0x12 then Some(And)
    else if op == 0x15 then Some(Or)
    else if op == 0x18 then Some(Xor)
    else if op == 0x1E then Some(Shl)
    else if op == 0x21 then Some(Shr)
    else None
  }

  function Push(s: Machine, w: Word): Option<Machine> {
    if |s.stack| >= STACK_MAX then None else Some(s.(stack := s.stack + [w]))
  }

  /** An entry of op_table without operand bytes. */
  function PlainStep(op: Byte, s: Machine): Option<Machine> {
    var n := |s.stack|;
    if op == NOOP then Some(s)
    else if BinaryOf(op).Some? then
      if n < 2 then None else
      var r := Arith(BinaryOf(op).value, s.stack[n - 2], s.stack[n - 1]);
      if r.None? then None else Some(s.(stack := s.stack[..n - 2] + [r.value]))
    else if op == BITWISE_DWORD then
      if n < 1 then None else Some(s.(stack := s.stack[..n - 1] + [Invert(s.stack[n - 1])]))
    else if op == ST_DWORD then
      if n < 2 then None
      else Some(Machine(s.stack[..n - 1], Store32(s.mem, s.stack[n - 2], s.stack[n - 1])))
    else if op == POP then
      if n < 1 then None else Some(s.(stack := s.stack[..n - 1]))
    else if op == LD_VALUE_DWORD_STACK then
      if n < 1 then None else Some(s.(stack := s.stack[..n - 1] + [Load32(s.mem, s.stack[n - 1])]))
    else None
  }

  /** OP_call with k arguments on the stack above the function. */
  function CallStep(k: nat, s: Machine, host: Host): Option<Machine> {
    var n := |s.stack|;
    if n < k + 1 || k > 16 then None
    else
      var r := host(s.stack[n - k - 1], s.stack[n - k..], s.mem);
      Some(Machine(s.stack[..n - k - 1] + [r.0], r.1))
  }

  /** One entry of op_table.  None: a stack limit is passed, C leaves the
      operation undefined, or the code works on bytes or words. */
  function Step(i: Instr, s: Machine, host: Host): Option<Machine> {
    match i
    case Plain(op) => PlainStep(op, s)
    case WithByte(op, b) => if op == SYSCALL then CallStep(b as nat, s, host) else None
    case WithHalf(_, _, _) => None
    case WithWord(op, w) =>
      if op == LD_DWORD then Push(s, w)
      else if op == LD_VALUE_DWORD then Push(s, Load32(s.mem, w))
      else None
  }

  function Exec(prog: seq<Instr>, s: Machine, host: Host): Option<Machine>
    decreases |prog|
  {
    if prog == [] then Some(s)
    else
      var r := Step(prog[0], s, host);
      if r.None? then None else Exec(prog[1..], r.value, host)
  }

  /** The fetch and dispatch loop of finsh_vm_run over the rest of the text. */
  function RunText(text: seq<Byte>, s: Machine, host: Host): Option<Machine>
    decreases |text|
  {
    if text == [] then Some(s)
    else
      var i := Decode1(text);
      if i.None? then None
      else
        var r := Step(i.value, s, host);
        if r.None? then None else RunText(text[1 + Operand(i.value.op)..], r.value, host)
  }

  lemma {:induction false} ExecAppend(a: seq<Instr>, b: seq<Instr>, s: Machine, host: Host)
    ensures Exec(a + b, s, host) ==
            match Exec(a, s, host) { case None => None case Some(s1) => Exec(b, s1, host) }
    decreases |a|
  {
    if a == [] {
      assert a + b == b;
    } else {
      assert (a + b)[0] == a[0] && (a + b)[1..] == a[1..] + b;
      var r := Step(a[0], s, host);
      if r.Some? {
        ExecAppend(a[1..], b, r.value, host);
      }
    }
  }

  /** Running the bytes of a program runs its instructions. */
  lemma {:induction false} RunEncoded(prog: seq<Instr>, s: Machine, host: Host)
    requires forall k :: 0 <= k < |prog| ==> Formed(prog[k])
    ensures RunText(Encode(prog), s, host) == Exec(prog, s, host)
    decreases |prog|
  {
    if prog != [] {
      var i := prog[0];
      var t := Encode(prog);
      DecodeEncode(i, Encode(prog[1..]));
      assert t[1 + Operand(i.op)..] == Encode(prog[1..]);
      var r := Step(i, s, host);
      if r.Some? {
        RunEncoded(prog[1..], r.value, host);
      }
    }
  }

  lemma {:induction false} EncodeAppend(a: seq<Instr>, b: seq<Instr>)
    ensures Encode(a + b) == Encode(a) + Encode(b)
  {
    if a == [] {
      assert a + b == b;
    } else {
      assert (a + b)[0] == a[0] && (a + b)[1..] == a[1..] + b;
      EncodeAppend(a[1..], b);
    }
  }

  lemma NoopFirst(text: seq<Byte>, s: Machine, host: Host)
    requires text != [] && text[0] == NOOP
    ensures RunText(text, s, host) == RunText(text[1..], s, host)
  {
    assert Decode1(text) == Some(Plain(NOOP)) && Operand(NOOP) == 0;
    assert Step(Plain(NOOP), s, host) == Some(s);
  }

  /** The zero bytes after the program are no-ops. */
  lemma {:induction false} RunPadding(n: nat, s: Machine, host: Host)
    ensures RunText(seq(n, i => NOOP), s, host) == Some(s)
  {
    if n > 0 {
      var pad := seq(n, i => NOOP);
      assert pad[1..] == seq(n - 1, i => NOOP);
      NoopFirst(pad, s, host);
      RunPadding(n - 1, s, host);
    }
  }

  lemma {:induction false} RunAppend(prog: seq<Instr>, text: seq<Byte>, s: Machine, host: Host)
    requires forall k :: 0 <= k < |prog| ==> Formed(prog[k])
    ensures RunText(Encode(prog) + text, s, host) ==
            match Exec(prog, s, host) { case None => None case Some(s1) => RunText(text, s1, host) }
    decreases |prog|
  {
    if prog == [] {
      assert Encode(prog) + text == text;
    } else {
      var i := prog[0];
      var rest := Encode(prog[1..]) + text;
      assert Encode(prog) + text == Encode1(i) + rest;
      DecodeEncode(i, rest);
      assert (Encode1(i) + rest)[1 + Operand(i.op)..] == rest;
      var r := Step(i, s, host);
      if r.Some? {
        RunAppend(prog[1..], text, r.value, host);
      }
    }
  }
}
