/** The 32-bit words of the finsh machine: a `long` of the target in two's complement,
    what the operators of finsh_ops.c make of it on words, and what that is on signed
    numbers and on bits. */
module FinshWords {
  import opened MachineWord
  import opened Bits

  type Byte = b: int | 0 <= b < 256

  type Word = w: int | 0 <= w < WORD

  /** The smallest `long` is -HALF. */
  const HALF: int := 0x8000_0000

  predicate Negative(x: Word) { x >= HALF }

  /** The number that a word stands for. */
  function Signed(x: Word): (i: int)
    ensures -HALF <= i < HALF
  {
    if Negative(x) then x - WORD else x
  }

  /** The word of a number, modulo 2^32. */
  function ToWord(i: int): Word {
    i % WORD
  }

  predicate Congruent(i: int, j: int) {
    (i - j) % WORD == 0
  }

  // ------------------------------------------------------------------ on words

  function Neg(x: Word): Word { ToWord(0 - x) }

  function Invert(x: Word): Word { WORD - 1 - x }

  function Abs(x: Word): Word { if Negative(x) then Neg(x) else x }

  /** C division of long values: toward zero. */
  function QuotTrunc(x: Word, y: Word): Word
    requires y != 0
  {
    var q := Abs(x) / Abs(y);
    if Negative(x) != Negative(y) then Neg(ToWord(q)) else ToWord(q)
  }

  function RemTrunc(x: Word, y: Word): Word
    requires y != 0
  {
    var r := Abs(x) % Abs(y);
    if Negative(x) then Neg(r) else r
  }

  function ShiftLeft(x: Word, n: nat): Word {
    ToWord(x * One(n))
  }

  /** `>>` on a signed long, keeping the sign. */
  function ShiftRight(x: Word, n: nat): Word {
    if Negative(x) then Invert(ToWord(Invert(x) / One(n))) else ToWord(x / One(n))
  }

  /** a & b. */
  function Both(a: nat, b: nat): (r: nat)
    ensures r <= a
  {
    if a == 0 then 0
    else (if a % 2 == 1 && b % 2 == 1 then 1 else 0) + 2 * Both(a / 2, b / 2)
  }

  /** a ^ b. */
  function Either(a: nat, b: nat): nat {
    if a == 0 && b == 0 then 0
    else (if a % 2 != b % 2 then 1 else 0) + 2 * Either(a / 2, b / 2)
  }

  function AndWord(x: Word, y: Word): Word { Both(x, y) }

  function OrWord(x: Word, y: Word): Word {
    Powers();
    OrWidth(x, y, 32);
    Or(x, y)
  }

  function XorWord(x: Word, y: Word): Word {
    Powers();
    EitherWidth(x, y, 32);
    Either(x, y)
  }

  lemma {:induction false} EitherWidth(a: nat, b: nat, w: nat)
    requires a < One(w) && b < One(w)
    ensures Either(a, b) < One(w)
    decreases w
  {
    if w > 0 {
      EitherWidth(a / 2, b / 2, w - 1);
    }
  }

  // --------------------------------------------------------- on signed numbers

  lemma SignedOf(i: int)
    ensures Congruent(Signed(ToWord(i)), i)
    ensures -HALF <= i < HALF ==> Signed(ToWord(i)) == i
  {
  }

  /** Only one signed number is congruent to a given one. */
  lemma OneSigned(x: Word, y: Word, i: int)
    requires Congruent(Signed(x), i) && Congruent(Signed(y), i)
    ensures x == y
  {
  }

  lemma AddLaw(x: Word, y: Word)
    ensures Congruent(Signed(ToWord(x + y)), Signed(x) + Signed(y))
  {
    SignedOf(x + y);
    CongruentTrans(Signed(ToWord(x + y)), x + y, Signed(x) + Signed(y));
  }

  lemma SubLaw(x: Word, y: Word)
    ensures Congruent(Signed(ToWord(x - y)), Signed(x) - Signed(y))
  {
    SignedOf(x - y);
    CongruentTrans(Signed(ToWord(x - y)), x - y, Signed(x) - Signed(y));
  }

  lemma Multiple(i: int, j: int, k: int)
    requires i - j == k * WORD
    ensures Congruent(i, j)
  {
  }

  lemma MulLaw(x: Word, y: Word)
    ensures Congruent(Signed(ToWord(x * y)), Signed(x) * Signed(y))
  {
    ScaleLaw(x, y);
    var i, j := x * y, Signed(x) * Signed(y);
    if Negative(y) {
      assert Signed(x) * y - j == Signed(x) * WORD;
      Multiple(Signed(x) * y, j, Signed(x));
    }
    CongruentTrans(Signed(ToWord(i)), Signed(x) * y, j);
  }

  lemma CongruentTrans(i: int, j: int, k: int)
    requires Congruent(i, j) && Congruent(j, k)
    ensures Congruent(i, k)
  {
  }

  /** A multiple of a word is the same multiple of its number. */
  lemma ScaleLaw(x: Word, k: nat)
    ensures Congruent(Signed(ToWord(x * k)), Signed(x) * k)
  {
    var i, j := x * k, Signed(x) * k;
    SignedOf(i);
    if Negative(x) {
      assert i - j == k * WORD;
      Multiple(i, j, k);
    }
    CongruentTrans(Signed(ToWord(i)), i, j);
  }

  lemma ShiftLeftLaw(x: Word, n: nat)
    ensures Congruent(Signed(ShiftLeft(x, n)), Signed(x) * One(n))
  {
    ScaleLaw(x, One(n));
  }

  lemma Quotient(i: int, p: int, q: int, r: int)
    requires p > 0 && i == q * p + r && 0 <= r < p
    ensures i / p == q
  {
    var k, s := i / p, i % p;
    assert i == k * p + s;
    if k < q {
      AtLeast(k + 1, q, p);
    } else if k > q {
      AtLeast(q + 1, k, p);
    }
  }

  lemma AtLeast(k: int, l: int, p: int)
    requires k <= l && p > 0
    ensures k * p <= l * p
  {
    SameSide(l - k, p);
    assert l * p == k * p + (l - k) * p;
  }

  /** `>> n` is the floor of the number over 2^n. */
  lemma ShiftRightLaw(x: Word, n: nat)
    ensures Signed(ShiftRight(x, n)) == Signed(x) / One(n)
  {
    var p, a := One(n), if Negative(x) then Invert(x) else x;
    Smaller(a, p);
    Complement(a / p);
    if Negative(x) {
      FloorBelow(a, p);
    }
  }

  lemma Complement(q: int)
    requires 0 <= q < HALF
    ensures Signed(ToWord(q)) == q && Signed(Invert(ToWord(q))) == -q - 1
  {
  }

  lemma FloorBelow(a: int, p: int)
    requires p > 0
    ensures (-a - 1) / p == -(a / p) - 1
  {
    var q, r := a / p, a % p;
    assert a == q * p + r;
    assert -a - 1 == (-q - 1) * p + (p - 1 - r);
    Quotient(-a - 1, p, -q - 1, p - 1 - r);
  }

  lemma Smaller(a: nat, p: int)
    requires p > 0
    ensures 0 <= a / p <= a
  {
    var q, r := a / p, a % p;
    assert a == q * p + r;
    if q < 0 {
      AtLeast(q, -1, p);
    } else {
      Grows(q, p);
    }
  }

  lemma Grows(q: nat, p: int)
    requires p > 0
    ensures q <= q * p
  {
    SameSide(q, p - 1);
    assert q * p == q + q * (p - 1);
  }

  function Size(i: int): nat { if i < 0 then -i else i }

  /** q is a over b toward zero, and r what remains. */
  predicate Divides(a: int, b: int, q: int, r: int) {
    a == q * b + r && Size(r) < Size(b) && (r == 0 || (r < 0 <==> a < 0))
  }

  /** C leaves the quotient undefined: by zero, or out of range. */
  predicate NoQuotient(x: Word, y: Word) {
    y == 0 || (x == HALF && y == WORD - 1)
  }

  lemma AbsIs(x: Word)
    ensures Abs(x) == Size(Signed(x)) <= HALF
  {
  }

  /** `/` and `%` give quotient and remainder of C's division. */
  lemma DivisionLaw(x: Word, y: Word)
    requires !NoQuotient(x, y)
    ensures Divides(Signed(x), Signed(y), Signed(QuotTrunc(x, y)), Signed(RemTrunc(x, y)))
  {
    AbsIs(x);
    AbsIs(y);
    var a: int, b: int := Abs(x), Abs(y);
    Smaller(a, b);
    QuotientSigned(x, y, a / b);
    RemainderSigned(x, y);
    Parts(a, b);
    Signs(Signed(x), Signed(y), a, b, a / b, a % b);
  }

  lemma Parts(a: int, b: int)
    requires b > 0
    ensures a == (a / b) * b + a % b && 0 <= a % b < b
  {
  }

  lemma RemainderSigned(x: Word, y: Word)
    requires y != 0
    ensures Abs(y) != 0
    ensures Signed(RemTrunc(x, y)) == if Negative(x) then -(Abs(x) % Abs(y)) else Abs(x) % Abs(y)
  {
    AbsIs(x);
    AbsIs(y);
    Parts(Abs(x), Abs(y));
  }

  lemma QuotientSigned(x: Word, y: Word, q: int)
    requires !NoQuotient(x, y) && q == Abs(x) / Abs(y) && 0 <= q <= Abs(x)
    ensures Signed(QuotTrunc(x, y)) == if Negative(x) != Negative(y) then -q else q
  {
    AbsIs(x);
    AbsIs(y);
    if q == HALF {
      WholeHalf(Abs(x), Abs(y));
      assert Negative(x) && !Negative(y);
    }
    Negated(q);
  }

  lemma Negated(q: int)
    requires 0 <= q <= HALF
    ensures Signed(Neg(ToWord(q))) == -q && (q < HALF ==> Signed(ToWord(q)) == q)
  {
  }

  lemma WholeHalf(a: nat, b: nat)
    requires b > 0 && a <= HALF && a / b == HALF
    ensures a == HALF && b == 1
  {
    var q, r := a / b, a % b;
    assert a == q * b + r;
    Grows(q, b);
    if b > 1 {
      AtLeast(2, b, q);
    }
  }

  lemma Signs(i: int, j: int, a: int, b: int, q: int, r: int)
    requires a == Size(i) && b == Size(j) && a == q * b + r && 0 <= r < b && q >= 0
    ensures Divides(i, j, if (i < 0) != (j < 0) then -q else q, if i < 0 then -r else r)
  {
    if i < 0 && j < 0 {
      assert q * j == -(q * b);
    } else if i < 0 {
      assert (-q) * j == -(q * b);
    } else if j < 0 {
      assert (-q) * j == q * b;
    }
  }

  /** There is only one such pair. */
  lemma DividesOnce(a: int, b: int, q: int, r: int, k: int, s: int)
    requires Divides(a, b, q, r) && Divides(a, b, k, s)
    ensures q == k && r == s
  {
    assert (q - k) * b == s - r;
    assert Size(s - r) < Size(b);
    if q != k {
      TimesAtLeast(q - k, b);
    }
  }

  lemma TimesAtLeast(i: int, b: int)
    requires i != 0
    ensures Size(i * b) >= Size(b)
  {
    if i > 0 {
      assert i * b == b + (i - 1) * b;
    } else {
      assert i * b == -b + (i + 1) * b;
    }
    SameSide(if i > 0 then i - 1 else -i - 1, b);
  }

  lemma SameSide(k: nat, b: int)
    ensures b >= 0 ==> k * b >= 0
    ensures b <= 0 ==> k * b <= 0
  {
  }

  // -------------------------------------------------------------------- on bits

  lemma {:induction false} BothBit(a: nat, b: nat, i: nat)
    ensures Bit(Both(a, b), i) <==> Bit(a, i) && Bit(b, i)
    decreases i
  {
    if a == 0 {
      ZeroBit(i);
    } else if i > 0 {
      BothBit(a / 2, b / 2, i - 1);
    }
  }

  lemma {:induction false} EitherBit(a: nat, b: nat, i: nat)
    ensures Bit(Either(a, b), i) <==> Bit(a, i) != Bit(b, i)
    decreases i
  {
    if a == 0 && b == 0 {
      ZeroBit(i);
    } else if i > 0 {
      EitherBit(a / 2, b / 2, i - 1);
    }
  }

  lemma {:induction false} FlipBit(v: nat, w: nat, i: nat)
    requires v < One(w) && i < w
    ensures Bit(One(w) - 1 - v, i) <==> !Bit(v, i)
    decreases i
  {
    var u := One(w) - 1 - v;
    if i > 0 {
      assert u / 2 == One(w - 1) - 1 - v / 2;
      FlipBit(v / 2, w - 1, i - 1);
    }
  }

  /** ~x flips every bit, and stands for -x - 1. */
  lemma InvertLaw(x: Word, i: nat)
    requires i < 32
    ensures (Bit(Invert(x), i) <==> !Bit(x, i)) && Signed(Invert(x)) == -Signed(x) - 1
  {
    Powers();
    FlipBit(x, 32, i);
  }

  /** A number is determined by its bits. */
  lemma {:induction false} SameBits(a: nat, b: nat)
    requires forall i: nat :: Bit(a, i) <==> Bit(b, i)
    ensures a == b
    decreases a + b
  {
    assert Bit(a, 0) <==> Bit(b, 0);
    if a > 0 || b > 0 {
      forall i: nat ensures Bit(a / 2, i) <==> Bit(b / 2, i) {
        assert Bit(a, i + 1) <==> Bit(b, i + 1);
      }
      SameBits(a / 2, b / 2);
    }
  }
}
