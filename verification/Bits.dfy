/** Words of src/kservice.c and src/scheduler.c: unsigned numbers read bit by bit,
    and the search for the lowest bit that is set. */
module Bits {
  /** Bit i of v. */
  predicate Bit(v: nat, i: nat) {
    if i == 0 then v % 2 == 1 else Bit(v / 2, i - 1)
  }

  /** 1 << p. */
  function One(p: nat): (r: nat)
    ensures r > 0
  {
    if p == 0 then 1 else 2 * One(p - 1)
  }

  /** a | b. */
  function Or(a: nat, b: nat): nat {
    if a == 0 && b == 0 then 0
    else (if a % 2 == 1 || b % 2 == 1 then 1 else 0) + 2 * Or(a / 2, b / 2)
  }

  /** a & ~b. */
  function AndNot(a: nat, b: nat): nat {
    if a == 0 then 0
    else (if a % 2 == 1 && b % 2 == 0 then 1 else 0) + 2 * AndNot(a / 2, b / 2)
  }

  lemma {:induction false} ZeroBit(i: nat)
    ensures !Bit(0, i)
  {
    if i > 0 {
      ZeroBit(i - 1);
    }
  }

  lemma {:induction false} OneBit(p: nat, i: nat)
    ensures Bit(One(p), i) <==> i == p
  {
    if p == 0 {
      if i > 0 {
        ZeroBit(i - 1);
      }
    } else if i > 0 {
      OneBit(p - 1, i - 1);
    }
  }

  lemma {:induction false} OrBit(a: nat, b: nat, i: nat)
    ensures Bit(Or(a, b), i) <==> Bit(a, i) || Bit(b, i)
    decreases i
  {
    if a == 0 && b == 0 {
      ZeroBit(i);
    } else if i > 0 {
      OrBit(a / 2, b / 2, i - 1);
    }
  }

  lemma {:induction false} AndNotBit(a: nat, b: nat, i: nat)
    ensures Bit(AndNot(a, b), i) <==> Bit(a, i) && !Bit(b, i)
    decreases i
  {
    if a == 0 {
      ZeroBit(i);
    } else if i > 0 {
      AndNotBit(a / 2, b / 2, i - 1);
    }
  }

  /** A number below 2^w has no bits from w on. */
  lemma {:induction false} Width(v: nat, w: nat, i: nat)
    requires v < One(w) && w <= i
    ensures !Bit(v, i)
    decreases w
  {
    if w == 0 {
      ZeroBit(i);
    } else {
      Width(v / 2, w - 1, i - 1);
    }
  }

  lemma {:induction false} OrWidth(a: nat, b: nat, w: nat)
    requires a < One(w) && b < One(w)
    ensures Or(a, b) < One(w)
    decreases w
  {
    if w > 0 {
      OrWidth(a / 2, b / 2, w - 1);
    }
  }

  lemma {:induction false} AndNotLess(a: nat, b: nat)
    ensures AndNot(a, b) <= a
  {
    if a > 0 {
      AndNotLess(a / 2, b / 2);
    }
  }

  lemma {:induction false} OneLess(p: nat, w: nat)
    requires p < w
    ensures One(p) < One(w)
  {
    if p + 1 < w {
      OneLess(p, w - 1);
    }
  }

  lemma {:induction false} SomeBit(v: nat) returns (i: nat)
    requires v > 0
    ensures Bit(v, i)
  {
    if v % 2 == 1 {
      i := 0;
    } else {
      i := SomeBit(v / 2);
      i := i + 1;
    }
  }

  // ---------------------------------------------------------- the lowest bit

  /** The position of the lowest bit that is set. */
  function Low(v: nat): nat
    requires v > 0
  {
    if v % 2 == 1 then 0 else 1 + Low(v / 2)
  }

  lemma {:induction false} LowIs(v: nat, i: nat)
    requires v > 0
    ensures Bit(v, Low(v)) && (i < Low(v) ==> !Bit(v, i))
  {
    if v % 2 == 0 {
      LowIs(v / 2, if i > 0 then i - 1 else 0);
    }
  }

  /** The low digits decide when they are not zero. */
  lemma {:induction false} LowDigits(q: nat, k: nat, r: nat)
    requires 0 < r < One(k)
    ensures q * One(k) + r > 0 && Low(q * One(k) + r) == Low(r)
    decreases k
  {
    var m := One(k - 1);
    assert One(k) == 2 * m;
    assert q * One(k) + r == 2 * (q * m) + r;
    if r % 2 == 0 {
      assert (2 * (q * m) + r) / 2 == q * m + r / 2;
      LowDigits(q, k - 1, r / 2);
    }
  }

  lemma {:induction false} LowShifted(q: nat, k: nat)
    requires q > 0
    ensures q * One(k) > 0 && Low(q * One(k)) == k + Low(q)
    decreases k
  {
    if k > 0 {
      var m := One(k - 1);
      assert q * One(k) == 2 * (q * m);
      LowShifted(q, k - 1);
    }
  }

  /** The row of __lowest_bit_bitmap that every sixteen entries repeat from their
      second entry on. */
  const ROW: seq<nat> := [0, 0, 1, 0, 2, 0, 1, 0, 3, 0, 1, 0, 2, 0, 1, 0]
  /** The first entry of each row. */
  const FIRST: seq<nat> := [0, 4, 5, 4, 6, 4, 5, 4, 7, 4, 5, 4, 6, 4, 5, 4]

  /** __lowest_bit_bitmap[b]. */
  function Bitmap(b: nat): nat
    requires b < 256
  {
    if b % 16 == 0 then FIRST[b / 16] else ROW[b % 16]
  }

  /** __rt_ffs on 32 bits: one look-up in the first byte that is not zero. */
  function Ffs(v: nat): nat {
    FirstByte(v % 256, v / 256 % 256, v / 65536 % 256, v / 16777216 % 256)
  }

  function FirstByte(b0: nat, b1: nat, b2: nat, b3: nat): nat
    requires b0 < 256 && b1 < 256 && b2 < 256 && b3 < 256
  {
    if b0 == 0 && b1 == 0 && b2 == 0 && b3 == 0 then 0
    else if b0 != 0 then Bitmap(b0) + 1
    else if b1 != 0 then Bitmap(b1) + 9
    else if b2 != 0 then Bitmap(b2) + 17
    else Bitmap(b3) + 25
  }

  lemma RowLow(c: nat)
    requires 0 < c < 16
    ensures ROW[c] == Low(c) && FIRST[c] == 4 + Low(c)
  {
    var d := c / 2;
    var e := d / 2;
    assert c % 2 == 1 || (c == 2 * d && (d % 2 == 1 || (d == 2 * e && (e % 2 == 1 || e == 2))));
    if c % 2 == 0 {
      assert Low(c) == 1 + Low(d);
      if d % 2 == 0 {
        assert Low(d) == 1 + Low(e);
        assert e == 2 ==> Low(e) == 1 + Low(1);
      }
    }
  }

  lemma RowBitmap(b: nat, q: nat, r: nat)
    requires b < 256 && b == 16 * q + r && r < 16
    ensures Bitmap(b) == if r == 0 then FIRST[q] else ROW[r]
  {
    assert b % 16 == r && b / 16 == q;
  }

  lemma BitmapLow(b: nat, q: nat, r: nat)
    requires 0 < b < 256 && b == 16 * q + r && r < 16
    ensures Bitmap(b) == Low(b)
  {
    RowBitmap(b, q, r);
    var m := One(4);
    assert m == 16;
    if r == 0 {
      RowLow(q);
      LowShifted(q, 4);
      assert q * m == b;
    } else {
      RowLow(r);
      LowDigits(q, 4, r);
      assert q * m + r == b;
    }
  }

  /** A byte that is not zero, k bits up, with zeros below it. */
  lemma ByteLow(v: nat, k: nat, b: nat, rest: nat)
    requires 0 < b < 256 && v == (rest * 256 + b) * One(k)
    ensures v > 0 && Low(v) == k + Bitmap(b)
  {
    assert One(8) == 256 by { assert One(4) == 16; }
    LowDigits(rest, 8, b);
    LowShifted(rest * 256 + b, k);
    BitmapLow(b, b / 16, b % 16);
  }

  lemma FirstByteIs(v: nat, b0: nat, b1: nat, b2: nat, b3: nat)
    requires v > 0 && b0 < 256 && b1 < 256 && b2 < 256 && b3 < 256
    requires v == b0 + 256 * b1 + 65536 * b2 + 16777216 * b3
    ensures FirstByte(b0, b1, b2, b3) == Low(v) + 1
  {
    Powers();
    if b0 != 0 {
      ByteLow(v, 0, b0, b1 + 256 * b2 + 65536 * b3);
    } else if b1 != 0 {
      ByteLow(v, 8, b1, b2 + 256 * b3);
    } else if b2 != 0 {
      ByteLow(v, 16, b2, b3);
    } else {
      ByteLow(v, 24, b3, 0);
    }
  }

  /** __rt_ffs is one more than the position of the lowest bit, for every word. */
  lemma FfsIs(v: nat)
    requires 0 < v < 0x1_0000_0000
    ensures Ffs(v) == Low(v) + 1
  {
    Bytes(v);
    FirstByteIs(v, v % 256, v / 256 % 256, v / 65536 % 256, v / 16777216 % 256);
  }

  lemma Bytes(v: nat)
    requires v < 0x1_0000_0000
    ensures v == v % 256 + 256 * (v / 256 % 256) + 65536 * (v / 65536 % 256) + 16777216 * (v / 16777216 % 256)
  {
    var a := v / 256;
    assert v / 65536 == a / 256;
    var b := a / 256;
    assert v / 16777216 == b / 256;
    var c := b / 256;
    assert c < 256;
  }

  lemma Powers()
    ensures One(0) == 1 && One(3) == 8 && One(5) == 32 && One(8) == 256 && One(16) == 65536 && One(24) == 16777216
    ensures One(32) == 0x1_0000_0000
  {
    assert One(4) == 16;
    assert One(8) == 256;
    assert One(12) == 4096;
    assert One(16) == 65536;
    assert One(20) == 1048576;
    assert One(24) == 16777216;
    assert One(28) == 268435456;
  }
}
