/** The bitmap of src/scheduler.c that tells which priorities have ready threads:
    one word for up to 32 priorities, a word over 32 bytes for up to 256. */
module ReadyIndex {
  import opened Bits

  datatype Layout = OneWord | TwoLevel

  /** rt_thread_ready_priority_group and rt_thread_ready_table. */
  datatype Index = Index(group: nat, table: seq<nat>)

  /** number, number_mask and high_mask of a thread. */
  datatype Masks = Masks(number: nat, numberMask: nat, highMask: nat)

  function Limit(layout: Layout): nat {
    match layout case OneWord => 32 case TwoLevel => 256
  }

  /** The masks as rt_thread_startup and a change of priority compute them. */
  function MasksOf(layout: Layout, p: nat): Masks {
    match layout
    case OneWord => Masks(0, One(p), 0)
    case TwoLevel => Masks(p / 8, One(p / 8), One(p % 8))
  }

  predicate Fits(layout: Layout, ix: Index, m: Masks) {
    layout.TwoLevel? ==> m.number < |ix.table|
  }

  /** The stores of rt_schedule_insert_thread. */
  function SetBits(layout: Layout, ix: Index, m: Masks): Index
    requires Fits(layout, ix, m)
  {
    match layout
    case OneWord => ix.(group := Or(ix.group, m.numberMask))
    case TwoLevel =>
      Index(Or(ix.group, m.numberMask), ix.table[m.number := Or(ix.table[m.number], m.highMask)])
  }

  /** The stores of rt_schedule_remove_thread when the queue ran empty. */
  function ClearBits(layout: Layout, ix: Index, m: Masks): Index
    requires Fits(layout, ix, m)
  {
    match layout
    case OneWord => ix.(group := AndNot(ix.group, m.numberMask))
    case TwoLevel =>
      var byte := AndNot(ix.table[m.number], m.highMask);
      Index(if byte == 0 then AndNot(ix.group, m.numberMask) else ix.group, ix.table[m.number := byte])
  }

  /** The look-up of rt_schedule. */
  function Highest(layout: Layout, ix: Index): int {
    match layout
    case OneWord => Ffs(ix.group) - 1
    case TwoLevel =>
      var number := Ffs(ix.group) - 1;
      if 0 <= number < |ix.table| then number * 8 + Ffs(ix.table[number]) - 1 else -1
  }

  // -------------------------------------------------------------- the invariant

  /** A group bit is set exactly when its byte is not zero. */
  ghost predicate ByteOk(ix: Index, n: nat)
    requires n < |ix.table|
  {
    ix.table[n] < 256 && (Bit(ix.group, n) <==> ix.table[n] != 0)
  }

  /** The bit of priority p is set exactly when p is ready. */
  ghost predicate BitOk(layout: Layout, ix: Index, p: nat, ready: set<nat>)
    requires p < Limit(layout) && (layout.TwoLevel? ==> |ix.table| == 32)
  {
    match layout
    case OneWord => Bit(ix.group, p) <==> p in ready
    case TwoLevel => Bit(ix.table[p / 8], p % 8) <==> p in ready
  }

  ghost predicate IndexOk(layout: Layout, ix: Index, ready: set<nat>) {
    && ix.group < One(32)
    && (forall p :: p in ready ==> p < Limit(layout))
    && (layout.TwoLevel? ==> |ix.table| == 32)
    && (layout.TwoLevel? ==> forall n :: 0 <= n < 32 ==> ByteOk(ix, n))
    && (forall p :: 0 <= p < Limit(layout) ==> BitOk(layout, ix, p, ready))
  }

  lemma EmptyOk(layout: Layout)
    ensures IndexOk(layout, Index(0, seq(32, i => 0)), {})
  {
    var ix := Index(0, seq(32, i => 0));
    forall n | 0 <= n < 32 ensures ByteOk(ix, n) {
      ZeroBit(n);
    }
    forall p | 0 <= p < Limit(layout) ensures BitOk(layout, ix, p, {}) {
      ZeroBit(p);
      ZeroBit(p % 8);
    }
  }

  // ---------------------------------------------------------------- both edits

  lemma SetOne(ix: Index, ready: set<nat>, p: nat)
    requires IndexOk(OneWord, ix, ready) && p < 32
    ensures IndexOk(OneWord, SetBits(OneWord, ix, MasksOf(OneWord, p)), ready + {p})
  {
    var r := SetBits(OneWord, ix, MasksOf(OneWord, p));
    OneLess(p, 32);
    OrWidth(ix.group, One(p), 32);
    forall q | 0 <= q < 32 ensures BitOk(OneWord, r, q, ready + {p}) {
      assert BitOk(OneWord, ix, q, ready);
      OrBit(ix.group, One(p), q);
      OneBit(p, q);
    }
  }

  lemma ClearOne(ix: Index, ready: set<nat>, p: nat)
    requires IndexOk(OneWord, ix, ready) && p < 32
    ensures IndexOk(OneWord, ClearBits(OneWord, ix, MasksOf(OneWord, p)), ready - {p})
  {
    var r := ClearBits(OneWord, ix, MasksOf(OneWord, p));
    AndNotLess(ix.group, One(p));
    forall q | 0 <= q < 32 ensures BitOk(OneWord, r, q, ready - {p}) {
      assert BitOk(OneWord, ix, q, ready);
      AndNotBit(ix.group, One(p), q);
      OneBit(p, q);
    }
  }

  lemma SamePriority(p: nat, q: nat)
    ensures p == q <==> p / 8 == q / 8 && p % 8 == q % 8
  {
    assert p == 8 * (p / 8) + p % 8;
    assert q == 8 * (q / 8) + q % 8;
  }

  /** One byte of the table and its group bit change. */
  lemma TableChange(ix: Index, r: Index, ready: set<nat>, after: set<nat>, p: nat, k: nat, byte: nat)
    requires IndexOk(TwoLevel, ix, ready) && p < 256 && k == p / 8 && byte < 256
    requires r.table == ix.table[k := byte] && r.group < One(32)
    requires forall n :: 0 <= n < 32 ==> (Bit(r.group, n) <==> if n == k then byte != 0 else Bit(ix.group, n))
    requires forall b :: 0 <= b < 8 ==> (Bit(byte, b) <==> if b == p % 8 then p in after else Bit(ix.table[k], b))
    requires forall q :: q != p ==> (q in after <==> q in ready)
    ensures IndexOk(TwoLevel, r, after)
  {
    forall n | 0 <= n < 32 ensures ByteOk(r, n) {
      assert ByteOk(ix, n);
    }
    forall q | 0 <= q < 256 ensures BitOk(TwoLevel, r, q, after) {
      assert BitOk(TwoLevel, ix, q, ready);
      SamePriority(p, q);
    }
  }

  lemma SetTwo(ix: Index, ready: set<nat>, p: nat)
    requires IndexOk(TwoLevel, ix, ready) && p < 256
    ensures IndexOk(TwoLevel, SetBits(TwoLevel, ix, MasksOf(TwoLevel, p)), ready + {p})
  {
    var k, b := p / 8, p % 8;
    var byte, group := Or(ix.table[k], One(b)), Or(ix.group, One(k));
    var r := SetBits(TwoLevel, ix, MasksOf(TwoLevel, p));
    Powers();
    assert ByteOk(ix, k);
    OneLess(b, 8);
    OrWidth(ix.table[k], One(b), 8);
    OneLess(k, 32);
    OrWidth(ix.group, One(k), 32);
    assert byte != 0 by {
      OrBit(ix.table[k], One(b), b);
      OneBit(b, b);
      ZeroBit(b);
    }
    forall n | 0 <= n < 32 ensures Bit(group, n) <==> if n == k then byte != 0 else Bit(ix.group, n) {
      OrBit(ix.group, One(k), n);
      OneBit(k, n);
    }
    forall i | 0 <= i < 8 ensures Bit(byte, i) <==> if i == b then true else Bit(ix.table[k], i) {
      OrBit(ix.table[k], One(b), i);
      OneBit(b, i);
    }
    TableChange(ix, r, ready, ready + {p}, p, k, byte);
  }

  lemma ClearTwo(ix: Index, ready: set<nat>, p: nat)
    requires IndexOk(TwoLevel, ix, ready) && p < 256
    ensures IndexOk(TwoLevel, ClearBits(TwoLevel, ix, MasksOf(TwoLevel, p)), ready - {p})
  {
    var k, b := p / 8, p % 8;
    var byte := AndNot(ix.table[k], One(b));
    var r := ClearBits(TwoLevel, ix, MasksOf(TwoLevel, p));
    assert ByteOk(ix, k);
    AndNotLess(ix.table[k], One(b));
    AndNotLess(ix.group, One(k));
    forall n | 0 <= n < 32 ensures Bit(r.group, n) <==> if n == k then byte != 0 else Bit(ix.group, n) {
      AndNotBit(ix.group, One(k), n);
      OneBit(k, n);
    }
    forall i | 0 <= i < 8 ensures Bit(byte, i) <==> if i == b then false else Bit(ix.table[k], i) {
      AndNotBit(ix.table[k], One(b), i);
      OneBit(b, i);
    }
    TableChange(ix, r, ready, ready - {p}, p, k, byte);
  }

  lemma SetOk(layout: Layout, ix: Index, ready: set<nat>, p: nat)
    requires IndexOk(layout, ix, ready) && p < Limit(layout)
    ensures Fits(layout, ix, MasksOf(layout, p))
    ensures IndexOk(layout, SetBits(layout, ix, MasksOf(layout, p)), ready + {p})
  {
    match layout
    case OneWord => SetOne(ix, ready, p);
    case TwoLevel => SetTwo(ix, ready, p);
  }

  lemma ClearOk(layout: Layout, ix: Index, ready: set<nat>, p: nat)
    requires IndexOk(layout, ix, ready) && p < Limit(layout)
    ensures Fits(layout, ix, MasksOf(layout, p))
    ensures IndexOk(layout, ClearBits(layout, ix, MasksOf(layout, p)), ready - {p})
  {
    match layout
    case OneWord => ClearOne(ix, ready, p);
    case TwoLevel => ClearTwo(ix, ready, p);
  }

  // --------------------------------------------------------------- the look-up

  lemma LowestBit(v: nat, w: nat, i: nat)
    requires 0 < v < One(w) && w <= 32
    ensures 1 <= Ffs(v) <= w && Bit(v, Ffs(v) - 1) && (i < Ffs(v) - 1 ==> !Bit(v, i))
  {
    Powers();
    assert v < One(32) by {
      if w < 32 {
        OneLess(w, 32);
      }
    }
    FfsIs(v);
    LowIs(v, i);
    if Low(v) >= w {
      Width(v, w, Low(v));
    }
  }

  /** The look-up yields the most urgent ready priority. */
  lemma HighestIs(layout: Layout, ix: Index, ready: set<nat>, p: nat)
    requires IndexOk(layout, ix, ready) && p in ready
    ensures 0 <= Highest(layout, ix) <= p && Highest(layout, ix) in ready
  {
    assert BitOk(layout, ix, p, ready);
    match layout
    case OneWord =>
      assert ix.group != 0 by { ZeroBit(p); }
      LowestBit(ix.group, 32, p);
      assert BitOk(layout, ix, Ffs(ix.group) - 1, ready);
    case TwoLevel => HighestTwo(ix, ready, p);
  }

  /** The group word finds the first byte that is not zero. */
  lemma HighestByte(ix: Index, ready: set<nat>, k: nat) returns (n: nat)
    requires IndexOk(TwoLevel, ix, ready) && k < 32 && ix.table[k] != 0
    ensures n == Ffs(ix.group) - 1 && n <= k && 0 < ix.table[n] < 256
  {
    assert ByteOk(ix, k);
    assert ix.group != 0 by { ZeroBit(k); }
    LowestBit(ix.group, 32, k);
    n := Ffs(ix.group) - 1;
    assert ByteOk(ix, n);
  }

  lemma HighestTwo(ix: Index, ready: set<nat>, p: nat)
    requires IndexOk(TwoLevel, ix, ready) && p in ready
    ensures 0 <= Highest(TwoLevel, ix) <= p && Highest(TwoLevel, ix) in ready
  {
    var k, b := p / 8, p % 8;
    assert p == 8 * k + b;
    assert Bit(ix.table[k], b) by { assert BitOk(TwoLevel, ix, p, ready); }
    assert ix.table[k] != 0 by { ZeroBit(b); }
    var n := HighestByte(ix, ready, k);
    assert ix.table[n] < One(8) by { Powers(); }
    LowestBit(ix.table[n], 8, b);
    var c := Ffs(ix.table[n]) - 1;
    assert n == k ==> c <= b;
    BitAt(ix, ready, n, c);
  }

  lemma BitAt(ix: Index, ready: set<nat>, n: nat, c: nat)
    requires IndexOk(TwoLevel, ix, ready) && n < 32 && c < 8 && Bit(ix.table[n], c)
    ensures n * 8 + c in ready
  {
    var h := n * 8 + c;
    assert h / 8 == n && h % 8 == c;
    assert BitOk(TwoLevel, ix, h, ready);
  }
}
