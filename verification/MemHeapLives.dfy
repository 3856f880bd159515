/** Which blocks are live: exactly those that were handed out and not given back. */
module MemHeapLives {
  import opened RtList
  import opened Tiling
  import opened MemHeapSpec
  import opened MemHeapOps
  import opened MemHeapRealloc
  import opened MemHeapFrame
  import opened MemHeapFree
  import opened MemHeapRuns

  ghost function Lives(h: Heap): set<Addr> {
    set a | a in h.items && Live(h, a)
  }

  // -------------------------------------------------------------- edit by edit

  lemma TakeLives(h: Heap, k: nat)
    requires Struct(h) && k < |h.free| && h.free[k] in h.items
    ensures Lives(Take(h, k)) == Lives(h) + {h.free[k]}
  {
    var i := FreeIndex(h, k);
    assert h.free[k] != h.start + h.pool - HS;
  }

  lemma SplitLives(h: Heap, i: nat, a: Addr)
    requires Layout(h) && i + 1 < |h.items| && h.items[i] + HS <= a && a + HS <= h.items[i + 1]
    ensures Lives(Split(h, i, a)) == Lives(h)
  {
    SplitLayout(h, i, a);
    InsertedIn(h.items, i + 1, a);
  }

  lemma JoinLives(h: Heap, i: nat)
    requires Struct(h)
    ensures Lives(Join(h, i)) == Lives(h)
  {
    if i + 2 < |h.items| && h.items[i + 1] in h.free {
      TiledDistinct(h.items, HS);
      DroppedIn(h.items, i + 1);
    }
  }

  lemma SameLives(h: Heap, r: Heap)
    requires r.items == h.items && r.used == h.used && r.start == h.start && r.pool == h.pool
    ensures Lives(r) == Lives(h)
  {
  }

  // ---------------------------------------------------------------- operations

  lemma CarveLives(h: Heap, k: nat, req: nat)
    requires Struct(h) && Coalesced(h.items, h.used) && k < |h.free| && h.free[k] in h.items
    ensures Lives(Carve(h, k, req)) == Lives(h) + {h.free[k]}
  {
    var i := CarveTake(h, k);
    TakeLives(h, k);
    if SizeAt(h.items, i, HS) >= req + HS + MIN {
      SplitLives(Take(h, k), i, h.free[k] + HS + req);
    }
  }

  lemma AllocLives(h: Heap, req: nat)
    requires Inv(h)
    ensures var (r, p) := AllocSpec(h, req); Lives(r) == if p == Null then Lives(h) else Lives(h) + {p.block}
  {
    var k := FirstFit(h.items, h.free, req);
    if k < |h.free| && h.free[k] in h.items {
      CarveLives(h, k, req);
      SameLives(Carve(h, k, req), Mark(Carve(h, k, req)));
    }
  }

  lemma FreeLives(h: Heap, i: nat)
    requires Struct(h) && i + 1 < |h.items| && IsUsed(h.used, h.items[i])
    ensures Lives(FreeSpec(h, i)) == Lives(h) - {h.items[i]}
  {
    FreeIs(h, i);
    GoneLives(h, Freed(h, i), i);
  }

  lemma GoneLives(h: Heap, r: Heap, i: nat)
    requires Struct(h) && i + 1 < |h.items| && IsUsed(h.used, h.items[i]) && r == Freed(h, i)
    ensures Lives(r) == Lives(h) - {h.items[i]}
  {
    forall b ensures b in Lives(r) <==> b in Lives(h) - {h.items[i]} {
      FreedLives(h, i, b);
    }
  }

  lemma GrowLives(h: Heap, i: nat, a: Addr)
    requires Inv(h) && i + 2 < |h.items| && h.items[i + 1] in h.free && h.items[i] + HS <= a && a + HS <= h.items[i + 2]
    ensures Lives(GrowSpec(h, i, a)) == Lives(h)
  {
    var m := Merge(h, i);
    GrowMerge(h, i);
    assert Lives(m) == Lives(h) by { JoinLives(h, i); }
    SplitLives(m, i, a);
    SameLives(Split(m, i, a), GrowSpec(h, i, a));
  }

  lemma ShrinkLives(h: Heap, i: nat, a: Addr)
    requires Inv(h) && i + 1 < |h.items| && IsUsed(h.used, h.items[i])
    requires h.items[i] + HS <= a && a + HS <= h.items[i + 1]
    ensures Lives(ShrinkSpec(h, i, a)) == Lives(h)
  {
    ShrinkSplit(h, i, a);
    SplitLives(h, i, a);
    JoinLives(Split(h, i, a), i + 1);
  }

  /** What a reallocation that returns p makes of the live blocks. */
  ghost predicate Replaced(h: Heap, r: Heap, a: Addr, p: Ptr) {
    Lives(r) == if p == Null then Lives(h) else Lives(h) - {a} + {p.block}
  }

  lemma MoveLives(h: Heap, i: nat, req: nat)
    requires Inv(h) && i + 1 < |h.items| && IsUsed(h.used, h.items[i])
    ensures Replaced(h, MoveSpec(h, i, req).0, h.items[i], MoveSpec(h, i, req).1)
  {
    AllocLives(h, req);
    if AllocSpec(h, req).1 != Null {
      MovedLives(h, i, req, AllocSpec(h, req).0, AllocSpec(h, req).1.block);
    }
  }

  lemma MovedLives(h: Heap, i: nat, req: nat, m: Heap, c: Addr)
    requires Inv(h) && i + 1 < |h.items| && IsUsed(h.used, h.items[i]) && AllocSpec(h, req) == (m, To(c))
    requires Lives(m) == Lives(h) + {c}
    ensures Replaced(h, MoveSpec(h, i, req).0, h.items[i], MoveSpec(h, i, req).1)
  {
    var a, n := h.items[i], SizeAt(h.items, i, HS);
    var k, j := MoveStart(h, i, req);
    var d := Transfer(m, a, c, n);
    assert a in Lives(h) by { HeldLive(h, i); }
    assert !Live(h, c) by { AllocReturns(h, req, a); }
    TransferInv(m, a, c, n);
    SameLives(m, d);
    FreeLives(d, j);
    MoveIs(h, i, req, m, c, j);
  }

  lemma HeldLive(h: Heap, i: nat)
    requires Layout(h) && i + 1 < |h.items| && IsUsed(h.used, h.items[i])
    ensures Live(h, h.items[i]) && h.items[i] in Lives(h)
  {
    assert Gap(h.items, i, |h.items| - 1, HS);
  }

  lemma ResizeLives(h: Heap, i: nat, req: nat)
    requires Inv(h) && i + 1 < |h.items| && IsUsed(h.used, h.items[i]) && !Overruns(h, i, req)
    ensures Replaced(h, ResizeSpec(h, i, req).0, h.items[i], ResizeSpec(h, i, req).1)
  {
    HeldLive(h, i);
    var a := h.items[i] + HS + req;
    if SizeAt(h.items, i, HS) < req {
      if CanGrow(h, i, req) {
        EnlargeGrows(h, i, req, a);
        GrowLives(h, i, a);
      } else {
        MoveLives(h, i, req);
      }
    } else if req + HS + MIN < SizeAt(h.items, i, HS) {
      ShrinkLives(h, i, a);
      ResizeShrinks(h, i, req, a);
    }
  }

  // ------------------------------------------------------ no larger than needed

  /** A free item with room for another item behind the request is cut exactly there. */
  lemma CarveTight(h: Heap, k: nat, req: nat)
    requires Struct(h) && Coalesced(h.items, h.used) && k < |h.free| && h.free[k] in h.items
    ensures var n := SizeOf(h.items, h.free[k], HS);
      SizeOf(Carve(h, k, req).items, h.free[k], HS) == if n >= req + HS + MIN then req else n
  {
    var i := CarveTake(h, k);
    assert SizeOf(h.items, h.free[k], HS) == SizeAt(h.items, i, HS);
    if SizeAt(h.items, i, HS) >= req + HS + MIN {
      var t, a := Take(h, k), h.free[k] + HS + req;
      assert SizeOf(Split(t, i, a).items, h.free[k], HS) == req by { SplitSize(t, i, a); }
      assert Carve(h, k, req) == Split(t, i, a);
    } else {
      assert Carve(h, k, req) == Take(h, k);
    }
  }

  /** The block of rt_memheap_alloc is the request, or a whole item that is too small to be
      cut. */
  lemma AllocTight(h: Heap, req: nat)
    requires Inv(h) && AllocSpec(h, req).1 != Null
    ensures var (r, p) := AllocSpec(h, req);
      var size := SizeOf(r.items, p.block, HS);
      req <= size && (size == req || size < req + HS + MIN)
  {
    CarveTight(h, FirstFit(h.items, h.free, req), req);
    AllocReturns(h, req, 0);
  }

  /** Block c has the request, and less than a further item more. */
  ghost predicate Snug(r: Heap, c: Addr, req: nat) {
    req <= SizeOf(r.items, c, HS) <= req + HS + MIN
  }

  lemma GrowTight(h: Heap, i: nat, a: Addr)
    requires Inv(h) && i + 2 < |h.items| && h.items[i + 1] in h.free && IsUsed(h.used, h.items[i])
    requires h.items[i] + HS <= a && a + HS <= h.items[i + 2]
    ensures SizeOf(GrowSpec(h, i, a).items, h.items[i], HS) == a - h.items[i] - HS
  {
    GrowMerge(h, i);
    SplitSize(Merge(h, i), i, a);
  }

  lemma ShrinkTight(h: Heap, i: nat, a: Addr)
    requires Inv(h) && i + 1 < |h.items| && IsUsed(h.used, h.items[i])
    requires h.items[i] + HS <= a && a + HS <= h.items[i + 1]
    ensures SizeOf(ShrinkSpec(h, i, a).items, h.items[i], HS) == a - h.items[i] - HS
  {
    ShrinkSplit(h, i, a);
    SplitSize(h, i, a);
    InsertedAt(h.items, i + 1, a, i + 1);
    JoinKept(Split(h, i, a), i + 1, h.items[i]);
  }

  lemma MoveTight(h: Heap, i: nat, req: nat)
    requires Inv(h) && i + 1 < |h.items| && IsUsed(h.used, h.items[i]) && AllocSpec(h, req).1 != Null
    ensures MoveSpec(h, i, req).1 != Null && Snug(MoveSpec(h, i, req).0, MoveSpec(h, i, req).1.block, req)
  {
    var m, c, a, n := AllocSpec(h, req).0, AllocSpec(h, req).1.block, h.items[i], SizeAt(h.items, i, HS);
    var k, j := MoveStart(h, i, req);
    var d := Transfer(m, a, c, n);
    assert Live(h, a) by { HeldLive(h, i); }
    assert !Live(h, c) && Live(m, c) by { AllocReturns(h, req, a); }
    AllocTight(h, req);
    TransferInv(m, a, c, n);
    FreeKeeps(d, j, c);
    MoveIs(h, i, req, m, c, j);
  }

  /** So for the block of rt_memheap_realloc. */
  lemma ResizeTight(h: Heap, i: nat, req: nat)
    requires Inv(h) && i + 1 < |h.items| && IsUsed(h.used, h.items[i]) && !Overruns(h, i, req)
    requires ResizeSpec(h, i, req).1 != Null
    ensures Snug(ResizeSpec(h, i, req).0, ResizeSpec(h, i, req).1.block, req)
  {
    TiledIndex(h.items, i, HS);
    var a := h.items[i] + HS + req;
    if SizeAt(h.items, i, HS) < req {
      if CanGrow(h, i, req) {
        EnlargeGrows(h, i, req, a);
        GrowTight(h, i, a);
      } else {
        MoveReturns(h, i, req, 0);
        AllocFails(h, req);
        MoveTight(h, i, req);
      }
    } else if req + HS + MIN < SizeAt(h.items, i, HS) {
      ShrinkTight(h, i, a);
      ResizeShrinks(h, i, req, a);
    }
  }

  // ---------------------------------------------------------------- whole runs

  /** The live blocks after an operation that returns p, told by the pointers alone. */
  function After(held: set<Addr>, op: Op, p: Ptr): set<Addr> {
    match op
    case Alloc(n) => Added(held, p)
    case Free(q) => Released(held, q)
    case Realloc(q, n) =>
      if n == 0 then Released(held, q)
      else if q == Null then Added(held, p)
      else if p == Null then held
      else Added(Released(held, q), p)
    case Store(b, x, v) => held
  }

  function Added(held: set<Addr>, p: Ptr): set<Addr> {
    if p == Null then held else held + {p.block}
  }

  function Released(held: set<Addr>, p: Ptr): set<Addr> {
    if p == Null then held else held - {p.block}
  }

  /** Every operation makes live exactly the block it returns, and frees exactly the
      block it takes back. */
  lemma StepLives(h: Heap, op: Op)
    requires Inv(h) && Legal(h, op) && !Overrun(h, op)
    ensures Lives(Step(h, op).0) == After(Lives(h), op, Step(h, op).1)
  {
    match op
    case Alloc(n) => AllocLives(h, Request(n));
    case Free(p) => FreePtrLives(h, p);
    case Realloc(p, n) => ReallocLives(h, p, n);
    case Store(b, x, v) => SameLives(h, Step(h, op).0);
  }

  lemma FreePtrLives(h: Heap, p: Ptr)
    requires Inv(h) && Owned(h, p)
    ensures Lives(FreePtr(h, p)) == Released(Lives(h), p)
  {
    if p != Null {
      var i := LiveIndex(h, p.block);
      FreeLives(h, i);
    }
  }

  lemma ReallocLives(h: Heap, p: Ptr, n: nat)
    requires Inv(h) && Owned(h, p) && !Overrun(h, Realloc(p, n))
    ensures Lives(ReallocPtr(h, p, n).0) == After(Lives(h), Realloc(p, n), ReallocPtr(h, p, n).1)
  {
    if n == 0 {
      FreePtrLives(h, p);
    } else if p == Null {
      AllocLives(h, Request(n));
    } else {
      var i := LiveIndex(h, p.block);
      ResizeLives(h, i, Request(n));
    }
  }

  /** The blocks handed out and not given back along a run. */
  ghost function Held(h: Heap, ops: seq<Op>, held: set<Addr>): set<Addr>
    decreases |ops|
  {
    if ops == [] then held
    else Held(Step(h, ops[0]).0, ops[1..], After(held, ops[0], Step(h, ops[0]).1))
  }

  /** After every run exactly these are live. */
  lemma {:induction false} RunLives(h: Heap, ops: seq<Op>)
    requires Inv(h) && AllLegal(h, ops) && NoOverrun(h, ops)
    ensures Lives(Run(h, ops)) == Held(h, ops, Lives(h))
    decreases |ops|
  {
    if ops != [] {
      StepKeeps(h, ops[0], 0);
      StepLives(h, ops[0]);
      RunLives(Step(h, ops[0]).0, ops[1..]);
    }
  }
}
