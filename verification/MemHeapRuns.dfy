/** Whole runs of a memory heap: the structure, the contents of live blocks and
    the high-water mark. */
module MemHeapRuns {
  import opened MachineWord
  import opened Tiling
  import opened Payload
  import opened MemHeapSpec
  import opened MemHeapOps
  import opened MemHeapRealloc
  import opened MemHeapFrame
  import opened MemHeapFree

  /** Store is the owner of block b writing byte x of its payload. */
  datatype Op = Alloc(size: nat) | Free(ptr: Ptr) | Realloc(ptr: Ptr, size: nat) | Store(b: Addr, x: nat, v: int)

  /** A pointer the kernel accepts: null or the payload of a live block. */
  ghost predicate Owned(h: Heap, p: Ptr) {
    p == Null || Live(h, p.block)
  }

  ghost predicate Legal(h: Heap, op: Op) {
    match op
    case Alloc(n) => n < WORD
    case Free(p) => Owned(h, p)
    case Realloc(p, n) => Owned(h, p) && n < WORD
    case Store(b, x, v) => Live(h, b) && x < SizeOf(h.items, b, HS)
  }

  /** A reallocation of a block with a free successor to a size within 12 bytes of
      the 32-bit range: its in-place test wraps around. */
  ghost predicate Overrun(h: Heap, op: Op) {
    op.Realloc? && op.size != 0 && op.ptr != Null && OverrunsAt(h, op.ptr.block, Request(op.size))
  }

  ghost predicate OverrunsAt(h: Heap, a: Addr, req: nat) {
    a in h.items && IndexOf(h.items, a) + 1 < |h.items| && Overruns(h, IndexOf(h.items, a), req)
  }

  /** rt_memheap_free. */
  ghost function FreePtr(h: Heap, p: Ptr): (r: Heap)
    ensures SameArea(h, r)
  {
    if p == Null then h else FreeAt(h, p.block)
  }

  ghost function FreeAt(h: Heap, a: Addr): (r: Heap)
    ensures SameArea(h, r)
  {
    if a in h.items && IndexOf(h.items, a) + 1 < |h.items| then FreeSpec(h, IndexOf(h.items, a)) else h
  }

  /** rt_memheap_realloc. */
  ghost function ReallocPtr(h: Heap, p: Ptr, n: nat): (r: (Heap, Ptr))
    ensures r.0.start == h.start && r.0.pool == h.pool
  {
    if n == 0 then (FreePtr(h, p), Null)
    else if p == Null then AllocSpec(h, Request(n))
    else ResizeBlock(h, p.block, Request(n))
  }

  ghost function ResizeBlock(h: Heap, a: Addr, req: nat): (r: (Heap, Ptr))
    ensures r.0.start == h.start && r.0.pool == h.pool
  {
    if a in h.items && IndexOf(h.items, a) + 1 < |h.items| then ResizeSpec(h, IndexOf(h.items, a), req) else (h, Null)
  }

  ghost function Step(h: Heap, op: Op): (r: (Heap, Ptr))
    ensures r.0.start == h.start && r.0.pool == h.pool
  {
    match op
    case Alloc(n) => AllocSpec(h, Request(n))
    case Free(p) => (FreePtr(h, p), Null)
    case Realloc(p, n) => ReallocPtr(h, p, n)
    case Store(b, x, v) => (h.(data := h.data[b + HS + x := v]), Null)
  }

  ghost predicate AllLegal(h: Heap, ops: seq<Op>)
    decreases |ops|
  {
    ops == [] || (Legal(h, ops[0]) && AllLegal(Step(h, ops[0]).0, ops[1..]))
  }

  ghost function Run(h: Heap, ops: seq<Op>): Heap
    decreases |ops|
  {
    if ops == [] then h else Run(Step(h, ops[0]).0, ops[1..])
  }

  /** The heap rt_memheap_init leaves. */
  ghost function Fresh(start: Addr, pool: int): Heap {
    var tail := start + pool - HS;
    Heap(start, pool, [start, tail], map[start := false, tail := true], [start], pool - 2 * HS, 2 * HS, map[])
  }

  lemma FreshInv(start: nat, pool: nat)
    requires pool >= 2 * HS && start + pool <= WORD
    ensures Inv(Fresh(start, pool))
  {
    var h := Fresh(start, pool);
    assert Gap(h.items, 0, 1, HS);
    assert FreeSum(h.items[1..], h.used, HS) == 0;
    assert PairOk(h.items, h.used, 0);
  }

  // ----------------------------------------------------------------- one step

  lemma FreePtrInv(h: Heap, p: Ptr, b: Addr)
    requires Inv(h) && Owned(h, p)
    ensures Inv(FreePtr(h, p)) && (p == Null || b != p.block ==> Kept(h, FreePtr(h, p), b))
  {
    if p != Null {
      var a := p.block;
      var r := FreeAt(h, a);
      assert Inv(r) && (b != a ==> Kept(h, r, b)) by { FreeAtInv(h, a, b); }
      assert FreePtr(h, p) == r;
    }
  }

  lemma FreeAtInv(h: Heap, a: Addr, b: Addr)
    requires Inv(h) && Live(h, a)
    ensures Inv(FreeAt(h, a)) && (b != a ==> Kept(h, FreeAt(h, a), b))
  {
    var i := LiveIndex(h, a);
    FreeInv(h, i);
    if b != a {
      FreeKeeps(h, i, b);
    }
  }

  /** The headers that merging the block with its neighbours makes free. */
  ghost function Merged(h: Heap, i: nat): int
    requires i + 1 < |h.items|
  {
    (if LeftFree(h, i) then HS else 0) + (if RightFree(h, i) then HS else 0)
  }

  /** From h to r exactly the block a stops being live, all of it lies in one unused item,
      and available_size grows by its bytes and by a header for each free neighbour. */
  ghost predicate Returned(h: Heap, r: Heap, a: Addr) {
    && Gone(h, r, a) && Swallowed(r, a, a + HS + SizeOf(h.items, a, HS))
    && a in h.items && IndexOf(h.items, a) + 1 < |h.items|
    && r.available == h.available + SizeOf(h.items, a, HS) + Merged(h, IndexOf(h.items, a))
  }

  lemma FreedReturned(h: Heap, i: nat)
    requires Struct(h) && i + 1 < |h.items| && IsUsed(h.used, h.items[i])
    ensures Returned(h, Freed(h, i), h.items[i])
  {
    assert IndexOf(h.items, h.items[i]) == i by { TiledIndex(h.items, i, HS); }
    assert Gone(h, Freed(h, i), h.items[i]) by { FreedGone(h, i); }
    assert Swallowed(Freed(h, i), h.items[i], h.items[i + 1]) by { FreedWithin(h, i); }
    ReturnedIf(h, Freed(h, i), i);
  }

  lemma ReturnedIf(h: Heap, r: Heap, i: nat)
    requires i + 1 < |h.items| && IndexOf(h.items, h.items[i]) == i && Gone(h, r, h.items[i])
    requires Swallowed(r, h.items[i], h.items[i + 1]) && r.available == h.available + FreedBytes(h, i)
    ensures Returned(h, r, h.items[i])
  {
  }

  /** rt_memheap_free, and rt_memheap_realloc to nothing, as the caller sees it. */
  lemma FreeReturns(h: Heap, a: Addr, op: Op)
    requires Inv(h) && Live(h, a) && (op == Free(To(a)) || op == Realloc(To(a), 0))
    ensures Step(h, op).1 == Null && Returned(h, Step(h, op).0, a)
  {
    var i := LiveIndex(h, a);
    FreedReturned(h, i);
    FreeStep(h, i, op);
  }

  lemma FreeStep(h: Heap, i: nat, op: Op)
    requires Struct(h) && i + 1 < |h.items| && (op == Free(To(h.items[i])) || op == Realloc(To(h.items[i]), 0))
    ensures Step(h, op) == (Freed(h, i), Null)
  {
    TiledIndex(h.items, i, HS);
    FreeIs(h, i);
  }

  lemma SameUpToMark(r: Heap, m: Heap, i: nat)
    requires i + 1 < |r.items| && m == Mark(r)
    ensures Freed(m, i).items == Freed(r, i).items && Freed(m, i).used == Freed(r, i).used
    ensures Freed(m, i).available == Freed(r, i).available
  {
  }

  /** Freeing the block just returned restores items, flags and available_size. */
  lemma AllocFree(h: Heap, n: nat)
    requires Inv(h) && Step(h, Alloc(n)).1 != Null
    ensures var (r, p) := Step(h, Alloc(n)); SameLayout(h, Step(r, Free(p)).0)
  {
    var req := Request(n);
    var k := FirstFit(h.items, h.free, req);
    var (r, p) := AllocSpec(h, req);
    var i := CarveTrip(h, k, req);
    SameUpToMark(Carve(h, k, req), r, i);
    AllocInv(h, req);
    FreeStep(r, i, Free(p));
  }

  lemma AllocStep(h: Heap, req: nat, b: Addr)
    requires Inv(h)
    ensures Inv(AllocSpec(h, req).0) && Kept(h, AllocSpec(h, req).0, b)
  {
    AllocInv(h, req);
    AllocFails(h, req);
    if AllocSpec(h, req).1 != Null {
      AllocReturns(h, req, b);
    }
  }

  lemma ReallocStep(h: Heap, p: Ptr, n: nat, b: Addr)
    requires Inv(h) && Owned(h, p) && !Overrun(h, Realloc(p, n))
    ensures Inv(ReallocPtr(h, p, n).0) && (p == Null || b != p.block ==> Kept(h, ReallocPtr(h, p, n).0, b))
  {
    if n == 0 {
      FreePtrInv(h, p, b);
    } else if p == Null {
      AllocStep(h, Request(n), b);
    } else {
      var a, req := p.block, Request(n);
      ResizeBlockStep(h, a, req, b);
      assert ReallocPtr(h, p, n) == ResizeBlock(h, a, req);
    }
  }

  lemma ResizeBlockStep(h: Heap, a: Addr, req: nat, b: Addr)
    requires Inv(h) && Live(h, a) && !OverrunsAt(h, a, req)
    ensures Inv(ResizeBlock(h, a, req).0) && (b != a ==> Kept(h, ResizeBlock(h, a, req).0, b))
  {
    var i := LiveIndex(h, a);
    ResizeStep(h, i, req, b);
  }

  lemma ResizeStep(h: Heap, i: nat, req: nat, b: Addr)
    requires Inv(h) && i + 1 < |h.items| && IsUsed(h.used, h.items[i]) && !Overruns(h, i, req)
    ensures Inv(ResizeSpec(h, i, req).0) && (b != h.items[i] ==> Kept(h, ResizeSpec(h, i, req).0, b))
  {
    ResizeFails(h, i, req);
    if ResizeSpec(h, i, req).1 != Null {
      ResizeReturns(h, i, req, b);
    }
  }

  /** The operation is handed block b. */
  predicate Touches(op: Op, b: Addr) {
    match op
    case Alloc(n) => false
    case Free(p) => p == To(b)
    case Realloc(p, n) => p == To(b)
    case Store(c, x, v) => b == c
  }

  lemma StoreStep(h: Heap, c: Addr, x: nat, v: int, b: Addr)
    requires Inv(h) && Live(h, c) && x < SizeOf(h.items, c, HS)
    ensures Inv(Step(h, Store(c, x, v)).0) && (b != c ==> Kept(h, Step(h, Store(c, x, v)).0, b))
  {
    var r := Step(h, Store(c, x, v)).0;
    assert Layout(r) && FreeOk(r);
    if b != c && Live(h, b) {
      BlocksApart(h, b, c);
    }
  }

  lemma StepKeeps(h: Heap, op: Op, b: Addr)
    requires Inv(h) && Legal(h, op) && !Overrun(h, op)
    ensures Inv(Step(h, op).0) && (!Touches(op, b) ==> Kept(h, Step(h, op).0, b))
  {
    match op
    case Alloc(n) => AllocStep(h, Request(n), b);
    case Free(p) => FreePtrInv(h, p, b);
    case Realloc(p, n) => ReallocStep(h, p, n, b);
    case Store(c, x, v) => StoreStep(h, c, x, v, b);
  }

  lemma OverrunBreaks(h: Heap, a: Addr, req: nat)
    requires Inv(h) && Live(h, a) && OverrunsAt(h, a, req) && req < WORD
    ensures !Layout(ResizeBlock(h, a, req).0)
  {
    var i := LiveIndex(h, a);
    GrowLayoutIff(h, i, req);
  }

  /** An operation keeps the structure exactly when it does not overrun. */
  lemma StepInvIff(h: Heap, op: Op)
    requires Inv(h) && Legal(h, op)
    ensures Inv(Step(h, op).0) <==> !Overrun(h, op)
  {
    if Overrun(h, op) {
      RequestIff(op.size);
      OverrunBreaks(h, op.ptr.block, Request(op.size));
    } else {
      StepKeeps(h, op, 0);
    }
  }

  // --------------------------------------------------------------- whole runs

  ghost predicate NoOverrun(h: Heap, ops: seq<Op>)
    decreases |ops|
  {
    ops == [] || (!Overrun(h, ops[0]) && NoOverrun(Step(h, ops[0]).0, ops[1..]))
  }

  /** The structure holds before, between and after all operations of a run. */
  ghost predicate AlwaysInv(h: Heap, ops: seq<Op>)
    decreases |ops|
  {
    Inv(h) && (ops == [] || AlwaysInv(Step(h, ops[0]).0, ops[1..]))
  }

  /** All along a run the items tile the pool, the free ring is exactly the unused
      items, no two neighbours are free and available_size is their sum, exactly
      when no reallocation of the run overruns. */
  lemma {:induction false} RunInvIff(h: Heap, ops: seq<Op>)
    requires Inv(h) && AllLegal(h, ops)
    ensures AlwaysInv(h, ops) <==> NoOverrun(h, ops)
    ensures NoOverrun(h, ops) ==> Inv(Run(h, ops))
    decreases |ops|
  {
    if ops != [] {
      StepInvIff(h, ops[0]);
      if !Overrun(h, ops[0]) {
        RunInvIff(Step(h, ops[0]).0, ops[1..]);
      }
    }
  }

  /** A block that no operation of a run was handed is untouched by it. */
  lemma {:induction false} RunKeeps(h: Heap, ops: seq<Op>, b: Addr)
    requires Inv(h) && AllLegal(h, ops) && NoOverrun(h, ops)
    requires forall i :: 0 <= i < |ops| ==> !Touches(ops[i], b)
    ensures Kept(h, Run(h, ops), b)
    decreases |ops|
  {
    if ops != [] {
      var m := Step(h, ops[0]).0;
      StepKeeps(h, ops[0], b);
      RunKeeps(m, ops[1..], b);
      KeptTrans(h, m, Run(m, ops[1..]), b);
    }
  }

  lemma StoreWrites(h: Heap, b: Addr, x: nat, v: int)
    requires Inv(h) && Live(h, b) && x < SizeOf(h.items, b, HS)
    ensures var m := Step(h, Store(b, x, v)).0;
      Inv(m) && Live(m, b) && m.items == h.items && ByteOf(m, b, x) == Holds(v)
  {
    StoreStep(h, b, x, v, b);
  }

  lemma KeptByte(h: Heap, r: Heap, b: Addr, x: nat)
    requires Live(h, b) && Kept(h, r, b) && x < SizeOf(h.items, b, HS)
    ensures Live(r, b) && ByteOf(r, b, x) == ByteOf(h, b, x)
  {
  }

  /** What an owner stores it finds again, whatever happens to other blocks meanwhile. */
  lemma StoredStays(h: Heap, b: Addr, x: nat, v: int, ops: seq<Op>)
    requires Inv(h) && Live(h, b) && x < SizeOf(h.items, b, HS)
    requires AllLegal(Step(h, Store(b, x, v)).0, ops) && NoOverrun(Step(h, Store(b, x, v)).0, ops)
    requires forall i :: 0 <= i < |ops| ==> !Touches(ops[i], b)
    ensures var r := Run(Step(h, Store(b, x, v)).0, ops); Live(r, b) && ByteOf(r, b, x) == Holds(v)
  {
    var m := Step(h, Store(b, x, v)).0;
    StoreWrites(h, b, x, v);
    RunKeeps(m, ops, b);
    KeptByte(m, Run(m, ops), b, x);
  }

  // ---------------------------------------------------------- high-water mark

  function Usage(h: Heap): int { h.pool - h.available }

  function Top(a: int, b: int): int { if a < b then b else a }

  /** The usage at the fullest point of one operation: a moving reallocation
      owns both blocks for a while. */
  ghost function Crest(h: Heap, op: Op): int {
    match op
    case Realloc(p, n) =>
      if n != 0 && p != Null then ResizeCrest(h, p.block, Request(n)) else Usage(Step(h, op).0)
    case _ => Usage(Step(h, op).0)
  }

  ghost function ResizeCrest(h: Heap, a: Addr, req: nat): int {
    if a in h.items && Moves(h, IndexOf(h.items, a), req) then Usage(AllocSpec(h, req).0)
      else Usage(ResizeBlock(h, a, req).0)
  }

  ghost predicate Moves(h: Heap, i: nat, req: nat) {
    i + 1 < |h.items| && SizeAt(h.items, i, HS) < req && !CanGrow(h, i, req)
  }

  /** The largest usage over every moment of a run. */
  ghost function HighWater(h: Heap, ops: seq<Op>): int
    decreases |ops|
  {
    if ops == [] then Usage(h)
    else Top(Usage(h), Top(Crest(h, ops[0]), HighWater(Step(h, ops[0]).0, ops[1..])))
  }

  lemma AllocMark(h: Heap, req: nat)
    requires Inv(h)
    ensures AllocSpec(h, req).0.maxUsed == Top(h.maxUsed, Usage(AllocSpec(h, req).0))
  {
  }

  lemma MoveMark(h: Heap, i: nat, req: nat)
    requires Inv(h) && i + 1 < |h.items|
    ensures MoveSpec(h, i, req).0.maxUsed == AllocSpec(h, req).0.maxUsed
  {
  }

  lemma ResizeMark(h: Heap, i: nat, req: nat)
    requires Inv(h) && i + 1 < |h.items| && IsUsed(h.used, h.items[i])
    requires !Overruns(h, i, req)
    ensures var r := ResizeSpec(h, i, req).0;
      r.maxUsed == Top(h.maxUsed, if Moves(h, i, req) then Usage(AllocSpec(h, req).0) else Usage(r))
  {
    if Moves(h, i, req) {
      MoveMark(h, i, req);
      AllocMark(h, req);
    } else {
      var r := ResizeSpec(h, i, req).0;
      assert r.pool - r.available <= r.maxUsed by { ResizeStep(h, i, req, 0); }
    }
  }

  lemma ResizeBlockMark(h: Heap, a: Addr, req: nat)
    requires Inv(h) && Live(h, a) && !OverrunsAt(h, a, req)
    ensures ResizeBlock(h, a, req).0.maxUsed == Top(h.maxUsed, ResizeCrest(h, a, req))
  {
    var i := LiveIndex(h, a);
    ResizeMark(h, i, req);
  }

  lemma StepMark(h: Heap, op: Op)
    requires Inv(h) && Legal(h, op) && !Overrun(h, op)
    ensures Step(h, op).0.maxUsed == Top(h.maxUsed, Crest(h, op))
  {
    match op
    case Alloc(n) => AllocMark(h, Request(n));
    case Free(p) => FreePtrInv(h, p, 0);
    case Store(b, x, v) =>
    case Realloc(p, n) =>
      if n == 0 {
        FreePtrInv(h, p, 0);
      } else if p == Null {
        AllocMark(h, Request(n));
      } else {
        var a, req := p.block, Request(n);
        ResizeBlockMark(h, a, req);
        assert ReallocPtr(h, p, n) == ResizeBlock(h, a, req);
      }
  }

  /** max_used_size is exactly the high-water mark of the pool. */
  lemma {:induction false} RunMark(h: Heap, ops: seq<Op>)
    requires Inv(h) && AllLegal(h, ops) && NoOverrun(h, ops)
    ensures Run(h, ops).maxUsed == Top(h.maxUsed, HighWater(h, ops))
    decreases |ops|
  {
    if ops != [] {
      StepKeeps(h, ops[0], 0);
      StepMark(h, ops[0]);
      RunMark(Step(h, ops[0]).0, ops[1..]);
    }
  }

  // ------------------------------------------------------- room for the bytes asked

  /** No block is larger than the pool without its two outer headers. */
  lemma BlockFits(h: Heap, b: Addr)
    requires Layout(h) && Live(h, b)
    ensures SizeOf(h.items, b, HS) <= h.pool - 2 * HS
  {
    var j := LiveIndex(h, b);
    assert j > 0 ==> Gap(h.items, 0, j, HS);
    assert j + 1 < |h.items| - 1 ==> Gap(h.items, j + 1, |h.items| - 1, HS);
  }

  /** rt_memheap_alloc is refused exactly when the rounded size is not below available_size
      or no free item holds it; then nothing changes.  rt_memheap_realloc of RT_NULL does
      the same, but for size 0. */
  lemma AllocRefusedIff(h: Heap, n: nat, op: Op)
    requires Inv(h) && (op == Alloc(n) || (op == Realloc(Null, n) && n != 0))
    ensures var (r, p) := Step(h, op);
      && (p == Null <==> Request(n) >= h.available || !Room(h, Request(n)))
      && (p == Null ==> r == h) && (r, p) == Step(h, Alloc(n))
  {
    AllocFails(h, Request(n));
  }

  /** Block a can neither stay nor grow in place for req bytes, and there is no item for it. */
  ghost predicate MustMove(h: Heap, a: Addr, req: nat) {
    && a in h.items && IndexOf(h.items, a) + 1 < |h.items|
    && SizeAt(h.items, IndexOf(h.items, a), HS) < req && !CanGrow(h, IndexOf(h.items, a), req)
    && (req >= h.available || !Room(h, req))
  }

  /** rt_memheap_realloc of a block is refused exactly in that case; then nothing changes. */
  lemma ReallocRefusedIff(h: Heap, a: Addr, n: nat)
    requires Inv(h) && Live(h, a) && n != 0
    ensures var (r, p) := Step(h, Realloc(To(a), n));
      (p == Null <==> MustMove(h, a, Request(n))) && (p == Null ==> r == h)
  {
    var i := LiveIndex(h, a);
    ResizeFails(h, i, Request(n));
  }

  /** The block rt_memheap_alloc returns holds the bytes asked for exactly when rounding
      the size up does not wrap. */
  lemma AllocHoldsIff(h: Heap, n: nat)
    requires Inv(h) && n < WORD && AllocSpec(h, Request(n)).1 != Null
    ensures var (r, p) := AllocSpec(h, Request(n)); SizeOf(r.items, p.block, HS) >= n <==> n <= WORD - 4
  {
    var (r, p) := AllocSpec(h, Request(n));
    RequestIff(n);
    AllocReturns(h, Request(n), h.start);
    assert Inv(r) by { AllocInv(h, Request(n)); }
    BlockFits(r, p.block);
  }

  /** So does the block rt_memheap_realloc returns, where its test does not wrap. */
  lemma ReallocHoldsIff(h: Heap, a: Addr, n: nat)
    requires Inv(h) && Live(h, a) && 0 < n < WORD && ReallocPtr(h, To(a), n).1 != Null
    requires !Overrun(h, Realloc(To(a), n))
    ensures var (r, p) := ReallocPtr(h, To(a), n); SizeOf(r.items, p.block, HS) >= n <==> n <= WORD - 4
  {
    var i := LiveIndex(h, a);
    var (r, p) := ReallocPtr(h, To(a), n);
    RequestIff(n);
    assert Resized(h, a, r, p.block, Request(n), a) by { ResizeReturns(h, i, Request(n), a); }
    BlockFits(r, p.block);
  }

  /** A request for 2^32 - 1 bytes is met with a block of twelve. */
  lemma RoundedAway()
    ensures Request(WORD - 1) == 12
    ensures var (r, p) := AllocSpec(Fresh(0, 100), 12); p != Null && SizeOf(r.items, p.block, HS) < WORD - 1
  {
    var h := Fresh(0, 100);
    FreshInv(0, 100);
    AllocFails(h, 12);
    assert Room(h, 12) by {
      assert h.free[0] in h.free && IndexOf(h.items, 0) == 0;
    }
    AllocHoldsIff(h, WORD - 1);
  }
}
