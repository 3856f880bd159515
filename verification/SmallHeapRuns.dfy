/** Whole runs of the small heap. */
module SmallHeapRuns {
  import opened MachineWord
  import opened Tiling
  import opened Payload
  import opened SmallHeapSpec
  import opened SmallHeapOps
  import opened SmallHeapShrink
  import opened SmallHeapFrame
  import opened SmallHeapRealloc

  // --------------------------------------------------------------- whole runs

  /** Store is the owner of block b writing byte x of its payload. */
  datatype Op = Malloc(size: nat) | Free(ptr: Ptr) | Realloc(ptr: Ptr, size: nat) | Store(b: Addr, x: nat, v: int)

  ghost predicate Owned(h: Heap, p: Ptr) {
    p == Null || Live(h, p.block)
  }

  ghost predicate Legal(h: Heap, op: Op) {
    match op
    case Malloc(n) => n < WORD
    case Free(p) => Owned(h, p)
    case Realloc(p, n) => Owned(h, p) && n < WORD
    case Store(b, x, v) => Live(h, b) && x < SizeOf(h.items, b, SH)
  }

  ghost function FreeAt(h: Heap, a: Addr): Heap {
    if a in h.items && IndexOf(h.items, a) + 1 < |h.items| then FreeSpec(h, IndexOf(h.items, a)) else h
  }

  ghost function ResizeAt(h: Heap, a: Addr, n: nat): Outcome
    requires h.lfree in h.items
  {
    if a in h.items && IndexOf(h.items, a) + 1 < |h.items| then ResizeSpec(h, IndexOf(h.items, a), n)
      else Outcome(h, Null)
  }

  /** rt_realloc. */
  ghost function ReallocTop(h: Heap, p: Ptr, n: nat): Outcome
    requires h.lfree in h.items
  {
    if Align(n) > h.size then Outcome(h, Null)
    else if p == Null then MallocTop(h, Align(n))
    else ResizeAt(h, p.block, Align(n))
  }

  ghost function Step(h: Heap, op: Op): Outcome
    requires h.lfree in h.items
  {
    match op
    case Malloc(n) => MallocTop(h, n)
    case Free(p) => Outcome(if p == Null then h else FreeAt(h, p.block), Null)
    case Realloc(p, n) => ReallocTop(h, p, n)
    case Store(b, x, v) => Outcome(h.(data := h.data[b + SH + x := v]), Null)
  }

  predicate Touches(op: Op, b: Addr) {
    match op
    case Malloc(n) => false
    case Free(p) => p == To(b)
    case Realloc(p, n) => p == To(b)
    case Store(c, x, v) => b == c
  }

  lemma FreeAtKeeps(h: Heap, a: Addr, b: Addr)
    requires Inv(h) && Live(h, a)
    ensures Inv(FreeAt(h, a)) && (b != a ==> Kept(h, FreeAt(h, a), b)) && (Lowest(h) ==> Lowest(FreeAt(h, a)))
  {
    var i := LiveIndex(h, a);
    FreeInv(h, i);
    if b != a {
      FreeKept(h, i, b);
    }
  }

  lemma ResizeAtKeeps(h: Heap, a: Addr, n: nat, b: Addr)
    requires Inv(h) && Live(h, a) && Align(n) == n
    ensures Inv(ResizeAt(h, a, n).heap) && (b != a ==> Kept(h, ResizeAt(h, a, n).heap, b))
  {
    var i := LiveIndex(h, a);
    ResizeFails(h, i, n);
    if ResizeSpec(h, i, n).ptr != Null {
      ResizeReturns(h, i, n, b);
    }
  }

  lemma StoreKeeps(h: Heap, c: Addr, x: nat, v: int, b: Addr)
    requires Inv(h) && Live(h, c) && x < SizeOf(h.items, c, SH)
    ensures Inv(Step(h, Store(c, x, v)).heap) && (b != c ==> Kept(h, Step(h, Store(c, x, v)).heap, b))
  {
    if b != c && Live(h, b) {
      BlocksApart(h, b, c);
    }
  }

  lemma ReallocKeeps(h: Heap, p: Ptr, n: nat, b: Addr)
    requires Inv(h) && Owned(h, p)
    ensures Inv(ReallocTop(h, p, n).heap) && (p != To(b) ==> Kept(h, ReallocTop(h, p, n).heap, b))
  {
    var m := Align(n);
    assert Align(m) == m;
    if m <= h.size {
      if p == Null {
        MallocTopKeeps(h, m, b);
      } else {
        ResizeAtKeeps(h, p.block, m, b);
      }
    }
  }

  lemma StepKeeps(h: Heap, op: Op, b: Addr)
    requires Inv(h) && Legal(h, op)
    ensures Inv(Step(h, op).heap) && (!Touches(op, b) ==> Kept(h, Step(h, op).heap, b))
  {
    match op
    case Malloc(n) => MallocTopKeeps(h, n, b);
    case Free(p) =>
      if p != Null {
        FreeAtKeeps(h, p.block, b);
      }
    case Realloc(p, n) => ReallocKeeps(h, p, n, b);
    case Store(c, x, v) => StoreKeeps(h, c, x, v, b);
  }

  ghost predicate AllLegal(h: Heap, ops: seq<Op>)
    requires Inv(h)
    decreases |ops|
  {
    ops == [] || (Legal(h, ops[0]) && (StepKeeps(h, ops[0], 0); AllLegal(Step(h, ops[0]).heap, ops[1..])))
  }

  ghost function Run(h: Heap, ops: seq<Op>): Heap
    requires Inv(h) && AllLegal(h, ops)
    decreases |ops|
  {
    if ops == [] then h
    else
      StepKeeps(h, ops[0], 0);
      Run(Step(h, ops[0]).heap, ops[1..])
  }

  /** After any run the blocks tile the heap up to the end marker, no two
      neighbours are free, used_mem is the extent of the used blocks and lfree is
      the end marker or a free block; a block no operation was handed is untouched. */
  lemma {:induction false} RunKeeps(h: Heap, ops: seq<Op>, b: Addr)
    requires Inv(h) && AllLegal(h, ops) && forall i :: 0 <= i < |ops| ==> !Touches(ops[i], b)
    ensures Inv(Run(h, ops)) && Kept(h, Run(h, ops), b)
    decreases |ops|
  {
    if ops != [] {
      var m := Step(h, ops[0]).heap;
      StepKeeps(h, ops[0], b);
      RunKeeps(m, ops[1..], b);
      KeptTrans(h, m, Run(m, ops[1..]), b);
    }
  }

  lemma StoreWrites(h: Heap, b: Addr, x: nat, v: int)
    requires Inv(h) && Live(h, b) && x < SizeOf(h.items, b, SH)
    ensures var m := Step(h, Store(b, x, v)).heap;
      Inv(m) && Live(m, b) && m.items == h.items && ByteOf(m, b, x) == Holds(v)
  {
    StoreKeeps(h, b, x, v, b);
  }

  lemma KeptByte(h: Heap, r: Heap, b: Addr, x: nat)
    requires Live(h, b) && Kept(h, r, b) && x < SizeOf(h.items, b, SH)
    ensures Live(r, b) && ByteOf(r, b, x) == ByteOf(h, b, x)
  {
  }

  /** What an owner stores it finds again, whatever happens to other blocks meanwhile. */
  lemma StoredStays(h: Heap, b: Addr, x: nat, v: int, ops: seq<Op>)
    requires Inv(h) && Live(h, b) && x < SizeOf(h.items, b, SH)
    requires AllLegal(Step(h, Store(b, x, v)).heap, ops)
    requires forall i :: 0 <= i < |ops| ==> !Touches(ops[i], b)
    ensures var r := Run(Step(h, Store(b, x, v)).heap, ops); Live(r, b) && ByteOf(r, b, x) == Holds(v)
  {
    var m := Step(h, Store(b, x, v)).heap;
    StoreWrites(h, b, x, v);
    RunKeeps(m, ops, b);
    KeptByte(m, Run(m, ops), b, x);
  }

  // ---------------------------------------------------- the lowest free block

  /** A reallocation that cuts a block down whose successor is in use, or the end
      marker, while lfree lies behind it: the tail becomes a free block below lfree. */
  ghost predicate Buries(h: Heap, op: Op) {
    op.Realloc? && op.ptr != Null && Align(op.size) <= h.size && BuriesAt(h, op.ptr.block, Align(op.size))
  }

  ghost predicate BuriesAt(h: Heap, a: Addr, n: nat) {
    && a in h.items && IndexOf(h.items, a) + 1 < |h.items|
    && var i := IndexOf(h.items, a);
       && n + SH + LEAST < SizeAt(h.items, i, SH)
       && !(h.lfree < h.items[i + 1] || (h.lfree == h.items[i + 1] && i + 2 < |h.items|))
  }

  lemma SameLowest(h: Heap, d: map<Addr, int>)
    ensures Lowest(h.(data := d)) <==> Lowest(h)
  {
    var r := h.(data := d);
    assert forall i :: 0 <= i < |h.items| ==> (FreeAbove(r, i) <==> FreeAbove(h, i));
  }

  lemma MoveLowest(h: Heap, i: nat, n: nat)
    requires Inv(h) && Lowest(h) && i + 1 < |h.items| && IsUsed(h.used, h.items[i])
    ensures Lowest(MoveSpec(h, i, n).heap)
  {
    var o, a := MallocTop(h, n), h.items[i];
    IndexLive(h, i);
    MallocTopKeeps(h, n, a);
    if o.ptr != Null {
      var j := LiveIndex(o.heap, a);
      var t := Transfer(o.heap, a, o.ptr.block, Least(n, SizeAt(h.items, i, SH)));
      SameLowest(o.heap, t.data);
      TransferInv(o.heap, a, o.ptr.block, Least(n, SizeAt(h.items, i, SH)));
      FreeInv(t, j);
    }
  }

  lemma ResizeLowestIff(h: Heap, a: Addr, n: nat)
    requires Inv(h) && Lowest(h) && Live(h, a)
    ensures Lowest(ResizeAt(h, a, n).heap) <==> !BuriesAt(h, a, n)
  {
    var i := LiveIndex(h, a);
    var cur := SizeAt(h.items, i, SH);
    if cur == n {
    } else if n + SH + LEAST < cur {
      ShrinkLowestIff(h, i, Stop(h.items, i, n));
    } else {
      MoveLowest(h, i, n);
    }
  }

  /** An operation keeps lfree the lowest free block exactly when it does not bury one. */
  lemma StepLowestIff(h: Heap, op: Op)
    requires Inv(h) && Lowest(h) && Legal(h, op)
    ensures Lowest(Step(h, op).heap) <==> !Buries(h, op)
  {
    match op
    case Malloc(n) => MallocTopKeeps(h, n, 0);
    case Free(p) =>
      if p != Null {
        FreeAtKeeps(h, p.block, 0);
      }
    case Store(c, x, v) => SameLowest(h, h.data[c + SH + x := v]);
    case Realloc(p, n) =>
      if Align(n) <= h.size {
        if p == Null {
          MallocTopKeeps(h, Align(n), 0);
        } else {
          ResizeLowestIff(h, p.block, Align(n));
        }
      }
  }

  ghost predicate NoBuries(h: Heap, ops: seq<Op>)
    requires Inv(h) && AllLegal(h, ops)
    decreases |ops|
  {
    ops == [] || (!Buries(h, ops[0]) && (StepKeeps(h, ops[0], 0); NoBuries(Step(h, ops[0]).heap, ops[1..])))
  }

  ghost predicate AlwaysLowest(h: Heap, ops: seq<Op>)
    requires Inv(h) && AllLegal(h, ops)
    decreases |ops|
  {
    Lowest(h) && (ops == [] || (StepKeeps(h, ops[0], 0); AlwaysLowest(Step(h, ops[0]).heap, ops[1..])))
  }

  /** All along a run lfree is the lowest free block exactly when no reallocation
      buries one; in runs of rt_malloc and rt_free alone it always is. */
  lemma {:induction false} RunLowestIff(h: Heap, ops: seq<Op>)
    requires Inv(h) && Lowest(h) && AllLegal(h, ops)
    ensures AlwaysLowest(h, ops) <==> NoBuries(h, ops)
    ensures (forall i :: 0 <= i < |ops| ==> !ops[i].Realloc?) ==> AlwaysLowest(h, ops)
    decreases |ops|
  {
    if ops != [] {
      StepKeeps(h, ops[0], 0);
      StepLowestIff(h, ops[0]);
      if !Buries(h, ops[0]) {
        RunLowestIff(Step(h, ops[0]).heap, ops[1..]);
      }
    }
  }

  // ------------------------------------------------------------------- the start

  /** The heap rt_system_heap_init leaves. */
  ghost function Fresh(size: int): Heap {
    Heap(size, [0, size + SH], map[0 := false, size + SH := true], 0, 0, 0, map[])
  }

  lemma FreshInv(size: nat)
    requires size >= LEAST
    ensures Inv(Fresh(size)) && Lowest(Fresh(size))
  {
    var h := Fresh(size);
    assert Gap(h.items, 0, 1, SH);
    assert UsedSum(h.items[1..], h.used) == 0;
    assert PairOk(h.items, h.used, 0);
  }

  lemma MallocSize(h: Heap, n: nat)
    requires h.lfree in h.items
    ensures MallocTop(h, n).heap.size == h.size
  {
  }

  lemma PlugSize(h: Heap, i: nat)
    ensures PlugHoles(h, i).size == h.size
  {
  }

  lemma ResizeSize(h: Heap, i: nat, n: nat)
    requires h.lfree in h.items && i + 1 < |h.items|
    ensures ResizeSpec(h, i, n).heap.size == h.size
  {
    ShrinkSize(h, i, Stop(h.items, i, n));
    MoveSize(h, i, n);
  }

  lemma ShrinkSize(h: Heap, i: nat, a: Addr)
    requires i + 1 < |h.items|
    ensures ShrinkSpec(h, i, a).size == h.size
  {
    PlugSize(Shorn(h, i, a), i + 1);
  }

  lemma MoveSize(h: Heap, i: nat, n: nat)
    requires h.lfree in h.items && i + 1 < |h.items|
    ensures MoveSpec(h, i, n).heap.size == h.size
  {
    var o := MallocTop(h, n);
    MallocSize(h, n);
    if o.ptr != Null && h.items[i] in o.heap.items && IndexOf(o.heap.items, h.items[i]) + 1 < |o.heap.items| {
      var t := Transfer(o.heap, h.items[i], o.ptr.block, Least(n, SizeAt(h.items, i, SH)));
      var j := IndexOf(o.heap.items, h.items[i]);
      PlugSize(Unmarked(t, j), j);
    }
  }

  lemma ReallocSize(h: Heap, p: Ptr, n: nat)
    requires h.lfree in h.items
    ensures ReallocTop(h, p, n).heap.size == h.size
  {
    if p == Null {
      MallocSize(h, Align(n));
    } else if p.block in h.items && IndexOf(h.items, p.block) + 1 < |h.items| {
      ResizeSize(h, IndexOf(h.items, p.block), Align(n));
    }
  }

  lemma AlignHolds(n: nat)
    requires n < WORD
    ensures n + 3 < WORD ==> n <= Align(n) < n + 4 && Align(n) % 4 == 0
    ensures n + 3 >= WORD ==> Align(n) == 0
  {
  }

  /** No block is larger than the heap. */
  lemma BlockFits(h: Heap, b: Addr)
    requires Layout(h) && Live(h, b)
    ensures SizeOf(h.items, b, SH) <= h.size
  {
    var j := LiveIndex(h, b);
    assert j > 0 ==> Gap(h.items, 0, j, SH);
    assert j + 1 < |h.items| - 1 ==> Gap(h.items, j + 1, |h.items| - 1, SH);
  }

  /** The block rt_malloc returns holds the bytes asked for exactly when rounding the
      size up does not wrap. */
  lemma MallocHoldsIff(h: Heap, n: nat)
    requires Inv(h) && n < WORD && h.size + 2 * SH <= WORD && MallocTop(h, n).ptr != Null
    ensures var o := MallocTop(h, n); SizeOf(o.heap.items, o.ptr.block, SH) >= n <==> n + 3 < WORD
  {
    var o := MallocTop(h, n);
    MallocTopKeeps(h, n, 0);
    AlignHolds(n);
    BlockFits(o.heap, o.ptr.block);
    MallocSize(h, n);
  }

  lemma ResizeHolds(h: Heap, i: nat, m: nat)
    requires Inv(h) && i + 1 < |h.items| && IsUsed(h.used, h.items[i])
    requires Align(m) == m && ResizeSpec(h, i, m).ptr != Null
    ensures var o := ResizeSpec(h, i, m); m <= SizeOf(o.heap.items, o.ptr.block, SH) <= h.size
  {
    var o := ResizeSpec(h, i, m);
    ResizeReturns(h, i, m, 0);
    ResizeSize(h, i, m);
    BlockFits(o.heap, o.ptr.block);
  }

  /** So does the block rt_realloc returns. */
  lemma ReallocHoldsIff(h: Heap, a: Addr, n: nat)
    requires Inv(h) && Live(h, a) && n < WORD && h.size + 2 * SH <= WORD && ReallocTop(h, To(a), n).ptr != Null
    ensures var o := ReallocTop(h, To(a), n); SizeOf(o.heap.items, o.ptr.block, SH) >= n <==> n + 3 < WORD
  {
    AlignHolds(n);
    ReallocHolds(h, a, n);
  }

  lemma ReallocHolds(h: Heap, a: Addr, n: nat)
    requires Inv(h) && Live(h, a) && ReallocTop(h, To(a), n).ptr != Null
    ensures var o := ReallocTop(h, To(a), n); Align(n) <= SizeOf(o.heap.items, o.ptr.block, SH) <= h.size
  {
    var i := ReallocIs(h, a, n);
    AlignAgain(n);
    ResizeHolds(h, i, Align(n));
  }

  lemma AlignAgain(n: nat)
    ensures Align(Align(n)) == Align(n)
  {
  }

  lemma ReallocIs(h: Heap, a: Addr, n: nat) returns (i: nat)
    requires Inv(h) && Live(h, a) && Align(n) <= h.size
    ensures i + 1 < |h.items| && h.items[i] == a && IsUsed(h.used, a)
    ensures ReallocTop(h, To(a), n) == ResizeSpec(h, i, Align(n))
  {
    i := LiveIndex(h, a);
  }

  /** Some free block at or above lfree is usable for a request. */
  ghost predicate Room(h: Heap, req: int) {
    exists k :: 0 <= k < |h.items| - 1 && h.lfree <= h.items[k] && Usable(h, req, k)
  }

  /** The size rt_malloc looks for. */
  function Wanted(n: nat): nat {
    if Align(n) < LEAST then LEAST else Align(n)
  }

  /** rt_malloc is refused exactly for nothing, for more than the heap, and where no usable
      block has room; then nothing changes. */
  lemma MallocRefusedIff(h: Heap, n: nat)
    requires Inv(h)
    ensures var o := Step(h, Malloc(n));
      && (o.ptr == Null <==> n == 0 || Align(n) > h.size || !Room(h, Wanted(n)))
      && (o.ptr == Null ==> o.heap == h)
  {
    MallocFailsIff(h, Wanted(n));
  }

  /** rt_realloc of RT_NULL is rt_malloc, where rounding does not wrap; where it does, it
      is refused. */
  lemma ReallocNull(h: Heap, n: nat)
    requires Inv(h) && n < WORD
    ensures n + 3 < WORD ==> Step(h, Realloc(Null, n)) == Step(h, Malloc(n))
    ensures n + 3 >= WORD ==> Step(h, Realloc(Null, n)) == Outcome(h, Null)
  {
    AlignTwice(n);
    SameRequest(h, n, Align(n));
  }

  lemma AlignTwice(n: nat)
    requires n < WORD
    ensures n + 3 < WORD ==> Align(Align(n)) == Align(n) && (Align(n) == 0 <==> n == 0)
    ensures n + 3 >= WORD ==> Align(n) == 0
  {
  }

  lemma SameRequest(h: Heap, n: nat, m: nat)
    requires Inv(h)
    ensures Align(m) == Align(n) && (m == 0 <==> n == 0) ==> MallocTop(h, m) == MallocTop(h, n)
    ensures MallocTop(h, 0) == Outcome(h, Null)
  {
  }

  /** rt_realloc of a block is refused exactly for more than the heap and where it has to
      move and rt_malloc refuses; then nothing changes. */
  lemma ReallocRefusedIff(h: Heap, a: Addr, n: nat)
    requires Inv(h) && Live(h, a)
    ensures var o := Step(h, Realloc(To(a), n));
      && (o.ptr == Null <==> Align(n) > h.size || MustMove(h, a, Align(n)))
      && (o.ptr == Null ==> o.heap == h)
  {
    if Align(n) <= h.size {
      var i := ReallocIs(h, a, n);
      AlignAgain(n);
      ResizeFails(h, i, Align(n));
    }
  }

  /** Block a has to move for m bytes, and there is no place for it. */
  ghost predicate MustMove(h: Heap, a: Addr, m: nat)
    requires h.lfree in h.items
  {
    var cur := SizeOf(h.items, a, SH);
    cur != m && m + SH + LEAST >= cur && MallocTop(h, m).ptr == Null
  }

  /** A request for 2^32 - 1 bytes is met on a heap of 60. */
  lemma RoundedAway()
    ensures MallocTop(Fresh(60), WORD - 1).ptr != Null
  {
    var h := Fresh(60);
    FreshInv(60);
    assert MallocSpec(h, LEAST).ptr != Null by {
      MallocFailsLowest(h, LEAST);
      assert Usable(h, LEAST, 0);
    }
    AlignHolds(WORD - 1);
  }

  /** An exact fit of the whole heap is refused although its block is free. */
  lemma WholeHeapRefused(size: nat)
    requires size >= LEAST && Align(size) == size
    ensures MallocTop(Fresh(size), size).ptr == Null && SizeAt(Fresh(size).items, 0, SH) == size
  {
    FreshInv(size);
    MallocFailsLowest(Fresh(size), size);
  }

  /** The whole of a 60-byte heap, taken by a request for 44 bytes. */
  ghost function Full(): Heap {
    Heap(60, [0, 72], map[0 := true, 72 := true], 72, 72, 72, map[])
  }

  lemma FullTaken()
    ensures Taken(Fresh(60), 0, 56) == Full()
  {
    FullGrabbed();
    AdvanceFull(Full().(lfree := 0));
  }

  lemma AdvanceFull(g: Heap)
    requires g == Full().(lfree := 0)
    ensures Advance(g, 0) == Full()
  {
    FreeFromIs(g.items, g.used, 0);
    assert IsUsed(g.used, g.items[0]);
  }

  lemma FullGrabbed()
    ensures Grab(Fresh(60), 0, 56) == Full().(lfree := 0)
  {
    assert Fresh(60).used[0 := true] == Full().used;
  }

  lemma FullReached()
    ensures MallocTop(Fresh(60), 44) == Outcome(Full(), To(0))
  {
    var h := Fresh(60);
    FullTaken();
    assert Fits(h.items, h.used, 16, 44, 0);
    assert Fit(h.items, h.used, 16, 44, 0) == 0;
    assert MallocSpec(h, 44) == Outcome(Taken(h, 0, 56), To(0));
  }

  /** Shrinking that block to 12 bytes leaves 36 free bytes below lfree, and the
      next request for 12 bytes is refused. */
  lemma BuriedBlock()
    ensures var r := ReallocTop(Full(), To(0), 12).heap;
      r.items == [0, 24, 72] && !IsUsed(r.used, 24) && r.lfree == 72 && !Lowest(r) && MallocTop(r, 12).ptr == Null
  {
    var h := Full();
    assert h.items[0] == 0 && h.items[1] == 72 && SizeAt(h.items, 0, SH) == 60;
    var t := Shorn(h, 0, 24);
    assert t.items == [0, 24, 72];
    assert PlugHoles(t, 1) == t;
    assert ResizeSpec(h, 0, 12).heap == t;
    assert !FreeAbove(t, 1);
    assert t.items[2] == 72 && IndexOf(t.items, 72) == 2 by { assert t.items[1..][1..] == [72]; }
  }
}
