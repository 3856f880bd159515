/** max_mem of the small heap is its high-water mark. */
module SmallHeapMark {
  import opened Tiling
  import opened SmallHeapSpec
  import opened SmallHeapOps
  import opened SmallHeapFrame
  import opened SmallHeapRealloc
  import opened SmallHeapRuns

  function Top(a: int, b: int): int { if a < b then b else a }

  ghost predicate Moves(h: Heap, i: nat, n: nat) {
    i + 1 < |h.items| && SizeAt(h.items, i, SH) != n && n + SH + LEAST >= SizeAt(h.items, i, SH)
  }

  /** used_mem at the fullest point of one operation: a reallocation that moves owns both
      blocks for a while. */
  ghost function Crest(h: Heap, op: Op): int
    requires h.lfree in h.items
  {
    match op
    case Realloc(p, n) =>
      if p != Null && Align(n) <= h.size && p.block in h.items && Moves(h, IndexOf(h.items, p.block), Align(n))
      then MallocTop(h, Align(n)).heap.usedMem else Step(h, op).heap.usedMem
    case _ => Step(h, op).heap.usedMem
  }

  lemma PlugMark(h: Heap, i: nat)
    ensures PlugHoles(h, i).maxMem == h.maxMem
  {
  }

  lemma TakenMark(h: Heap, i: nat, a: Addr)
    requires i + 1 < |h.items|
    ensures Taken(h, i, a).maxMem == Top(h.maxMem, Taken(h, i, a).usedMem)
  {
  }

  lemma MallocMark(h: Heap, n: nat)
    requires Inv(h)
    ensures var o := MallocTop(h, n); o.heap.maxMem == Top(h.maxMem, o.heap.usedMem)
  {
    if n != 0 && Align(n) <= h.size {
      FitMark(h, if Align(n) < LEAST then LEAST else Align(n));
    }
  }

  lemma FitMark(h: Heap, req: nat)
    requires Inv(h)
    ensures var o := MallocSpec(h, req); o.heap.maxMem == Top(h.maxMem, o.heap.usedMem)
  {
    var i := Fit(h.items, h.used, h.size - req, req, IndexOf(h.items, h.lfree));
    if i < |h.items| {
      TakenMark(h, i, Stop(h.items, i, req));
    }
  }

  lemma MoveMark(h: Heap, i: nat, n: nat)
    requires i + 1 < |h.items| && h.lfree in h.items
    ensures MoveSpec(h, i, n).heap.maxMem == MallocTop(h, n).heap.maxMem
  {
    var o, a := MallocTop(h, n), h.items[i];
    if o.ptr != Null && a in o.heap.items && IndexOf(o.heap.items, a) + 1 < |o.heap.items| {
      var t, j := Transfer(o.heap, a, o.ptr.block, Least(n, SizeAt(h.items, i, SH))), IndexOf(o.heap.items, a);
      PlugMark(Unmarked(t, j), j);
    }
  }

  lemma ResizeMark(h: Heap, i: nat, n: nat)
    requires Inv(h) && i + 1 < |h.items|
    ensures var r := ResizeSpec(h, i, n).heap;
      if Moves(h, i, n) then r.maxMem == Top(h.maxMem, MallocTop(h, n).heap.usedMem) else r.maxMem == h.maxMem
  {
    if Moves(h, i, n) {
      MoveMark(h, i, n);
      MallocMark(h, n);
    } else if SizeAt(h.items, i, SH) != n {
      PlugMark(Shorn(h, i, Stop(h.items, i, n)), i + 1);
    }
  }

  lemma FreeMark(h: Heap, a: Addr)
    requires Inv(h) && Live(h, a)
    ensures FreeAt(h, a).maxMem == h.maxMem
  {
    var i := LiveIndex(h, a);
    PlugMark(Unmarked(h, i), i);
  }

  lemma ReallocMark(h: Heap, p: Ptr, n: nat)
    requires Inv(h) && Owned(h, p)
    ensures ReallocTop(h, p, n).heap.maxMem == Top(h.maxMem, Crest(h, Realloc(p, n)))
  {
    ReallocKeeps(h, p, n, 0);
    if Align(n) <= h.size {
      if p == Null {
        MallocMark(h, Align(n));
      } else {
        var i := ReallocIs(h, p.block, n);
        assert i == IndexOf(h.items, p.block) by { TiledIndex(h.items, i, SH); }
        ResizeMark(h, i, Align(n));
      }
    }
  }

  lemma StepMark(h: Heap, op: Op)
    requires Inv(h) && Legal(h, op)
    ensures Step(h, op).heap.maxMem == Top(h.maxMem, Crest(h, op))
  {
    match op
    case Malloc(n) => MallocMark(h, n);
    case Free(p) =>
      StepKeeps(h, op, 0);
      if p != Null {
        FreeMark(h, p.block);
      }
    case Realloc(p, n) => ReallocMark(h, p, n);
    case Store(b, x, v) =>
  }

  /** The largest used_mem over every moment of a run. */
  ghost function HighWater(h: Heap, ops: seq<Op>): int
    requires Inv(h) && AllLegal(h, ops)
    decreases |ops|
  {
    if ops == [] then h.usedMem
    else
      StepKeeps(h, ops[0], 0);
      Top(h.usedMem, Top(Crest(h, ops[0]), HighWater(Step(h, ops[0]).heap, ops[1..])))
  }

  /** max_mem is exactly the high-water mark of used_mem. */
  lemma {:induction false} RunMark(h: Heap, ops: seq<Op>)
    requires Inv(h) && AllLegal(h, ops)
    ensures Run(h, ops).maxMem == Top(h.maxMem, HighWater(h, ops))
    decreases |ops|
  {
    if ops != [] {
      StepKeeps(h, ops[0], 0);
      StepMark(h, ops[0]);
      RunMark(Step(h, ops[0]).heap, ops[1..]);
    }
  }
}
