/** Which blocks of the small heap are live: exactly those that were handed out and not
    given back. */
module SmallHeapLives {
  import opened RtList
  import opened Tiling
  import opened SmallHeapSpec
  import opened SmallHeapOps
  import opened SmallHeapShrink
  import opened SmallHeapFrame
  import opened SmallHeapRealloc
  import opened SmallHeapTrip
  import opened SmallHeapRuns

  ghost function Lives(h: Heap): set<Addr> {
    set a | a in h.items && Live(h, a)
  }

  // -------------------------------------------------------------- edit by edit

  lemma ChopLives(h: Heap, i: nat, a: Addr)
    requires i + 1 < |h.items| && a !in h.items
    ensures Lives(Chop(h, i, a)) == Lives(h)
  {
    InsertedIn(h.items, i + 1, a);
  }

  lemma FuseLives(h: Heap, i: nat)
    requires Layout(h) && i + 2 < |h.items| && !IsUsed(h.used, h.items[i + 1])
    ensures Lives(Fuse(h, i)) == Lives(h)
  {
    TiledDistinct(h.items, SH);
    DroppedIn(h.items, i + 1);
  }

  lemma PlugLives(h: Heap, i: nat)
    requires Layout(h) && i + 1 < |h.items| && !IsUsed(h.used, h.items[i])
    ensures Lives(PlugHoles(h, i)) == Lives(h)
  {
    var m := PlugForward(h, i);
    if i + 2 < |h.items| && !IsUsed(h.used, h.items[i + 1]) {
      FuseLives(h, i);
      FuseLayout(h, i);
      DroppedAt(h.items, i + 1, i);
    }
    if 0 < i < |m.items| - 1 && !IsUsed(m.used, m.items[i - 1]) {
      FuseLives(m, i - 1);
    }
  }

  lemma SameLives(h: Heap, r: Heap)
    requires r.items == h.items && r.used == h.used && r.size == h.size
    ensures Lives(r) == Lives(h)
  {
  }

  // ---------------------------------------------------------------- operations

  lemma GrabLives(h: Heap, i: nat, a: Addr)
    requires Inv(h) && i + 1 < |h.items| && !IsUsed(h.used, h.items[i]) && h.items[i] + SH <= a
    ensures Lives(Taken(h, i, a)) == Lives(h) + {h.items[i]}
  {
    var t := h.(used := h.used[h.items[i] := true]);
    assert a + SH + LEAST <= h.items[i + 1] ==> a !in h.items by { GrabSound(h, i, a); }
    MarkLives(h, i);
    if a + SH + LEAST <= h.items[i + 1] {
      ChopLives(t, i, a);
      SameLives(Chop(t, i, a), Taken(h, i, a));
    } else {
      SameLives(t, Taken(h, i, a));
    }
  }

  lemma MarkLives(h: Heap, i: nat)
    requires Layout(h) && i + 1 < |h.items| && !IsUsed(h.used, h.items[i])
    ensures Lives(h.(used := h.used[h.items[i] := true])) == Lives(h) + {h.items[i]}
  {
    var t := h.(used := h.used[h.items[i] := true]);
    assert h.items[i] in h.items && h.items[i] != End(h);
    forall b ensures b in Lives(t) <==> b in Lives(h) + {h.items[i]} {
    }
  }

  lemma MallocLives(h: Heap, n: nat)
    requires Inv(h)
    ensures var o := MallocTop(h, n); Lives(o.heap) == if o.ptr == Null then Lives(h) else Lives(h) + {o.ptr.block}
  {
    if n != 0 && Align(n) <= h.size {
      FitLives(h, if Align(n) < LEAST then LEAST else Align(n));
    }
  }

  lemma FitLives(h: Heap, req: nat)
    requires Inv(h)
    ensures var o := MallocSpec(h, req); Lives(o.heap) == if o.ptr == Null then Lives(h) else Lives(h) + {o.ptr.block}
  {
    var l := IndexOf(h.items, h.lfree);
    var i := Fit(h.items, h.used, h.size - req, req, l);
    FitFits(h.items, h.used, h.size - req, req, l);
    if i < |h.items| {
      GrabLives(h, i, Stop(h.items, i, req));
    }
  }

  lemma FreeLives(h: Heap, i: nat)
    requires Inv(h) && i + 1 < |h.items| && IsUsed(h.used, h.items[i])
    ensures Lives(FreeSpec(h, i)) == Lives(h) - {h.items[i]}
  {
    var t := Unmarked(h, i);
    UnmarkedKeeps(h, i);
    forall b ensures b in Lives(t) <==> b in Lives(h) - {h.items[i]} {
    }
    PlugLives(t, i);
  }

  lemma ShrinkLives(h: Heap, i: nat, a: Addr)
    requires Inv(h) && i + 1 < |h.items| && IsUsed(h.used, h.items[i])
    requires h.items[i] + SH <= a && a + SH <= h.items[i + 1]
    ensures Lives(ShrinkSpec(h, i, a)) == Lives(h)
  {
    var t := Shorn(h, i, a);
    ShornKeeps(h, i, a);
    assert Lives(t) == Lives(h) by { ShornLives(h, i, a); }
    PlugLives(t, i + 1);
  }

  lemma ShornLives(h: Heap, i: nat, a: Addr)
    requires i + 1 < |h.items| && a !in h.items
    ensures Lives(Shorn(h, i, a)) == Lives(h)
  {
    var m := h.(usedMem := h.usedMem - (h.items[i + 1] - a));
    SameLives(h, m);
    ChopLives(m, i, a);
  }

  /** What a reallocation that returns p makes of the live blocks. */
  ghost predicate Replaced(h: Heap, r: Heap, a: Addr, p: Ptr) {
    Lives(r) == if p == Null then Lives(h) else Lives(h) - {a} + {p.block}
  }

  lemma MoveLives(h: Heap, i: nat, n: nat)
    requires Inv(h) && i + 1 < |h.items| && IsUsed(h.used, h.items[i])
    ensures Replaced(h, MoveSpec(h, i, n).heap, h.items[i], MoveSpec(h, i, n).ptr)
  {
    var o, a := MallocTop(h, n), h.items[i];
    IndexLive(h, i);
    MallocLives(h, n);
    MallocTopKeeps(h, n, a);
    if o.ptr != Null {
      var j := LiveIndex(o.heap, a);
      MovedLives(h, o.heap, a, o.ptr.block, Least(n, SizeAt(h.items, i, SH)), j);
    }
  }

  lemma MovedLives(h: Heap, m: Heap, a: Addr, c: Addr, k: int, j: nat)
    requires Inv(m) && Lives(m) == Lives(h) + {c} && a != c && j + 1 < |m.items| && m.items[j] == a && IsUsed(m.used, a)
    ensures Lives(FreeSpec(Transfer(m, a, c, k), j)) == Lives(h) - {a} + {c}
  {
    var d := Transfer(m, a, c, k);
    TransferInv(m, a, c, k);
    SameLives(m, d);
    FreeLives(d, j);
  }

  lemma ResizeLives(h: Heap, i: nat, n: nat)
    requires Inv(h) && i + 1 < |h.items| && IsUsed(h.used, h.items[i])
    ensures Replaced(h, ResizeSpec(h, i, n).heap, h.items[i], ResizeSpec(h, i, n).ptr)
  {
    var cur := SizeAt(h.items, i, SH);
    IndexLive(h, i);
    assert h.items[i] in Lives(h);
    if cur != n {
      if n + SH + LEAST < cur {
        ShrinkLives(h, i, Stop(h.items, i, n));
      } else {
        MoveLives(h, i, n);
      }
    }
  }

  // ------------------------------------------------------------ what is freed

  /** Bytes lo to hi lie in the unused block j. */
  ghost predicate Within(r: Heap, j: nat, lo: Addr, hi: Addr) {
    j + 1 < |r.items| && !IsUsed(r.used, r.items[j]) && r.items[j] <= lo && hi <= r.items[j + 1]
  }

  ghost predicate Swallowed(r: Heap, lo: Addr, hi: Addr) {
    exists j: nat :: Within(r, j, lo, hi)
  }

  lemma ForwardWithin(h: Heap, i: nat, lo: Addr, hi: Addr)
    requires Layout(h) && Within(h, i, lo, hi)
    ensures Within(PlugForward(h, i), i, lo, hi)
  {
    if i + 2 < |h.items| && !IsUsed(h.used, h.items[i + 1]) {
      DroppedAt(h.items, i + 1, i);
      DroppedAt(h.items, i + 1, i + 1);
      assert Gap(h.items, i + 1, i + 2, SH);
    }
  }

  lemma BackwardWithin(h: Heap, i: nat, lo: Addr, hi: Addr)
    requires Layout(h) && Within(h, i, lo, hi)
    ensures Swallowed(PlugBackward(h, i), lo, hi)
  {
    if 0 < i < |h.items| - 1 && !IsUsed(h.used, h.items[i - 1]) {
      DroppedAt(h.items, i, i - 1);
      DroppedAt(h.items, i, i);
      assert Gap(h.items, i - 1, i, SH);
      assert Within(PlugBackward(h, i), i - 1, lo, hi);
    } else {
      assert Within(PlugBackward(h, i), i, lo, hi);
    }
  }

  /** The freed block, header included, lies in one unused block. */
  lemma FreedWithin(h: Heap, i: nat)
    requires Inv(h) && i + 1 < |h.items| && IsUsed(h.used, h.items[i])
    ensures Swallowed(FreeSpec(h, i), h.items[i], h.items[i + 1])
  {
    var t := Unmarked(h, i);
    UnmarkedKeeps(h, i);
    ForwardWithin(t, i, h.items[i], h.items[i + 1]);
    if i + 2 < |t.items| && !IsUsed(t.used, t.items[i + 1]) {
      FuseLayout(t, i);
    }
    BackwardWithin(PlugForward(t, i), i, h.items[i], h.items[i + 1]);
  }

  /** rt_free as the caller sees it: exactly the block handed in stops being live, and all
      of it lies in one free block. */
  lemma FreeReturns(h: Heap, a: Addr)
    requires Inv(h) && Live(h, a)
    ensures var o := Step(h, Free(To(a)));
      o.ptr == Null && Lives(o.heap) == Lives(h) - {a} && Swallowed(o.heap, a, a + SH + SizeOf(h.items, a, SH))
  {
    var i := LiveIndex(h, a);
    FreeLives(h, i);
    FreedWithin(h, i);
    assert Step(h, Free(To(a))).heap == FreeSpec(h, i);
  }

  /** Freeing the block just returned restores blocks, flags, lfree and used_mem. */
  lemma MallocThenFree(h: Heap, n: nat)
    requires Inv(h) && MallocTop(h, n).ptr != Null
    ensures MallocTop(h, n).heap.lfree in MallocTop(h, n).heap.items
    ensures var o := Step(h, Malloc(n)); SameLayout(h, Step(o.heap, Free(o.ptr)).heap)
  {
    MallocTopKeeps(h, n, 0);
    MallocFree(h, if Align(n) < LEAST then LEAST else Align(n));
  }

  // ------------------------------------------------------ no larger than needed

  /** The block of rt_malloc is the request, or a whole block that is too small to be cut. */
  lemma TakenTight(h: Heap, i: nat, a: Addr)
    requires Inv(h) && i + 1 < |h.items| && !IsUsed(h.used, h.items[i]) && h.items[i] + SH <= a
    ensures var n := a - h.items[i] - SH;
      SizeOf(Taken(h, i, a).items, h.items[i], SH) ==
      if SizeAt(h.items, i, SH) >= n + SH + LEAST then n else SizeAt(h.items, i, SH)
  {
    var t := h.(used := h.used[h.items[i] := true]);
    if a + SH + LEAST <= h.items[i + 1] {
      CutSize(h.items, i, a);
      assert Taken(h, i, a).items == Inserted(h.items, i + 1, a);
    } else {
      TiledIndex(h.items, i, SH);
      assert Taken(h, i, a).items == h.items;
    }
  }

  lemma CutSize(items: seq<Addr>, i: nat, a: Addr)
    requires Tiled(items, SH) && i + 1 < |items| && items[i] + SH <= a && a + SH <= items[i + 1]
    ensures SizeOf(Inserted(items, i + 1, a), items[i], SH) == a - items[i] - SH
  {
    var r := Inserted(items, i + 1, a);
    TiledInsert(items, i, a, SH);
    InsertedAround(items, i, a);
    TiledIndex(r, i, SH);
    assert r[i] in r;
  }

  lemma MallocTight(h: Heap, req: nat)
    requires Inv(h) && MallocSpec(h, req).ptr != Null
    ensures var o := MallocSpec(h, req);
      var n := SizeOf(o.heap.items, o.ptr.block, SH);
      req <= n && (n == req || n < req + SH + LEAST)
  {
    var l := IndexOf(h.items, h.lfree);
    var i := Fit(h.items, h.used, h.size - req, req, l);
    FitFits(h.items, h.used, h.size - req, req, l);
    TakenTight(h, i, Stop(h.items, i, req));
  }

  /** A block that rt_realloc cuts down in place has exactly the new size. */
  lemma ShrinkTight(h: Heap, i: nat, a: Addr)
    requires Inv(h) && i + 1 < |h.items| && IsUsed(h.used, h.items[i])
    requires h.items[i] + SH <= a && a + SH <= h.items[i + 1]
    ensures SizeOf(ShrinkSpec(h, i, a).items, h.items[i], SH) == a - h.items[i] - SH
  {
    var t, c := Shorn(h, i, a), h.items[i];
    ShornKeeps(h, i, a);
    IndexLive(t, i);
    PlugKept(t, i + 1, c);
    CutSize(h.items, i, a);
  }

  // ---------------------------------------------------------------- whole runs

  function Added(held: set<Addr>, p: Ptr): set<Addr> {
    if p == Null then held else held + {p.block}
  }

  function Released(held: set<Addr>, p: Ptr): set<Addr> {
    if p == Null then held else held - {p.block}
  }

  /** The live blocks after an operation that returns p, told by the pointers alone. */
  function After(held: set<Addr>, op: Op, p: Ptr): set<Addr> {
    match op
    case Malloc(n) => Added(held, p)
    case Free(q) => Released(held, q)
    case Realloc(q, n) => if p == Null then held else Added(Released(held, q), p)
    case Store(b, x, v) => held
  }

  /** Every operation makes live exactly the block it returns, and frees exactly the
      block it takes back. */
  lemma StepLives(h: Heap, op: Op)
    requires Inv(h) && Legal(h, op)
    ensures Lives(Step(h, op).heap) == After(Lives(h), op, Step(h, op).ptr)
  {
    match op
    case Malloc(n) => MallocLives(h, n);
    case Free(p) => FreePtrLives(h, p);
    case Realloc(p, n) => ReallocLives(h, p, n);
    case Store(b, x, v) => SameLives(h, Step(h, op).heap);
  }

  lemma FreePtrLives(h: Heap, p: Ptr)
    requires Inv(h) && Owned(h, p)
    ensures Lives(Step(h, Free(p)).heap) == Released(Lives(h), p)
  {
    if p != Null {
      FreeReturns(h, p.block);
    }
  }

  lemma ReallocLives(h: Heap, p: Ptr, n: nat)
    requires Inv(h) && Owned(h, p)
    ensures var o := ReallocTop(h, p, n); Lives(o.heap) == After(Lives(h), Realloc(p, n), o.ptr)
  {
    if Align(n) <= h.size {
      if p == Null {
        MallocLives(h, Align(n));
      } else {
        var i := ReallocIs(h, p.block, n);
        ResizeLives(h, i, Align(n));
      }
    }
  }

  /** The blocks handed out and not given back along a run. */
  ghost function Held(h: Heap, ops: seq<Op>, held: set<Addr>): set<Addr>
    requires Inv(h) && AllLegal(h, ops)
    decreases |ops|
  {
    if ops == [] then held
    else
      StepKeeps(h, ops[0], 0);
      Held(Step(h, ops[0]).heap, ops[1..], After(held, ops[0], Step(h, ops[0]).ptr))
  }

  /** After every run exactly these are live. */
  lemma {:induction false} RunLives(h: Heap, ops: seq<Op>)
    requires Inv(h) && AllLegal(h, ops)
    ensures Lives(Run(h, ops)) == Held(h, ops, Lives(h))
    decreases |ops|
  {
    if ops != [] {
      StepKeeps(h, ops[0], 0);
      StepLives(h, ops[0]);
      RunLives(Step(h, ops[0]).heap, ops[1..]);
    }
  }
}
