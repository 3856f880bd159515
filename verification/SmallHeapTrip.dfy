/** The round trip of rt_malloc and rt_free on the small heap. */
module SmallHeapTrip {
  import opened RtList
  import opened Tiling
  import opened SmallHeapSpec
  import opened SmallHeapOps

  // ----------------------------------------------------------------- round trip

  /** The same blocks in the same places with the same flags, lfree and used_mem. */
  ghost predicate SameLayout(h: Heap, r: Heap) {
    && r.items == h.items && r.lfree == h.lfree && r.usedMem == h.usedMem && r.size == h.size
    && (forall x :: x in h.items ==> IsUsed(r.used, x) == IsUsed(h.used, x))
  }

  lemma BeforeUsed(h: Heap, i: nat)
    requires Coalesced(h.items, h.used) && i + 1 < |h.items| && !IsUsed(h.used, h.items[i])
    ensures IsUsed(h.used, h.items[i + 1]) && (i > 0 ==> IsUsed(h.used, h.items[i - 1]))
  {
    assert PairOk(h.items, h.used, i);
    assert i > 0 ==> PairOk(h.items, h.used, i - 1);
  }

  /** lfree moves up from the block that was taken, and stays elsewhere. */
  lemma TakenLfree(h: Heap, i: nat, a: Addr)
    requires Inv(h) && i + 1 < |h.items| && !IsUsed(h.used, h.items[i]) && h.items[i] + SH <= a
    ensures if h.lfree == h.items[i] then Taken(h, i, a).lfree > h.items[i] else Taken(h, i, a).lfree == h.lfree
  {
    var g := Grab(h, i, a);
    GrabSound(h, i, a);
    GrabKeeps(h, i, a);
    var n := FreeFrom(g.items, g.used, i);
    FreeFromIs(g.items, g.used, i);
    assert n > i;
    assert Gap(g.items, i, n, SH);
  }

  lemma WholeTrip(h: Heap, i: nat, a: Addr)
    requires Inv(h) && i + 1 < |h.items| && !IsUsed(h.used, h.items[i]) && h.lfree <= h.items[i]
    requires h.items[i] + SH <= a && a + SH + LEAST > h.items[i + 1]
    ensures i + 1 < |Taken(h, i, a).items| && SameLayout(h, FreeSpec(Taken(h, i, a), i))
  {
    var r := Taken(h, i, a);
    BeforeUsed(h, i);
    TakenLfree(h, i, a);
    assert Gap(h.items, i, i + 1, SH);
    assert i > 0 ==> Gap(h.items, i - 1, i, SH);
    var t := Unmarked(r, i);
    assert PlugForward(t, i) == t;
    assert PlugBackward(t, i) == t;
  }

  lemma ChopFuse(items: seq<Addr>, i: nat, a: Addr)
    requires i + 1 < |items|
    ensures Dropped(Inserted(items, i + 1, a), i + 1) == items
  {
  }

  lemma SplitUndo(h: Heap, r: Heap, i: nat, a: Addr)
    requires i + 1 < |h.items| && a !in h.items && !IsUsed(h.used, h.items[i]) && h.lfree <= h.items[i] < a
    requires i > 0 ==> IsUsed(h.used, h.items[i - 1]) && h.items[i - 1] != h.items[i]
    requires r.items == Inserted(h.items, i + 1, a) && r.used == h.used[h.items[i] := true][a := false] &&
             r.size == h.size
    requires r.usedMem == h.usedMem + (a - h.items[i])
    requires if h.lfree == h.items[i] then r.lfree > h.items[i] else r.lfree == h.lfree
    ensures SameLayout(h, FreeSpec(r, i))
  {
    SplitForward(h, r, i, a);
    var f := PlugForward(Unmarked(r, i), i);
    assert i > 0 ==> h.items[i - 1] in h.items;
    assert PlugBackward(f, i) == f;
  }

  lemma SplitForward(h: Heap, r: Heap, i: nat, a: Addr)
    requires i + 1 < |h.items| && h.lfree <= h.items[i] < a && r.items == Inserted(h.items, i + 1, a) &&
             !IsUsed(r.used, a)
    requires if h.lfree == h.items[i] then r.lfree > h.items[i] else r.lfree == h.lfree
    ensures i + 1 < |r.items| && PlugForward(Unmarked(r, i), i) ==
      r.(items := h.items, used := r.used[h.items[i] := false], lfree := h.lfree,
        usedMem := r.usedMem - (a - h.items[i]))
  {
    InsertedAt(h.items, i + 1, a, i);
    InsertedAt(h.items, i + 1, a, i + 1);
    ChopFuse(h.items, i, a);
  }

  lemma SplitTrip(h: Heap, i: nat, a: Addr)
    requires Inv(h) && i + 1 < |h.items| && !IsUsed(h.used, h.items[i]) && h.lfree <= h.items[i]
    requires h.items[i] + SH <= a && a + SH + LEAST <= h.items[i + 1]
    ensures i + 1 < |Taken(h, i, a).items| && SameLayout(h, FreeSpec(Taken(h, i, a), i))
  {
    BeforeUsed(h, i);
    TakenLfree(h, i, a);
    assert a !in h.items by { CutLayout(h, i, a); }
    assert i > 0 ==> Gap(h.items, i - 1, i, SH);
    SplitUndo(h, Taken(h, i, a), i, a);
  }

  /** Freeing the block rt_malloc just returned restores the layout, lfree and
      used_mem, whether or not the block was split. */
  lemma MallocFree(h: Heap, req: nat)
    requires Inv(h) && MallocSpec(h, req).ptr != Null
    ensures var (r, b) := (MallocSpec(h, req).heap, MallocSpec(h, req).ptr.block);
      b in r.items && IndexOf(r.items, b) + 1 < |r.items| && SameLayout(h, FreeSpec(r, IndexOf(r.items, b)))
  {
    var l := IndexOf(h.items, h.lfree);
    var i := Fit(h.items, h.used, h.size - req, req, l);
    FitFits(h.items, h.used, h.size - req, req, l);
    assert l < i ==> Gap(h.items, l, i, SH);
    MallocInv(h, req);
    var a := Stop(h.items, i, req);
    GrabIndex(h, i, a);
    if a + SH + LEAST <= h.items[i + 1] {
      SplitTrip(h, i, a);
    } else {
      WholeTrip(h, i, a);
    }
  }

  lemma GrabIndex(h: Heap, i: nat, a: Addr)
    requires Inv(h) && i + 1 < |h.items| && !IsUsed(h.used, h.items[i]) && h.items[i] + SH <= a
    ensures var r := Taken(h, i, a);
      i + 1 < |r.items| && r.items[i] == h.items[i] && h.items[i] in r.items && IndexOf(r.items, h.items[i]) == i
  {
    GrabSound(h, i, a);
    GrabKeeps(h, i, a);
    TiledIndex(Taken(h, i, a).items, i, SH);
  }
}
