/** What every rt_malloc, rt_free and rt_realloc keeps of the small heap. */
module SmallHeapOps {
  import opened RtList
  import opened Tiling
  import opened SmallHeapSpec

  // --------------------------------------------------------------------- malloc

  ghost predicate Sound(h: Heap) {
    Layout(h) && Coalesced(h.items, h.used) && h.usedMem == UsedSum(h.items, h.used) && h.usedMem <= h.maxMem
  }

  /** Block i is in use afterwards and the blocks up to it have not moved. */
  ghost predicate Grabbed(h: Heap, g: Heap, i: nat) {
    && i + 1 < |h.items| && i + 1 < |g.items| && g.size == h.size && g.lfree == h.lfree
    && (forall j :: 0 <= j <= i ==> g.items[j] == h.items[j])
    && (forall x :: x in h.items ==> x in g.items)
    && IsUsed(g.used, h.items[i])
    && (forall x :: x in h.items && x != h.items[i] ==> IsUsed(g.used, x) == IsUsed(h.used, x))
    && (forall x :: x in g.items ==> x in h.items || x > h.items[i])
  }

  lemma GrabWhole(h: Heap, i: nat, t: Heap)
    requires Sound(h) && i + 1 < |h.items| && !IsUsed(h.used, h.items[i]) && t == h.(used := h.used[h.items[i] := true])
    ensures Layout(t) && Coalesced(t.items, t.used) && UsedSum(t.items, t.used) == h.usedMem + SizeAt(h.items, i, 0)
  {
    FlagSum(h.items, h.used, i, true);
    UseCoalesced(h.items, h.used, h.items[i]);
  }

  lemma GrabCut(h: Heap, i: nat, t: Heap, a: Addr)
    requires Layout(t) && Coalesced(t.items, t.used) && i + 1 < |t.items| && IsUsed(t.used, t.items[i]) &&
             IsUsed(t.used, t.items[i + 1])
    requires t.items[i] + SH <= a && a + SH <= t.items[i + 1]
    ensures var r := Chop(t, i, a);
      Layout(r) && Coalesced(r.items, r.used) && UsedSum(r.items, r.used) ==
        UsedSum(t.items, t.used) - (t.items[i + 1] - a)
  {
    CutLayout(t, i, a);
    InsertPair(t.items, t.used, i, a);
    CutSum(t.items, t.used, i, a);
  }

  lemma CutGrabbed(h: Heap, i: nat, t: Heap, a: Addr)
    requires i + 1 < |h.items| && t == h.(used := h.used[h.items[i] := true]) && a !in h.items && a > h.items[i]
    ensures Grabbed(h, Chop(t, i, a), i)
  {
    InsertedIn(h.items, i + 1, a);
    assert h.items[i] in h.items;
    forall j | 0 <= j <= i ensures Inserted(h.items, i + 1, a)[j] == h.items[j] {
      InsertedAt(h.items, i + 1, a, j);
    }
  }

  lemma MarkSound(r: Heap, more: int)
    requires Layout(r) && Coalesced(r.items, r.used) && UsedSum(r.items, r.used) == r.usedMem + more
    ensures Sound(Mark(r, more))
  {
  }

  lemma WholeGrabbed(h: Heap, i: nat, t: Heap)
    requires i + 1 < |h.items| && t == h.(used := h.used[h.items[i] := true])
    ensures Grabbed(h, t, i)
  {
  }

  lemma MarkGrabbed(h: Heap, r: Heap, more: int, i: nat)
    requires Grabbed(h, r, i)
    ensures Grabbed(h, Mark(r, more), i)
  {
  }

  lemma GrabSplit(h: Heap, i: nat, t: Heap, a: Addr)
    requires Sound(h) && i + 1 < |h.items| && !IsUsed(h.used, h.items[i]) && t == h.(used := h.used[h.items[i] := true])
    requires h.items[i] + SH <= a && a + SH <= h.items[i + 1]
    ensures Sound(Mark(Chop(t, i, a), a - h.items[i])) && a !in h.items
  {
    GrabWhole(h, i, t);
    NextUsed(h.items, h.used, i);
    GrabCut(h, i, t, a);
    assert a !in h.items by { CutLayout(t, i, a); }
    MarkSound(Chop(t, i, a), a - h.items[i]);
  }

  lemma GrabSound(h: Heap, i: nat, a: Addr)
    requires Sound(h) && i + 1 < |h.items| && !IsUsed(h.used, h.items[i]) && h.items[i] + SH <= a
    ensures Sound(Grab(h, i, a)) && (a + SH + LEAST <= h.items[i + 1] ==> a !in h.items)
  {
    var t := h.(used := h.used[h.items[i] := true]);
    if a + SH + LEAST <= h.items[i + 1] {
      GrabSplit(h, i, t, a);
    } else {
      GrabWhole(h, i, t);
      MarkSound(t, h.items[i + 1] - h.items[i]);
    }
  }

  lemma GrabKeeps(h: Heap, i: nat, a: Addr)
    requires i + 1 < |h.items| && h.items[i] < a && (a + SH + LEAST <= h.items[i + 1] ==> a !in h.items)
    ensures Grabbed(h, Grab(h, i, a), i)
  {
    var t := h.(used := h.used[h.items[i] := true]);
    if a + SH + LEAST <= h.items[i + 1] {
      CutGrabbed(h, i, t, a);
      MarkGrabbed(h, Chop(t, i, a), a - h.items[i], i);
    } else {
      WholeGrabbed(h, i, t);
      MarkGrabbed(h, t, h.items[i + 1] - h.items[i], i);
    }
  }

  lemma AdvanceKeeps(h: Heap, g: Heap, i: nat)
    requires Inv(h) && Sound(g) && Grabbed(h, g, i) && !IsUsed(h.used, h.items[i])
    ensures Inv(Advance(g, i))
    ensures Lowest(h) ==> Lowest(Advance(g, i))
  {
    var r := Advance(g, i);
    assert g.items[i] in g.items;
    FreeFromIs(g.items, g.used, i);
    if g.lfree == g.items[i] {
      assert g.items[FreeFrom(g.items, g.used, i)] in g.items;
    }
    if Lowest(h) {
      forall j | 0 <= j < |r.items| ensures FreeAbove(r, j) {
        AdvanceLow(h, g, i, j);
      }
    }
  }

  lemma AdvanceLow(h: Heap, g: Heap, i: nat, j: nat)
    requires Inv(h) && Sound(g) && Grabbed(h, g, i) && !IsUsed(h.used, h.items[i]) && Lowest(h) && j < |g.items|
    ensures FreeAbove(Advance(g, i), j)
  {
    var x := g.items[j];
    assert x in g.items;
    if !IsUsed(g.used, x) {
      if x in h.items {
        var k := IndexOf(h.items, x);
        assert FreeAbove(h, k);
      } else {
        assert FreeAbove(h, i);
      }
      if g.lfree == g.items[i] {
        var n := FreeFrom(g.items, g.used, i);
        FreeFromIs(g.items, g.used, i);
        assert j < i ==> Gap(g.items, j, i, SH);
        assert j > n ==> Gap(g.items, n, j, SH);
      }
    }
  }

  lemma {:induction false} FitIs(items: seq<Addr>, u: map<Addr, bool>, limit: int, req: int, i: nat, k: nat)
    requires Tiled(items, SH) && i <= k && k + 1 < |items| && k < Fit(items, u, limit, req, i)
    ensures !Fits(items, u, limit, req, k)
    decreases |items| - i
  {
    if items[i] >= limit {
      assert i < k ==> Gap(items, i, k, SH);
    } else if i < k {
      FitIs(items, u, limit, req, i + 1, k);
    }
  }

  lemma TakenInv(h: Heap, i: nat, a: Addr)
    requires Inv(h) && i + 1 < |h.items| && !IsUsed(h.used, h.items[i]) && h.items[i] + SH <= a
    ensures Inv(Taken(h, i, a)) && (Lowest(h) ==> Lowest(Taken(h, i, a)))
  {
    GrabSound(h, i, a);
    GrabKeeps(h, i, a);
    AdvanceKeeps(h, Grab(h, i, a), i);
  }

  lemma {:induction false} FitFits(items: seq<Addr>, u: map<Addr, bool>, limit: int, req: int, i: nat)
    ensures var j := Fit(items, u, limit, req, i); j < |items| ==> Fits(items, u, limit, req, j)
    decreases |items| - i
  {
    if i + 1 < |items| && items[i] < limit {
      FitFits(items, u, limit, req, i + 1);
    }
  }

  lemma MallocInv(h: Heap, req: nat)
    requires Inv(h)
    ensures Inv(MallocSpec(h, req).heap)
  {
    var i := Fit(h.items, h.used, h.size - req, req, IndexOf(h.items, h.lfree));
    FitFits(h.items, h.used, h.size - req, req, IndexOf(h.items, h.lfree));
    if i < |h.items| {
      var r := Taken(h, i, Stop(h.items, i, req));
      assert Inv(r) by { TakenInv(h, i, Stop(h.items, i, req)); }
      assert MallocSpec(h, req).heap == r;
    }
  }

  lemma MallocLowest(h: Heap, req: nat)
    requires Inv(h) && Lowest(h)
    ensures Lowest(MallocSpec(h, req).heap)
  {
    var i := Fit(h.items, h.used, h.size - req, req, IndexOf(h.items, h.lfree));
    FitFits(h.items, h.used, h.size - req, req, IndexOf(h.items, h.lfree));
    if i < |h.items| {
      TakenInv(h, i, Stop(h.items, i, req));
    }
  }

  /** A free block too far up for the search limit is the last block, and fits exactly. */
  lemma PastLimit(h: Heap, req: int, k: nat)
    requires Layout(h) && k + 1 < |h.items| && SizeAt(h.items, k, SH) >= req && h.items[k] >= h.size - req
    ensures k + 2 == |h.items| && SizeAt(h.items, k, SH) == req
  {
    assert k + 2 < |h.items| ==> Gap(h.items, k + 1, |h.items| - 1, SH);
  }

  /** The k-th block is free and large enough, and not an exact fit at the very end. */
  ghost predicate Usable(h: Heap, req: int, k: nat)
    requires k + 1 < |h.items|
  {
    !IsUsed(h.used, h.items[k]) && SizeAt(h.items, k, SH) >= req &&
      !(k + 2 == |h.items| && SizeAt(h.items, k, SH) == req)
  }

  /** rt_malloc fails exactly when no usable block lies at or above lfree, and
      then changes nothing. */
  lemma MallocFailsIff(h: Heap, req: int)
    requires Inv(h)
    ensures MallocSpec(h, req).ptr == Null <==> forall k :: 0 <= k < |h.items| - 1 ==>
            !(h.lfree <= h.items[k] && Usable(h, req, k))
    ensures MallocSpec(h, req).ptr == Null ==> MallocSpec(h, req).heap == h
  {
    var l := IndexOf(h.items, h.lfree);
    var limit := h.size - req;
    var i := Fit(h.items, h.used, limit, req, l);
    FitFits(h.items, h.used, limit, req, l);
    if i < |h.items| {
      assert l < i ==> Gap(h.items, l, i, SH);
      assert h.lfree <= h.items[i] && Usable(h, req, i);
    } else {
      forall k | 0 <= k < |h.items| - 1 ensures !(h.lfree <= h.items[k] && Usable(h, req, k)) {
        if l <= k {
          FitIs(h.items, h.used, limit, req, l, k);
          if SizeAt(h.items, k, SH) >= req && h.items[k] >= limit {
            PastLimit(h, req, k);
          }
        } else {
          assert Gap(h.items, k, l, SH);
        }
      }
    }
  }

  /** With lfree at the lowest free block, rt_malloc fails exactly when there is
      no usable block at all. */
  lemma MallocFailsLowest(h: Heap, req: int)
    requires Inv(h) && Lowest(h)
    ensures MallocSpec(h, req).ptr == Null <==> forall k :: 0 <= k < |h.items| - 1 ==> !Usable(h, req, k)
  {
    MallocFailsIff(h, req);
    forall k | 0 <= k < |h.items| - 1 ensures Usable(h, req, k) ==> h.lfree <= h.items[k] {
      assert FreeAbove(h, k);
    }
  }

  // ----------------------------------------------------------------------- free

  lemma FuseLowest(h: Heap, i: nat)
    requires Layout(h) && Lowest(h) && i + 2 < |h.items| && !IsUsed(h.used, h.items[i])
    ensures Lowest(Fuse(h, i))
  {
    var r := Fuse(h, i);
    assert FreeAbove(h, i) && Gap(h.items, i, i + 1, SH);
    forall j | 0 <= j < |r.items| ensures FreeAbove(r, j) {
      DroppedAt(h.items, i + 1, j);
      assert FreeAbove(h, if j < i + 1 then j else j + 1);
    }
  }

  /** plug_holes keeps lfree the lowest free block. */
  lemma PlugLowest(h: Heap, i: nat)
    requires Layout(h) && Lowest(h) && i + 1 < |h.items| && !IsUsed(h.used, h.items[i])
    ensures Lowest(PlugHoles(h, i))
  {
    var m := PlugForward(h, i);
    if i + 2 < |h.items| && !IsUsed(h.used, h.items[i + 1]) {
      FuseLowest(h, i);
      FuseLayout(h, i);
      DroppedAt(h.items, i + 1, i);
    }
    if 0 < i < |m.items| - 1 && !IsUsed(m.used, m.items[i - 1]) {
      FuseLowest(m, i - 1);
    }
  }

  lemma UnmarkedKeeps(h: Heap, i: nat)
    requires Inv(h) && i + 1 < |h.items| && IsUsed(h.used, h.items[i])
    ensures var t := Unmarked(h, i);
      Core(t) && But(t.items, t.used, i - 1, i + 1) && t.usedMem <= t.maxMem && (Lowest(h) ==> Lowest(t))
  {
    var t, a := Unmarked(h, i), h.items[i];
    FlagSum(h.items, h.used, i, false);
    FlipBut(h.items, h.used, i, SH);
    assert Gap(h.items, i, |h.items| - 1, SH);
    assert Gap(h.items, i, i + 1, SH);
    assert a in h.items;
    if Lowest(h) {
      forall j | 0 <= j < |t.items| ensures FreeAbove(t, j) {
        assert FreeAbove(h, j);
      }
    }
  }

  lemma FreeInv(h: Heap, i: nat)
    requires Inv(h) && i + 1 < |h.items| && IsUsed(h.used, h.items[i])
    ensures Inv(FreeSpec(h, i)) && (Lowest(h) ==> Lowest(FreeSpec(h, i)))
  {
    var t := Unmarked(h, i);
    UnmarkedKeeps(h, i);
    PlugInv(t, i);
    if Lowest(h) {
      PlugLowest(t, i);
    }
  }
}
