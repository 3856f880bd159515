/** The payload of the blocks of the small heap: rt_realloc keeps what it should
    of its own block, and no operation touches another one. */
module SmallHeapFrame {
  import opened RtList
  import opened Tiling
  import opened Payload
  import opened SmallHeapSpec
  import opened SmallHeapOps
  import opened SmallHeapShrink
  import opened SmallHeapTrip

  ghost predicate Live(h: Heap, b: Addr) {
    b in h.items && IsUsed(h.used, b) && b != End(h)
  }

  /** A block that is live in h is live in r, with the same size and contents. */
  ghost predicate Kept(h: Heap, r: Heap, b: Addr) {
    Live(h, b) ==>
      && Live(r, b)
      && SizeOf(r.items, b, SH) == SizeOf(h.items, b, SH)
      && Agree(h.data, r.data, b + SH, b + SH + SizeOf(h.items, b, SH))
  }

  lemma LiveIndex(h: Heap, b: Addr) returns (j: nat)
    requires Layout(h) && Live(h, b)
    ensures j + 1 < |h.items| && h.items[j] == b && j == IndexOf(h.items, b) &&
            SizeOf(h.items, b, SH) == SizeAt(h.items, j, SH)
    ensures IsUsed(h.used, h.items[j])
  {
    j := IndexOf(h.items, b);
  }

  lemma IndexLive(h: Heap, j: nat)
    requires Layout(h) && j + 1 < |h.items| && IsUsed(h.used, h.items[j])
    ensures Live(h, h.items[j]) && IndexOf(h.items, h.items[j]) == j &&
            SizeOf(h.items, h.items[j], SH) == SizeAt(h.items, j, SH)
  {
    TiledIndex(h.items, j, SH);
    assert Gap(h.items, j, |h.items| - 1, SH);
  }

  lemma KeptTrans(h: Heap, m: Heap, r: Heap, b: Addr)
    requires Kept(h, m, b) && Kept(m, r, b)
    ensures Kept(h, r, b)
  {
  }

  // -------------------------------------------------------------- frame by edit

  lemma ChopKept(h: Heap, i: nat, a: Addr, b: Addr)
    requires Layout(h) && i + 1 < |h.items| && h.items[i] + SH <= a && a + SH <= h.items[i + 1] && b != h.items[i]
    ensures Kept(h, Chop(h, i, a), b)
  {
    if Live(h, b) {
      var j := LiveIndex(h, b);
      CutLayout(h, i, a);
      SizeInserted(h.items, i, a, j, SH);
      assert j < i ==> Gap(h.items, j, i, SH);
      assert j < i && j + 1 != i ==> Gap(h.items, j + 1, i, SH);
      assert j > i && j != i + 1 ==> Gap(h.items, i + 1, j, SH);
    }
  }

  lemma FuseKept(h: Heap, i: nat, b: Addr)
    requires Layout(h) && i + 2 < |h.items| && b != h.items[i] && b != h.items[i + 1]
    ensures Kept(h, Fuse(h, i), b)
  {
    if Live(h, b) {
      var j := LiveIndex(h, b);
      FuseLayout(h, i);
      SizeDropped(h.items, i, j, SH);
    }
  }

  lemma FlagKept(h: Heap, r: Heap, a: Addr, b: Addr)
    requires r.items == h.items && r.size == h.size && r.data == h.data && b != a
    requires r.used == h.used[a := true] || r.used == h.used[a := false]
    ensures Kept(h, r, b)
  {
  }

  lemma PlugKept(h: Heap, i: nat, b: Addr)
    requires Layout(h) && i + 1 < |h.items| && !IsUsed(h.used, h.items[i])
    ensures Kept(h, PlugHoles(h, i), b)
  {
    var m := PlugForward(h, i);
    if Live(h, b) {
      if i + 2 < |h.items| && !IsUsed(h.used, h.items[i + 1]) {
        FuseKept(h, i, b);
        FuseLayout(h, i);
        DroppedAt(h.items, i + 1, i);
      }
      if 0 < i < |m.items| - 1 && !IsUsed(m.used, m.items[i - 1]) {
        FuseKept(m, i - 1, b);
        KeptTrans(h, m, PlugHoles(h, i), b);
      }
    }
  }

  // ------------------------------------------------------------------ operations

  lemma TakenKept(h: Heap, i: nat, a: Addr, b: Addr)
    requires Layout(h) && i + 1 < |h.items| && !IsUsed(h.used, h.items[i]) && h.items[i] + SH <= a
    ensures Kept(h, Taken(h, i, a), b)
  {
    if Live(h, b) {
      var t := h.(used := h.used[h.items[i] := true]);
      FlagKept(h, t, h.items[i], b);
      if a + SH + LEAST <= h.items[i + 1] {
        ChopKept(t, i, a, b);
        KeptTrans(h, t, Chop(t, i, a), b);
      }
    }
  }

  lemma FreeKept(h: Heap, i: nat, b: Addr)
    requires Inv(h) && i + 1 < |h.items| && IsUsed(h.used, h.items[i]) && b != h.items[i]
    ensures Kept(h, FreeSpec(h, i), b)
  {
    var t := Unmarked(h, i);
    UnmarkedKeeps(h, i);
    FlagKept(h, t, h.items[i], b);
    PlugKept(t, i, b);
    KeptTrans(h, t, PlugHoles(t, i), b);
  }

  /** A block rt_malloc returns was not live, holds the request, and every live block is kept. */
  lemma MallocReturns(h: Heap, req: nat, b: Addr)
    requires Inv(h) && MallocSpec(h, req).ptr != Null
    ensures var r, c := MallocSpec(h, req).heap, MallocSpec(h, req).ptr.block;
      !Live(h, c) && Live(r, c) && SizeOf(r.items, c, SH) >= req && Kept(h, r, b)
  {
    var l := IndexOf(h.items, h.lfree);
    var i := Fit(h.items, h.used, h.size - req, req, l);
    FitFits(h.items, h.used, h.size - req, req, l);
    TakenKept(h, i, Stop(h.items, i, req), b);
    TakenLive(h, i, Stop(h.items, i, req), req);
  }

  lemma TakenLive(h: Heap, i: nat, a: Addr, req: nat)
    requires Inv(h) && i + 1 < |h.items| && !IsUsed(h.used, h.items[i]) && a == h.items[i] + SH + req &&
             SizeAt(h.items, i, SH) >= req
    ensures var r := Taken(h, i, a); Live(r, h.items[i]) && SizeOf(r.items, h.items[i], SH) >= req
  {
    var r := Taken(h, i, a);
    TakenInv(h, i, a);
    GrabIndex(h, i, a);
    if a + SH + LEAST <= h.items[i + 1] {
      InsertedAt(h.items, i + 1, a, i + 1);
    }
    assert IsUsed(r.used, h.items[i]) by { GrabSound(h, i, a); GrabKeeps(h, i, a); }
    IndexLive(r, i);
  }
}
