/** Cutting a block of the small heap down: the shrinking branch of rt_realloc. */
module SmallHeapShrink {
  import opened RtList
  import opened Tiling
  import opened SmallHeapSpec
  import opened SmallHeapOps

  // --------------------------------------------------------------------- shrink

  lemma ShornKeeps(h: Heap, i: nat, a: Addr)
    requires Inv(h) && i + 1 < |h.items| && IsUsed(h.used, h.items[i]) && h.items[i] + SH <= a &&
             a + SH <= h.items[i + 1]
    ensures var t := Shorn(h, i, a);
      && Core(t) && But(t.items, t.used, i, i + 2) && t.usedMem <= t.maxMem && !IsUsed(t.used, a)
      && i + 2 < |t.items| && t.items[i + 1] == a && t.items[i] == h.items[i] && t.items[i + 2] == h.items[i + 1] &&
        a !in h.items
  {
    var m := h.(usedMem := h.usedMem - (h.items[i + 1] - a));
    CutCore(m, i, a);
    CutLayout(m, i, a);
    InsertBut(h.items, h.used, i, a);
    InsertedAround(h.items, i, a);
  }

  lemma InsertedAround(items: seq<Addr>, i: nat, a: Addr)
    requires i + 1 < |items|
    ensures var r := Inserted(items, i + 1, a);
      i + 2 < |r| && r[i] == items[i] && r[i + 1] == a && r[i + 2] == items[i + 1]
  {
    InsertedAt(items, i + 1, a, i);
    InsertedAt(items, i + 1, a, i + 1);
    InsertedAt(items, i + 1, a, i + 2);
  }

  lemma ShrinkInv(h: Heap, i: nat, a: Addr)
    requires Inv(h) && i + 1 < |h.items| && IsUsed(h.used, h.items[i]) && h.items[i] + SH <= a &&
             a + SH <= h.items[i + 1]
    ensures Inv(ShrinkSpec(h, i, a))
  {
    ShornKeeps(h, i, a);
    PlugInv(Shorn(h, i, a), i + 1);
  }

  lemma ShornLowest(h: Heap, i: nat, a: Addr)
    requires Inv(h) && Lowest(h) && i + 1 < |h.items| && IsUsed(h.used, h.items[i]) && h.items[i] + SH <= a &&
             a + SH <= h.items[i + 1]
    requires h.lfree < h.items[i + 1]
    ensures Lowest(Shorn(h, i, a))
  {
    var t := Shorn(h, i, a);
    assert a !in h.items by { ShornKeeps(h, i, a); }
    assert h.lfree <= h.items[i] by {
      var l := IndexOf(h.items, h.lfree);
      assert l > i + 1 ==> Gap(h.items, i + 1, l, SH);
      assert l < i ==> Gap(h.items, l, i, SH);
    }
    forall j | 0 <= j < |t.items| ensures FreeAbove(t, j) {
      ShornAbove(h, i, a, j);
    }
  }

  lemma ShornAbove(h: Heap, i: nat, a: Addr, j: nat)
    requires Lowest(h) && i + 1 < |h.items| && a !in h.items && h.lfree <= a && j <= |h.items|
    ensures FreeAbove(Shorn(h, i, a), j)
  {
    InsertedAt(h.items, i + 1, a, j);
    if j != i + 1 {
      var q := if j < i + 1 then j else j - 1;
      assert FreeAbove(h, q) && h.items[q] in h.items;
    }
  }

  /** The shrinking branch of rt_realloc keeps lfree the lowest free block exactly
      when lfree was below the block's successor, or was that successor and so
      gets merged. */
  lemma ShrinkLowestIff(h: Heap, i: nat, a: Addr)
    requires Inv(h) && Lowest(h) && i + 1 < |h.items| && IsUsed(h.used, h.items[i])
    requires h.items[i] + SH <= a && a + SH <= h.items[i + 1]
    ensures Lowest(ShrinkSpec(h, i, a)) <==>
        h.lfree < h.items[i + 1] || (h.lfree == h.items[i + 1] && i + 2 < |h.items|)
  {
    var t := Shorn(h, i, a);
    ShornKeeps(h, i, a);
    if h.lfree < h.items[i + 1] {
      ShornLowest(h, i, a);
      PlugLowest(t, i + 1);
    } else if h.lfree == h.items[i + 1] && i + 2 < |h.items| {
      ShrinkMerges(h, i, a);
    } else {
      ShrinkMisses(h, i, a);
    }
  }

  /** Chopping at a and merging the rest with the successor moves that block to a. */
  lemma MovedTo(items: seq<Addr>, i: nat, a: Addr, j: nat)
    requires i + 2 < |items| && j < |items|
    ensures Dropped(Inserted(items, i + 1, a), i + 2)[j] == if j == i + 1 then a else items[j]
  {
    var t := Inserted(items, i + 1, a);
    DroppedAt(t, i + 2, j);
    InsertedAt(items, i + 1, a, if j < i + 2 then j else j + 1);
  }

  /** The cut-off tail is merged with the block lfree pointed to. */
  lemma ShrinkMerges(h: Heap, i: nat, a: Addr)
    requires Inv(h) && Lowest(h) && i + 2 < |h.items| && IsUsed(h.used, h.items[i])
    requires h.items[i] + SH <= a && a + SH <= h.items[i + 1] && h.lfree == h.items[i + 1]
    ensures Lowest(ShrinkSpec(h, i, a))
  {
    var t := Shorn(h, i, a);
    ShornKeeps(h, i, a);
    assert Gap(h.items, i + 1, |h.items| - 1, SH);
    var f := Fuse(t, i + 1);
    forall j | 0 <= j < |f.items| ensures FreeAbove(f, j) {
      MovedTo(h.items, i, a, j);
      assert FreeAbove(h, j);
      assert h.items[j] in h.items;
      assert j < i + 1 ==> Gap(h.items, j, i + 1, SH);
    }
    MovedTo(h.items, i, a, i);
    assert PlugHoles(t, i + 1) == f;
  }

  /** The cut-off tail is a free block below lfree. */
  lemma ShrinkMisses(h: Heap, i: nat, a: Addr)
    requires Inv(h) && Lowest(h) && i + 1 < |h.items| && IsUsed(h.used, h.items[i])
    requires h.items[i] + SH <= a && a + SH <= h.items[i + 1]
    requires h.lfree >= h.items[i + 1] && (h.lfree == h.items[i + 1] ==> i + 2 == |h.items|)
    ensures !Lowest(ShrinkSpec(h, i, a))
  {
    var t := Shorn(h, i, a);
    ShornKeeps(h, i, a);
    assert h.items[i + 1] in h.items;
    assert FreeAbove(h, i + 1);
    assert IsUsed(h.used, h.items[i + 1]);
    assert PlugHoles(t, i + 1) == t;
    assert !FreeAbove(t, i + 1);
  }
}
