/** rt_memheap_free as its caller sees it: what becomes of the block and of its
    neighbours, and the round trip with rt_memheap_alloc. */
module MemHeapFree {
  import opened RtList
  import opened Tiling
  import opened MemHeapSpec
  import opened MemHeapOps

  // -------------------------------------------------------------- shape of free

  ghost predicate LeftFree(h: Heap, i: nat)
    requires i < |h.items|
  {
    i > 0 && !IsUsed(h.used, h.items[i - 1])
  }

  ghost predicate RightFree(h: Heap, i: nat)
    requires i + 1 < |h.items|
  {
    !IsUsed(h.used, h.items[i + 1])
  }

  /** The free ring after the successor of item i was merged into it. */
  ghost function WithoutRight(h: Heap, i: nat): seq<Addr>
    requires i + 1 < |h.items|
  {
    if h.items[i + 1] in h.free then Dropped(h.free, IndexOf(h.free, h.items[i + 1])) else h.free
  }

  lemma RightIn(h: Heap, i: nat)
    requires Layout(h) && FreeOk(h) && i + 1 < |h.items|
    ensures RightFree(h, i) <==> h.items[i + 1] in h.free
    ensures RightFree(h, i) ==> i + 2 < |h.items|
  {
    var a := h.items[i + 1];
    assert a in h.items;
  }

  lemma ConsDrop(a: Addr, free: seq<Addr>, b: Addr)
    requires b in free && a != b
    ensures b in [a] + free && Dropped([a] + free, IndexOf([a] + free, b)) == [a] + Dropped(free, IndexOf(free, b))
  {
    var f, k := [a] + free, IndexOf(free, b);
    assert f[1..] == free;
    assert IndexOf(f, b) == k + 1;
    assert Dropped(f, k + 1) == [a] + Dropped(free, k);
  }

  lemma HeadDrop(a: Addr, f: seq<Addr>)
    ensures a in [a] + f && Dropped([a] + f, IndexOf([a] + f, a)) == f
  {
    assert IndexOf([a] + f, a) == 0;
  }

  lemma DropTwice(items: seq<Addr>, i: nat)
    requires i + 1 < |items|
    ensures Dropped(Dropped(items, i + 1), i) == Dropped(Dropped(items, i), i)
  {
  }

  /** The heap with other rings, flags and count of free bytes. */
  function With(h: Heap, items: seq<Addr>, free: seq<Addr>, used: map<Addr, bool>, available: int): Heap {
    Heap(h.start, h.pool, items, used, free, available, h.maxUsed, h.data)
  }

  ghost function FreedItems(h: Heap, i: nat): seq<Addr>
    requires i + 1 < |h.items|
  {
    if LeftFree(h, i) then (if RightFree(h, i) then Dropped(Dropped(h.items, i), i) else Dropped(h.items, i))
    else if RightFree(h, i) then Dropped(h.items, i + 1) else h.items
  }

  ghost function FreedRing(h: Heap, i: nat): seq<Addr>
    requires i + 1 < |h.items|
  {
    if LeftFree(h, i) then WithoutRight(h, i) else [h.items[i]] + WithoutRight(h, i)
  }

  ghost function FreedBytes(h: Heap, i: nat): int
    requires i + 1 < |h.items|
  {
    SizeAt(h.items, i, HS) + (if LeftFree(h, i) then HS else 0) + (if RightFree(h, i) then HS else 0)
  }

  /** The heap after a free, spelled out by its neighbours. */
  ghost function Freed(h: Heap, i: nat): Heap
    requires i + 1 < |h.items|
  {
    With(h, FreedItems(h, i), FreedRing(h, i), h.used[h.items[i] := false], h.available + FreedBytes(h, i))
  }

  lemma RightFreed(h: Heap, i: nat)
    requires i + 1 < |h.items| && h.items[i] != h.items[i + 1]
    requires RightFree(h, i) <==> h.items[i + 1] in h.free
    requires RightFree(h, i) ==> i + 2 < |h.items|
    ensures Join(Release(h, i), i) ==
      With(h, if RightFree(h, i) then Dropped(h.items, i + 1) else h.items, [h.items[i]] + WithoutRight(h, i),
           h.used[h.items[i] := false], h.available + SizeAt(h.items, i, HS) + (if RightFree(h, i) then HS else 0))
  {
    if RightFree(h, i) {
      ConsDrop(h.items[i], h.free, h.items[i + 1]);
    }
  }

  lemma LeftFreed(m: Heap, i: nat, a: Addr, f: seq<Addr>)
    requires 0 < i < |m.items| - 1 && m.items[i] == a && m.free == [a] + f && !IsUsed(m.used, m.items[i - 1])
    ensures Join(m, i - 1) == With(m, Dropped(m.items, i), f, m.used, m.available + HS)
  {
    HeadDrop(a, f);
  }

  lemma FreedLeft(h: Heap, i: nat, its: seq<Addr>)
    requires i + 1 < |h.items| && LeftFree(h, i) && (RightFree(h, i) ==> i + 2 < |h.items|)
    requires its == (if RightFree(h, i) then Dropped(h.items, i + 1) else h.items)
    ensures i + 1 < |its| && its[i] == h.items[i] && its[i - 1] == h.items[i - 1] && Dropped(its, i) == FreedItems(h, i)
  {
    DropTwice(h.items, i);
  }

  /** The left merge on the heap the right merge left. */
  lemma FreeIsLeft(h: Heap, i: nat, m: Heap, its: seq<Addr>, n: int)
    requires i + 1 < |h.items| && LeftFree(h, i) && (RightFree(h, i) ==> i + 2 < |h.items|) &&
             h.items[i - 1] != h.items[i]
    requires its == (if RightFree(h, i) then Dropped(h.items, i + 1) else h.items)
    requires m == With(h, its, [h.items[i]] + WithoutRight(h, i), h.used[h.items[i] := false], n)
    ensures Join(m, i - 1) == With(h, FreedItems(h, i), WithoutRight(h, i), h.used[h.items[i] := false], n + HS)
  {
    FreedLeft(h, i, its);
    LeftFreed(m, i, h.items[i], WithoutRight(h, i));
  }

  lemma FreeIsAt(h: Heap, i: nat)
    requires i + 1 < |h.items| && h.items[i] != h.items[i + 1] && (i > 0 ==> h.items[i - 1] != h.items[i])
    requires RightFree(h, i) <==> h.items[i + 1] in h.free
    requires RightFree(h, i) ==> i + 2 < |h.items|
    ensures FreeSpec(h, i) == Freed(h, i)
  {
    var m := Join(Release(h, i), i);
    var n := h.available + SizeAt(h.items, i, HS) + (if RightFree(h, i) then HS else 0);
    RightFreed(h, i);
    if LeftFree(h, i) {
      FreeIsLeft(h, i, m, m.items, n);
    }
  }

  lemma FreeIs(h: Heap, i: nat)
    requires Struct(h) && i + 1 < |h.items|
    ensures FreeSpec(h, i) == Freed(h, i)
  {
    RightIn(h, i);
    assert Gap(h.items, i, i + 1, HS);
    assert i > 0 ==> Gap(h.items, i - 1, i, HS);
    FreeIsAt(h, i);
  }

  // ------------------------------------------------------------- what is freed

  lemma FreedMembers(h: Heap, i: nat, x: Addr)
    requires Distinct(h.items) && i + 1 < |h.items| && (RightFree(h, i) ==> i + 2 < |h.items|)
    ensures x in FreedItems(h, i) <==>
      x in h.items && !(LeftFree(h, i) && x == h.items[i]) && !(RightFree(h, i) && x == h.items[i + 1])
  {
    if LeftFree(h, i) {
      DroppedIn(h.items, i);
      if RightFree(h, i) {
        var d := Dropped(h.items, i);
        DistinctDropped(h.items, i);
        DroppedAt(h.items, i, i);
        DroppedIn(d, i);
      }
    } else if RightFree(h, i) {
      DroppedIn(h.items, i + 1);
    }
  }

  /** Exactly the block handed in is no longer live. */
  lemma FreedLives(h: Heap, i: nat, b: Addr)
    requires Struct(h) && i + 1 < |h.items| && IsUsed(h.used, h.items[i])
    ensures Live(Freed(h, i), b) <==> Live(h, b) && b != h.items[i]
  {
    RightIn(h, i);
    TiledDistinct(h.items, HS);
    FreedMembers(h, i, b);
  }

  /** The live blocks of r are those of h without a. */
  ghost predicate Gone(h: Heap, r: Heap, a: Addr) {
    forall b :: Live(r, b) <==> Live(h, b) && b != a
  }

  lemma FreedGone(h: Heap, i: nat)
    requires Struct(h) && i + 1 < |h.items| && IsUsed(h.used, h.items[i])
    ensures Gone(h, Freed(h, i), h.items[i])
  {
    forall b ensures Live(Freed(h, i), b) <==> Live(h, b) && b != h.items[i] {
      FreedLives(h, i, b);
    }
  }

  /** Bytes lo to hi lie in the unused item j. */
  ghost predicate Within(r: Heap, j: nat, lo: Addr, hi: Addr) {
    j + 1 < |r.items| && !IsUsed(r.used, r.items[j]) && r.items[j] <= lo && hi <= r.items[j + 1]
  }

  ghost predicate Swallowed(r: Heap, lo: Addr, hi: Addr) {
    exists j: nat :: Within(r, j, lo, hi)
  }

  /** The block, header included, lies in one unused item. */
  lemma FreedWithin(h: Heap, i: nat)
    requires Struct(h) && i + 1 < |h.items| && IsUsed(h.used, h.items[i])
    ensures Swallowed(Freed(h, i), h.items[i], h.items[i + 1])
  {
    RightIn(h, i);
    var j := if LeftFree(h, i) then i - 1 else i;
    assert Gap(h.items, i, i + 1, HS);
    assert i > 0 ==> Gap(h.items, i - 1, i, HS);
    assert i + 2 < |h.items| ==> Gap(h.items, i + 1, i + 2, HS);
    if LeftFree(h, i) {
      DroppedAt(h.items, i, i - 1);
      DroppedAt(h.items, i, i);
      if RightFree(h, i) {
        var d := Dropped(h.items, i);
        DroppedAt(h.items, i, i + 1);
        DroppedAt(d, i, i - 1);
        DroppedAt(d, i, i);
      }
    } else if RightFree(h, i) {
      DroppedAt(h.items, i + 1, i);
      DroppedAt(h.items, i + 1, i + 1);
    }
    assert Within(Freed(h, i), j, h.items[i], h.items[i + 1]);
  }

  // -------------------------------------------------------------- the round trip

  /** The same items in the same places with the same flags, and as many free bytes. */
  ghost predicate SameLayout(h: Heap, r: Heap) {
    && r.items == h.items && r.available == h.available
    && (forall x :: x in h.items ==> IsUsed(r.used, x) == IsUsed(h.used, x))
  }

  /** A free item stands between used ones. */
  lemma BetweenUsed(h: Heap, i: nat)
    requires Coalesced(h.items, h.used) && i + 1 < |h.items| && !IsUsed(h.used, h.items[i])
    ensures IsUsed(h.used, h.items[i + 1]) && (i > 0 ==> IsUsed(h.used, h.items[i - 1]))
  {
    assert PairOk(h.items, h.used, i);
    assert i > 0 ==> PairOk(h.items, h.used, i - 1);
  }

  /** What rt_memheap_alloc leaves of a free item: all of it taken, or cut at c. */
  ghost predicate TakenAt(h: Heap, r: Heap, i: nat) {
    && i + 1 < |h.items| && !IsUsed(h.used, h.items[i])
    && r.items == h.items && r.used == h.used[h.items[i] := true]
    && r.available == h.available - SizeAt(h.items, i, HS)
  }

  ghost predicate CutAt(h: Heap, r: Heap, i: nat, c: Addr) {
    && i + 1 < |h.items| && !IsUsed(h.used, h.items[i]) && c !in h.items
    && r.items == Inserted(h.items, i + 1, c) && r.used == h.used[h.items[i] := true][c := false]
    && r.available == h.available - (c - h.items[i])
  }

  lemma WholeTrip(h: Heap, r: Heap, i: nat)
    requires Inv(h) && TakenAt(h, r, i)
    ensures SameLayout(h, Freed(r, i))
  {
    BetweenUsed(h, i);
    assert Gap(h.items, i, i + 1, HS);
    assert i > 0 ==> Gap(h.items, i - 1, i, HS);
    assert !LeftFree(r, i) && !RightFree(r, i);
  }

  lemma CutTrip(h: Heap, r: Heap, i: nat, c: Addr)
    requires Inv(h) && CutAt(h, r, i, c)
    ensures i + 1 < |r.items| && SameLayout(h, Freed(r, i))
  {
    assert i > 0 ==> IsUsed(h.used, h.items[i - 1]) by { BetweenUsed(h, i); }
    CutNeighbours(h, r, i, c);
    RightOnly(r, i);
    Restored(h, r, Freed(r, i), i, c);
  }

  lemma RightOnly(r: Heap, i: nat)
    requires i + 1 < |r.items| && !LeftFree(r, i) && RightFree(r, i)
    ensures var t := Freed(r, i);
      && t.items == Dropped(r.items, i + 1) && t.used == r.used[r.items[i] := false]
      && t.available == r.available + SizeAt(r.items, i, HS) + HS
  {
  }

  lemma Restored(h: Heap, r: Heap, t: Heap, i: nat, c: Addr)
    requires CutAt(h, r, i, c) && i + 2 < |r.items| && r.items[i] == h.items[i] && r.items[i + 1] == c
    requires t.items == Dropped(r.items, i + 1) && t.used == r.used[r.items[i] := false]
    requires t.available == r.available + SizeAt(r.items, i, HS) + HS
    ensures SameLayout(h, t)
  {
    FlagsBack(h.items, h.used, h.items[i], c);
    Undone(h.items, i, c);
  }

  lemma FlagsBack(items: seq<Addr>, u: map<Addr, bool>, a: Addr, c: Addr)
    requires !IsUsed(u, a) && c !in items
    ensures forall x :: x in items ==> IsUsed(u[a := true][c := false][a := false], x) == IsUsed(u, x)
  {
  }

  lemma Undone(items: seq<Addr>, i: nat, c: Addr)
    requires i + 1 < |items|
    ensures Dropped(Inserted(items, i + 1, c), i + 1) == items
  {
  }

  lemma CutNeighbours(h: Heap, r: Heap, i: nat, c: Addr)
    requires Tiled(h.items, HS) && CutAt(h, r, i, c) && (i > 0 ==> IsUsed(h.used, h.items[i - 1]))
    ensures i + 2 < |r.items| && r.items[i] == h.items[i] && r.items[i + 1] == c
    ensures !LeftFree(r, i) && RightFree(r, i)
  {
    InsertedAt(h.items, i + 1, c, i);
    InsertedAt(h.items, i + 1, c, i + 1);
    if i > 0 {
      InsertedAt(h.items, i + 1, c, i - 1);
      assert Gap(h.items, i - 1, i, HS);
      assert h.items[i - 1] in h.items;
    }
  }

  /** Taking an item and freeing it again restores items, flags and the free bytes. */
  lemma CarveTrip(h: Heap, k: nat, req: nat) returns (i: nat)
    requires Inv(h) && k < |h.free| && h.free[k] in h.items
    ensures var r := Carve(h, k, req);
      i + 1 < |r.items| && r.items[i] == h.free[k] && SameLayout(h, Freed(r, i))
  {
    i := FreeIndex(h, k);
    var r, c := Carve(h, k, req), h.free[k] + HS + req;
    if SizeAt(h.items, i, HS) >= req + HS + MIN {
      assert c !in h.items by { CutApart(h, i, c); }
      InsertedAt(h.items, i + 1, c, i);
      CutTrip(h, r, i, c);
    } else {
      WholeTrip(h, r, i);
    }
  }

  lemma CutApart(h: Heap, i: nat, c: Addr)
    requires Layout(h) && i + 1 < |h.items| && h.items[i] + HS <= c && c + HS <= h.items[i + 1]
    ensures c !in h.items
  {
    SplitLayout(h, i, c);
  }
}
