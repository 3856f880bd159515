/** What rt_memheap_alloc, rt_memheap_free and rt_memheap_realloc do to the
    layout of a pool, on lists of items instead of linked headers. */
module MemHeapSpec {
  import opened MachineWord
  import opened RtList
  import opened Tiling
  import opened Payload

  /** Size of an item header, RT_MEMHEAP_SIZE. */
  const HS: int := 24
  /** RT_MEMHEAP_MINIALLOC. */
  const MIN: int := 12

  /** `items` are the header addresses in pool order, the used tailer last;
      `free` is the free ring from its head on; `data` holds payload bytes. */
  datatype Heap = Heap(start: Addr, pool: int, items: seq<Addr>, used: map<Addr, bool>, free: seq<Addr>,
                       available: int, maxUsed: int, data: map<Addr, int>)

  // ------------------------------------------------------------------- layout

  ghost predicate Layout(h: Heap) {
    && h.start >= 0 && h.start + h.pool <= WORD
    && |h.items| >= 2
    && h.items[0] == h.start
    && h.items[|h.items| - 1] == h.start + h.pool - HS
    && Tiled(h.items, HS)
    && IsUsed(h.used, h.items[|h.items| - 1])
  }

  /** The free ring holds exactly the unused items, once each. */
  ghost predicate FreeOk(h: Heap) {
    Distinct(h.free) && forall a :: a in h.free <==> a in h.items && !IsUsed(h.used, a)
  }

  // ------------------------------------------------------------ edits of a pool

  ghost predicate Struct(h: Heap) {
    Layout(h) && FreeOk(h) && h.available == FreeSum(h.items, h.used, HS)
  }

  /** The pool lies where it lay and its high-water mark is the same. */
  predicate SameArea(h: Heap, r: Heap) {
    r.start == h.start && r.pool == h.pool && r.maxUsed == h.maxUsed
  }

  /** Take the k-th item of the free ring out of it and mark it used. */
  ghost function Take(h: Heap, k: nat): (r: Heap)
    requires k < |h.free| && h.free[k] in h.items
    ensures SameArea(h, r)
  {
    h.(used := h.used[h.free[k] := true], free := Dropped(h.free, k),
      available := h.available - SizeOf(h.items, h.free[k], HS))
  }

  /** Mark item i unused and put it at the head of the free ring. */
  ghost function Release(h: Heap, i: nat): (r: Heap)
    requires i + 1 < |h.items|
    ensures SameArea(h, r)
  {
    h.(used := h.used[h.items[i] := false], free := [h.items[i]] + h.free,
      available := h.available + SizeAt(h.items, i, HS))
  }

  /** Cut the used item i at address a and put the rest at the head of the free ring. */
  ghost function Split(h: Heap, i: nat, a: Addr): (r: Heap)
    requires i + 1 < |h.items|
    ensures SameArea(h, r)
  {
    h.(items := Inserted(h.items, i + 1, a), used := h.used[a := false], free := [a] + h.free,
       available := h.available + h.items[i + 1] - a - HS, data := Clobber(h.data, a, HS))
  }

  /** Join the free item i + 1 to item i. */
  ghost function Merge(h: Heap, i: nat): (r: Heap)
    requires i + 2 < |h.items| && h.items[i + 1] in h.free
    ensures SameArea(h, r)
  {
    h.(items := Dropped(h.items, i + 1), free := Dropped(h.free, IndexOf(h.free, h.items[i + 1])),
       available := h.available + (if IsUsed(h.used, h.items[i]) then - SizeAt(h.items, i + 1, HS) else HS))
  }

  lemma FreeIndex(h: Heap, k: nat) returns (i: nat)
    requires Layout(h) && FreeOk(h) && k < |h.free|
    ensures i + 1 < |h.items| && h.items[i] == h.free[k] && h.free[k] in h.items && i == IndexOf(h.items, h.free[k])
    ensures !IsUsed(h.used, h.items[i])
  {
    var a := h.free[k];
    assert a in h.free;
    i := IndexOf(h.items, a);
  }

  lemma TakeStruct(h: Heap, k: nat)
    requires Struct(h) && k < |h.free| && h.free[k] in h.items
    ensures Struct(Take(h, k))
  {
    var a, r := h.free[k], Take(h, k);
    var i := FreeIndex(h, k);
    SumFlip(h.items, h.used, i, true, HS, HS);
    DroppedIn(h.free, k);
    DistinctDropped(h.free, k);
    forall x ensures x in r.free <==> x in r.items && !IsUsed(r.used, x) {
      assert IsUsed(r.used, x) <==> x == a || IsUsed(h.used, x);
    }
  }

  lemma ReleaseStruct(h: Heap, i: nat)
    requires Struct(h) && i + 1 < |h.items| && IsUsed(h.used, h.items[i])
    ensures Struct(Release(h, i))
  {
    var a, r := h.items[i], Release(h, i);
    assert Gap(h.items, i, |h.items| - 1, HS);
    SumFlip(h.items, h.used, i, false, HS, HS);
    assert a in h.items && a !in h.free;
    DistinctInserted(h.free, 0, a);
    assert Inserted(h.free, 0, a) == r.free;
    forall x ensures x in r.free <==> x in r.items && !IsUsed(r.used, x) {
      assert IsUsed(r.used, x) <==> x != a && IsUsed(h.used, x);
    }
  }

  lemma SplitLayout(h: Heap, i: nat, a: Addr)
    requires Layout(h) && i + 1 < |h.items| && h.items[i] + HS <= a && a + HS <= h.items[i + 1]
    ensures Layout(Split(h, i, a)) && a !in h.items
  {
    var r := Split(h, i, a);
    InsertedEnds(h.items, i + 1, a);
    assert Tiled(r.items, HS) && a !in h.items by {
      TiledInsert(h.items, i, a, HS);
    }
    assert h.items[|h.items| - 1] in h.items;
    assert r.items[|r.items| - 1] == h.items[|h.items| - 1];
  }

  /** A new unused item at the head of the free ring. */
  lemma FreeAdded(h: Heap, r: Heap, a: Addr)
    requires FreeOk(h) && a !in h.items && r.used == h.used[a := false] && r.free == [a] + h.free
    requires forall x :: x in r.items <==> x == a || x in h.items
    ensures FreeOk(r)
  {
    assert a !in h.free;
    DistinctInserted(h.free, 0, a);
    assert Inserted(h.free, 0, a) == r.free;
    forall x ensures x in r.free <==> x in r.items && !IsUsed(r.used, x) {
      assert IsUsed(r.used, x) <==> x != a && IsUsed(h.used, x);
    }
  }

  lemma SplitStruct(h: Heap, i: nat, a: Addr)
    requires Struct(h) && i + 1 < |h.items| && IsUsed(h.used, h.items[i])
    requires h.items[i] + HS <= a && a + HS <= h.items[i + 1]
    ensures Struct(Split(h, i, a))
  {
    SplitLayout(h, i, a);
    SplitSum(h.items, h.used, i, a, HS);
    InsertedIn(h.items, i + 1, a);
    FreeAdded(h, Split(h, i, a), a);
  }

  lemma MergeLayout(h: Heap, i: nat)
    requires Layout(h) && i + 2 < |h.items| && h.items[i + 1] in h.free
    ensures Layout(Merge(h, i))
  {
    TiledDrop(h.items, i + 1, HS);
    DroppedAt(h.items, i + 1, 0);
    DroppedAt(h.items, i + 1, |h.items| - 2);
  }

  /** An unused item that goes away leaves the free ring too. */
  lemma FreeDropped(h: Heap, r: Heap, k: nat)
    requires FreeOk(h) && k < |h.free| && r.used == h.used && r.free == Dropped(h.free, k)
    requires forall x :: x in r.items <==> x in h.items && x != h.free[k]
    ensures FreeOk(r)
  {
    DroppedIn(h.free, k);
    DistinctDropped(h.free, k);
  }

  lemma MergeStruct(h: Heap, i: nat)
    requires Struct(h) && i + 2 < |h.items| && h.items[i + 1] in h.free
    ensures Struct(Merge(h, i))
  {
    MergeLayout(h, i);
    SumDrop(h.items, h.used, i, HS);
    TiledDistinct(h.items, HS);
    DroppedIn(h.items, i + 1);
    FreeDropped(h, Merge(h, i), IndexOf(h.free, h.items[i + 1]));
  }
}
