/** The operations of a memory heap built from the edits of its layout, and
    what every operation keeps. */
module MemHeapOps {
  import opened MachineWord
  import opened Tiling
  import opened MemHeapSpec

  /** A payload pointer, named by the item header it lies behind. */
  datatype Ptr = Null | To(block: Addr)

  function Request(n: nat): nat {
    if Align(n) < MIN then MIN else Align(n)
  }

  /** The rounded request covers the wanted size exactly below the last word of
      the address range; aligning twice changes nothing. */
  lemma RequestIff(n: nat)
    requires n < WORD
    ensures Request(n) >= n <==> n <= WORD - 4
    ensures Request(Request(n)) == Request(n) < WORD && Request(n) % 4 == 0
  {
  }

  /** No more than the next multiple of four, or the least size there is. */
  lemma RequestTight(n: nat)
    requires n <= WORD - 4
    ensures Request(n) == MIN || n <= Request(n) < n + 4
  {
  }

  ghost predicate Inv(h: Heap) {
    Struct(h) && Coalesced(h.items, h.used) && h.pool - h.available <= h.maxUsed
  }

  ghost predicate Live(h: Heap, a: Addr) {
    a in h.items && IsUsed(h.used, a) && a != h.start + h.pool - HS
  }

  // --------------------------------------------------------------- operations

  function Mark(h: Heap): (r: Heap)
    ensures r.start == h.start && r.pool == h.pool && r.maxUsed >= h.pool - h.available
  {
    if h.pool - h.available > h.maxUsed then h.(maxUsed := h.pool - h.available) else h
  }

  /** The first item of the free ring with room for `req` bytes. */
  ghost function FirstFit(items: seq<Addr>, free: seq<Addr>, req: int): (k: nat)
    ensures k <= |free|
  {
    if free == [] then 0
    else if SizeOf(items, free[0], HS) >= req then 0
    else 1 + FirstFit(items, free[1..], req)
  }

  ghost function Carve(h: Heap, k: nat, req: int): (r: Heap)
    requires k < |h.free| && h.free[k] in h.items
    ensures SameArea(h, r)
  {
    var i := IndexOf(h.items, h.free[k]);
    if i + 1 < |h.items| && SizeAt(h.items, i, HS) >= req + HS + MIN
    then Split(Take(h, k), i, h.free[k] + HS + req)
    else Take(h, k)
  }

  /** rt_memheap_alloc on a request that is already aligned. */
  ghost function AllocSpec(h: Heap, req: nat): (r: (Heap, Ptr))
    ensures r.0.start == h.start && r.0.pool == h.pool
  {
    var k := FirstFit(h.items, h.free, req);
    if req >= h.available || k == |h.free| || h.free[k] !in h.items then (h, Null)
    else (Mark(Carve(h, k, req)), To(h.free[k]))
  }

  /** Merge item i with a free successor. */
  ghost function Join(h: Heap, i: nat): (r: Heap)
    ensures SameArea(h, r)
  {
    if i + 2 < |h.items| && h.items[i + 1] in h.free then Merge(h, i) else h
  }

  ghost function FreeSpec(h: Heap, i: nat): (r: Heap)
    requires i + 1 < |h.items|
    ensures SameArea(h, r)
  {
    var r := Join(Release(h, i), i);
    if i > 0 && !IsUsed(h.used, h.items[i - 1]) then Join(r, i - 1) else r
  }

  // ------------------------------------------------------------- no free pairs

  lemma ReleaseBut(h: Heap, i: nat)
    requires Coalesced(h.items, h.used) && Tiled(h.items, HS) && i + 1 < |h.items|
    ensures But(h.items, Release(h, i).used, i - 1, i + 1)
  {
    FlipBut(h.items, h.used, i, HS);
  }

  lemma TakeCoalesced(h: Heap, k: nat)
    requires Coalesced(h.items, h.used) && k < |h.free| && h.free[k] in h.items
    ensures Coalesced(h.items, Take(h, k).used)
  {
    UseCoalesced(h.items, h.used, h.free[k]);
  }

  lemma SplitBut(h: Heap, i: nat, a: Addr)
    requires Coalesced(h.items, h.used) && i + 1 < |h.items| && a !in h.items && IsUsed(h.used, h.items[i])
    ensures But(Split(h, i, a).items, Split(h, i, a).used, i + 1, i + 2)
  {
    InsertBut(h.items, h.used, i, a);
  }

  /** Merging removes the pairs of the item that goes away. */
  lemma JoinBut(h: Heap, i: nat, lo: int)
    requires Layout(h) && FreeOk(h) && i + 1 < |h.items| && lo <= i && But(h.items, h.used, lo, i + 1)
    ensures But(Join(h, i).items, h.used, lo, i)
  {
    var a := h.items[i + 1];
    assert a in h.items;
    if i + 2 < |h.items| && a in h.free {
      DropBut(h.items, h.used, i, lo);
    } else {
      assert PairOk(h.items, h.used, i);
    }
  }

  // ------------------------------------------------------ every operation keeps

  lemma CarveSplit(t: Heap, i: nat, a: Addr)
    requires Struct(t) && Coalesced(t.items, t.used) && i + 1 < |t.items|
    requires IsUsed(t.used, t.items[i]) && IsUsed(t.used, t.items[i + 1])
    requires t.items[i] + HS <= a && a + HS <= t.items[i + 1]
    ensures Struct(Split(t, i, a)) && Coalesced(Split(t, i, a).items, Split(t, i, a).used)
  {
    SplitStruct(t, i, a);
    assert a !in t.items by { SplitLayout(t, i, a); }
    InsertPair(t.items, t.used, i, a);
  }

  lemma CarveTake(h: Heap, k: nat) returns (i: nat)
    requires Struct(h) && Coalesced(h.items, h.used) && k < |h.free| && h.free[k] in h.items
    ensures i + 1 < |h.items| && h.items[i] == h.free[k] && i == IndexOf(h.items, h.free[k])
    ensures Struct(Take(h, k)) && Coalesced(h.items, Take(h, k).used)
    ensures IsUsed(Take(h, k).used, h.items[i]) && IsUsed(Take(h, k).used, h.items[i + 1])
  {
    i := FreeIndex(h, k);
    NextUsed(h.items, h.used, i);
    assert Struct(Take(h, k)) by { TakeStruct(h, k); }
    assert Coalesced(h.items, Take(h, k).used) by { TakeCoalesced(h, k); }
  }

  lemma CarveInv(h: Heap, k: nat, req: nat)
    requires Struct(h) && Coalesced(h.items, h.used) && k < |h.free| && h.free[k] in h.items
    ensures Struct(Carve(h, k, req)) && Coalesced(Carve(h, k, req).items, Carve(h, k, req).used)
  {
    var i := CarveTake(h, k);
    if SizeAt(h.items, i, HS) >= req + HS + MIN {
      var t, a := Take(h, k), h.free[k] + HS + req;
      CarveSplit(t, i, a);
      assert Carve(h, k, req) == Split(t, i, a);
    }
  }

  lemma MarkInv(h: Heap)
    requires Struct(h) && Coalesced(h.items, h.used)
    ensures Inv(Mark(h))
  {
    var r := Mark(h);
    assert Layout(r) && FreeOk(r);
  }

  lemma AllocInv(h: Heap, req: nat)
    requires Inv(h)
    ensures Inv(AllocSpec(h, req).0)
  {
    var k := FirstFit(h.items, h.free, req);
    if k < |h.free| && h.free[k] in h.items {
      CarveInv(h, k, req);
      MarkInv(Carve(h, k, req));
    }
  }

  lemma JoinStruct(h: Heap, i: nat)
    requires Struct(h)
    ensures Struct(Join(h, i))
    ensures i < |h.items| && !IsUsed(h.used, h.items[i]) ==> Join(h, i).available >= h.available
  {
    if i + 2 < |h.items| && h.items[i + 1] in h.free {
      MergeStruct(h, i);
    }
  }

  lemma FreeInv(h: Heap, i: nat)
    requires Inv(h) && i + 1 < |h.items| && IsUsed(h.used, h.items[i])
    ensures Inv(FreeSpec(h, i))
  {
    var r := Release(h, i);
    assert Gap(h.items, i, i + 1, HS);
    ReleaseStruct(h, i);
    ReleaseBut(h, i);
    JoinStruct(r, i);
    JoinBut(r, i, i - 1);
    FreeInvLeft(h, Join(r, i), i);
  }

  lemma JoinPrefix(h: Heap, i: nat, j: nat)
    requires j <= i < |h.items|
    ensures j < |Join(h, i).items| && Join(h, i).items[j] == h.items[j]
  {
  }

  lemma FreeInvLeft(h: Heap, r: Heap, i: nat)
    requires Inv(h) && i + 1 < |h.items| && r == Join(Release(h, i), i)
    requires Struct(r) && h.available <= r.available && But(r.items, r.used, i - 1, i)
    ensures Inv(FreeSpec(h, i))
  {
    JoinPrefix(Release(h, i), i, i);
    if i > 0 && !IsUsed(h.used, h.items[i - 1]) {
      FreeInvJoin(h, r, i);
    } else {
      if i > 0 {
        JoinPrefix(Release(h, i), i, i - 1);
        assert Gap(h.items, i - 1, i, HS);
      }
      ButCoalesced(r.items, r.used, i);
    }
  }

  lemma FreeInvJoin(h: Heap, r: Heap, i: nat)
    requires 0 < i < |h.items| - 1 && Tiled(h.items, HS) && h.pool - h.available <= h.maxUsed
    requires r == Join(Release(h, i), i) && !IsUsed(h.used, h.items[i - 1])
    requires Struct(r) && h.available <= r.available && But(r.items, r.used, i - 1, i)
    ensures Inv(Join(r, i - 1))
  {
    JoinPrefix(Release(h, i), i, i - 1);
    JoinPrefix(Release(h, i), i, i);
    JoinStruct(r, i - 1);
    assert Coalesced(Join(r, i - 1).items, r.used) by {
      JoinBut(r, i - 1, i - 1);
      ButNone(Join(r, i - 1).items, r.used, i - 1);
    }
  }

  // ------------------------------------------------------------ no wrap-around

  /** A request below available_size cannot wrap in the split test. */
  lemma NoWrap(h: Heap, req: nat)
    requires Struct(h) && h.pool <= WORD && req < h.available
    ensures req + HS + MIN < WORD && 0 <= h.available <= h.pool - 2 * HS
  {
    SumBound(h.items, h.used, HS);
  }
}
