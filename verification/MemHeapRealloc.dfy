/** rt_memheap_realloc: growth in place, shrinking and moving. */
module MemHeapRealloc {
  import opened MachineWord
  import opened RtList
  import opened Tiling
  import opened Payload
  import opened MemHeapSpec
  import opened MemHeapOps

  // ------------------------------------------------------------- reallocation

  /** The test that lets a block grow into its free successor, on 32 bits. */
  predicate Grows(cur: int, next: int, req: nat) {
    next + cur > (req + MIN) % WORD
  }

  /** Let item i grow in place over its free successor, up to the address a. */
  ghost function GrowSpec(h: Heap, i: nat, a: Addr): (r: Heap)
    requires i + 2 < |h.items| && h.items[i + 1] in h.free
    ensures r.start == h.start && r.pool == h.pool
  {
    Mark(Split(Merge(h, i), i, a))
  }

  /** Cut item i at the address a and give the rest back. */
  ghost function ShrinkSpec(h: Heap, i: nat, a: Addr): (r: Heap)
    requires i + 1 < |h.items|
    ensures SameArea(h, r)
  {
    Join(Split(h, i, a), i + 1)
  }

  /** The address behind req bytes of the block at a, on 32 bits. */
  function Behind(a: Addr, req: nat): Addr {
    (a + HS + req) % WORD
  }

  /** The successor of item i is free and passes the test. */
  ghost predicate CanGrow(h: Heap, i: nat, req: nat)
    requires i + 1 < |h.items|
  {
    i + 2 < |h.items| && h.items[i + 1] in h.free && Grows(SizeAt(h.items, i, HS), SizeAt(h.items, i + 1, HS), req)
  }

  ghost function EnlargeSpec(h: Heap, i: nat, req: nat): (r: (Heap, Ptr))
    requires i + 1 < |h.items|
    ensures r.0.start == h.start && r.0.pool == h.pool
  {
    if CanGrow(h, i, req) then (GrowSpec(h, i, Behind(h.items[i], req)), To(h.items[i]))
    else MoveSpec(h, i, req)
  }

  /** rt_memheap_realloc of the block of item i to an aligned size. */
  ghost function ResizeSpec(h: Heap, i: nat, req: nat): (r: (Heap, Ptr))
    requires i + 1 < |h.items|
    ensures r.0.start == h.start && r.0.pool == h.pool
  {
    var a, cur := h.items[i], SizeAt(h.items, i, HS);
    if req > cur then EnlargeSpec(h, i, req)
    else if req + HS + MIN >= cur then (h, To(a))
    else (ShrinkSpec(h, i, a + HS + req), To(a))
  }

  /** Copy n bytes of the payload of block a into that of block c. */
  function Transfer(m: Heap, a: Addr, c: Addr, n: int): Heap {
    m.(data := Copy(m.data, c + HS, a + HS, n))
  }

  ghost function MoveSpec(h: Heap, i: nat, req: nat): (r: (Heap, Ptr))
    requires i + 1 < |h.items|
    ensures r.0.start == h.start && r.0.pool == h.pool
  {
    var (m, p) := AllocSpec(h, req);
    var a := h.items[i];
    if p == Null || a !in m.items || IndexOf(m.items, a) + 1 >= |m.items| then (m, Null)
    else (FreeSpec(Transfer(m, a, p.block, SizeAt(h.items, i, HS)), IndexOf(m.items, a)), p)
  }

  lemma GrowMerge(h: Heap, i: nat)
    requires Inv(h) && i + 2 < |h.items| && h.items[i + 1] in h.free
    ensures var m := Merge(h, i);
      && Struct(m) && Coalesced(m.items, m.used) && i + 1 < |m.items|
      && m.items[i] == h.items[i] && m.items[i + 1] == h.items[i + 2] && IsUsed(m.used, m.items[i + 1])
  {
    MergeStruct(h, i);
    MergeCoalesced(h, i);
    DroppedAt(h.items, i + 1, i);
    DroppedAt(h.items, i + 1, i + 1);
    NextUsed(h.items, h.used, i + 1);
  }

  lemma GrowInv(h: Heap, i: nat, a: Addr)
    requires Inv(h) && i + 2 < |h.items| && h.items[i + 1] in h.free && IsUsed(h.used, h.items[i])
    requires h.items[i] + HS <= a && a + HS <= h.items[i + 2]
    ensures Inv(GrowSpec(h, i, a))
  {
    GrowMerge(h, i);
    GrowSplit(Merge(h, i), i, a);
  }

  lemma GrowSplit(m: Heap, i: nat, a: Addr)
    requires Struct(m) && Coalesced(m.items, m.used) && i + 1 < |m.items|
    requires IsUsed(m.used, m.items[i]) && IsUsed(m.used, m.items[i + 1])
    requires m.items[i] + HS <= a && a + HS <= m.items[i + 1]
    ensures Inv(Mark(Split(m, i, a)))
  {
    CarveSplit(m, i, a);
    MarkInv(Split(m, i, a));
  }

  lemma MergeCoalesced(h: Heap, i: nat)
    requires Inv(h) && i + 2 < |h.items| && h.items[i + 1] in h.free
    ensures Coalesced(Merge(h, i).items, h.used)
  {
    ButNone(h.items, h.used, 0);
    assert But(h.items, h.used, i, i + 1);
    JoinBut(h, i, i);
    ButNone(Merge(h, i).items, h.used, i);
  }

  lemma ShrinkInv(h: Heap, i: nat, a: Addr)
    requires Inv(h) && i + 1 < |h.items| && IsUsed(h.used, h.items[i])
    requires h.items[i] + HS <= a && a + HS <= h.items[i + 1]
    ensures Inv(ShrinkSpec(h, i, a))
  {
    ShrinkSplit(h, i, a);
    ShrinkJoin(Split(h, i, a), i + 1, h);
  }

  lemma ShrinkSplit(h: Heap, i: nat, a: Addr)
    requires Inv(h) && i + 1 < |h.items| && IsUsed(h.used, h.items[i])
    requires h.items[i] + HS <= a && a + HS <= h.items[i + 1]
    ensures var s := Split(h, i, a);
      && Struct(s) && But(s.items, s.used, i + 1, i + 2) && i + 2 < |s.items| && !IsUsed(s.used, s.items[i + 1])
      && s.available >= h.available
  {
    SplitStruct(h, i, a);
    assert a !in h.items by { SplitLayout(h, i, a); }
    SplitBut(h, i, a);
    InsertedAt(h.items, i + 1, a, i + 1);
  }

  lemma ShrinkJoin(s: Heap, i: nat, h: Heap)
    requires Struct(s) && But(s.items, s.used, i, i + 1) && i + 1 < |s.items| && !IsUsed(s.used, s.items[i])
    requires s.available >= h.available && s.pool == h.pool && s.maxUsed == h.maxUsed &&
             h.pool - h.available <= h.maxUsed
    ensures Inv(Join(s, i))
  {
    JoinStruct(s, i);
    JoinBut(s, i, i);
    ButNone(Join(s, i).items, s.used, i);
  }

  /** Growth in place whose test wrapped around. */
  ghost predicate Overruns(h: Heap, i: nat, req: nat)
    requires i + 1 < |h.items|
  {
    SizeAt(h.items, i, HS) < req && CanGrow(h, i, req) && req + MIN >= WORD
  }

  lemma BehindIs(h: Heap, i: nat, req: nat)
    requires Layout(h) && i + 1 < |h.items| && CanGrow(h, i, req) && req + MIN < WORD
    ensures Behind(h.items[i], req) == h.items[i] + HS + req && h.items[i] + HS + req + HS <= h.items[i + 2]
  {
    assert i + 2 < |h.items| - 1 ==> Gap(h.items, i + 2, |h.items| - 1, HS);
    assert i > 0 ==> Gap(h.items, 0, i, HS);
  }

  lemma EnlargeGrows(h: Heap, i: nat, req: nat, a: Addr)
    requires Layout(h) && i + 1 < |h.items| && CanGrow(h, i, req) && req + MIN < WORD && a == h.items[i] + HS + req
    ensures EnlargeSpec(h, i, req).0 == GrowSpec(h, i, a) && EnlargeSpec(h, i, req).1 == To(h.items[i])
    ensures a + HS <= h.items[i + 2]
  {
    BehindIs(h, i, req);
  }

  /** When the test wraps, the new header falls into the header of the block itself. */
  lemma BehindWraps(h: Heap, i: nat, req: nat)
    requires Layout(h) && i + 1 < |h.items| && WORD <= req + MIN && req < WORD
    ensures h.items[i] < Behind(h.items[i], req) < h.items[i] + HS
  {
    assert i > 0 ==> Gap(h.items, 0, i, HS);
    assert Gap(h.items, i, |h.items| - 1, HS);
    var a := h.items[i] + HS + req;
    assert a == (a - WORD) + WORD && 0 <= a - WORD < WORD;
  }

  /** Growth in place keeps the layout of the pool, for every heap and every
      request, exactly when its test did not wrap around. */
  lemma GrowLayoutIff(h: Heap, i: nat, req: nat)
    requires Inv(h) && i + 1 < |h.items| && IsUsed(h.used, h.items[i]) && SizeAt(h.items, i, HS) < req < WORD
    requires CanGrow(h, i, req)
    ensures Layout(EnlargeSpec(h, i, req).0) <==> req + MIN < WORD
  {
    var a := Behind(h.items[i], req);
    var r := GrowSpec(h, i, a);
    if req + MIN < WORD {
      BehindIs(h, i, req);
      GrowInv(h, i, a);
    } else {
      BehindWraps(h, i, req);
      DroppedAt(h.items, i + 1, i);
      InsertedAt(Dropped(h.items, i + 1), i + 1, a, i);
      InsertedAt(Dropped(h.items, i + 1), i + 1, a, i + 1);
      assert !Gap(r.items, i, i + 1, HS);
    }
  }

  /** And for a block of at least the minimal size the test then always passes. */
  lemma WrapPasses(h: Heap, i: nat, req: nat)
    requires Layout(h) && i + 2 < |h.items| && h.items[i + 1] in h.free
    requires MIN <= SizeAt(h.items, i, HS) < req < WORD && WORD <= req + MIN
    ensures Overruns(h, i, req)
  {
    assert Gap(h.items, i + 1, i + 2, HS);
    assert (req + MIN) % WORD == req + MIN - WORD;
  }

  lemma ResizeShrinks(h: Heap, i: nat, req: nat, a: Addr)
    requires i + 1 < |h.items| && req + HS + MIN < SizeAt(h.items, i, HS) && a == h.items[i] + HS + req
    ensures ResizeSpec(h, i, req).0 == ShrinkSpec(h, i, a) && ResizeSpec(h, i, req).1 == To(h.items[i])
  {
  }
}
