/** What rt_malloc, rt_free and rt_realloc of src/mem.c do to the blocks of the
    heap, on lists of blocks instead of headers in memory. */
module SmallHeapSpec {
  import opened RtList
  import opened Tiling
  import opened Payload

  /** SIZEOF_STRUCT_MEM. */
  const SH: int := 12
  /** MIN_SIZE_ALIGNED. */
  const LEAST: int := 12

  /** `items` are the offsets of the block headers, the used end marker last;
      `size` is mem_size_aligned. */
  datatype Heap = Heap(size: int, items: seq<Addr>, used: map<Addr, bool>, lfree: Addr,
                       usedMem: int, maxMem: int, data: map<Addr, int>)

  function End(h: Heap): Addr { h.size + SH }

  // -------------------------------------------------------------- the invariant

  ghost predicate Layout(h: Heap) {
    && h.size >= LEAST
    && |h.items| >= 2 && h.items[0] == 0 && h.items[|h.items| - 1] == End(h)
    && Tiled(h.items, SH)
    && IsUsed(h.used, End(h))
  }

  /** The extents of the used blocks, headers included. */
  ghost function UsedSum(items: seq<Addr>, u: map<Addr, bool>): int {
    if |items| < 2 then 0
    else (if IsUsed(u, items[0]) then items[1] - items[0] else 0) + UsedSum(items[1..], u)
  }

  /** lfree is the end marker or a free block. */
  ghost predicate LfreeOk(h: Heap) {
    h.lfree in h.items && (h.lfree == End(h) || !IsUsed(h.used, h.lfree))
  }

  ghost predicate Inv(h: Heap) {
    Layout(h) && Coalesced(h.items, h.used) && h.usedMem == UsedSum(h.items, h.used) && LfreeOk(h) &&
      h.usedMem <= h.maxMem
  }

  /** No free block lies below lfree. */
  ghost predicate Lowest(h: Heap) {
    forall i :: 0 <= i < |h.items| ==> FreeAbove(h, i)
  }

  ghost predicate FreeAbove(h: Heap, i: nat)
    requires i < |h.items|
  {
    !IsUsed(h.used, h.items[i]) ==> h.lfree <= h.items[i]
  }

  lemma {:induction false} UsedIs(items: seq<Addr>, u: map<Addr, bool>)
    requires |items| > 0
    ensures UsedSum(items, u) == items[|items| - 1] - items[0] - FreeSum(items, u, 0)
  {
    if |items| >= 2 {
      UsedIs(items[1..], u);
    }
  }

  // ---------------------------------------------------------------- the edits

  /** Cut block i at offset a; the rest is a free block. */
  ghost function Chop(h: Heap, i: nat, a: Addr): Heap
    requires i + 1 < |h.items|
  {
    h.(items := Inserted(h.items, i + 1, a), used := h.used[a := false], data := Clobber(h.data, a, SH))
  }

  /** Merge block i + 1 into block i. */
  ghost function Fuse(h: Heap, i: nat): Heap
    requires i + 2 < |h.items|
  {
    h.(items := Dropped(h.items, i + 1), lfree := if h.lfree == h.items[i + 1] then h.items[i] else h.lfree)
  }

  /** The forward half of plug_holes on block i, and the backward half. */
  ghost function PlugForward(h: Heap, i: nat): Heap {
    if i + 2 < |h.items| && !IsUsed(h.used, h.items[i + 1]) then Fuse(h, i) else h
  }

  ghost function PlugBackward(h: Heap, i: nat): Heap {
    if 0 < i < |h.items| - 1 && !IsUsed(h.used, h.items[i - 1]) then Fuse(h, i - 1) else h
  }

  ghost function PlugHoles(h: Heap, i: nat): Heap {
    PlugBackward(PlugForward(h, i), i)
  }

  // ----------------------------------------------------------- the operations

  /** The first block from index i on that is free, holds req bytes and lies
      below the search limit; none is the length of the list. */
  ghost function Fit(items: seq<Addr>, u: map<Addr, bool>, limit: int, req: int, i: nat): (j: nat)
    ensures j == |items| || (i <= j && j + 1 < |items|)
    decreases |items| - i
  {
    if i + 1 >= |items| || items[i] >= limit then |items|
    else if Fits(items, u, limit, req, i) then i
    else Fit(items, u, limit, req, i + 1)
  }

  ghost predicate Fits(items: seq<Addr>, u: map<Addr, bool>, limit: int, req: int, j: nat)
    requires j + 1 < |items|
  {
    !IsUsed(u, items[j]) && SizeAt(items, j, SH) >= req && items[j] < limit
  }

  /** The first free block from index i on, or the end marker. */
  ghost function FreeFrom(items: seq<Addr>, u: map<Addr, bool>, i: nat): (j: nat)
    requires 0 < |items|
    ensures j < |items|
    decreases |items| - i
  {
    if i + 1 >= |items| then |items| - 1
    else if !IsUsed(u, items[i]) then i
    else FreeFrom(items, u, i + 1)
  }

  lemma {:induction false} FreeFromIs(items: seq<Addr>, u: map<Addr, bool>, i: nat)
    requires 0 < |items|
    ensures var j := FreeFrom(items, u, i);
      && (i < |items| ==> i <= j)
      && (j + 1 < |items| ==> !IsUsed(u, items[j]))
      && (forall k :: i <= k < j ==> IsUsed(u, items[k]))
    decreases |items| - i
  {
    if i + 1 < |items| && IsUsed(u, items[i]) {
      FreeFromIs(items, u, i + 1);
    }
  }

  ghost function Mark(h: Heap, more: int): Heap {
    h.(usedMem := h.usedMem + more, maxMem := if h.maxMem < h.usedMem + more then h.usedMem + more else h.maxMem)
  }

  /** Take block i, and cut it at offset a if a block fits behind. */
  ghost function Grab(h: Heap, i: nat, a: Addr): Heap
    requires i + 1 < |h.items|
  {
    var t := h.(used := h.used[h.items[i] := true]);
    if a + SH + LEAST <= h.items[i + 1] then Mark(Chop(t, i, a), a - h.items[i])
    else Mark(t, h.items[i + 1] - h.items[i])
  }

  /** Move lfree off a block that was just taken. */
  ghost function Advance(h: Heap, i: nat): Heap
    requires i < |h.items|
  {
    if h.lfree == h.items[i] then h.(lfree := h.items[FreeFrom(h.items, h.used, i)]) else h
  }

  /** The heap once block i is taken up to offset a. */
  ghost function Taken(h: Heap, i: nat, a: Addr): (r: Heap)
    requires i + 1 < |h.items|
  {
    Advance(Grab(h, i, a), i)
  }

  datatype Ptr = Null | To(block: Addr)

  datatype Outcome = Outcome(heap: Heap, ptr: Ptr)

  /** Where a payload of req bytes behind the header of block i ends. */
  function Stop(items: seq<Addr>, i: nat, req: int): Addr
    requires i < |items|
  {
    items[i] + SH + req
  }

  /** rt_malloc of an aligned size. */
  ghost function MallocSpec(h: Heap, req: int): Outcome
    requires h.lfree in h.items
  {
    var i := Fit(h.items, h.used, h.size - req, req, IndexOf(h.items, h.lfree));
    if i == |h.items| then Outcome(h, Null) else Outcome(Taken(h, i, Stop(h.items, i, req)), To(h.items[i]))
  }

  /** rt_free of block i. */
  ghost function FreeSpec(h: Heap, i: nat): Heap
    requires i + 1 < |h.items|
  {
    PlugHoles(Unmarked(h, i), i)
  }

  /** The heap when a block was unmarked and before plug_holes. */
  ghost function Unmarked(h: Heap, i: nat): Heap
    requires i + 1 < |h.items|
  {
    var a := h.items[i];
    h.(used := h.used[a := false], lfree := if a < h.lfree then a
      else h.lfree, usedMem := h.usedMem - SizeAt(h.items, i, 0))
  }

  /** The shrinking branch of rt_realloc: cut block i at offset a. */
  ghost function ShrinkSpec(h: Heap, i: nat, a: Addr): Heap
    requires i + 1 < |h.items|
  {
    PlugHoles(Shorn(h, i, a), i + 1)
  }

  /** The heap when the tail of block i was cut off and before plug_holes. */
  ghost function Shorn(h: Heap, i: nat, a: Addr): Heap
    requires i + 1 < |h.items|
  {
    Chop(h.(usedMem := h.usedMem - (h.items[i + 1] - a)), i, a)
  }

  // ---------------------------------------------------------- sums under edits

  lemma FlagSum(items: seq<Addr>, u: map<Addr, bool>, k: nat, b: bool)
    requires Tiled(items, SH) && k + 1 < |items| && IsUsed(u, items[k]) != b
    ensures UsedSum(items, u[items[k] := b]) == UsedSum(items, u) + (if b then SizeAt(items, k, 0)
            else - SizeAt(items, k, 0))
  {
    UsedIs(items, u);
    UsedIs(items, u[items[k] := b]);
    SumFlip(items, u, k, b, SH, 0);
  }

  lemma CutSum(items: seq<Addr>, u: map<Addr, bool>, i: nat, a: Addr)
    requires i + 1 < |items| && IsUsed(u, items[i]) && a !in items
    ensures UsedSum(Inserted(items, i + 1, a), u[a := false]) == UsedSum(items, u) - (items[i + 1] - a)
  {
    UsedIs(items, u);
    UsedIs(Inserted(items, i + 1, a), u[a := false]);
    SplitSum(items, u, i, a, 0);
    InsertedEnds(items, i + 1, a);
  }

  lemma FuseSum(items: seq<Addr>, u: map<Addr, bool>, i: nat)
    requires i + 2 < |items| && !IsUsed(u, items[i]) && !IsUsed(u, items[i + 1])
    ensures UsedSum(Dropped(items, i + 1), u) == UsedSum(items, u)
  {
    UsedIs(items, u);
    UsedIs(Dropped(items, i + 1), u);
    SumDrop(items, u, i, 0);
    DroppedAt(items, i + 1, 0);
    DroppedAt(items, i + 1, |items| - 2);
  }

  // ------------------------------------------------------------ kept by edits

  /** The structure without the rule about neighbours and the high-water mark. */
  ghost predicate Core(h: Heap) {
    Layout(h) && h.usedMem == UsedSum(h.items, h.used) && LfreeOk(h)
  }

  lemma CutLayout(h: Heap, i: nat, a: Addr)
    requires Layout(h) && i + 1 < |h.items| && h.items[i] + SH <= a && a + SH <= h.items[i + 1]
    ensures Layout(Chop(h, i, a)) && a !in h.items
  {
    TiledInsert(h.items, i, a, SH);
    InsertedEnds(h.items, i + 1, a);
    assert h.items[|h.items| - 1] in h.items;
  }

  lemma CutCore(h: Heap, i: nat, a: Addr)
    requires Layout(h) && LfreeOk(h) && i + 1 < |h.items| && IsUsed(h.used, h.items[i])
    requires h.usedMem == UsedSum(h.items, h.used) - (h.items[i + 1] - a)
    requires h.items[i] + SH <= a && a + SH <= h.items[i + 1]
    ensures Core(Chop(h, i, a))
  {
    CutLayout(h, i, a);
    CutSum(h.items, h.used, i, a);
    InsertedIn(h.items, i + 1, a);
  }

  lemma FuseCore(h: Heap, i: nat)
    requires Core(h) && i + 2 < |h.items| && !IsUsed(h.used, h.items[i]) && !IsUsed(h.used, h.items[i + 1])
    ensures Core(Fuse(h, i))
  {
    FuseLayout(h, i);
    FuseSum(h.items, h.used, i);
    TiledDistinct(h.items, SH);
    DroppedIn(h.items, i + 1);
    assert Gap(h.items, i, i + 1, SH);
    assert h.items[i] in h.items;
  }

  lemma FuseLayout(h: Heap, i: nat)
    requires Layout(h) && i + 2 < |h.items|
    ensures Layout(Fuse(h, i))
  {
    TiledDrop(h.items, i + 1, SH);
    DroppedAt(h.items, i + 1, 0);
    DroppedAt(h.items, i + 1, |h.items| - 2);
  }

  lemma ForwardKeeps(h: Heap, i: nat, lo: int)
    requires Core(h) && i + 1 < |h.items| && !IsUsed(h.used, h.items[i]) && lo <= i && But(h.items, h.used, lo, i + 1)
    ensures var r := PlugForward(h, i);
      && Core(r) && But(r.items, r.used, lo, i) && r.used == h.used && r.usedMem == h.usedMem && r.maxMem == h.maxMem
      && i + 1 < |r.items| && forall j :: 0 <= j <= i ==> r.items[j] == h.items[j]
  {
    var r := PlugForward(h, i);
    if i + 2 < |h.items| && !IsUsed(h.used, h.items[i + 1]) {
      FuseCore(h, i);
      DropBut(h.items, h.used, i, lo);
    } else {
      assert PairOk(h.items, h.used, i);
    }
  }

  lemma BackwardKeeps(h: Heap, i: nat)
    requires Core(h) && i + 1 < |h.items| && !IsUsed(h.used, h.items[i]) && But(h.items, h.used, i - 1, i)
    ensures var r := PlugBackward(h, i);
      Core(r) && Coalesced(r.items, r.used) && r.usedMem == h.usedMem && r.maxMem == h.maxMem
  {
    if i > 0 && !IsUsed(h.used, h.items[i - 1]) {
      FuseCore(h, i - 1);
      DropBut(h.items, h.used, i - 1, i - 1);
      ButNone(Dropped(h.items, i), h.used, i - 1);
    } else {
      assert i > 0 ==> PairOk(h.items, h.used, i - 1);
      ButCoalesced(h.items, h.used, i);
    }
  }

  /** plug_holes on a free block whose only free neighbours are its own. */
  lemma PlugKeeps(h: Heap, i: nat)
    requires Core(h) && i + 1 < |h.items| && !IsUsed(h.used, h.items[i]) && But(h.items, h.used, i - 1, i + 1)
    ensures var r := PlugHoles(h, i);
      Core(r) && Coalesced(r.items, r.used) && r.usedMem == h.usedMem && r.maxMem == h.maxMem
  {
    ForwardKeeps(h, i, i - 1);
    BackwardKeeps(PlugForward(h, i), i);
  }

  lemma PlugInv(h: Heap, i: nat)
    requires Core(h) && i + 1 < |h.items| && !IsUsed(h.used, h.items[i]) && But(h.items, h.used, i - 1, i + 1)
    requires h.usedMem <= h.maxMem
    ensures Inv(PlugHoles(h, i))
  {
    PlugKeeps(h, i);
  }
}
