/** src/memheap.c: the item headers of a memory heap and the operations on them. */
module MemHeap {
  import opened MachineWord
  import opened RtList
  import opened Tiling
  import opened Payload
  import opened MemHeapSpec
  import opened MemHeapOps
  import opened MemHeapRealloc
  import opened MemHeapFrame
  import opened MemHeapFree
  import opened MemHeapRuns

  /** The address of free_header, which lies outside the pool. */
  const HEADER: Addr := -1

  /** The block ring and the free ring spell out the layout. */
  ghost predicate Rings(h: Heap, blk: Links, fr: Links) {
    Ring(blk, h.items) && Ring(fr, [HEADER] + h.free)
  }

  lemma ItemsAbove(h: Heap, i: nat)
    requires Layout(h) && i < |h.items|
    ensures h.items[i] >= h.start
  {
    assert i > 0 ==> Gap(h.items, 0, i, HS);
  }

  lemma HeaderApart(h: Heap)
    requires Layout(h)
    ensures HEADER !in h.items
  {
    forall i | 0 <= i < |h.items| ensures h.items[i] != HEADER {
      ItemsAbove(h, i);
    }
  }

  /** The `next` word of item i is item i + 1. */
  lemma NextItem(h: Heap, blk: Links, i: nat)
    requires Ring(blk, h.items) && i + 1 < |h.items|
    ensures h.items[i] in blk.next && blk.next[h.items[i]] == h.items[i + 1]
    ensures h.items[i] in blk.prev && (i > 0 ==> blk.prev[h.items[i]] == h.items[i - 1])
    ensures i == 0 ==> blk.prev[h.items[i]] == h.items[|h.items| - 1]
  {
    assert NodeAt(blk, h.items, i);
  }

  lemma NextFree(h: Heap, fr: Links, k: nat)
    requires Ring(fr, [HEADER] + h.free) && k <= |h.free|
    ensures var a := if k == 0 then HEADER else h.free[k - 1];
      a in fr.next && a in fr.prev && fr.next[a] == if k < |h.free| then h.free[k] else HEADER
  {
    assert NodeAt(fr, [HEADER] + h.free, k);
  }

  // -------------------------------------------------------- edits on the rings

  lemma CutFree(h: Heap, fr: Links, k: nat)
    requires Ring(fr, [HEADER] + h.free) && k < |h.free|
    ensures h.free[k] in fr.next && h.free[k] in fr.prev
    ensures Ring(Cut(fr, h.free[k]), [HEADER] + Dropped(h.free, k))
  {
    var s := [HEADER] + h.free;
    assert s[k + 1] == h.free[k];
    CutRing(fr, s, k + 1);
    assert Dropped(s, k + 1) == [HEADER] + Dropped(h.free, k);
  }

  /** Overwriting the links of a node that left the ring. */
  function Cleared(l: Links, n: Node): Links {
    Links(l.next[n := 0], l.prev[n := 0])
  }

  lemma ClearedRing(l: Links, s: seq<Node>, n: Node)
    requires Ring(l, s) && n !in s
    ensures Ring(Cleared(l, n), s)
  {
    RingFrame(l, Cleared(l, n), s);
  }

  lemma TakeRings(h: Heap, blk: Links, fr: Links, k: nat)
    requires Struct(h) && Rings(h, blk, fr) && k < |h.free| && h.free[k] in h.items
    ensures h.free[k] in fr.next && h.free[k] in fr.prev
    ensures Rings(Take(h, k), blk, Cleared(Cut(fr, h.free[k]), h.free[k]))
  {
    var a := h.free[k];
    CutFree(h, fr, k);
    DistinctDropped(h.free, k);
    HeaderApart(h);
    ClearedRing(Cut(fr, a), [HEADER] + Dropped(h.free, k), a);
  }

  lemma PushFree(h: Heap, fr: Links, a: Addr)
    requires Ring(fr, [HEADER] + h.free) && a !in h.free && a != HEADER
    ensures HEADER in fr.next && Ring(InsertAfter(fr, HEADER, a), [HEADER] + ([a] + h.free))
  {
    InsertAfterRing(fr, [HEADER] + h.free, 0, a);
    assert Inserted([HEADER] + h.free, 1, a) == [HEADER] + ([a] + h.free);
  }

  lemma SplitRings(h: Heap, blk: Links, fr: Links, i: nat, a: Addr)
    requires Struct(h) && Rings(h, blk, fr) && i + 1 < |h.items| && IsUsed(h.used, h.items[i])
    requires h.items[i] + HS <= a && a + HS <= h.items[i + 1]
    ensures h.items[i] in blk.next && HEADER in fr.next
    ensures Rings(Split(h, i, a), InsertAfter(blk, h.items[i], a), InsertAfter(fr, HEADER, a))
  {
    assert a !in h.items by { SplitLayout(h, i, a); }
    ItemsAbove(h, i);
    assert a !in h.free;
    PushFree(h, fr, a);
    InsertAfterRing(blk, h.items, i, a);
  }

  lemma MergeRings(h: Heap, blk: Links, fr: Links, i: nat)
    requires Struct(h) && Rings(h, blk, fr) && i + 2 < |h.items| && h.items[i + 1] in h.free
    ensures var a := h.items[i + 1];
      a in blk.next && a in blk.prev && a in fr.next && a in fr.prev && Rings(Merge(h, i), Cut(blk, a), Cut(fr, a))
  {
    NextItem(h, blk, i + 1);
    CutRing(blk, h.items, i + 1);
    CutFree(h, fr, IndexOf(h.free, h.items[i + 1]));
  }

  // -------------------------------------------------------------- free, refined

  /** The two block-ring stores of a merge of b into its predecessor a. */
  function Absorb(blk: Links, a: Addr, b: Addr): Links
    requires b in blk.next
  {
    Links(blk.next[a := blk.next[b]], blk.prev[blk.next[b] := a])
  }

  lemma AbsorbRing(blk: Links, items: seq<Addr>, i: nat)
    requires Ring(blk, items) && i + 1 < |items|
    ensures items[i + 1] in blk.next && Ring(Absorb(blk, items[i], items[i + 1]), Dropped(items, i + 1))
  {
    assert NodeAt(blk, items, i + 1);
    CutRing(blk, items, i + 1);
  }

  lemma ApartFromFree(h: Heap, i: nat)
    requires FreeOk(h) && i + 1 < |h.items| && IsUsed(h.used, h.items[i])
    ensures h.items[i] !in WithoutRight(h, i)
  {
    var b := h.items[i + 1];
    if b in h.free {
      DroppedIn(h.free, IndexOf(h.free, b));
    }
  }

  lemma {:induction false} FitFrom(items: seq<Addr>, free: seq<Addr>, req: int, k: nat)
    requires k < |free|
    ensures FirstFit(items, free[k..], req) ==
            if SizeOf(items, free[k], HS) >= req then 0 else 1 + FirstFit(items, free[k + 1..], req)
  {
    assert free[k..][1..] == free[k + 1..];
  }

  lemma FreeNotHeader(h: Heap, k: nat)
    requires Layout(h) && FreeOk(h) && k < |h.free|
    ensures h.free[k] != HEADER
  {
    var i := FreeIndex(h, k);
    ItemsAbove(h, i);
  }

  /** The search loop of rt_memheap_alloc. */
  method FindFit(ghost h: Heap, blk: Links, fr: Links, req: nat) returns (header: Addr, freeSize: int)
    requires Struct(h) && Rings(h, blk, fr) && 0 < req
    ensures var k := FirstFit(h.items, h.free, req);
      && (k < |h.free| ==> header == h.free[k] && freeSize == SizeOf(h.items, header, HS) >= req)
      && (k == |h.free| ==> freeSize < req)
  {
    freeSize := 0;
    NextFree(h, fr, 0);
    header := fr.next[HEADER];
    ghost var k := 0;
    assert h.free[0..] == h.free;
    while header != HEADER && freeSize < req
      invariant k <= |h.free| && header == (if k < |h.free| then h.free[k] else HEADER)
      invariant FirstFit(h.items, h.free, req) == k + FirstFit(h.items, h.free[k..], req)
      invariant freeSize >= req ==> k < |h.free| && freeSize == SizeOf(h.items, header, HS)
      decreases |h.free| - k, req - freeSize
    {
      ghost var i := FreeIndex(h, k);
      NextItem(h, blk, i);
      FitFrom(h.items, h.free, req, k);
      freeSize := blk.next[header] - header - HS;
      if freeSize < req {
        NextFree(h, fr, k + 1);
        header := fr.next[header];
        k := k + 1;
      }
    }
    if k < |h.free| {
      FreeNotHeader(h, k);
      FitFrom(h.items, h.free, req, k);
    }
  }

  /** The block ring after the left merge, and where the merged item stands. */
  lemma LeftRing(h: Heap, blk: Links, i: nat)
    requires Ring(blk, h.items) && i + 1 < |h.items| && LeftFree(h, i)
    ensures h.items[i] in blk.next && h.items[i] in blk.prev && blk.prev[h.items[i]] == h.items[i - 1]
    ensures Ring(Cut(blk, h.items[i]), Dropped(h.items, i))
    ensures Dropped(h.items, i)[i - 1] == h.items[i - 1] && Dropped(h.items, i)[i] == h.items[i + 1]
  {
    NextItem(h, blk, i);
    CutRing(blk, h.items, i);
  }

  /** Both rings after the right merge of rt_memheap_free. */
  lemma RightRings(h: Heap, blk: Links, fr: Links, i: nat, its: seq<Addr>, j: nat)
    requires Layout(h) && FreeOk(h) && i + 1 < |h.items| && RightFree(h, i)
    requires Ring(blk, its) && Ring(fr, [HEADER] + h.free) && j + 1 < |its| && its[j + 1] == h.items[i + 1]
    ensures its[j + 1] in blk.next && Ring(Absorb(blk, its[j], its[j + 1]), Dropped(its, j + 1))
    ensures its[j + 1] in fr.next && its[j + 1] in fr.prev && Ring(Cut(fr, its[j + 1]), [HEADER] + WithoutRight(h, i))
  {
    RightIn(h, i);
    AbsorbRing(blk, its, j);
    CutFree(h, fr, IndexOf(h.free, h.items[i + 1]));
  }

  lemma CarveRings(h: Heap, blk: Links, fr: Links, k: nat, i: nat, a: Addr)
    requires Inv(h) && Rings(h, blk, fr) && k < |h.free| && h.free[k] in h.items
    requires i + 1 < |h.items| && i == IndexOf(h.items, h.free[k]) && h.free[k] + HS <= a && a + HS <= h.items[i + 1]
    ensures h.free[k] in blk.next && h.free[k] in fr.next && h.free[k] in fr.prev && HEADER in Cut(fr, h.free[k]).next
    ensures Rings(Split(Take(h, k), i, a), InsertAfter(blk, h.free[k], a),
                  InsertAfter(Cleared(Cut(fr, h.free[k]), h.free[k]), HEADER, a))
  {
    var j := CarveTake(h, k);
    TakeRings(h, blk, fr, k);
    SplitRings(Take(h, k), blk, Cleared(Cut(fr, h.free[k]), h.free[k]), i, a);
    HeaderApart(h);
  }

  lemma RingsSame(h: Heap, r: Heap, blk: Links, fr: Links)
    requires Rings(h, blk, fr) && r.items == h.items && r.free == h.free
    ensures Rings(r, blk, fr)
  {
  }

  lemma SwapFlags(u: map<Addr, bool>, a: Addr, b: Addr)
    requires a != b
    ensures u[a := true][b := false] == u[b := false][a := true]
  {
  }

  // ------------------------------------------------------- the code, on values

  /** The words of the headers, the counters and the payload of a pool. */
  datatype Core = Core(blk: Links, fr: Links, used: map<Addr, bool>, available: int, maxUsed: int, data: map<Addr, int>)

  /** The words spell out the heap h. */
  ghost predicate Repr(c: Core, h: Heap) {
    c.used == h.used && c.available == h.available && c.maxUsed == h.maxUsed && c.data == h.data &&
      Rings(h, c.blk, c.fr)
  }

  /** The split branch of rt_memheap_alloc, up to the flag of the taken item. */
  method SplitTaken(c: Core, header: Addr, req: nat, ghost h: Heap, ghost k: nat, ghost i: nat) returns (d: Core)
    requires Inv(h) && Repr(c, h) && k < |h.free| && header == h.free[k] && header in h.items
    requires i + 1 < |h.items| && i == IndexOf(h.items, header) && SizeAt(h.items, i, HS) >= req + HS
    ensures var r := Split(Take(h, k), i, header + req + HS); Repr(d, r.(used := h.used[header + req + HS := false]))
  {
    var a := header + req + HS;
    CarveRings(h, c.blk, c.fr, k, i, a);
    var blk := InsertAfter(c.blk, header, a);
    var fr := Cleared(Cut(c.fr, header), header);
    fr := InsertAfter(fr, HEADER, a);
    d := Core(blk, fr, c.used[a := false], c.available - req - HS, c.maxUsed, Clobber(c.data, a, HS));
    RingsSame(Split(Take(h, k), i, a), Split(Take(h, k), i, a).(used := h.used[a := false]), blk, fr);
  }

  method WholeTaken(c: Core, header: Addr, freeSize: int, ghost h: Heap, ghost k: nat) returns (d: Core)
    requires Inv(h) && Repr(c, h) && k < |h.free| && header == h.free[k] && header in h.items &&
             freeSize == SizeOf(h.items, header, HS)
    ensures Repr(d, Take(h, k).(used := h.used))
  {
    TakeRings(h, c.blk, c.fr, k);
    d := c.(available := c.available - freeSize, fr := Cleared(Cut(c.fr, header), header));
    RingsSame(Take(h, k), Take(h, k).(used := h.used), d.blk, d.fr);
  }

  lemma Marked(c: Core, h: Heap, m: int, u: map<Addr, bool>)
    requires Repr(c, h)
    ensures Repr(c.(maxUsed := m, used := u), h.(maxUsed := m, used := u))
  {
  }

  method TakeFit(c: Core, pool: int, header: Addr, freeSize: int, req: nat, ghost h: Heap, ghost k: nat)
    returns (d: Core)
    requires Inv(h) && Repr(c, h) && h.pool == pool && k < |h.free| && header == h.free[k] && header in h.items
    requires freeSize == SizeOf(h.items, header, HS)
    ensures Repr(d, Mark(Carve(h, k, req)))
  {
    ghost var i := FreeIndex(h, k);
    ghost var r;
    if freeSize >= req + HS + MIN {
      SwapFlags(c.used, header, header + req + HS);
      d := SplitTaken(c, header, req, h, k, i);
      r := Split(Take(h, k), i, header + req + HS).(used := h.used[header + req + HS := false]);
    } else {
      d := WholeTaken(c, header, freeSize, h, k);
      r := Take(h, k).(used := h.used);
    }
    var peak := if pool - d.available > d.maxUsed then pool - d.available else d.maxUsed;
    Marked(d, r, peak, d.used[header := true]);
    d := d.(maxUsed := peak, used := d.used[header := true]);
    assert Mark(Carve(h, k, req)) == r.(maxUsed := peak, used := r.used[header := true]);
  }

  /** rt_memheap_alloc below its alignment of the size. */
  method DoAlloc(c: Core, pool: int, req: nat, ghost h: Heap) returns (d: Core, p: Ptr)
    requires Inv(h) && Repr(c, h) && h.pool == pool && 0 < req
    ensures Repr(d, AllocSpec(h, req).0) && p == AllocSpec(h, req).1
  {
    d, p := c, Null;
    if req < c.available {
      var header, freeSize := FindFit(h, c.blk, c.fr, req);
      if freeSize >= req {
        ghost var k := FirstFit(h.items, h.free, req);
        ghost var i := FreeIndex(h, k);
        d := TakeFit(c, pool, header, freeSize, req, h, k);
        p := To(header);
      }
    }
  }

  // ---------------------------------------------------------------------- free

  /** The left merge of rt_memheap_free: the item that now holds the bytes. */
  method MergeLeft(c: Core, a: Addr, ghost h: Heap, ghost i: nat) returns (d: Core, header: Addr, insert: bool)
    requires Layout(h) && Ring(c.blk, h.items) && i + 1 < |h.items| && h.items[i] == a && c.used == h.used[a := false]
    ensures insert == !LeftFree(h, i) && header == h.items[if insert then i else i - 1]
    ensures d == c.(blk := d.blk, available := c.available + (if insert then 0 else HS))
    ensures Ring(d.blk, if insert then h.items else Dropped(h.items, i))
    ensures !insert ==> Dropped(h.items, i)[i - 1] == header && Dropped(h.items, i)[i] == h.items[i + 1]
  {
    NextItem(h, c.blk, i);
    d, header, insert := c, a, true;
    var before := c.blk.prev[header];
    assert i > 0 ==> Gap(h.items, i - 1, i, HS);
    assert Gap(h.items, i, |h.items| - 1, HS);
    if !IsUsed(c.used, before) {
      LeftRing(h, c.blk, i);
      d := c.(available := c.available + HS, blk := Cut(c.blk, header));
      header, insert := before, false;
    }
  }

  /** The right merge of rt_memheap_free; `h` is the heap it began with. */
  method MergeRight(c: Core, header: Addr, ghost h: Heap, ghost i: nat, ghost its: seq<Addr>, ghost j: nat)
    returns (d: Core)
    requires Layout(h) && FreeOk(h) && i + 1 < |h.items| && c.used == h.used[h.items[i] := false]
    requires Ring(c.blk, its) && Ring(c.fr, [HEADER] + h.free)
    requires j + 1 < |its| && its[j] == header && its[j + 1] == h.items[i + 1]
    ensures d == c.(blk := d.blk, fr := d.fr, available := c.available + (if RightFree(h, i) then HS else 0))
    ensures Ring(d.blk, if RightFree(h, i) then Dropped(its, j + 1) else its) &&
            Ring(d.fr, [HEADER] + WithoutRight(h, i))
  {
    assert NodeAt(c.blk, its, j);
    RightIn(h, i);
    assert Gap(h.items, i, i + 1, HS);
    d := c;
    var after := c.blk.next[header];
    if !IsUsed(c.used, after) {
      RightRings(h, c.blk, c.fr, i, its, j);
      d := c.(available := c.available + HS, blk := Absorb(c.blk, header, after), fr := Cut(c.fr, after));
    }
  }

  /** The end of rt_memheap_free: insert the block unless it was merged to the left. */
  lemma FreeInsert(h: Heap, i: nat, d: Core)
    requires Layout(h) && FreeOk(h) && i + 1 < |h.items| && IsUsed(h.used, h.items[i]) && !LeftFree(h, i)
    requires Ring(d.fr, [HEADER] + WithoutRight(h, i))
    ensures HEADER in d.fr.next && Ring(InsertAfter(d.fr, HEADER, h.items[i]), [HEADER] + FreedRing(h, i))
  {
    assert h.items[i] !in WithoutRight(h, i) by { ApartFromFree(h, i); }
    ItemsAbove(h, i);
    PushFree(h.(free := WithoutRight(h, i)), d.fr, h.items[i]);
  }

  lemma FreedFrom(h: Heap, i: nat, its: seq<Addr>, j: nat)
    requires i + 1 < |h.items| && (RightFree(h, i) ==> i + 2 < |h.items|)
    requires j == (if LeftFree(h, i) then i - 1 else i) &&
             its == (if LeftFree(h, i) then Dropped(h.items, i) else h.items)
    ensures FreedItems(h, i) == if RightFree(h, i) then Dropped(its, j + 1) else its
  {
  }

  lemma FreeDone(h: Heap, i: nat, d: Core)
    requires Layout(h) && FreeOk(h) && i + 1 < |h.items| && IsUsed(h.used, h.items[i])
    requires Ring(d.blk, FreedItems(h, i)) && Ring(d.fr, [HEADER] + WithoutRight(h, i))
    requires d.used == h.used[h.items[i] := false] && d.maxUsed == h.maxUsed && d.data == h.data
    requires d.available == h.available + FreedBytes(h, i)
    ensures LeftFree(h, i) ==> Repr(d, Freed(h, i))
    ensures !LeftFree(h, i) ==>
      HEADER in d.fr.next && Repr(d.(fr := InsertAfter(d.fr, HEADER, h.items[i])), Freed(h, i))
  {
    if !LeftFree(h, i) {
      FreeInsert(h, i, d);
    }
  }

  /** rt_memheap_free of a live block. */
  method DoFree(c: Core, a: Addr, ghost h: Heap, ghost i: nat) returns (d: Core)
    requires Layout(h) && FreeOk(h) && Repr(c, h) && i + 1 < |h.items| && h.items[i] == a && IsUsed(h.used, a)
    ensures Repr(d, Freed(h, i))
  {
    NextItem(h, c.blk, i);
    d := c.(used := c.used[a := false], available := c.available + (c.blk.next[a] - a - HS));
    var header, insert;
    d, header, insert := MergeLeft(d, a, h, i);
    ghost var j := if insert then i else i - 1;
    ghost var its := if insert then h.items else Dropped(h.items, i);
    d := MergeRight(d, header, h, i, its, j);
    RightIn(h, i);
    FreedFrom(h, i, its, j);
    FreeDone(h, i, d);
    if insert {
      d := d.(fr := InsertAfter(d.fr, HEADER, header));
    }
  }

  // ------------------------------------------------------------------- realloc

  lemma GrowRings(h: Heap, blk: Links, fr: Links, i: nat, a: Addr)
    requires Inv(h) && Rings(h, blk, fr) && i + 2 < |h.items| && h.items[i + 1] in h.free && IsUsed(h.used, h.items[i])
    requires h.items[i] + HS <= a && a + HS <= h.items[i + 2]
    ensures var b := h.items[i + 1];
      && b in blk.next && b in blk.prev && b in fr.next && b in fr.prev
      && h.items[i] in Cut(blk, b).next && HEADER in Cut(fr, b).next
      && Rings(Split(Merge(h, i), i, a), InsertAfter(Cut(blk, b), h.items[i], a), InsertAfter(Cut(fr, b), HEADER, a))
  {
    var b := h.items[i + 1];
    MergeRings(h, blk, fr, i);
    GrowMerge(h, i);
    SplitRings(Merge(h, i), Cut(blk, b), Cut(fr, b), i, a);
  }

  /** Growth in place, with room for the rest of the successor. */
  method DoGrow(c: Core, pool: int, header: Addr, next: Addr, a: Addr, ghost h: Heap, ghost i: nat) returns (d: Core)
    requires Inv(h) && Repr(c, h) && h.pool == pool && i + 2 < |h.items| && h.items[i] == header &&
             h.items[i + 1] == next
    requires next in h.free && IsUsed(h.used, header) && header + HS <= a && a + HS <= h.items[i + 2]
    ensures Repr(d, GrowSpec(h, i, a))
  {
    GrowRings(h, c.blk, c.fr, i, a);
    var available := c.available - (a - next);
    var peak := if pool - available > c.maxUsed then pool - available else c.maxUsed;
    var fr, blk := Cut(c.fr, next), Cut(c.blk, next);
    blk := InsertAfter(blk, header, a);
    fr := InsertAfter(fr, HEADER, a);
    d := Core(blk, fr, c.used[a := false], available, peak, Clobber(c.data, a, HS));
    RingsSame(Split(Merge(h, i), i, a), GrowSpec(h, i, a), blk, fr);
  }

  ghost function CutItems(h: Heap, i: nat, a: Addr): seq<Addr>
    requires i + 1 < |h.items|
  {
    var its := Inserted(h.items, i + 1, a);
    if RightFree(h, i) && i + 2 < |its| then Dropped(its, i + 2) else its
  }

  lemma ShrinkItems(h: Heap, i: nat, a: Addr)
    requires Inv(h) && i + 1 < |h.items| && IsUsed(h.used, h.items[i]) && a != h.items[i + 1]
    ensures var r := ShrinkSpec(h, i, a); r.items == CutItems(h, i, a) && r.free == [a] + WithoutRight(h, i)
  {
    RightIn(h, i);
    InsertedAt(h.items, i + 1, a, i + 2);
    if RightFree(h, i) {
      ConsDrop(a, h.free, h.items[i + 1]);
    }
  }

  lemma ShrinkFields(h: Heap, i: nat, a: Addr)
    requires Inv(h) && i + 1 < |h.items| && IsUsed(h.used, h.items[i]) && a != h.items[i + 1]
    ensures var r := ShrinkSpec(h, i, a);
      r == Heap(h.start, h.pool, r.items, h.used[a := false], r.free,
                h.available + (h.items[i + 1] - a - HS) + (if RightFree(h, i) then HS else 0), h.maxUsed,
                Clobber(h.data, a, HS))
  {
    RightIn(h, i);
    InsertedAt(h.items, i + 1, a, i + 1);
    InsertedAt(h.items, i + 1, a, i + 2);
  }

  /** The rings while the tail of item i is cut off. */
  lemma ShrinkRings(h: Heap, blk: Links, fr: Links, i: nat, a: Addr)
    requires Inv(h) && Rings(h, blk, fr) && i + 1 < |h.items| && IsUsed(h.used, h.items[i])
    requires h.items[i] + HS <= a && a + HS <= h.items[i + 1]
    ensures h.items[i] in blk.next
    ensures var m := InsertAfter(blk, h.items[i], a);
      && a in m.next && m.next[a] == h.items[i + 1]
      && Ring(m, Inserted(h.items, i + 1, a))
      && (RightFree(h, i) ==>
        && m.next[a] in m.next && m.next[a] in fr.next && m.next[a] in fr.prev
        && Ring(Absorb(m, a, m.next[a]), Dropped(Inserted(h.items, i + 1, a), i + 2))
        && Ring(Cut(fr, m.next[a]), [HEADER] + WithoutRight(h, i)))
  {
    var its, m := Inserted(h.items, i + 1, a), InsertAfter(blk, h.items[i], a);
    RightIn(h, i);
    assert a !in h.items by { SplitLayout(h, i, a); }
    InsertAfterRing(blk, h.items, i, a);
    InsertedAt(h.items, i + 1, a, i + 1);
    InsertedAt(h.items, i + 1, a, i + 2);
    assert NodeAt(m, its, i + 1);
    if RightFree(h, i) {
      RightRings(h, m, fr, i, its, i + 1);
    }
  }

  /** The end of a shrink: the tail goes to the head of the free ring. */
  lemma ShrinkDone(h: Heap, i: nat, a: Addr, d: Core)
    requires Inv(h) && i + 1 < |h.items| && IsUsed(h.used, h.items[i])
    requires h.items[i] + HS <= a && a + HS <= h.items[i + 1]
    requires Ring(d.blk, CutItems(h, i, a)) && Ring(d.fr, [HEADER] + WithoutRight(h, i))
    requires d.used == h.used[a := false] && d.maxUsed == h.maxUsed && d.data == Clobber(h.data, a, HS)
    requires d.available == h.available + (h.items[i + 1] - a - HS) + (if RightFree(h, i) then HS else 0)
    ensures HEADER in d.fr.next && Repr(d.(fr := InsertAfter(d.fr, HEADER, a)), ShrinkSpec(h, i, a))
  {
    ShrinkItems(h, i, a);
    ShrinkFields(h, i, a);
    ItemsAbove(h, i);
    assert a !in WithoutRight(h, i) by {
      SplitLayout(h, i, a);
      assert a !in h.free;
      if h.items[i + 1] in h.free {
        DroppedIn(h.free, IndexOf(h.free, h.items[i + 1]));
      }
    }
    PushFree(h.(free := WithoutRight(h, i)), d.fr, a);
  }

  /** Cut the block down and merge its tail with a free successor. */
  method DoShrink(c: Core, header: Addr, a: Addr, ghost h: Heap, ghost i: nat) returns (d: Core)
    requires Inv(h) && Repr(c, h) && i + 1 < |h.items| && h.items[i] == header && IsUsed(h.used, header)
    requires header + HS <= a && a + HS <= h.items[i + 1]
    ensures Repr(d, ShrinkSpec(h, i, a))
  {
    ShrinkRings(h, c.blk, c.fr, i, a);
    RightIn(h, i);
    var blk, fr, available := InsertAfter(c.blk, header, a), c.fr, c.available;
    var b := blk.next[a];
    if !IsUsed(c.used, b) {
      NextItem(h, c.blk, i + 1);
      assert blk.next[b] == h.items[i + 2];
      available := available - (blk.next[b] - b - HS);
      blk := Absorb(blk, a, b);
      fr := Cut(fr, b);
    }
    available := available + (blk.next[a] - a - HS);
    d := Core(blk, fr, c.used[a := false], available, c.maxUsed, Clobber(c.data, a, HS));
    ShrinkDone(h, i, a, d);
    d := d.(fr := InsertAfter(d.fr, HEADER, a));
  }

  method DoMove(c: Core, pool: int, header: Addr, size: int, req: nat, ghost h: Heap, ghost i: nat)
    returns (d: Core, p: Ptr)
    requires Inv(h) && Repr(c, h) && h.pool == pool && 0 < req
    requires i + 1 < |h.items| && h.items[i] == header && IsUsed(h.used, header) && size == SizeAt(h.items, i, HS)
    ensures Repr(d, MoveSpec(h, i, req).0) && p == MoveSpec(h, i, req).1
  {
    d, p := DoAlloc(c, pool, req, h);
    if p != Null {
      ghost var m, j := MoveStart(h, i, req);
      ghost var t := Transfer(m, header, p.block, size);
      d := d.(data := Copy(d.data, p.block + HS, header + HS, size));
      TransferInv(m, header, p.block, size);
      RingsSame(m, t, d.blk, d.fr);
      d := DoFree(d, header, t, j);
      FreeIs(t, j);
    }
  }

  /** The guard of growth in place. */
  method HasRoom(c: Core, next: Addr, size: int, req: nat, ghost h: Heap, ghost i: nat) returns (ok: bool)
    requires Inv(h) && Repr(c, h) && size < req
    requires i + 1 < |h.items| && h.items[i + 1] == next && size == SizeAt(h.items, i, HS)
    ensures ok == CanGrow(h, i, req)
  {
    RightIn(h, i);
    assert Gap(h.items, i, i + 1, HS);
    ok := false;
    if !IsUsed(c.used, next) {
      NextItem(h, c.blk, i + 1);
      assert Gap(h.items, i + 1, i + 2, HS);
      ok := Grows(size, c.blk.next[next] - next - HS, req);
    }
  }

  /** Growth: in place where the successor has room, else by moving. */
  method DoEnlarge(c: Core, pool: int, header: Addr, next: Addr, size: int, req: nat, ghost h: Heap, ghost i: nat)
    returns (d: Core, p: Ptr)
    requires Inv(h) && Repr(c, h) && h.pool == pool && size < req && 0 < req
    requires i + 1 < |h.items| && !Overruns(h, i, req)
    requires h.items[i] == header && h.items[i + 1] == next && IsUsed(h.used, header) && size == SizeAt(h.items, i, HS)
    ensures Repr(d, EnlargeSpec(h, i, req).0) && p == EnlargeSpec(h, i, req).1
  {
    var ok := HasRoom(c, next, size, req, h, i);
    if ok {
      var a := header + HS + req;
      EnlargeGrows(h, i, req, a);
      d := DoGrow(c, pool, header, next, a, h, i);
      p := To(header);
    } else {
      d, p := DoMove(c, pool, header, size, req, h, i);
    }
  }

  /** rt_memheap_realloc of a live block to an aligned size. */
  method DoResize(c: Core, pool: int, header: Addr, req: nat, ghost h: Heap, ghost i: nat) returns (d: Core, p: Ptr)
    requires Inv(h) && Repr(c, h) && h.pool == pool && 0 < req
    requires i + 1 < |h.items| && !Overruns(h, i, req) && h.items[i] == header && IsUsed(h.used, header)
    ensures Repr(d, ResizeSpec(h, i, req).0) && p == ResizeSpec(h, i, req).1
  {
    NextItem(h, c.blk, i);
    d, p := c, To(header);
    var next := c.blk.next[header];
    var size := next - header - HS;
    if req > size {
      d, p := DoEnlarge(c, pool, header, next, size, req, h, i);
      assert ResizeSpec(h, i, req) == EnlargeSpec(h, i, req);
    } else if req + HS + MIN < size {
      var a := header + HS + req;
      d := DoShrink(c, header, a, h, i);
      ResizeShrinks(h, i, req, a);
    } else {
      assert ResizeSpec(h, i, req) == (h, p);
    }
  }

  /** rt_memheap_free. */
  method FreeCore(c: Core, p: Ptr, ghost h: Heap) returns (d: Core)
    requires Inv(h) && Repr(c, h) && Owned(h, p)
    ensures Repr(d, FreePtr(h, p))
  {
    d := c;
    if p != Null {
      d := FreeBlock(c, p.block, h);
    }
  }

  method FreeBlock(c: Core, header: Addr, ghost h: Heap) returns (d: Core)
    requires Inv(h) && Repr(c, h) && Live(h, header)
    ensures Repr(d, FreeAt(h, header))
  {
    ghost var i := LiveIndex(h, header);
    FreeIs(h, i);
    d := DoFree(c, header, h, i);
  }

  /** rt_memheap_realloc. */
  method ReallocCore(c: Core, pool: int, p: Ptr, size: nat, ghost h: Heap) returns (d: Core, q: Ptr)
    requires Inv(h) && Repr(c, h) && h.pool == pool && Owned(h, p) && !Overrun(h, Op.Realloc(p, size))
    ensures Repr(d, ReallocPtr(h, p, size).0) && q == ReallocPtr(h, p, size).1
  {
    if size == 0 {
      d := FreeCore(c, p, h);
      return d, Null;
    }
    var req := Request(size);
    if p == Null {
      d, q := DoAlloc(c, pool, req, h);
    } else {
      d, q := ResizeCore(c, pool, p.block, req, h);
    }
  }

  method ResizeCore(c: Core, pool: int, header: Addr, req: nat, ghost h: Heap) returns (d: Core, q: Ptr)
    requires Inv(h) && Repr(c, h) && h.pool == pool && Live(h, header) && 0 < req && !OverrunsAt(h, header, req)
    ensures Repr(d, ResizeBlock(h, header, req).0) && q == ResizeBlock(h, header, req).1
  {
    ghost var i := LiveIndex(h, header);
    d, q := DoResize(c, pool, header, req, h, i);
  }

  // ---------------------------------------------------------------- the object

  class Pool {
    const start: Addr
    const pool: nat
    var blk: Links
    var fr: Links
    var used: map<Addr, bool>
    var available: int
    var maxUsed: int
    var data: map<Addr, int>
    ghost var view: Heap

    /** The header words and counters spell out the heap `view`. */
    ghost predicate Valid()
      reads this
    {
      && Inv(view) && Repr(Core(blk, fr, used, available, maxUsed, data), view)
      && view.start == start && view.pool == pool && pool < WORD
    }

    /** rt_memheap_init. */
    constructor (addr: nat, size: nat)
      requires 2 * HS <= size / 4 * 4 && addr + size <= WORD && size < WORD
      ensures Valid() && view == Fresh(addr, size / 4 * 4)
    {
      var poolSize := size / 4 * 4;
      var room := poolSize - 2 * HS;
      var tail := addr + room + HS;
      start := addr;
      pool := poolSize;
      available := room;
      maxUsed := poolSize - room;
      blk := Links(map[addr := tail, tail := addr], map[addr := tail, tail := addr]);
      fr := InsertAfter(Init(Links(map[], map[]), HEADER), HEADER, addr);
      used := map[addr := false, tail := true];
      data := map[];
      view := Fresh(addr, poolSize);
      new;
      FreshInv(addr, poolSize);
      FreshRings(addr, tail);
    }

    method Update(d: Core, ghost h: Heap)
      requires Inv(h) && Repr(d, h) && h.start == start && h.pool == pool && pool < WORD
      modifies this
      ensures Valid() && view == h
    {
      blk, fr, used, available, maxUsed, data := d.blk, d.fr, d.used, d.available, d.maxUsed, d.data;
      view := h;
    }

    /** rt_memheap_alloc. */
    method Alloc(size: nat) returns (p: Ptr)
      requires Valid() && size < WORD
      modifies this
      ensures Valid() && (view, p) == Step(old(view), Op.Alloc(size))
    {
      var d;
      StepKeeps(view, Op.Alloc(size), 0);
      d, p := DoAlloc(Core(blk, fr, used, available, maxUsed, data), pool, Request(size), view);
      Update(d, Step(view, Op.Alloc(size)).0);
    }

    /** rt_memheap_free. */
    method Free(p: Ptr)
      requires Valid() && Owned(view, p)
      modifies this
      ensures Valid() && view == Step(old(view), Op.Free(p)).0
    {
      StepKeeps(view, Op.Free(p), 0);
      var d := FreeCore(Core(blk, fr, used, available, maxUsed, data), p, view);
      Update(d, Step(view, Op.Free(p)).0);
    }

    /** rt_memheap_realloc. */
    method Realloc(p: Ptr, size: nat) returns (q: Ptr)
      requires Valid() && Legal(view, Op.Realloc(p, size)) && !Overrun(view, Op.Realloc(p, size))
      modifies this
      ensures Valid() && (view, q) == Step(old(view), Op.Realloc(p, size))
    {
      var d;
      StepKeeps(view, Op.Realloc(p, size), 0);
      d, q := ReallocCore(Core(blk, fr, used, available, maxUsed, data), pool, p, size, view);
      Update(d, Step(view, Op.Realloc(p, size)).0);
    }
  }

  lemma FreshRings(addr: nat, tail: int)
    requires addr < tail
    ensures Ring(Links(map[addr := tail, tail := addr], map[addr := tail, tail := addr]), [addr, tail])
    ensures Ring(InsertAfter(Init(Links(map[], map[]), HEADER), HEADER, addr), [HEADER] + [addr])
  {
    var l, s := Links(map[addr := tail, tail := addr], map[addr := tail, tail := addr]), [addr, tail];
    assert NodeAt(l, s, 0) && NodeAt(l, s, 1);
    var m := Init(Links(map[], map[]), HEADER);
    assert NodeAt(m, [HEADER], 0);
    InsertAfterRing(m, [HEADER], 0, addr);
    assert Inserted([HEADER], 1, addr) == [HEADER] + [addr];
  }
}
