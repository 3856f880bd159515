/** rt_malloc, rt_free and rt_realloc of src/mem.c as they run on the headers in
    memory: the next and prev words, the search and the lfree loops. */
module SmallHeap {
  import opened RtList
  import opened Tiling
  import opened Payload
  import opened SmallHeapSpec
  import opened SmallHeapOps
  import opened SmallHeapShrink
  import opened SmallHeapFrame
  import opened SmallHeapRealloc
  import opened SmallHeapRuns

  /** The words of the headers, lfree, the counters and the payload. */
  datatype Words = Words(next: map<Addr, Addr>, prev: map<Addr, Addr>, used: map<Addr, bool>, lfree: Addr,
                         usedMem: int, maxMem: int, data: map<Addr, int>)

  ghost predicate NextOk(next: map<Addr, Addr>, items: seq<Addr>, i: nat)
    requires i < |items|
  {
    items[i] in next && next[items[i]] == items[if i + 1 < |items| then i + 1 else i]
  }

  ghost predicate PrevOk(prev: map<Addr, Addr>, items: seq<Addr>, i: nat)
    requires i < |items|
  {
    items[i] in prev && prev[items[i]] == items[if i > 0 then i - 1 else i]
  }

  /** The words lead through the blocks both ways; only heap_end's own prev is left
      to chance. */
  ghost predicate Wired(next: map<Addr, Addr>, prev: map<Addr, Addr>, items: seq<Addr>) {
    && (forall i :: 0 <= i < |items| ==> NextOk(next, items, i))
    && (forall i :: 0 <= i < |items| - 1 ==> PrevOk(prev, items, i))
  }

  ghost predicate Repr(w: Words, h: Heap) {
    && Wired(w.next, w.prev, h.items) && w.used == h.used && w.lfree == h.lfree
    && w.usedMem == h.usedMem && w.maxMem == h.maxMem && w.data == h.data
  }

  // ---------------------------------------------------------------- the two edits

  /** A new header at a, between p and its successor. */
  function Insert(w: Words, p: Addr, a: Addr, end: Addr): Words
    requires p in w.next
  {
    var n := w.next[p];
    var prev := w.prev[a := p];
    w.(next := w.next[a := n][p := a], prev := if n != end then prev[n := a] else prev)
  }

  /** The header at n, the successor of p, is forgotten. */
  function Absorb(w: Words, p: Addr, n: Addr): Words
    requires n in w.next
  {
    w.(next := w.next[p := w.next[n]], prev := w.prev[w.next[n] := p])
  }

  lemma InsertWired(w: Words, items: seq<Addr>, i: nat, a: Addr)
    requires Wired(w.next, w.prev, items) && Distinct(items) && i + 1 < |items| && a !in items
    ensures items[i] in w.next
    ensures var v := Insert(w, items[i], a, items[|items| - 1]); Wired(v.next, v.prev, Inserted(items, i + 1, a))
  {
    assert NextOk(w.next, items, i);
    var v, r := Insert(w, items[i], a, items[|items| - 1]), Inserted(items, i + 1, a);
    forall k | 0 <= k < |r| ensures NextOk(v.next, r, k) && (k < |r| - 1 ==> PrevOk(v.prev, r, k)) {
      InsertWiredAt(w, items, i, a, k);
    }
  }

  lemma InsertWiredAt(w: Words, items: seq<Addr>, i: nat, a: Addr, k: nat)
    requires Wired(w.next, w.prev, items) && Distinct(items) && i + 1 < |items| && a !in items && k <= |items|
    requires items[i] in w.next
    ensures var v := Insert(w, items[i], a, items[|items| - 1]);
      NextOk(v.next, Inserted(items, i + 1, a), k) && (k < |items| ==> PrevOk(v.prev, Inserted(items, i + 1, a), k))
  {
    InsertNextAt(w, items, i, a, k);
    if k < |items| {
      InsertPrevAt(w, items, i, a, k);
    }
  }

  lemma InsertNextAt(w: Words, items: seq<Addr>, i: nat, a: Addr, k: nat)
    requires Wired(w.next, w.prev, items) && Distinct(items) && i + 1 < |items| && a !in items && k <= |items|
    requires items[i] in w.next
    ensures NextOk(Insert(w, items[i], a, items[|items| - 1]).next, Inserted(items, i + 1, a), k)
  {
    var j := if k <= i then k else if k == i + 1 then i else k - 1;
    assert NextOk(w.next, items, j) && NextOk(w.next, items, i);
    InsertedAt(items, i + 1, a, k);
    InsertedAt(items, i + 1, a, if k < |items| then k + 1 else k);
    assert items[j] in items;
  }

  lemma InsertPrevAt(w: Words, items: seq<Addr>, i: nat, a: Addr, k: nat)
    requires Wired(w.next, w.prev, items) && Distinct(items) && i + 1 < |items| && a !in items && k < |items|
    requires items[i] in w.next
    ensures PrevOk(Insert(w, items[i], a, items[|items| - 1]).prev, Inserted(items, i + 1, a), k)
  {
    var j := if k <= i then k else if k == i + 1 then i else k - 1;
    assert NextOk(w.next, items, i) && PrevOk(w.prev, items, j);
    InsertedAt(items, i + 1, a, k);
    InsertedAt(items, i + 1, a, if k > 0 then k - 1 else k);
    assert items[j] in items && items[i + 1] in items;
  }

  lemma AbsorbWired(w: Words, items: seq<Addr>, i: nat)
    requires Wired(w.next, w.prev, items) && Distinct(items) && i + 2 < |items|
    ensures items[i + 1] in w.next
    ensures var v := Absorb(w, items[i], items[i + 1]); Wired(v.next, v.prev, Dropped(items, i + 1))
  {
    assert NextOk(w.next, items, i + 1);
    var v, r := Absorb(w, items[i], items[i + 1]), Dropped(items, i + 1);
    forall k | 0 <= k < |r| ensures NextOk(v.next, r, k) {
      AbsorbNextAt(w, items, i, k);
    }
    forall k | 0 <= k < |r| - 1 ensures PrevOk(v.prev, r, k) {
      AbsorbPrevAt(w, items, i, k);
    }
  }

  lemma AbsorbNextAt(w: Words, items: seq<Addr>, i: nat, k: nat)
    requires Wired(w.next, w.prev, items) && Distinct(items) && i + 2 < |items| && k < |items| - 1 &&
             items[i + 1] in w.next
    ensures NextOk(Absorb(w, items[i], items[i + 1]).next, Dropped(items, i + 1), k)
  {
    var r := Dropped(items, i + 1);
    assert NextOk(w.next, items, if k <= i then k else k + 1) && NextOk(w.next, items, i + 1);
    DroppedAt(items, i + 1, k);
    DroppedAt(items, i + 1, if k + 1 < |r| then k + 1 else k);
  }

  lemma AbsorbPrevAt(w: Words, items: seq<Addr>, i: nat, k: nat)
    requires Wired(w.next, w.prev, items) && Distinct(items) && i + 2 < |items| && k < |items| - 2 &&
             items[i + 1] in w.next
    ensures PrevOk(Absorb(w, items[i], items[i + 1]).prev, Dropped(items, i + 1), k)
  {
    assert PrevOk(w.prev, items, if k <= i then k else k + 1) && NextOk(w.next, items, i + 1);
    DroppedAt(items, i + 1, k);
    DroppedAt(items, i + 1, if k > 0 then k - 1 else k);
  }

  // ------------------------------------------------------------------- plug_holes

  method Plug(w: Words, mem: Addr, end: Addr, ghost h: Heap, ghost i: nat) returns (v: Words)
    requires Repr(w, h) && Layout(h) && i + 1 < |h.items| && h.items[i] == mem && end == End(h)
    ensures Repr(v, PlugHoles(h, i))
  {
    TiledDistinct(h.items, SH);
    assert NextOk(w.next, h.items, i);
    assert i + 2 < |h.items| ==> Gap(h.items, i + 1, |h.items| - 1, SH);
    ghost var f := PlugForward(h, i);
    v := w;
    var n := w.next[mem];
    if !IsUsed(w.used, n) && n != end {
      AbsorbWired(w, h.items, i);
      FuseLayout(h, i);
      v := Absorb(w, mem, n).(lfree := if w.lfree == n then mem else w.lfree);
    }
    v := PlugBack(v, mem, f, i);
  }

  method PlugBack(w: Words, mem: Addr, ghost h: Heap, ghost i: nat) returns (v: Words)
    requires Repr(w, h) && Layout(h) && i + 1 < |h.items| && h.items[i] == mem
    ensures Repr(v, PlugBackward(h, i))
  {
    TiledDistinct(h.items, SH);
    assert NextOk(w.next, h.items, i) && PrevOk(w.prev, h.items, i);
    v := w;
    var p := w.prev[mem];
    if p != mem && !IsUsed(w.used, p) {
      AbsorbWired(w, h.items, i - 1);
      v := Absorb(w, p, mem).(lfree := if w.lfree == mem then p else w.lfree);
    }
  }

  // ----------------------------------------------------------------------- malloc

  /** The search loop of rt_malloc, from lfree up. */
  method Search(w: Words, size: int, req: nat, ghost h: Heap) returns (found: bool, ptr: Addr, ghost i: nat)
    requires Repr(w, h) && Layout(h) && h.lfree in h.items && size == h.size
    ensures i == Fit(h.items, h.used, h.size - req, req, IndexOf(h.items, h.lfree))
    ensures found <==> i < |h.items|
    ensures found ==> i + 1 < |h.items| && ptr == h.items[i]
  {
    ptr := w.lfree;
    i := IndexOf(h.items, h.lfree);
    while ptr < size - req
      invariant i < |h.items| && ptr == h.items[i]
      invariant Fit(h.items, h.used, h.size - req, req, IndexOf(h.items, h.lfree)) ==
                Fit(h.items, h.used, h.size - req, req, i)
      decreases |h.items| - i
    {
      assert NextOk(w.next, h.items, i);
      assert i + 1 < |h.items|;
      if !IsUsed(w.used, ptr) && w.next[ptr] - (ptr + SH) >= req {
        return true, ptr, i;
      }
      ptr, i := w.next[ptr], i + 1;
    }
    found, i := false, |h.items|;
  }

  /** The loop that moves lfree up to the next free block. */
  method Climb(w: Words, from: Addr, end: Addr, ghost h: Heap, ghost i: nat) returns (low: Addr)
    requires Wired(w.next, w.prev, h.items) && w.used == h.used && Layout(h) && i < |h.items| && from == h.items[i] &&
             end == End(h)
    ensures low == h.items[FreeFrom(h.items, h.used, i)]
  {
    low := from;
    ghost var j := i;
    while IsUsed(w.used, low) && low != end
      invariant j < |h.items| && low == h.items[j]
      invariant FreeFrom(h.items, h.used, i) == FreeFrom(h.items, h.used, j)
      decreases |h.items| - j
    {
      assert NextOk(w.next, h.items, j);
      assert j + 1 < |h.items|;
      low, j := w.next[low], j + 1;
    }
    assert low == end ==> j == |h.items| - 1 by { assert j < |h.items| - 1 ==> Gap(h.items, j, |h.items| - 1, SH); }
  }

  function Counted(w: Words, more: int): Words {
    w.(usedMem := w.usedMem + more, maxMem := if w.maxMem < w.usedMem + more then w.usedMem + more else w.maxMem)
  }

  method Take(w: Words, ptr: Addr, req: nat, end: Addr, ghost h: Heap, ghost i: nat) returns (v: Words)
    requires Repr(w, h) && Inv(h) && i + 1 < |h.items| && ptr == h.items[i] && end == End(h) && !IsUsed(h.used, ptr)
    ensures Repr(v, Grab(h, i, Stop(h.items, i, req)))
  {
    assert NextOk(w.next, h.items, i);
    var a := ptr + SH + req;
    if w.next[ptr] - (ptr + SH) >= req + SH + LEAST {
      TiledDistinct(h.items, SH);
      TiledInsert(h.items, i, a, SH);
      InsertWired(w, h.items, i, a);
      v := Insert(w, ptr, a, end).(used := w.used[ptr := true][a := false], data := Clobber(w.data, a, SH));
      v := Counted(v, req + SH);
    } else {
      v := Counted(w.(used := w.used[ptr := true]), w.next[ptr] - ptr);
    }
  }

  /** rt_malloc below its checks of the size. */
  method DoMalloc(w: Words, size: int, req: nat, ghost h: Heap) returns (v: Words, p: Ptr)
    requires Repr(w, h) && Inv(h) && size == h.size
    ensures Repr(v, MallocSpec(h, req).heap) && p == MallocSpec(h, req).ptr
  {
    var found, ptr; ghost var i;
    found, ptr, i := Search(w, size, req, h);
    if !found {
      return w, Null;
    }
    FitFits(h.items, h.used, h.size - req, req, IndexOf(h.items, h.lfree));
    ghost var a := Stop(h.items, i, req);
    v := Take(w, ptr, req, size + SH, h, i);
    ghost var g := Grab(h, i, a);
    GrabSound(h, i, a);
    GrabKeeps(h, i, a);
    if ptr == v.lfree {
      var low := Climb(v, ptr, size + SH, g, i);
      v := v.(lfree := low);
    }
    p := To(ptr);
  }

  /** rt_malloc. */
  method MallocAny(w: Words, size: int, n: nat, ghost h: Heap) returns (v: Words, p: Ptr)
    requires Repr(w, h) && Inv(h) && size == h.size
    ensures Repr(v, MallocTop(h, n).heap) && p == MallocTop(h, n).ptr
  {
    if n == 0 || Align(n) > size {
      return w, Null;
    }
    v, p := DoMalloc(w, size, if Align(n) < LEAST then LEAST else Align(n), h);
  }

  // ------------------------------------------------------------- free and realloc

  /** rt_free of a block in use. */
  method DoFree(w: Words, mem: Addr, end: Addr, ghost h: Heap, ghost i: nat) returns (v: Words)
    requires Repr(w, h) && Inv(h) && i + 1 < |h.items| && mem == h.items[i] && end == End(h) && IsUsed(h.used, mem)
    ensures Repr(v, FreeSpec(h, i))
  {
    assert NextOk(w.next, h.items, i);
    v := w.(used := w.used[mem := false], lfree := if mem < w.lfree then mem else w.lfree,
            usedMem := w.usedMem - (w.next[mem] - mem));
    UnmarkedKeeps(h, i);
    v := Plug(v, mem, end, Unmarked(h, i), i);
  }

  /** The splitting branch of rt_realloc. */
  method DoShrink(w: Words, mem: Addr, n: nat, end: Addr, ghost h: Heap, ghost i: nat) returns (v: Words)
    requires Repr(w, h) && Inv(h) && i + 1 < |h.items| && mem == h.items[i] && end == End(h) && IsUsed(h.used, mem)
    requires n + SH + LEAST < SizeAt(h.items, i, SH)
    ensures Repr(v, ShrinkSpec(h, i, Stop(h.items, i, n)))
  {
    var a := mem + SH + n;
    v := CutOff(w, mem, a, end, h, i);
    ShornKeeps(h, i, a);
    v := Plug(v, a, end, Shorn(h, i, a), i + 1);
  }

  /** A header for what is cut off the end of a block in use. */
  method CutOff(w: Words, mem: Addr, a: Addr, end: Addr, ghost h: Heap, ghost i: nat) returns (v: Words)
    requires Repr(w, h) && Layout(h) && i + 1 < |h.items| && mem == h.items[i] && end == End(h)
    requires mem + SH <= a && a + SH <= h.items[i + 1]
    ensures Repr(v, Shorn(h, i, a))
  {
    assert NextOk(w.next, h.items, i);
    TiledDistinct(h.items, SH);
    TiledInsert(h.items, i, a, SH);
    InsertWired(w, h.items, i, a);
    v := Insert(w, mem, a, end).(used := w.used[a := false], data := Clobber(w.data, a, SH),
                                 usedMem := w.usedMem - (w.next[mem] - a));
  }

  /** The moving branch of rt_realloc: a new block, the bytes, and the old block freed. */
  method DoMove(w: Words, mem: Addr, cur: int, n: nat, size: int, ghost h: Heap, ghost i: nat)
    returns (v: Words, p: Ptr)
    requires Repr(w, h) && Inv(h) && size == h.size && i + 1 < |h.items| && mem == h.items[i] && IsUsed(h.used, mem)
    requires cur == SizeAt(h.items, i, SH)
    ensures Repr(v, MoveSpec(h, i, n).heap) && p == MoveSpec(h, i, n).ptr
  {
    v, p := MallocAny(w, size, n, h);
    if p != Null {
      ghost var m := MallocTop(h, n).heap;
      var k := Least(n, cur);
      ghost var j := StillThere(h, i, n, k);
      v := CopyAndFree(v, mem, p.block, k, size, m, j);
    }
  }

  method CopyAndFree(w: Words, mem: Addr, to: Addr, k: int, size: int, ghost h: Heap, ghost i: nat) returns (v: Words)
    requires Repr(w, h) && Inv(Transfer(h, mem, to, k)) && size == h.size
    requires i + 1 < |h.items| && mem == h.items[i] && IsUsed(h.used, mem)
    ensures Repr(v, FreeSpec(Transfer(h, mem, to, k), i))
  {
    v := w.(data := Copy(w.data, to + SH, mem + SH, k));
    v := DoFree(v, mem, size + SH, Transfer(h, mem, to, k), i);
  }

  /** The block that is moved keeps its place while the new one is taken. */
  lemma StillThere(h: Heap, i: nat, n: nat, k: int) returns (j: nat)
    requires Inv(h) && i + 1 < |h.items| && IsUsed(h.used, h.items[i]) && MallocTop(h, n).ptr != Null
    ensures var o, a := MallocTop(h, n), h.items[i];
      && o.heap.size == h.size && a in o.heap.items && j == IndexOf(o.heap.items, a) && j + 1 < |o.heap.items|
      && o.heap.items[j] == a && IsUsed(o.heap.used, a) && Inv(Transfer(o.heap, a, o.ptr.block, k))
  {
    var o, a := MallocTop(h, n), h.items[i];
    IndexLive(h, i);
    MallocTopKeeps(h, n, a);
    j := LiveIndex(o.heap, a);
    TransferInv(o.heap, a, o.ptr.block, k);
  }

  /** rt_realloc of a block in use to an aligned size. */
  method DoRealloc(w: Words, mem: Addr, n: nat, size: int, ghost h: Heap, ghost i: nat) returns (v: Words, p: Ptr)
    requires Repr(w, h) && Inv(h) && size == h.size && i + 1 < |h.items| && mem == h.items[i] && IsUsed(h.used, mem)
    ensures Repr(v, ResizeSpec(h, i, n).heap) && p == ResizeSpec(h, i, n).ptr
  {
    assert NextOk(w.next, h.items, i);
    var cur := w.next[mem] - mem - SH;
    if cur == n {
      v, p := w, To(mem);
    } else if n + SH + LEAST < cur {
      v := DoShrink(w, mem, n, size + SH, h, i);
      p := To(mem);
    } else {
      v, p := DoMove(w, mem, cur, n, size, h, i);
    }
  }

  // --------------------------------------------------------------------- the heap

  /** heap_ptr and what it points to, with the list of blocks it stands for. */
  class SystemHeap {
    var words: Words
    const size: int
    ghost var heap: Heap

    ghost predicate Valid()
      reads this
    {
      Repr(words, heap) && Inv(heap) && heap.size == size
    }

    /** rt_system_heap_init, for a heap with room for one block. */
    constructor (size: int)
      requires size >= LEAST
      ensures Valid() && heap == Fresh(size) && this.size == size
    {
      this.size := size;
      var end := size + SH;
      words := Words(map[0 := end, end := end], map[0 := 0, end := end], map[0 := false, end := true], 0, 0, 0, map[]);
      heap := Fresh(size);
      FreshInv(size);
    }

    method Malloc(n: nat) returns (p: Ptr)
      requires Valid()
      modifies this
      ensures Valid() && Outcome(heap, p) == Step(old(heap), SmallHeapRuns.Malloc(n))
    {
      MallocTopKeeps(heap, n, 0);
      words, p := MallocAny(words, size, n, heap);
      heap := MallocTop(heap, n).heap;
    }

    method Free(p: Ptr)
      requires Valid() && Owned(heap, p)
      modifies this
      ensures Valid() && heap == Step(old(heap), SmallHeapRuns.Free(p)).heap
    {
      if p != Null {
        ghost var i := LiveIndex(heap, p.block);
        FreeInv(heap, i);
        words := DoFree(words, p.block, size + SH, heap, i);
        heap := FreeSpec(heap, i);
      }
    }

    method Realloc(p: Ptr, n: nat) returns (q: Ptr)
      requires Valid() && Owned(heap, p)
      modifies this
      ensures Valid() && Outcome(heap, q) == Step(old(heap), SmallHeapRuns.Realloc(p, n))
    {
      assert Inv(ReallocTop(heap, p, n).heap) by { ReallocKeeps(heap, p, n, 0); }
      ReallocSize(heap, p, n);
      words, q := ReallocAny(words, size, p, n, heap);
      heap := ReallocTop(heap, p, n).heap;
    }
  }

  /** rt_realloc. */
  method ReallocAny(w: Words, size: int, p: Ptr, n: nat, ghost h: Heap) returns (v: Words, q: Ptr)
    requires Repr(w, h) && Inv(h) && size == h.size && Owned(h, p)
    ensures Repr(v, ReallocTop(h, p, n).heap) && q == ReallocTop(h, p, n).ptr
  {
    v, q := w, Null;
    if Align(n) <= size {
      if p == Null {
        v, q := MallocAny(w, size, Align(n), h);
      } else {
        ghost var i := LiveIndex(h, p.block);
        v, q := DoRealloc(w, p.block, Align(n), size, h, i);
      }
    }
  }
}
