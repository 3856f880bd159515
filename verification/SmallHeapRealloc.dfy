/** rt_realloc of src/mem.c. */
module SmallHeapRealloc {
  import opened Tiling
  import opened Payload
  import opened SmallHeapSpec
  import opened SmallHeapOps
  import opened SmallHeapShrink
  import opened SmallHeapFrame

  /** Byte x of the payload of block a. */
  function ByteOf(h: Heap, a: Addr, x: int): Cell {
    Peek(h.data, a + SH + x)
  }

  ghost predicate Prefix(h: Heap, a: Addr, r: Heap, c: Addr, n: int) {
    forall x :: 0 <= x < n ==> ByteOf(h, a, x) == ByteOf(r, c, x)
  }

  function Least(a: int, b: int): int { if a < b then a else b }

  /** What a successful rt_realloc of block a to n bytes promises: the block it
      returns holds n bytes and the first bytes of the old one, and every other
      live block is kept. */
  ghost predicate Resized(h: Heap, a: Addr, r: Heap, c: Addr, n: int, b: Addr) {
    && Inv(r) && Live(r, c) && SizeOf(r.items, c, SH) >= n
    && Prefix(h, a, r, c, Least(n, SizeOf(h.items, a, SH)))
    && (b != a ==> Kept(h, r, b))
  }

  // --------------------------------------------------------------------- moving

  function Transfer(m: Heap, a: Addr, c: Addr, n: int): Heap {
    m.(data := Copy(m.data, c + SH, a + SH, n))
  }

  lemma BlocksApart(h: Heap, a: Addr, b: Addr)
    requires Layout(h) && Live(h, a) && Live(h, b) && a != b
    ensures a + SH + SizeOf(h.items, a, SH) <= b || b + SH + SizeOf(h.items, b, SH) <= a
  {
    var i := LiveIndex(h, a);
    var j := LiveIndex(h, b);
    assert i + 1 < j ==> Gap(h.items, i + 1, j, SH);
    assert j + 1 < i ==> Gap(h.items, j + 1, i, SH);
  }

  lemma TransferInv(m: Heap, a: Addr, c: Addr, n: int)
    requires Inv(m)
    ensures Inv(Transfer(m, a, c, n))
  {
  }

  lemma TransferKept(m: Heap, a: Addr, c: Addr, n: int, b: Addr)
    requires Layout(m) && Live(m, a) && Live(m, c) && a != c && b != c && n <= SizeOf(m.items, c, SH) &&
             n <= SizeOf(m.items, a, SH)
    ensures Kept(m, Transfer(m, a, c, n), b)
  {
    if Live(m, b) {
      BlocksApart(m, c, b);
      BlocksApart(m, c, a);
      var d := Transfer(m, a, c, n);
      forall x | b + SH <= x < b + SH + SizeOf(m.items, b, SH) ensures Peek(m.data, x) == Peek(d.data, x) {
        CopyAt(m.data, c + SH, a + SH, n, x);
      }
    }
  }

  lemma TransferPrefix(h: Heap, m: Heap, a: Addr, c: Addr, n: int)
    requires Layout(m) && Live(h, a) && Kept(h, m, a) && Live(m, c) && a != c
    requires n <= SizeOf(m.items, c, SH) && n <= SizeOf(h.items, a, SH)
    ensures Prefix(h, a, Transfer(m, a, c, n), c, n)
  {
    BlocksApart(m, c, a);
    forall x | 0 <= x < n ensures ByteOf(h, a, x) == ByteOf(Transfer(m, a, c, n), c, x) {
      CopyAt(m.data, c + SH, a + SH, n, c + SH + x);
    }
  }

  /** Block c keeps the bytes of a when a is freed. */
  lemma MoveFree(h: Heap, d: Heap, a: Addr, c: Addr, n: int, j: nat, b: Addr)
    requires Inv(d) && Live(d, c) && c != a && n <= SizeOf(d.items, c, SH)
    requires Prefix(h, a, d, c, Least(n, SizeOf(h.items, a, SH)))
    requires j + 1 < |d.items| && d.items[j] == a && IsUsed(d.used, a) && Kept(h, d, b)
    ensures Resized(h, a, FreeSpec(d, j), c, n, b)
  {
    var r := FreeSpec(d, j);
    FreeInv(d, j);
    FreeKept(d, j, c);
    forall x | 0 <= x < Least(n, SizeOf(h.items, a, SH)) ensures ByteOf(h, a, x) == ByteOf(r, c, x) {
      assert ByteOf(h, a, x) == ByteOf(d, c, x);
    }
    if b != a {
      FreeKept(d, j, b);
      KeptTrans(h, d, r, b);
    }
  }

  lemma MoveEnd(h: Heap, m: Heap, a: Addr, c: Addr, n: int, j: nat, b: Addr)
    requires Inv(m) && Live(h, a) && Kept(h, m, a) && Kept(h, m, b) && Live(m, c) && !Live(h, c)
    requires n <= SizeOf(m.items, c, SH) && j + 1 < |m.items| && m.items[j] == a
    ensures Resized(h, a, FreeSpec(Transfer(m, a, c, Least(n, SizeOf(h.items, a, SH))), j), c, n, b)
  {
    var k := Least(n, SizeOf(h.items, a, SH));
    var d := Transfer(m, a, c, k);
    TransferInv(m, a, c, k);
    TransferPrefix(h, m, a, c, k);
    if b != c {
      TransferKept(m, a, c, k, b);
      KeptTrans(h, m, d, b);
    }
    MoveFree(h, d, a, c, n, j, b);
  }

  /** The moving branch of rt_realloc of block i to an aligned size n. */
  ghost function MoveSpec(h: Heap, i: nat, n: nat): Outcome
    requires i + 1 < |h.items| && h.lfree in h.items
  {
    var o := MallocTop(h, n);
    var a := h.items[i];
    if o.ptr == Null || a !in o.heap.items || IndexOf(o.heap.items, a) + 1 >= |o.heap.items| then o
    else Outcome(FreeSpec(Transfer(o.heap, a, o.ptr.block, Least(n, SizeAt(h.items, i, SH))),
      IndexOf(o.heap.items, a)), o.ptr)
  }

  /** rt_malloc: refuse nothing and what exceeds the heap, round small requests up. */
  ghost function MallocTop(h: Heap, n: nat): Outcome
    requires h.lfree in h.items
  {
    if n == 0 || Align(n) > h.size then Outcome(h, Null)
      else MallocSpec(h, if Align(n) < LEAST then LEAST else Align(n))
  }

  lemma MallocTopKeeps(h: Heap, n: nat, b: Addr)
    requires Inv(h)
    ensures var o := MallocTop(h, n);
      && Inv(o.heap) && Kept(h, o.heap, b) && (Lowest(h) ==> Lowest(o.heap)) && (o.ptr == Null ==> o.heap == h)
      && (o.ptr != Null ==>
           !Live(h, o.ptr.block) && Live(o.heap, o.ptr.block) && SizeOf(o.heap.items, o.ptr.block, SH) >= Align(n))
  {
    if n != 0 && Align(n) <= h.size {
      var req := if Align(n) < LEAST then LEAST else Align(n);
      MallocInv(h, req);
      MallocFailsIff(h, req);
      if Lowest(h) {
        MallocLowest(h, req);
      }
      if MallocSpec(h, req).ptr != Null {
        MallocReturns(h, req, b);
      }
    }
  }

  lemma MoveReturns(h: Heap, i: nat, n: nat, b: Addr)
    requires Inv(h) && i + 1 < |h.items| && IsUsed(h.used, h.items[i]) && Align(n) == n
    ensures var o := MoveSpec(h, i, n);
      && (o.ptr == Null <==> MallocTop(h, n).ptr == Null)
      && (o.ptr == Null ==> o.heap == h)
      && (o.ptr != Null ==> Resized(h, h.items[i], o.heap, o.ptr.block, n, b))
  {
    var o, a := MallocTop(h, n), h.items[i];
    IndexLive(h, i);
    MallocTopKeeps(h, n, a);
    MallocTopKeeps(h, n, b);
    if o.ptr != Null {
      var j := LiveIndex(o.heap, a);
      MoveEnd(h, o.heap, a, o.ptr.block, n, j, b);
    }
  }

  // ------------------------------------------------------------------- shrinking

  lemma ShrinkKept(h: Heap, i: nat, a: Addr, b: Addr)
    requires Inv(h) && i + 1 < |h.items| && IsUsed(h.used, h.items[i]) && h.items[i] + SH <= a &&
             a + SH <= h.items[i + 1]
    requires b != h.items[i]
    ensures Kept(h, ShrinkSpec(h, i, a), b)
  {
    var t := Shorn(h, i, a);
    ShornKeeps(h, i, a);
    assert Kept(h, t, b) by { ChopKept(h.(usedMem := h.usedMem - (h.items[i + 1] - a)), i, a, b); }
    PlugKept(t, i + 1, b);
    KeptTrans(h, t, PlugHoles(t, i + 1), b);
  }

  lemma ShrinkReturns(h: Heap, i: nat, a: Addr, b: Addr)
    requires Inv(h) && i + 1 < |h.items| && IsUsed(h.used, h.items[i]) && h.items[i] + SH <= a &&
             a + SH <= h.items[i + 1]
    ensures Resized(h, h.items[i], ShrinkSpec(h, i, a), h.items[i], a - h.items[i] - SH, b)
  {
    var t, c := Shorn(h, i, a), h.items[i];
    IndexLive(h, i);
    ShrinkInv(h, i, a);
    ShornKeeps(h, i, a);
    IndexLive(t, i);
    PlugKept(t, i + 1, c);
    if b != c {
      ShrinkKept(h, i, a, b);
    }
  }

  // --------------------------------------------------------------------- realloc

  /** rt_realloc of block i to an aligned size that is not above the heap size. */
  ghost function ResizeSpec(h: Heap, i: nat, n: nat): Outcome
    requires i + 1 < |h.items| && h.lfree in h.items
  {
    var cur := SizeAt(h.items, i, SH);
    if cur == n then Outcome(h, To(h.items[i]))
    else if n + SH + LEAST < cur then Outcome(ShrinkSpec(h, i, Stop(h.items, i, n)), To(h.items[i]))
    else MoveSpec(h, i, n)
  }

  /** rt_realloc fails only where it moves and rt_malloc fails, and then changes nothing. */
  lemma ResizeFails(h: Heap, i: nat, n: nat)
    requires Inv(h) && i + 1 < |h.items| && IsUsed(h.used, h.items[i]) && Align(n) == n
    ensures ResizeSpec(h, i, n).ptr == Null <==>
            SizeAt(h.items, i, SH) != n && n + SH + LEAST >= SizeAt(h.items, i, SH) && MallocTop(h, n).ptr == Null
    ensures ResizeSpec(h, i, n).ptr == Null ==> ResizeSpec(h, i, n).heap == h
  {
    MoveReturns(h, i, n, 0);
  }

  /** A successful rt_realloc keeps the first bytes, up to the smaller size. */
  lemma ResizeReturns(h: Heap, i: nat, n: nat, b: Addr)
    requires Inv(h) && i + 1 < |h.items| && IsUsed(h.used, h.items[i]) && Align(n) == n &&
             ResizeSpec(h, i, n).ptr != Null
    ensures Resized(h, h.items[i], ResizeSpec(h, i, n).heap, ResizeSpec(h, i, n).ptr.block, n, b)
  {
    var cur := SizeAt(h.items, i, SH);
    if cur == n {
      IndexLive(h, i);
    } else if n + SH + LEAST < cur {
      ShrinkReturns(h, i, Stop(h.items, i, n), b);
    } else {
      MoveReturns(h, i, n, b);
    }
  }
}
