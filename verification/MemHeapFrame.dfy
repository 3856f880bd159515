/** No operation of a memory heap changes a live block it was not given. */
module MemHeapFrame {
  import opened RtList
  import opened Tiling
  import opened Payload
  import opened MemHeapSpec
  import opened MemHeapOps
  import opened MemHeapRealloc

  /** A block that is live in h is live in r, with the same size and contents. */
  ghost predicate Kept(h: Heap, r: Heap, b: Addr) {
    Live(h, b) ==>
      && Live(r, b)
      && SizeOf(r.items, b, HS) == SizeOf(h.items, b, HS)
      && Agree(h.data, r.data, b + HS, b + HS + SizeOf(h.items, b, HS))
  }

  lemma LiveIndex(h: Heap, b: Addr) returns (j: nat)
    requires Layout(h) && Live(h, b)
    ensures j + 1 < |h.items| && h.items[j] == b && j == IndexOf(h.items, b) &&
            SizeOf(h.items, b, HS) == SizeAt(h.items, j, HS)
    ensures IsUsed(h.used, h.items[j])
  {
    j := IndexOf(h.items, b);
  }

  lemma KeptTrans(h: Heap, m: Heap, r: Heap, b: Addr)
    requires Kept(h, m, b) && Kept(m, r, b)
    ensures Kept(h, r, b)
  {
  }

  // -------------------------------------------------------------- frame by edit

  lemma TakeKept(h: Heap, k: nat, b: Addr)
    requires Struct(h) && k < |h.free| && h.free[k] in h.items
    ensures Kept(h, Take(h, k), b)
  {
    var i := FreeIndex(h, k);
  }

  lemma ReleaseKept(h: Heap, i: nat, b: Addr)
    requires Struct(h) && i + 1 < |h.items| && b != h.items[i]
    ensures Kept(h, Release(h, i), b)
  {
  }

  lemma SplitKept(h: Heap, i: nat, a: Addr, b: Addr)
    requires Struct(h) && i + 1 < |h.items| && h.items[i] + HS <= a && a + HS <= h.items[i + 1] && b != h.items[i]
    ensures Kept(h, Split(h, i, a), b)
  {
    if Live(h, b) {
      var j := LiveIndex(h, b);
      SplitLayout(h, i, a);
      SizeInserted(h.items, i, a, j, HS);
      assert j < i ==> Gap(h.items, j, i, HS);
      assert j < i && j + 1 != i ==> Gap(h.items, j + 1, i, HS);
      assert j > i && j != i + 1 ==> Gap(h.items, i + 1, j, HS);
    }
  }

  lemma MergeKept(h: Heap, i: nat, b: Addr)
    requires Struct(h) && i + 2 < |h.items| && h.items[i + 1] in h.free && b != h.items[i]
    ensures Kept(h, Merge(h, i), b)
  {
    if Live(h, b) {
      var j := LiveIndex(h, b);
      assert Tiled(Merge(h, i).items, HS) by { MergeStruct(h, i); }
      SizeDropped(h.items, i, j, HS);
    }
  }

  lemma JoinKept(h: Heap, i: nat, b: Addr)
    requires Struct(h) && i < |h.items| && b != h.items[i]
    ensures Kept(h, Join(h, i), b)
  {
    if i + 2 < |h.items| && h.items[i + 1] in h.free {
      MergeKept(h, i, b);
    }
  }

  // --------------------------------------------------------------------- alloc

  /** Some free item has room for req bytes. */
  ghost predicate Room(h: Heap, req: int) {
    exists a :: a in h.free && SizeOf(h.items, a, HS) >= req
  }

  lemma {:induction false} FirstFitIs(items: seq<Addr>, free: seq<Addr>, req: int)
    ensures var k := FirstFit(items, free, req);
      && (k < |free| ==> SizeOf(items, free[k], HS) >= req)
      && (forall j :: 0 <= j < k ==> SizeOf(items, free[j], HS) < req)
  {
    if free != [] && SizeOf(items, free[0], HS) < req {
      FirstFitIs(items, free[1..], req);
      var k := FirstFit(items, free, req);
      forall j | 0 <= j < k ensures SizeOf(items, free[j], HS) < req {
        assert j > 0 ==> free[j] == free[1..][j - 1];
      }
    }
  }

  lemma SplitSize(h: Heap, i: nat, a: Addr)
    requires Layout(h) && i + 1 < |h.items| && IsUsed(h.used, h.items[i]) && a != h.items[i]
    requires h.items[i] + HS <= a && a + HS <= h.items[i + 1]
    ensures Live(Split(h, i, a), h.items[i]) && SizeOf(Split(h, i, a).items, h.items[i], HS) == a - h.items[i] - HS
  {
    var r := Split(h, i, a);
    SplitLayout(h, i, a);
    InsertedAt(h.items, i + 1, a, i);
    InsertedAt(h.items, i + 1, a, i + 1);
    TiledIndex(r.items, i, HS);
    assert r.items[i] in r.items;
    assert Gap(h.items, i, |h.items| - 1, HS);
  }

  lemma TakeLive(h: Heap, k: nat, i: nat)
    requires Layout(h) && k < |h.free| && h.free[k] in h.items && i + 1 < |h.items| && h.items[i] == h.free[k]
    ensures Live(Take(h, k), h.items[i]) && SizeOf(h.items, h.items[i], HS) == SizeAt(h.items, i, HS)
  {
    TiledIndex(h.items, i, HS);
    assert Gap(h.items, i, |h.items| - 1, HS);
  }

  lemma CarveResult(h: Heap, k: nat, req: nat, b: Addr)
    requires Struct(h) && Coalesced(h.items, h.used) && k < |h.free| && h.free[k] in h.items &&
             SizeOf(h.items, h.free[k], HS) >= req
    ensures Live(Carve(h, k, req), h.free[k]) && SizeOf(Carve(h, k, req).items, h.free[k], HS) >= req
    ensures Kept(h, Carve(h, k, req), b)
  {
    var i := CarveTake(h, k);
    TakeLive(h, k, i);
    TakeKept(h, k, b);
    assert !Live(h, h.items[i]) by { assert h.free[k] in h.free; }
    if SizeAt(h.items, i, HS) >= req + HS + MIN {
      var t, a := Take(h, k), h.free[k] + HS + req;
      CarveSplitResult(h, t, i, a, b);
      assert Carve(h, k, req) == Split(t, i, a);
    }
  }

  lemma CarveSplitResult(h: Heap, t: Heap, i: nat, a: Addr, b: Addr)
    requires Struct(t) && i + 1 < |t.items| && IsUsed(t.used, t.items[i]) && Kept(h, t, b) && !Live(h, t.items[i])
    requires t.items[i] + HS <= a && a + HS <= t.items[i + 1]
    ensures Live(Split(t, i, a), t.items[i]) && SizeOf(Split(t, i, a).items, t.items[i], HS) == a - t.items[i] - HS
    ensures Kept(h, Split(t, i, a), b)
  {
    SplitSize(t, i, a);
    if b != t.items[i] {
      SplitKept(t, i, a, b);
      KeptTrans(h, t, Split(t, i, a), b);
    }
  }

  lemma MarkKept(h: Heap, r: Heap, b: Addr)
    requires Kept(h, r, b)
    ensures Kept(h, Mark(r), b)
  {
  }

  /** rt_memheap_alloc fails exactly when the request is not below the free
      total or no free item is large enough, and then changes nothing. */
  lemma AllocFails(h: Heap, req: nat)
    requires Inv(h)
    ensures AllocSpec(h, req).1 == Null <==> req >= h.available || !Room(h, req)
    ensures AllocSpec(h, req).1 == Null ==> AllocSpec(h, req).0 == h
  {
    var k := FirstFit(h.items, h.free, req);
    FirstFitIs(h.items, h.free, req);
    if k < |h.free| {
      var i := FreeIndex(h, k);
      assert h.free[k] in h.free;
    }
  }

  /** A block it returns was not live, holds the request, and every live block is kept. */
  lemma AllocReturns(h: Heap, req: nat, b: Addr)
    requires Inv(h) && AllocSpec(h, req).1 != Null
    ensures var (r, p) := AllocSpec(h, req);
      !Live(h, p.block) && Live(r, p.block) && SizeOf(r.items, p.block, HS) >= req && Kept(h, r, b)
  {
    var k := FirstFit(h.items, h.free, req);
    FirstFitIs(h.items, h.free, req);
    assert h.free[k] in h.free;
    CarveResult(h, k, req, b);
    MarkKept(h, Carve(h, k, req), b);
  }

  // ---------------------------------------------------------------------- free

  lemma FreeKeeps(h: Heap, i: nat, b: Addr)
    requires Inv(h) && i + 1 < |h.items| && IsUsed(h.used, h.items[i]) && b != h.items[i]
    ensures Kept(h, FreeSpec(h, i), b)
  {
    var r := Release(h, i);
    var m := Join(r, i);
    ReleaseStruct(h, i);
    JoinStruct(r, i);
    ReleaseKept(h, i, b);
    JoinKept(r, i, b);
    KeptTrans(h, r, m, b);
    if i > 0 && b != h.items[i - 1] {
      JoinPrefix(r, i, i - 1);
      JoinKept(m, i - 1, b);
      KeptTrans(h, m, Join(m, i - 1), b);
    }
  }

  // ------------------------------------------------------------------- realloc

  /** The payloads of two live blocks do not overlap. */
  lemma BlocksApart(h: Heap, a: Addr, b: Addr)
    requires Layout(h) && Live(h, a) && Live(h, b) && a != b
    ensures a + HS + SizeOf(h.items, a, HS) <= b || b + HS + SizeOf(h.items, b, HS) <= a
  {
    var i := LiveIndex(h, a);
    var j := LiveIndex(h, b);
    assert i + 1 < j ==> Gap(h.items, i + 1, j, HS);
    assert j + 1 < i ==> Gap(h.items, j + 1, i, HS);
  }

  /** The first n bytes of block a of h are those of block c of r. */
  ghost predicate Prefix(h: Heap, a: Addr, r: Heap, c: Addr, n: int) {
    forall x :: 0 <= x < n ==> ByteOf(h, a, x) == ByteOf(r, c, x)
  }

  /** Byte x of the payload of block a. */
  function ByteOf(h: Heap, a: Addr, x: int): Cell {
    Peek(h.data, a + HS + x)
  }

  /** What a successful rt_memheap_realloc of block a promises. */
  ghost predicate Resized(h: Heap, a: Addr, r: Heap, c: Addr, req: int, b: Addr) {
    && Inv(r) && Live(r, c) && SizeOf(r.items, c, HS) >= req
    && Prefix(h, a, r, c, if req < SizeOf(h.items, a, HS) then req else SizeOf(h.items, a, HS))
    && (b != a ==> Kept(h, r, b))
  }

  lemma TransferInv(m: Heap, a: Addr, c: Addr, n: int)
    requires Inv(m)
    ensures Inv(Transfer(m, a, c, n))
  {
    var d := Transfer(m, a, c, n);
    assert Layout(d) && FreeOk(d);
  }

  lemma TransferKept(m: Heap, a: Addr, c: Addr, n: int, b: Addr)
    requires Layout(m) && Live(m, a) && Live(m, c) && a != c && b != c && n <= SizeOf(m.items, c, HS) &&
             n <= SizeOf(m.items, a, HS)
    ensures Kept(m, Transfer(m, a, c, n), b)
  {
    if Live(m, b) {
      BlocksApart(m, c, b);
      BlocksApart(m, c, a);
      var d := Transfer(m, a, c, n);
      forall x | b + HS <= x < b + HS + SizeOf(m.items, b, HS) ensures Peek(m.data, x) == Peek(d.data, x) {
        CopyAt(m.data, c + HS, a + HS, n, x);
      }
    }
  }

  lemma TransferPrefix(h: Heap, m: Heap, a: Addr, c: Addr)
    requires Layout(m) && Live(h, a) && Kept(h, m, a) && Live(m, c) && a != c &&
             SizeOf(h.items, a, HS) <= SizeOf(m.items, c, HS)
    ensures Prefix(h, a, Transfer(m, a, c, SizeOf(h.items, a, HS)), c, SizeOf(h.items, a, HS))
  {
    var n := SizeOf(h.items, a, HS);
    BlocksApart(m, c, a);
    forall x | 0 <= x < n ensures ByteOf(h, a, x) == ByteOf(Transfer(m, a, c, n), c, x) {
      CopyAt(m.data, c + HS, a + HS, n, c + HS + x);
    }
  }

  /** Block c keeps the bytes of a when a is freed. */
  lemma MoveFree(h: Heap, d: Heap, a: Addr, c: Addr, req: nat, j: nat, b: Addr)
    requires Inv(d) && Live(d, c) && c != a && req <= SizeOf(d.items, c, HS) && SizeOf(h.items, a, HS) < req
    requires Prefix(h, a, d, c, SizeOf(h.items, a, HS)) && j + 1 < |d.items| && d.items[j] == a && IsUsed(d.used, a)
    requires Kept(h, d, b)
    ensures Resized(h, a, FreeSpec(d, j), c, req, b)
  {
    var r := FreeSpec(d, j);
    FreeInv(d, j);
    FreeKeeps(d, j, c);
    forall x | 0 <= x < SizeOf(h.items, a, HS) ensures ByteOf(h, a, x) == ByteOf(r, c, x) {
      assert ByteOf(h, a, x) == ByteOf(d, c, x);
    }
    if b != a {
      FreeKeeps(d, j, b);
      KeptTrans(h, d, r, b);
    }
  }

  lemma MoveEnd(h: Heap, m: Heap, a: Addr, c: Addr, req: nat, j: nat, b: Addr)
    requires Inv(m) && Live(h, a) && Kept(h, m, a) && Kept(h, m, b) && Live(m, c) && !Live(h, c)
    requires SizeOf(h.items, a, HS) < req <= SizeOf(m.items, c, HS) && j + 1 < |m.items| && m.items[j] == a
    ensures Resized(h, a, FreeSpec(Transfer(m, a, c, SizeOf(h.items, a, HS)), j), c, req, b)
  {
    var n := SizeOf(h.items, a, HS);
    var d := Transfer(m, a, c, n);
    TransferInv(m, a, c, n);
    TransferPrefix(h, m, a, c);
    if b != c {
      TransferKept(m, a, c, n, b);
      KeptTrans(h, m, d, b);
    }
    MoveFree(h, d, a, c, req, j, b);
  }

  lemma MoveStart(h: Heap, i: nat, req: nat) returns (m: Heap, j: nat)
    requires Inv(h) && i + 1 < |h.items| && IsUsed(h.used, h.items[i]) && AllocSpec(h, req).1 != Null
    ensures m == AllocSpec(h, req).0 && Inv(m) && h.items[i] in m.items && j == IndexOf(m.items, h.items[i])
    ensures j + 1 < |m.items| && m.items[j] == h.items[i] && IsUsed(m.used, h.items[i])
  {
    m := AllocSpec(h, req).0;
    var a := h.items[i];
    assert Live(h, a) by { assert Gap(h.items, i, |h.items| - 1, HS); }
    assert Inv(m) by { AllocInv(h, req); }
    assert Kept(h, m, a) by { AllocReturns(h, req, a); }
    j := LiveIndex(m, a);
  }

  lemma MoveReturns(h: Heap, i: nat, req: nat, b: Addr)
    requires Inv(h) && i + 1 < |h.items| && IsUsed(h.used, h.items[i]) && SizeAt(h.items, i, HS) < req
    ensures var (r, p) := MoveSpec(h, i, req);
      && (p == Null <==> req >= h.available || !Room(h, req))
      && (p == Null ==> r == h)
      && (p != Null ==> Resized(h, h.items[i], r, p.block, req, b))
  {
    AllocFails(h, req);
    if AllocSpec(h, req).1 != Null {
      MoveFound(h, i, req, b, AllocSpec(h, req).0, AllocSpec(h, req).1.block);
    }
  }

  lemma MoveFound(h: Heap, i: nat, req: nat, b: Addr, m: Heap, c: Addr)
    requires Inv(h) && i + 1 < |h.items| && IsUsed(h.used, h.items[i]) && SizeAt(h.items, i, HS) < req
    requires AllocSpec(h, req) == (m, To(c))
    ensures MoveSpec(h, i, req).1 == To(c) && Resized(h, h.items[i], MoveSpec(h, i, req).0, c, req, b)
  {
    var a := h.items[i];
    var k, j := MoveStart(h, i, req);
    assert Live(h, a) && SizeOf(h.items, a, HS) == SizeAt(h.items, i, HS) by { HeldSize(h, i); }
    assert Kept(h, m, a) && Live(m, c) && !Live(h, c) && SizeOf(m.items, c, HS) >= req by { AllocReturns(h, req, a); }
    assert Kept(h, m, b) by { AllocReturns(h, req, b); }
    MoveEnd(h, m, a, c, req, j, b);
    MoveIs(h, i, req, m, c, j);
  }

  lemma HeldSize(h: Heap, i: nat)
    requires Layout(h) && i + 1 < |h.items| && IsUsed(h.used, h.items[i])
    ensures Live(h, h.items[i]) && SizeOf(h.items, h.items[i], HS) == SizeAt(h.items, i, HS)
  {
    TiledIndex(h.items, i, HS);
    assert Gap(h.items, i, |h.items| - 1, HS);
  }

  lemma MoveIs(h: Heap, i: nat, req: nat, m: Heap, c: Addr, j: nat)
    requires i + 1 < |h.items| && AllocSpec(h, req) == (m, To(c)) && h.items[i] in m.items
    requires j == IndexOf(m.items, h.items[i]) && j + 1 < |m.items|
    ensures MoveSpec(h, i, req).0 == FreeSpec(Transfer(m, h.items[i], c, SizeAt(h.items, i, HS)), j) &&
            MoveSpec(h, i, req).1 == To(c)
  {
  }

  /** The payload of the cut item below the cut stays. */
  lemma SplitPrefix(h: Heap, i: nat, a: Addr)
    requires Layout(h) && i + 1 < |h.items| && h.items[i] + HS <= a
    ensures Agree(h.data, Split(h, i, a).data, h.items[i] + HS, a)
  {
  }

  lemma GrowReturns(h: Heap, i: nat, a: Addr, b: Addr)
    requires Inv(h) && i + 2 < |h.items| && h.items[i + 1] in h.free && IsUsed(h.used, h.items[i])
    requires h.items[i + 1] <= a && a + HS <= h.items[i + 2]
    ensures Resized(h, h.items[i], GrowSpec(h, i, a), h.items[i], a - h.items[i] - HS, b)
  {
    var m := Merge(h, i);
    var s := Split(m, i, a);
    assert Gap(h.items, i, i + 1, HS);
    TiledIndex(h.items, i, HS);
    GrowInv(h, i, a);
    GrowMerge(h, i);
    SplitSize(m, i, a);
    SplitPrefix(m, i, a);
    if b != h.items[i] {
      MergeKept(h, i, b);
      SplitKept(m, i, a, b);
      KeptTrans(h, m, s, b);
      MarkKept(h, s, b);
    }
  }

  lemma ShrinkKeeps(h: Heap, i: nat, a: Addr, b: Addr)
    requires Inv(h) && i + 1 < |h.items| && IsUsed(h.used, h.items[i]) && b != h.items[i]
    requires h.items[i] + HS <= a && a + HS <= h.items[i + 1]
    ensures Kept(h, ShrinkSpec(h, i, a), b)
  {
    var s := Split(h, i, a);
    if b == a {
      SplitLayout(h, i, a);
    } else {
      ShrinkSplit(h, i, a);
      InsertedAt(h.items, i + 1, a, i + 1);
      SplitKept(h, i, a, b);
      JoinKept(s, i + 1, b);
      KeptTrans(h, s, Join(s, i + 1), b);
    }
  }

  lemma ShrinkReturns(h: Heap, i: nat, a: Addr, b: Addr)
    requires Inv(h) && i + 1 < |h.items| && IsUsed(h.used, h.items[i])
    requires h.items[i] + HS <= a && a + HS <= h.items[i + 1]
    ensures Resized(h, h.items[i], ShrinkSpec(h, i, a), h.items[i], a - h.items[i] - HS, b)
  {
    TiledIndex(h.items, i, HS);
    ShrinkInv(h, i, a);
    assert Struct(Split(h, i, a)) by { ShrinkSplit(h, i, a); }
    SplitSize(h, i, a);
    SplitPrefix(h, i, a);
    InsertedAt(h.items, i + 1, a, i + 1);
    JoinKept(Split(h, i, a), i + 1, h.items[i]);
    if b != h.items[i] {
      ShrinkKeeps(h, i, a, b);
    }
  }

  /** rt_memheap_realloc of a live block fails only where it has to move and
      rt_memheap_alloc fails, and then changes nothing. */
  lemma ResizeFails(h: Heap, i: nat, req: nat)
    requires Inv(h) && i + 1 < |h.items| && IsUsed(h.used, h.items[i])
    ensures ResizeSpec(h, i, req).1 == Null <==>
            SizeAt(h.items, i, HS) < req && !CanGrow(h, i, req) && (req >= h.available || !Room(h, req))
    ensures ResizeSpec(h, i, req).1 == Null ==> ResizeSpec(h, i, req).0 == h
  {
    if SizeAt(h.items, i, HS) < req && !CanGrow(h, i, req) {
      MoveReturns(h, i, req, h.items[i]);
    }
  }

  lemma EnlargeReturns(h: Heap, i: nat, req: nat, b: Addr)
    requires Inv(h) && i + 1 < |h.items| && IsUsed(h.used, h.items[i]) && SizeAt(h.items, i, HS) < req
    requires EnlargeSpec(h, i, req).1 != Null && !Overruns(h, i, req)
    ensures Resized(h, h.items[i], EnlargeSpec(h, i, req).0, EnlargeSpec(h, i, req).1.block, req, b)
  {
    if CanGrow(h, i, req) {
      var a := h.items[i] + HS + req;
      EnlargeGrows(h, i, req, a);
      GrowReturns(h, i, a, b);
    } else {
      MoveReturns(h, i, req, b);
    }
  }

  lemma StayReturns(h: Heap, i: nat, req: nat, b: Addr)
    requires Inv(h) && i + 1 < |h.items| && IsUsed(h.used, h.items[i]) && req <= SizeAt(h.items, i, HS)
    ensures Resized(h, h.items[i], h, h.items[i], req, b)
  {
    TiledIndex(h.items, i, HS);
    assert Gap(h.items, i, |h.items| - 1, HS);
  }

  /** Otherwise the block it returns holds the request and the first bytes of
      the old one, and every other live block is kept. */
  lemma ResizeReturns(h: Heap, i: nat, req: nat, b: Addr)
    requires Inv(h) && i + 1 < |h.items| && IsUsed(h.used, h.items[i]) && ResizeSpec(h, i, req).1 != Null
    requires !Overruns(h, i, req)
    ensures Resized(h, h.items[i], ResizeSpec(h, i, req).0, ResizeSpec(h, i, req).1.block, req, b)
  {
    if SizeAt(h.items, i, HS) < req {
      EnlargeReturns(h, i, req, b);
    } else if req + HS + MIN < SizeAt(h.items, i, HS) {
      var a := h.items[i] + HS + req;
      ShrinkReturns(h, i, a, b);
      ResizeShrinks(h, i, req, a);
    } else {
      StayReturns(h, i, req, b);
    }
  }
}
