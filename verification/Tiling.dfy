/** Runs of adjacent blocks of memory, each behind a header: where they lie,
    which are in use, and what the free ones add up to. */
module Tiling {
  import opened MachineWord
  import opened RtList

  type Addr = int

  /** RT_ALIGN on 32 bits: the addition wraps. */
  function Align(n: nat): nat {
    (n + 3) % WORD / 4 * 4
  }

  predicate IsUsed(u: map<Addr, bool>, a: Addr) { a in u && u[a] }

  /** The items tile the pool: each starts after the header of the one before. */
  ghost predicate Tiled(items: seq<Addr>, hs: int) {
    forall i, j :: 0 <= i < j < |items| ==> Gap(items, i, j, hs)
  }

  ghost predicate Gap(items: seq<Addr>, i: nat, j: nat, hs: int)
    requires i < |items| && j < |items|
  {
    items[i] + hs <= items[j]
  }

  /** No two neighbours are both free. */
  ghost predicate Coalesced(items: seq<Addr>, u: map<Addr, bool>) {
    forall j :: 0 <= j < |items| - 1 ==> PairOk(items, u, j)
  }

  ghost predicate PairOk(items: seq<Addr>, u: map<Addr, bool>, j: nat)
    requires j + 1 < |items|
  {
    IsUsed(u, items[j]) || IsUsed(u, items[j + 1])
  }

  /** The free items, each counted without hs bytes of its extent. */
  ghost function FreeSum(items: seq<Addr>, u: map<Addr, bool>, hs: int): int {
    if |items| < 2 then 0
    else Part(items[0], items[1], u, hs) + FreeSum(items[1..], u, hs)
  }

  /** What the item at a, followed by the item at b, adds to the free bytes. */
  ghost function Part(a: Addr, b: Addr, u: map<Addr, bool>, hs: int): int {
    if IsUsed(u, a) then 0 else b - a - hs
  }

  ghost function IndexOf(items: seq<Addr>, a: Addr): (i: nat)
    requires a in items
    ensures i < |items| && items[i] == a
  {
    if items[0] == a then 0 else 1 + IndexOf(items[1..], a)
  }

  lemma TiledIndex(items: seq<Addr>, i: nat, hs: int)
    requires hs > 0 && Tiled(items, hs) && i < |items|
    ensures IndexOf(items, items[i]) == i
  {
    var j := IndexOf(items, items[i]);
    assert j < i ==> Gap(items, j, i, hs);
    assert i < j ==> Gap(items, i, j, hs);
  }

  lemma TiledTail(items: seq<Addr>, hs: int)
    requires hs > 0 && Tiled(items, hs) && |items| > 0
    ensures Tiled(items[1..], hs) && items[0] !in items[1..]
  {
    var t := items[1..];
    forall i, j | 0 <= i < j < |t| ensures Gap(t, i, j, hs) {
      assert Gap(items, i + 1, j + 1, hs);
    }
    forall i | 0 <= i < |t| ensures t[i] != items[0] {
      assert Gap(items, 0, i + 1, hs);
    }
  }

  ghost function SizeAt(items: seq<Addr>, i: nat, hs: int): int
    requires i + 1 < |items|
  {
    items[i + 1] - items[i] - hs
  }

  lemma SplitSum(items: seq<Addr>, u: map<Addr, bool>, i: nat, a: Addr, hs: int)
    requires i + 1 < |items| && IsUsed(u, items[i]) && a !in items
    ensures FreeSum(Inserted(items, i + 1, a), u[a := false], hs) == FreeSum(items, u, hs) + items[i + 1] - a - hs
  {
    SumInsert(items, u[a := false], i, a, hs);
    SumSame(items, u, u[a := false], hs);
  }

  ghost function SizeOf(items: seq<Addr>, a: Addr, hs: int): int {
    if a in items && IndexOf(items, a) + 1 < |items| then SizeAt(items, IndexOf(items, a), hs) else 0
  }

  lemma InsertedEnds(s: seq<Addr>, k: nat, a: Addr)
    requires 0 < k < |s|
    ensures |Inserted(s, k, a)| == |s| + 1 && Inserted(s, k, a)[0] == s[0] && Inserted(s, k, a)[|s|] == s[|s| - 1]
  {
  }

  // ------------------------------------------------------ sums under local edits

  /** Changing the flag of item k moves exactly its size in or out of the sum. */
  lemma {:induction false} SumFlip(items: seq<Addr>, u: map<Addr, bool>, k: nat, b: bool, hs: int, w: int)
    requires hs > 0 && Tiled(items, hs) && k + 1 < |items|
    ensures FreeSum(items, u[items[k] := b], w) ==
            FreeSum(items, u, w) - Part(items[k], items[k + 1], u, w) + (if b then 0 else SizeAt(items, k, w))
  {
    var v := u[items[k] := b];
    TiledTail(items, hs);
    if k == 0 {
      SumSame(items[1..], u, v, w);
    } else {
      assert items[k] == items[1..][k - 1];
      SumFlip(items[1..], u, k - 1, b, hs, w);
    }
  }

  lemma {:induction false} SumSame(items: seq<Addr>, u: map<Addr, bool>, v: map<Addr, bool>, hs: int)
    requires forall i :: 0 <= i < |items| ==> IsUsed(u, items[i]) == IsUsed(v, items[i])
    ensures FreeSum(items, u, hs) == FreeSum(items, v, hs)
  {
    if |items| >= 2 {
      SumSame(items[1..], u, v, hs);
    }
  }

  /** Splitting item k at address a. */
  lemma {:induction false} SumInsert(items: seq<Addr>, u: map<Addr, bool>, k: nat, a: Addr, hs: int)
    requires k + 1 < |items|
    ensures FreeSum(Inserted(items, k + 1, a), u, hs) ==
            FreeSum(items, u, hs) - Part(items[k], items[k + 1], u, hs) + Part(items[k], a, u, hs) + Part(a,
              items[k + 1], u, hs)
  {
    var r := Inserted(items, k + 1, a);
    if k == 0 {
      assert r[1..] == [a] + items[1..] && r[1..][1..] == items[1..];
    } else {
      SumInsert(items[1..], u, k - 1, a, hs);
      assert r[1..] == Inserted(items[1..], k, a);
    }
  }

  /** Merging item k + 1 into item k. */
  lemma SumDrop(items: seq<Addr>, u: map<Addr, bool>, k: nat, hs: int)
    requires k + 2 < |items|
    ensures FreeSum(Dropped(items, k + 1), u, hs) ==
            FreeSum(items, u, hs) - Part(items[k], items[k + 1], u, hs) - Part(items[k + 1], items[k + 2], u,
              hs) + Part(items[k], items[k + 2], u, hs)
  {
    var r := Dropped(items, k + 1);
    SumInsert(r, u, k, items[k + 1], hs);
    assert Inserted(r, k + 1, items[k + 1]) == items;
  }

  lemma TiledInsert(items: seq<Addr>, k: nat, a: Addr, hs: int)
    requires hs > 0 && Tiled(items, hs) && k + 1 < |items| && items[k] + hs <= a && a + hs <= items[k + 1]
    ensures Tiled(Inserted(items, k + 1, a), hs) && a !in items
  {
    var r := Inserted(items, k + 1, a);
    forall i | 0 <= i < |items| ensures i <= k ==> items[i] + hs <= a
      ensures i > k ==> a + hs <= items[i]
    {
      assert i < k ==> Gap(items, i, k, hs);
      assert i > k + 1 ==> Gap(items, k + 1, i, hs);
    }
    forall i, j | 0 <= i < j < |r| ensures Gap(r, i, j, hs) {
      InsertedAt(items, k + 1, a, i);
      InsertedAt(items, k + 1, a, j);
      if i != k + 1 && j != k + 1 {
        assert Gap(items, if i <= k then i else i - 1, if j <= k then j else j - 1, hs);
      }
    }
  }

  lemma TiledDrop(items: seq<Addr>, k: nat, hs: int)
    requires Tiled(items, hs) && k < |items|
    ensures Tiled(Dropped(items, k), hs)
  {
    var r := Dropped(items, k);
    forall i, j | 0 <= i < j < |r| ensures Gap(r, i, j, hs) {
      DroppedAt(items, k, i);
      DroppedAt(items, k, j);
      assert Gap(items, if i < k then i else i + 1, if j < k then j else j + 1, hs);
    }
  }

  lemma InsertedIn(items: seq<Addr>, k: nat, a: Addr)
    requires k <= |items|
    ensures forall x :: x in Inserted(items, k, a) <==> x == a || x in items
  {
    assert items == items[..k] + items[k..];
  }

  lemma DroppedIn(items: seq<Addr>, k: nat)
    requires k < |items| && Distinct(items)
    ensures forall x :: x in Dropped(items, k) <==> x in items && x != items[k]
  {
    var r := Dropped(items, k);
    assert items == items[..k] + [items[k]] + items[k + 1..];
    DistinctDropped(items, k);
  }

  lemma TiledDistinct(items: seq<Addr>, hs: int)
    requires hs > 0 && Tiled(items, hs)
    ensures Distinct(items)
  {
    forall i, j | 0 <= i < j < |items| ensures items[i] != items[j] {
      assert Gap(items, i, j, hs);
    }
  }

  lemma SizeInserted(items: seq<Addr>, i: nat, a: Addr, j: nat, hs: int)
    requires hs > 0 && i + 1 < |items| && j + 1 < |items| && j != i && Tiled(Inserted(items, i + 1, a), hs)
    ensures items[j] in Inserted(items, i + 1, a)
    ensures SizeOf(Inserted(items, i + 1, a), items[j], hs) == SizeAt(items, j, hs)
  {
    var r := Inserted(items, i + 1, a);
    var p := if j < i then j else j + 1;
    InsertedAt(items, i + 1, a, p);
    InsertedAt(items, i + 1, a, p + 1);
    TiledIndex(r, p, hs);
  }

  lemma SizeDropped(items: seq<Addr>, i: nat, j: nat, hs: int)
    requires hs > 0 && i + 2 < |items| && j + 1 < |items| && j != i && j != i + 1 && Tiled(Dropped(items, i + 1), hs)
    ensures items[j] in Dropped(items, i + 1)
    ensures SizeOf(Dropped(items, i + 1), items[j], hs) == SizeAt(items, j, hs)
  {
    var r := Dropped(items, i + 1);
    var p := if j < i then j else j - 1;
    DroppedAt(items, i + 1, p);
    DroppedAt(items, i + 1, p + 1);
    TiledIndex(r, p, hs);
  }

  /** No two neighbours are both free, except perhaps the pairs from lo up to hi. */
  ghost predicate But(items: seq<Addr>, u: map<Addr, bool>, lo: int, hi: int) {
    forall j :: 0 <= j < |items| - 1 && !(lo <= j < hi) ==> PairOk(items, u, j)
  }

  lemma ButNone(items: seq<Addr>, u: map<Addr, bool>, lo: int)
    ensures But(items, u, lo, lo) <==> Coalesced(items, u)
  {
  }

  lemma NextUsed(items: seq<Addr>, u: map<Addr, bool>, i: nat)
    requires Coalesced(items, u) && i + 1 < |items| && !IsUsed(u, items[i])
    ensures IsUsed(u, items[i + 1])
  {
    assert PairOk(items, u, i);
  }

  lemma ButCoalesced(items: seq<Addr>, u: map<Addr, bool>, i: nat)
    requires But(items, u, i - 1, i) && (0 < i && i < |items| ==> PairOk(items, u, i - 1))
    ensures Coalesced(items, u)
  {
    assert But(items, u, 0, 0);
    ButNone(items, u, 0);
  }

  lemma {:induction false} SumBound(items: seq<Addr>, u: map<Addr, bool>, hs: int)
    requires hs > 0 && Tiled(items, hs) && |items| > 0
    ensures 0 <= FreeSum(items, u, hs) <= items[|items| - 1] - items[0] - hs * (|items| - 1)
  {
    if |items| >= 2 {
      TiledTail(items, hs);
      SumBound(items[1..], u, hs);
      assert Gap(items, 0, 1, hs);
    }
  }

  // -------------------------------------------------------- pairs under edits

  /** Freeing item i can only pair it with its two neighbours. */
  lemma FlipBut(items: seq<Addr>, u: map<Addr, bool>, i: nat, hs: int)
    requires hs > 0 && Coalesced(items, u) && Tiled(items, hs) && i + 1 < |items|
    ensures But(items, u[items[i] := false], i - 1, i + 1)
  {
    var v := u[items[i] := false];
    forall j | 0 <= j < |items| - 1 && !(i - 1 <= j < i + 1) ensures PairOk(items, v, j) {
      assert PairOk(items, u, j);
      assert j < i ==> Gap(items, j, i, hs) && Gap(items, j + 1, i, hs);
      assert i < j ==> Gap(items, i, j, hs) && Gap(items, i, j + 1, hs);
    }
  }

  lemma UseCoalesced(items: seq<Addr>, u: map<Addr, bool>, a: Addr)
    requires Coalesced(items, u)
    ensures Coalesced(items, u[a := true])
  {
    var v := u[a := true];
    forall j | 0 <= j < |items| - 1 ensures PairOk(items, v, j) {
      assert PairOk(items, u, j);
    }
  }

  /** Cutting a used item can only pair the rest with what follows it. */
  lemma InsertBut(items: seq<Addr>, u: map<Addr, bool>, i: nat, a: Addr)
    requires Coalesced(items, u) && i + 1 < |items| && a !in items && IsUsed(u, items[i])
    ensures But(Inserted(items, i + 1, a), u[a := false], i + 1, i + 2)
  {
    var r, v := Inserted(items, i + 1, a), u[a := false];
    forall j | 0 <= j < |r| - 1 && j != i + 1 ensures PairOk(r, v, j) {
      InsertedAt(items, i + 1, a, j);
      InsertedAt(items, i + 1, a, j + 1);
      if j < i {
        assert PairOk(items, u, j);
      } else if j > i + 1 {
        assert PairOk(items, u, j - 1);
      }
    }
  }

  lemma InsertPair(items: seq<Addr>, u: map<Addr, bool>, i: nat, a: Addr)
    requires Coalesced(items, u) && i + 1 < |items| && a !in items
    requires IsUsed(u, items[i]) && IsUsed(u, items[i + 1])
    ensures Coalesced(Inserted(items, i + 1, a), u[a := false])
  {
    var r, v := Inserted(items, i + 1, a), u[a := false];
    InsertBut(items, u, i, a);
    InsertedAt(items, i + 1, a, i + 2);
    assert PairOk(r, v, i + 1);
    assert But(r, v, 0, 0);
    ButNone(r, v, 0);
  }

  /** Merging a free item into the one before removes the pairs it was in. */
  lemma DropBut(items: seq<Addr>, u: map<Addr, bool>, i: nat, lo: int)
    requires i + 2 < |items| && lo <= i && But(items, u, lo, i + 1) && !IsUsed(u, items[i + 1])
    ensures But(Dropped(items, i + 1), u, lo, i)
  {
    var r := Dropped(items, i + 1);
    forall j | 0 <= j < |r| - 1 && !(lo <= j < i) ensures PairOk(r, u, j) {
      DroppedAt(items, i + 1, j);
      DroppedAt(items, i + 1, j + 1);
      if j < lo {
        assert PairOk(items, u, j);
      } else {
        assert PairOk(items, u, j + 1);
      }
    }
  }
}
