/** One zone of src/slab.c: where its chunks lie, which are on the free list, and
    what z_nfree counts. */
module SlabZone {
  import opened RtList
  import opened IpcList
  import opened ZoneSizes

  type Addr = int

  /** The header fields of slab_zone; `free` is the list from z_freechunk on. */
  datatype Zone = Zone(index: nat, size: nat, base: Addr, nmax: nat, uindex: int, nfree: nat, free: seq<Addr>)

  /** The k-th chunk. */
  function At(x: Zone, k: int): Addr {
    x.base + k * x.size
  }

  function Rank(x: Zone, a: Addr): int
    requires x.size > 0
  {
    (a - x.base) / x.size
  }

  /** a is a chunk that has been handed out at least once. */
  ghost predicate Slot(x: Zone, a: Addr)
    requires x.size > 0
  {
    0 <= Rank(x, a) <= x.uindex && a == At(x, Rank(x, a))
  }

  lemma RankAt(x: Zone, k: nat)
    requires x.size > 0
    ensures Rank(x, At(x, k)) == k
  {
    Quotient(k, 0, x.size);
  }

  /** z_nfree counts the chunks never handed out and those on the free list. */
  ghost predicate FreeOk(x: Zone)
    requires x.size > 0
  {
    && -1 <= x.uindex < x.nmax
    && Distinct(x.free)
    && (forall a :: a in x.free ==> Slot(x, a))
    && x.nfree == x.nmax - 1 - x.uindex + |x.free|
  }

  // ------------------------------------------------------------------- counting

  lemma {:induction false} DistinctBound(s: seq<int>, n: nat)
    requires Distinct(s) && forall a :: a in s ==> 0 <= a < n
    ensures |s| <= n
    decreases n
  {
    assert |s| > 0 ==> n > 0 by {
      if |s| > 0 {
        assert s[0] in s;
      }
    }
    if n > 0 {
      WithoutIn(s, n - 1);
      DistinctBound(Without(s, n - 1), n - 1);
    }
  }

  lemma {:induction false} Pigeons(s: seq<int>, n: nat, k: nat)
    requires Distinct(s) && (forall a :: a in s ==> 0 <= a < n) && |s| == n && k < n
    ensures k in s
  {
    if k !in s {
      var t := seq(|s|, i requires 0 <= i < |s| => if s[i] > k then s[i] - 1 else s[i]);
      assert Distinct(t);
      forall a | a in t ensures 0 <= a < n - 1 {
        var i :| 0 <= i < |t| && t[i] == a;
        assert s[i] in s;
      }
      DistinctBound(t, n - 1);
    }
  }

  function Ranks(x: Zone): (r: seq<int>)
    requires x.size > 0
    ensures |r| == |x.free|
  {
    seq(|x.free|, i requires 0 <= i < |x.free| => Rank(x, x.free[i]))
  }

  lemma RanksOk(x: Zone)
    requires x.size > 0 && FreeOk(x)
    ensures Distinct(Ranks(x)) && forall k :: k in Ranks(x) ==> 0 <= k < x.uindex + 1
  {
    var r := Ranks(x);
    forall i | 0 <= i < |r| ensures 0 <= r[i] < x.uindex + 1 && x.free[i] == At(x, r[i]) {
      assert x.free[i] in x.free;
    }
  }

  /** There are never more free chunks than chunks. */
  lemma FreeBound(x: Zone)
    requires x.size > 0 && FreeOk(x)
    ensures x.nfree <= x.nmax
  {
    RanksOk(x);
    DistinctBound(Ranks(x), x.uindex + 1);
  }

  /** When z_nfree reaches z_nmax every chunk ever handed out is back. */
  lemma FullIsFree(x: Zone, a: Addr)
    requires x.size > 0 && FreeOk(x) && x.nfree == x.nmax && Slot(x, a)
    ensures a in x.free
  {
    RanksOk(x);
    var r, k := Ranks(x), Rank(x, a);
    Pigeons(r, x.uindex + 1, k);
    var i :| 0 <= i < |r| && r[i] == k;
    assert x.free[i] in x.free;
  }

  // ------------------------------------------------------------------ operations

  /** Untouched memory comes first, then the free list. */
  function Carved(x: Zone): (Zone, Addr)
    requires x.nfree > 0 && (x.uindex + 1 == x.nmax ==> x.free != [])
  {
    if x.uindex + 1 != x.nmax then
      (x.(uindex := x.uindex + 1, nfree := x.nfree - 1), At(x, x.uindex + 1))
    else (x.(free := x.free[1..], nfree := x.nfree - 1), x.free[0])
  }

  function Returned(x: Zone, a: Addr): Zone {
    x.(free := [a] + x.free, nfree := x.nfree + 1)
  }

  /** Handed out: a chunk that was not in use becomes one that is, and no other
      chunk changes sides. */
  lemma CarvedIs(x: Zone)
    requires x.size > 0 && FreeOk(x) && x.nfree > 0
    ensures x.uindex + 1 == x.nmax ==> x.free != []
    ensures var (y, a) := Carved(x);
      && FreeOk(y) && y.size == x.size
      && Slot(y, a) && a !in y.free && (Slot(x, a) ==> a in x.free)
      && (forall b :: b != a ==> (Slot(y, b) && b !in y.free <==> Slot(x, b) && b !in x.free))
  {
    if x.uindex + 1 != x.nmax {
      var (y, a) := Carved(x);
      RankAt(x, x.uindex + 1);
      forall b ensures Slot(y, b) <==> Slot(x, b) || b == a {
        assert Rank(y, b) == Rank(x, b) && At(y, Rank(x, b)) == At(x, Rank(x, b));
      }
    } else {
      var y := Carved(x).0;
      assert x.free == [x.free[0]] + x.free[1..];
      forall b ensures Slot(y, b) <==> Slot(x, b) {
        assert Rank(y, b) == Rank(x, b) && At(y, Rank(x, b)) == At(x, Rank(x, b));
      }
    }
  }

  lemma ReturnedIs(x: Zone, a: Addr)
    requires x.size > 0 && FreeOk(x) && Slot(x, a) && a !in x.free
    ensures var y := Returned(x, a);
      && FreeOk(y) && y.size == x.size
      && (forall b :: Slot(y, b) && b !in y.free <==> Slot(x, b) && b !in x.free && b != a)
  {
    var y := Returned(x, a);
    forall b ensures Slot(y, b) <==> Slot(x, b) {
      assert Rank(y, b) == Rank(x, b) && At(y, Rank(x, b)) == At(x, Rank(x, b));
    }
  }

  /** A chunk just returned is handed out next if and only if every chunk of the zone has
      been handed out before. */
  lemma CarvedAgainIff(x: Zone, a: Addr)
    requires x.size > 0 && FreeOk(x) && Slot(x, a) && a !in x.free
    ensures var y := Returned(x, a);
      y.nfree > 0 && y.free != [] && (Carved(y).1 == a <==> x.uindex + 1 == x.nmax)
  {
    var y := Returned(x, a);
    RankAt(x, x.uindex + 1);
    assert At(y, y.uindex + 1) == At(x, x.uindex + 1);
  }
}
