/** The sum of the values that a map gives to the keys from lo to hi. */
module Sums {
  ghost function Sum(m: map<int, nat>, lo: int, hi: int): nat
    decreases hi - lo
  {
    if lo >= hi then 0 else (if lo in m then m[lo] else 0) + Sum(m, lo + 1, hi)
  }

  lemma {:induction false} SumSame(m: map<int, nat>, n: map<int, nat>, lo: int, hi: int)
    requires forall k :: lo <= k < hi ==> (k in m <==> k in n) && (k in m ==> m[k] == n[k])
    ensures Sum(m, lo, hi) == Sum(n, lo, hi)
    decreases hi - lo
  {
    if lo < hi {
      SumSame(m, n, lo + 1, hi);
    }
  }

  lemma {:induction false} SumAdd(m: map<int, nat>, k: int, v: nat, lo: int, hi: int)
    requires k !in m && lo <= k < hi
    ensures Sum(m[k := v], lo, hi) == Sum(m, lo, hi) + v
    decreases hi - lo
  {
    if k == lo {
      SumSame(m, m[k := v], lo + 1, hi);
    } else {
      SumAdd(m, k, v, lo + 1, hi);
    }
  }

  lemma SumRemove(m: map<int, nat>, k: int, lo: int, hi: int)
    requires k in m && lo <= k < hi
    ensures Sum(m, lo, hi) == m[k] + Sum(m - {k}, lo, hi)
  {
    SumAdd(m - {k}, k, m[k], lo, hi);
    assert (m - {k})[k := m[k]] == m;
  }

  lemma {:induction false} SumNone(m: map<int, nat>, lo: int, mid: int, hi: int)
    requires lo <= mid <= hi && forall k :: lo <= k < mid ==> k !in m
    ensures Sum(m, lo, hi) == Sum(m, mid, hi)
    decreases mid - lo
  {
    if lo < mid {
      SumNone(m, lo + 1, mid, hi);
    }
  }

  /** The block at a ends before the block at b starts, or by hi. */
  ghost predicate Clear(m: map<int, nat>, a: int, hi: int) {
    a in m ==> m[a] > 0 && a + m[a] <= hi && forall b :: b in m && a < b ==> a + m[a] <= b
  }

  /** Blocks that do not overlap fill no more than the room they lie in. */
  lemma {:induction false} SumFits(m: map<int, nat>, lo: int, hi: int)
    requires lo <= hi && forall a :: lo <= a < hi ==> Clear(m, a, hi)
    ensures Sum(m, lo, hi) <= hi - lo
    decreases hi - lo
  {
    if lo < hi {
      assert Clear(m, lo, hi);
      if lo in m {
        SumNone(m, lo + 1, lo + m[lo], hi);
        SumFits(m, lo + m[lo], hi);
      } else {
        SumFits(m, lo + 1, hi);
      }
    }
  }
}
