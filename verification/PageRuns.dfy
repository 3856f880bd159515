/** The page allocator of src/slab.c under every run of its two operations: each
    page of the heap is free or belongs to one run that was handed out. */
module PageRuns {
  import opened Options
  import opened PageList
  import opened Sums

  /** The free list, and the runs that callers hold by their first page. */
  datatype Holding = Holding(free: seq<Run>, held: map<Page, nat>)

  ghost predicate HeldOk(h: Holding, a: Page, lo: nat, hi: nat)
    requires a in h.held
  {
    lo <= a && 0 < h.held[a] && a + h.held[a] <= hi && Span(a, h.held[a]) !! Pages(h.free)
  }

  ghost predicate ApartOk(h: Holding, a: Page, b: Page)
    requires a in h.held && b in h.held
  {
    a != b ==> Span(a, h.held[a]) !! Span(b, h.held[b])
  }

  ghost predicate Owned(h: Holding, p: Page) {
    exists a :: a in h.held && Within(p, a, h.held[a])
  }

  ghost predicate Accounted(h: Holding, p: Page) {
    p in Pages(h.free) || Owned(h, p)
  }

  /** The heap of pages lo to hi is partitioned into free pages and held runs. */
  ghost predicate Inv(h: Holding, lo: nat, hi: nat) {
    && 0 < lo <= hi
    && Above(h.free, lo)
    && Pages(h.free) <= Span(lo, hi - lo)
    && (forall a :: a in h.held ==> HeldOk(h, a, lo, hi))
    && (forall a, b :: a in h.held && b in h.held ==> ApartOk(h, a, b))
    && (forall p :: p in Span(lo, hi - lo) ==> Accounted(h, p))
  }

  datatype Event = Take(n: nat) | Give(at: Page)

  predicate Legal(h: Holding, e: Event) {
    e.Give? ==> e.at in h.held
  }

  function Next(h: Holding, e: Event): Holding
    requires Legal(h, e)
  {
    match e
    case Take(n) =>
      var (r, p) := Taken(h.free, n);
      if p.None? then h else Holding(r, h.held[p.value := n])
    case Give(at) => Holding(Given(h.free, at, h.held[at]), h.held - {at})
  }

  lemma TakeInv(h: Holding, n: nat, lo: nat, hi: nat)
    requires Inv(h, lo, hi)
    ensures Inv(Next(h, Take(n)), lo, hi)
  {
    TakenIs(h.free, n, lo);
    var (f, p) := Taken(h.free, n);
    if p.Some? {
      Handed(h, Next(h, Take(n)), p.value, n, lo, hi);
    }
  }

  lemma HeldNotFree(h: Holding, lo: nat, hi: nat)
    requires Inv(h, lo, hi)
    ensures forall a :: a in h.held ==> a !in Pages(h.free)
  {
    forall a | a in h.held ensures a !in Pages(h.free) {
      assert HeldOk(h, a, lo, hi) && a in Span(a, h.held[a]);
    }
  }

  lemma Handed(h: Holding, r: Holding, at: Page, n: nat, lo: nat, hi: nat)
    requires Inv(h, lo, hi) && r.held == h.held[at := n] && Above(r.free, lo) && n > 0
    requires Vacant(h.free, at, n) && Pages(r.free) == Pages(h.free) - Span(at, n)
    ensures Inv(r, lo, hi) && at !in h.held && lo <= at < hi
  {
    var s := Span(at, n);
    assert at in s && at + n - 1 in s;
    HeldNotFree(h, lo, hi);
    forall a | a in r.held ensures HeldOk(r, a, lo, hi) {
      assert a != at ==> HeldOk(h, a, lo, hi);
    }
    forall a, b | a in r.held && b in r.held ensures ApartOk(r, a, b) {
      assert a != at ==> HeldOk(h, a, lo, hi);
      assert b != at ==> HeldOk(h, b, lo, hi);
      assert a != at && b != at ==> ApartOk(h, a, b);
    }
    forall p | p in Span(lo, hi - lo) ensures Accounted(r, p) {
      assert Accounted(h, p);
      if p in s {
        assert at in r.held && r.held[at] == n && Within(p, at, n);
      } else if p !in Pages(h.free) {
        var a :| a in h.held && Within(p, a, h.held[a]);
        assert a in r.held && r.held[a] == h.held[a];
      }
    }
  }

  lemma GiveInv(h: Holding, at: Page, lo: nat, hi: nat)
    requires Inv(h, lo, hi) && at in h.held
    ensures Inv(Next(h, Give(at)), lo, hi)
  {
    var r, s := Next(h, Give(at)), Span(at, h.held[at]);
    assert HeldOk(h, at, lo, hi);
    GivenIs(h.free, at, h.held[at], lo);
    forall a | a in r.held ensures HeldOk(r, a, lo, hi) {
      assert HeldOk(h, a, lo, hi) && ApartOk(h, a, at);
    }
    forall a, b | a in r.held && b in r.held ensures ApartOk(r, a, b) {
      assert ApartOk(h, a, b);
    }
    forall p | p in Span(lo, hi - lo) ensures Accounted(r, p) {
      assert Accounted(h, p);
      if p !in Pages(h.free) && p !in s {
        var a :| a in h.held && Within(p, a, h.held[a]);
        assert a != at && a in r.held && r.held[a] == h.held[a];
      }
    }
  }

  lemma StepInv(h: Holding, e: Event, lo: nat, hi: nat)
    requires Inv(h, lo, hi) && Legal(h, e)
    ensures Inv(Next(h, e), lo, hi)
  {
    match e
    case Take(n) => TakeInv(h, n, lo, hi);
    case Give(at) => GiveInv(h, at, lo, hi);
  }

  ghost predicate Runnable(h: Holding, es: seq<Event>)
    decreases |es|
  {
    es == [] || (Legal(h, es[0]) && Runnable(Next(h, es[0]), es[1..]))
  }

  ghost function After(h: Holding, es: seq<Event>): Holding
    requires Runnable(h, es)
    decreases |es|
  {
    if es == [] then h else After(Next(h, es[0]), es[1..])
  }

  /** rt_page_init. */
  lemma FreshInv(lo: nat, hi: nat)
    requires 0 < lo < hi
    ensures Inv(Holding(Given([], lo, hi - lo), map[]), lo, hi)
  {
    GivenIs([], lo, hi - lo, lo);
  }

  /** What every run keeps: the list sorted, disjoint and coalesced, and every page
      of the heap free or in exactly one of the runs that are held. */
  lemma {:induction false} RunInv(h: Holding, es: seq<Event>, lo: nat, hi: nat)
    requires Inv(h, lo, hi) && Runnable(h, es)
    ensures Inv(After(h, es), lo, hi)
    decreases |es|
  {
    if es != [] {
      StepInv(h, es[0], lo, hi);
      RunInv(Next(h, es[0]), es[1..], lo, hi);
    }
  }

  // ---------------------------------------------------------------- conservation

  ghost function Total(l: seq<Run>): nat {
    if l == [] then 0 else l[0].len + Total(l[1..])
  }

  lemma {:induction false} TakenTotal(l: seq<Run>, n: nat)
    ensures Total(Taken(l, n).0) + (if Taken(l, n).1.Some? then n else 0) == Total(l)
  {
    if n > 0 && l != [] {
      if l[0].len > n {
        assert ([Run(l[0].at + n, l[0].len - n)] + l[1..])[1..] == l[1..];
      } else if l[0].len < n {
        TakenTotal(l[1..], n);
        assert ([l[0]] + Taken(l[1..], n).0)[1..] == Taken(l[1..], n).0;
      }
    }
  }

  lemma {:induction false} GivenTotal(l: seq<Run>, at: Page, n: nat)
    ensures Total(Given(l, at, n)) == Total(l) + n
  {
    if l == [] {
      assert [Run(at, n)][1..] == [];
    } else if l[0].at + l[0].len == at {
      if |l| > 1 {
        assert l[1..][0] == l[1] && l[1..][1..] == l[2..];
        assert ([Run(l[0].at, l[0].len + n + l[1].len)] + l[2..])[1..] == l[2..];
      }
      assert ([Run(l[0].at, l[0].len + n)] + l[1..])[1..] == l[1..];
    } else if l[0].at == at + n {
      assert ([Run(at, l[0].len + n)] + l[1..])[1..] == l[1..];
    } else if l[0].at > at + n {
      assert ([Run(at, n)] + l)[1..] == l;
    } else {
      GivenTotal(l[1..], at, n);
      assert ([l[0]] + Given(l[1..], at, n))[1..] == Given(l[1..], at, n);
    }
  }

  /** No page is lost or made: the free pages and the pages held always add up. */
  lemma StepTotal(h: Holding, e: Event, lo: nat, hi: nat)
    requires Inv(h, lo, hi) && Legal(h, e)
    ensures var r := Next(h, e); Total(r.free) + Sum(r.held, lo, hi) == Total(h.free) + Sum(h.held, lo, hi)
  {
    match e
    case Take(n) =>
      TakenTotal(h.free, n);
      TakenIs(h.free, n, lo);
      var p := Taken(h.free, n).1;
      if p.Some? {
        Handed(h, Next(h, e), p.value, n, lo, hi);
        SumAdd(h.held, p.value, n, lo, hi);
      }
    case Give(at) =>
      GivenTotal(h.free, at, h.held[at]);
      assert HeldOk(h, at, lo, hi);
      SumRemove(h.held, at, lo, hi);
  }

  lemma {:induction false} RunTotal(h: Holding, es: seq<Event>, lo: nat, hi: nat)
    requires Inv(h, lo, hi) && Runnable(h, es)
    ensures var r := After(h, es); Total(r.free) + Sum(r.held, lo, hi) == Total(h.free) + Sum(h.held, lo, hi)
    decreases |es|
  {
    if es != [] {
      StepInv(h, es[0], lo, hi);
      StepTotal(h, es[0], lo, hi);
      RunTotal(Next(h, es[0]), es[1..], lo, hi);
    }
  }
}
