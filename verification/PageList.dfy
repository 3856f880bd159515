/** The page allocator of src/slab.c on values: the list of free page runs, and
    what every sequence of rt_page_alloc and rt_page_free makes of the heap.
    A page is named by its address divided by RT_MM_PAGE_SIZE; 0 is RT_NULL. */
module PageList {
  import opened Options

  type Page = nat

  /** A free page head and the run of pages it stands for. */
  datatype Run = Run(at: Page, len: nat)

  ghost function Span(at: Page, len: nat): set<Page> {
    set p: nat | p < at + len && Within(p, at, len)
  }

  predicate Within(p: Page, at: Page, len: nat) {
    at <= p < at + len
  }

  ghost function Pages(l: seq<Run>): set<Page> {
    if l == [] then {} else Span(l[0].at, l[0].len) + Pages(l[1..])
  }

  /** From page lo on: sorted by address, disjoint, and at least one page that is
      not free between neighbours. */
  ghost predicate Above(l: seq<Run>, lo: nat) {
    l == [] || (lo <= l[0].at && l[0].len > 0 && Above(l[1..], l[0].at + l[0].len + 1))
  }

  lemma {:induction false} AbovePages(l: seq<Run>, lo: nat)
    requires Above(l, lo)
    ensures forall p :: p in Pages(l) ==> lo <= p
  {
    if l != [] {
      AbovePages(l[1..], l[0].at + l[0].len + 1);
    }
  }

  lemma {:induction false} AboveLess(l: seq<Run>, lo: nat, low: nat)
    requires Above(l, lo) && low <= lo
    ensures Above(l, low)
  {
  }

  lemma FirstPage(l: seq<Run>, lo: nat)
    requires Above(l, lo) && l != []
    ensures l[0].at in Pages(l) && l[0].at + l[0].len !in Pages(l)
    ensures forall p :: p in Pages(l) ==> l[0].at <= p
    ensures forall p :: p in Pages(l) && p < l[0].at + l[0].len ==> p in Span(l[0].at, l[0].len)
    ensures Pages(l[1..]) == Pages(l) - Span(l[0].at, l[0].len)
  {
    AbovePages(l[1..], l[0].at + l[0].len + 1);
  }

  /** The list is a function of the set of free pages: there is only one way to
      write a set of pages as sorted, separated runs. */
  lemma {:induction false} Canonical(a: seq<Run>, b: seq<Run>, lo: nat)
    requires Above(a, lo) && Above(b, lo) && Pages(a) == Pages(b)
    ensures a == b
  {
    if a == [] {
      if b != [] {
        FirstPage(b, lo);
      }
    } else {
      FirstPage(a, lo);
      if b != [] {
        FirstPage(b, lo);
        SameFirst(a, b, lo);
        AboveLess(a[1..], a[0].at + a[0].len + 1, lo);
        AboveLess(b[1..], b[0].at + b[0].len + 1, lo);
        Canonical(a[1..], b[1..], lo);
        assert a == [a[0]] + a[1..] && b == [b[0]] + b[1..];
      }
    }
  }

  lemma SameFirst(a: seq<Run>, b: seq<Run>, lo: nat)
    requires Above(a, lo) && Above(b, lo) && Pages(a) == Pages(b) && a != [] && b != []
    ensures a[0] == b[0]
  {
    FirstPage(a, lo);
    FirstPage(b, lo);
    var x, y := a[0].at + a[0].len, b[0].at + b[0].len;
    var s, t := Span(a[0].at, a[0].len), Span(b[0].at, b[0].len);
    assert x < y ==> x in t;
    assert y < x ==> y in s;
  }

  // ------------------------------------------------------------------ operations

  /** rt_page_alloc: the list afterwards and the pages handed out. */
  function Taken(l: seq<Run>, n: nat): (seq<Run>, Option<Page>) {
    if n == 0 || l == [] then (l, None)
    else if l[0].len > n then ([Run(l[0].at + n, l[0].len - n)] + l[1..], Some(l[0].at))
    else if l[0].len == n then (l[1..], Some(l[0].at))
    else var r := Taken(l[1..], n); ([l[0]] + r.0, r.1)
  }

  /** rt_page_free: merge with the run before, the run behind, or both. */
  function Given(l: seq<Run>, at: Page, n: nat): seq<Run> {
    if l == [] then [Run(at, n)]
    else if l[0].at + l[0].len == at then
      if |l| > 1 && l[0].at + l[0].len + n == l[1].at then [Run(l[0].at, l[0].len + n + l[1].len)] + l[2..]
      else [Run(l[0].at, l[0].len + n)] + l[1..]
    else if l[0].at == at + n then [Run(at, l[0].len + n)] + l[1..]
    else if l[0].at > at + n then [Run(at, n)] + l
    else [l[0]] + Given(l[1..], at, n)
  }

  /** A run of n free pages from p on. */
  ghost predicate Vacant(l: seq<Run>, p: Page, n: nat) {
    Span(p, n) <= Pages(l)
  }

  /** Free pages that follow one another lie in one entry of the list. */
  lemma VacantWhere(l: seq<Run>, lo: nat, p: Page, n: nat)
    requires Above(l, lo) && l != [] && n > 0 && Vacant(l, p, n)
    ensures l[0].at <= p
    ensures (p + n <= l[0].at + l[0].len) || (Vacant(l[1..], p, n) && l[0].at + l[0].len < p)
  {
    FirstPage(l, lo);
    assert p in Span(p, n);
    var e := l[0].at + l[0].len;
    assert e !in Span(p, n);
    if p > e {
      assert Span(p, n) <= Pages(l[1..]);
    }
  }

  /** The pages handed out were free and follow one another; afterwards they are not
      free, and nothing else has changed. */
  lemma {:induction false} TakenIs(l: seq<Run>, n: nat, lo: nat)
    requires Above(l, lo)
    ensures var (r, p) := Taken(l, n);
      && Above(r, lo)
      && (p.None? ==> r == l)
      && (p.Some? ==> n > 0 && lo <= p.value && Vacant(l, p.value, n) && Pages(r) == Pages(l) - Span(p.value, n))
  {
    if n > 0 && l != [] {
      FirstPage(l, lo);
      var b := l[0];
      if b.len > n {
        var r := Run(b.at + n, b.len - n);
        assert ([r] + l[1..])[1..] == l[1..];
        assert Span(b.at, b.len) == Span(b.at, n) + Span(r.at, r.len);
      } else if b.len == n {
        AboveLess(l[1..], b.at + b.len + 1, lo);
      } else {
        TakenIs(l[1..], n, b.at + b.len + 1);
        var r := Taken(l[1..], n);
        assert ([b] + r.0)[1..] == r.0;
        assert r.1.None? ==> [b] + l[1..] == l;
      }
    }
  }

  /** Wherever n free pages in a row exist the request is met, by the lowest ones. */
  lemma {:induction false} TakenLowest(l: seq<Run>, n: nat, lo: nat, p: Page)
    requires Above(l, lo) && n > 0 && Vacant(l, p, n)
    ensures Taken(l, n).1.Some? && Taken(l, n).1.value <= p
  {
    assert p in Span(p, n);
    if l != [] {
      VacantWhere(l, lo, p, n);
      if l[0].len < n {
        TakenLowest(l[1..], n, l[0].at + l[0].len + 1, p);
      }
    }
  }

  lemma {:induction false} GivenIs(l: seq<Run>, at: Page, n: nat, lo: nat)
    requires Above(l, lo) && lo <= at && n > 0 && Span(at, n) !! Pages(l)
    ensures Above(Given(l, at, n), lo)
    ensures Pages(Given(l, at, n)) == Pages(l) + Span(at, n)
  {
    if l == [] {
      assert Given(l, at, n)[1..] == [];
    } else {
      var b := l[0];
      FirstPage(l, lo);
      assert at in Span(at, n);
      if b.at + b.len == at {
        GivenBehind(l, at, n, lo);
      } else if b.at == at + n {
        assert ([Run(at, b.len + n)] + l[1..])[1..] == l[1..];
        assert Span(at, b.len + n) == Span(at, n) + Span(b.at, b.len);
      } else if b.at > at + n {
        assert ([Run(at, n)] + l)[1..] == l;
      } else {
        assert at < b.at ==> b.at in Span(at, n);
        assert b.at + b.len < at;
        GivenIs(l[1..], at, n, b.at + b.len + 1);
        assert ([b] + Given(l[1..], at, n))[1..] == Given(l[1..], at, n);
      }
    }
  }

  lemma GivenBehind(l: seq<Run>, at: Page, n: nat, lo: nat)
    requires Above(l, lo) && n > 0 && Span(at, n) !! Pages(l) && l != [] && l[0].at + l[0].len == at
    ensures Above(Given(l, at, n), lo)
    ensures Pages(Given(l, at, n)) == Pages(l) + Span(at, n)
  {
    var b := l[0];
    assert Span(b.at, b.len + n) == Span(b.at, b.len) + Span(at, n);
    if |l| > 1 {
      var c := l[1];
      assert l[1..][0] == c && l[1..][1..] == l[2..];
      assert c.at in Span(c.at, c.len) && c.at in Pages(l[1..]);
      assert c.at !in Span(at, n);
      if at + n == c.at {
        assert ([Run(b.at, b.len + n + c.len)] + l[2..])[1..] == l[2..];
        assert Span(b.at, b.len + n + c.len) == Span(b.at, b.len + n) + Span(c.at, c.len);
      } else {
        assert ([Run(b.at, b.len + n)] + l[1..])[1..] == l[1..];
      }
    } else {
      assert ([Run(b.at, b.len + n)] + l[1..])[1..] == l[1..];
    }
  }

  /** Freeing the run just allocated restores the list exactly. */
  lemma TakeGive(l: seq<Run>, n: nat, lo: nat)
    requires Above(l, lo) && Taken(l, n).1.Some?
    ensures Given(Taken(l, n).0, Taken(l, n).1.value, n) == l
  {
    TakenIs(l, n, lo);
    var r, p := Taken(l, n).0, Taken(l, n).1.value;
    GivenIs(r, p, n, lo);
    assert Pages(r) + Span(p, n) == Pages(l);
    Canonical(Given(r, p, n), l, lo);
  }

  lemma GivenTwice(l: seq<Run>, a: Page, n: nat, b: Page, m: nat, lo: nat)
    requires Above(l, lo) && lo <= a && lo <= b && n > 0 && m > 0
    requires Span(a, n) !! Pages(l) && Span(b, m) !! Pages(l) && Span(a, n) !! Span(b, m)
    ensures Above(Given(Given(l, a, n), b, m), lo)
    ensures Pages(Given(Given(l, a, n), b, m)) == Pages(l) + (Span(a, n) + Span(b, m))
  {
    GivenIs(l, a, n, lo);
    GivenIs(Given(l, a, n), b, m, lo);
  }

  /** The order in which two runs are freed does not matter. */
  lemma GiveSwap(l: seq<Run>, a: Page, n: nat, b: Page, m: nat, lo: nat)
    requires Above(l, lo) && lo <= a && lo <= b && n > 0 && m > 0
    requires Span(a, n) !! Pages(l) && Span(b, m) !! Pages(l) && Span(a, n) !! Span(b, m)
    ensures Given(Given(l, a, n), b, m) == Given(Given(l, b, m), a, n)
  {
    var x, y := Given(Given(l, a, n), b, m), Given(Given(l, b, m), a, n);
    assert Above(x, lo) && Pages(x) == Pages(l) + (Span(a, n) + Span(b, m)) by { GivenTwice(l, a, n, b, m, lo); }
    assert Above(y, lo) && Pages(y) == Pages(l) + (Span(b, m) + Span(a, n)) by { GivenTwice(l, b, m, a, n, lo); }
    assert Span(a, n) + Span(b, m) == Span(b, m) + Span(a, n);
    Canonical(x, y, lo);
  }
}
