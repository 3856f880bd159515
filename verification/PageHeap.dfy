/** The page heads of src/slab.c in memory: the list is threaded through the first
    page of each free run, and both operations walk it by the address of a link. */
module PageHeap {
  import opened Options
  import opened PageList

  /** rt_page_list, and the two words of every page head. */
  datatype Heads = Heads(head: Page, next: map<Page, Page>, page: map<Page, nat>)

  /** From `from` the links lead through the runs of l to `to`. */
  ghost predicate Segment(h: Heads, from: Page, l: seq<Run>, to: Page)
    decreases |l|
  {
    if l == [] then from == to
    else
      && 0 != from == l[0].at
      && from in h.next && from in h.page && h.page[from] == l[0].len
      && Segment(h, h.next[from], l[1..], to)
  }

  ghost predicate Repr(h: Heads, l: seq<Run>) {
    Segment(h, h.head, l, 0)
  }

  ghost predicate Agree(h: Heads, g: Heads, l: seq<Run>) {
    forall i :: 0 <= i < |l| ==> SameHead(h, g, l[i].at)
  }

  ghost predicate SameHead(h: Heads, g: Heads, p: Page) {
    && (p in h.next <==> p in g.next) && (p in h.page <==> p in g.page)
    && (p in h.next ==> g.next[p] == h.next[p]) && (p in h.page ==> g.page[p] == h.page[p])
  }

  lemma {:induction false} SegmentFrame(h: Heads, g: Heads, from: Page, l: seq<Run>, to: Page)
    requires Segment(h, from, l, to) && Agree(h, g, l)
    ensures Segment(g, from, l, to)
    decreases |l|
  {
    if l != [] {
      assert SameHead(h, g, l[0].at);
      assert forall i :: 0 <= i < |l[1..]| ==> l[1..][i] == l[i + 1];
      SegmentFrame(h, g, h.next[from], l[1..], to);
    }
  }

  lemma {:induction false} SegmentJoin(h: Heads, from: Page, a: seq<Run>, mid: Page, b: seq<Run>, to: Page)
    requires Segment(h, from, a, mid) && Segment(h, mid, b, to)
    ensures Segment(h, from, a + b, to)
    decreases |a|
  {
    if a == [] {
      assert a + b == b;
    } else {
      SegmentJoin(h, h.next[from], a[1..], mid, b, to);
      assert (a + b)[1..] == a[1..] + b;
    }
  }

  /** The page head whose link leads past l, or 0 for rt_page_list itself. */
  ghost function Last(l: seq<Run>): Page {
    if l == [] then 0 else l[|l| - 1].at
  }

  /** A store through the address of a link. */
  function Store(h: Heads, prev: Page, v: Page): (r: Heads) {
    if prev == 0 then h.(head := v) else h.(next := h.next[prev := v])
  }

  ghost predicate Ascending(l: seq<Run>) {
    forall i, j :: 0 <= i < j < |l| ==> l[i].at < l[j].at
  }

  lemma {:induction false} Relink(h: Heads, from: Page, l: seq<Run>, to: Page, v: Page)
    requires Segment(h, from, l, to) && l != [] && Ascending(l)
    ensures Segment(h.(next := h.next[Last(l) := v]), from, l, v)
    decreases |l|
  {
    var g := h.(next := h.next[Last(l) := v]);
    if |l| > 1 {
      assert forall i :: 0 <= i < |l[1..]| ==> l[1..][i] == l[i + 1];
      Relink(h, h.next[from], l[1..], to, v);
      assert l[0].at < l[|l| - 1].at;
    }
  }

  lemma StoreSegment(h: Heads, l: seq<Run>, to: Page, v: Page)
    requires Segment(h, h.head, l, to) && Ascending(l)
    ensures Segment(Store(h, Last(l), v), Store(h, Last(l), v).head, l, v)
  {
    if l == [] {
    } else {
      SegmentNonzero(h, h.head, l, to);
      Relink(h, h.head, l, to, v);
    }
  }

  lemma {:induction false} SegmentNonzero(h: Heads, from: Page, l: seq<Run>, to: Page)
    requires Segment(h, from, l, to) && l != []
    ensures Last(l) != 0
    decreases |l|
  {
    if |l| > 1 {
      SegmentNonzero(h, h.next[from], l[1..], to);
    }
  }

  // ----------------------------------------------------------- where a walk stands

  /** The walk has passed the runs of `done` and stands before those of `rest`. */
  ghost predicate Walk(h: Heads, l: seq<Run>, done: seq<Run>, rest: seq<Run>, prev: Page, b: Page, lo: nat) {
    && l == done + rest && prev == Last(done)
    && Segment(h, h.head, done, b) && Segment(h, b, rest, 0)
    && Ascending(done) && 0 < lo && Above(rest, lo)
    && (forall i :: 0 <= i < |done| ==> done[i].at + done[i].len < lo)
  }

  lemma WalkStart(h: Heads, l: seq<Run>, lo: nat)
    requires Repr(h, l) && Above(l, lo) && lo > 0
    ensures Walk(h, l, [], l, 0, h.head, lo)
  {
    assert [] + l == l;
  }

  lemma WalkStep(h: Heads, l: seq<Run>, done: seq<Run>, rest: seq<Run>, prev: Page, b: Page, lo: nat)
    requires Walk(h, l, done, rest, prev, b, lo) && b != 0
    ensures rest != [] && b == rest[0].at && b in h.next && b in h.page && h.page[b] == rest[0].len
    ensures Walk(h, l, done + rest[..1], rest[1..], b, h.next[b], b + h.page[b] + 1)
  {
    assert rest == rest[..1] + rest[1..];
    assert rest[..1] == [rest[0]] && rest[..1][1..] == [];
    SegmentJoin(h, h.head, done, b, rest[..1], h.next[b]);
    assert done + rest == done + rest[..1] + rest[1..];
  }

  /** What stands before the walk is replaced by other runs. */
  lemma Replaced(h: Heads, g: Heads, done: seq<Run>, to: Page, tail: seq<Run>, first: Page)
    requires Segment(h, h.head, done, to) && Ascending(done) && g.head == h.head && Agree(h, g, done)
    requires Segment(Store(g, Last(done), first), first, tail, 0)
    ensures Repr(Store(g, Last(done), first), done + tail)
  {
    var r := Store(g, Last(done), first);
    SegmentFrame(h, g, h.head, done, to);
    StoreSegment(g, done, to, first);
    SegmentJoin(r, r.head, done, first, tail, 0);
  }

  lemma {:induction false} AboveAts(l: seq<Run>, lo: nat)
    requires Above(l, lo)
    ensures forall i :: 0 <= i < |l| ==> lo <= l[i].at
  {
    if l != [] {
      AboveAts(l[1..], l[0].at + l[0].len + 1);
      assert forall i :: 1 <= i < |l| ==> l[i] == l[1..][i - 1];
    }
  }

  /** Only heads from `from` on, and the link `prev`, were written. */
  ghost predicate Wrote(h: Heads, g: Heads, from: Page, to: Page) {
    h.head == g.head && forall p: nat :: p < from || to < p ==> SameHead(h, g, p)
  }

  /** The runs behind the walk and those before it do not notice the write. */
  lemma Spliced(h: Heads, g: Heads, l: seq<Run>, done: seq<Run>, rest: seq<Run>, prev: Page, b: Page, lo: nat,
                to: Page, x: Run, tail: seq<Run>)
    requires Walk(h, l, done, rest, prev, b, lo) && lo <= x.at <= to && Wrote(h, g, lo, to)
    requires x.at in g.next && x.at in g.page && g.page[x.at] == x.len
    requires Segment(h, g.next[x.at], tail, 0) && Above(tail, to + 1)
    ensures Repr(Store(g, prev, x.at), done + ([x] + tail))
  {
    var r := Store(g, prev, x.at);
    AboveAts(tail, to + 1);
    DoneBelow(done, lo);
    forall i | 0 <= i < |tail| ensures SameHead(h, r, tail[i].at) {
      assert SameHead(h, g, tail[i].at);
    }
    SegmentFrame(h, r, g.next[x.at], tail, 0);
    assert ([x] + tail)[1..] == tail;
    Replaced(h, g, done, b, [x] + tail, x.at);
  }

  lemma DoneBelow(done: seq<Run>, lo: nat)
    requires forall i :: 0 <= i < |done| ==> done[i].at + done[i].len < lo
    ensures Last(done) < lo || done == []
  {
  }

  // ------------------------------------------------------------------ operations

  ghost function Found(p: Option<Page>): Page {
    if p.Some? then p.value else 0
  }

  lemma TakenStep(done: seq<Run>, rest: seq<Run>, l: seq<Run>, n: nat)
    requires rest != [] && rest[0].len < n
    requires Taken(l, n) == (done + Taken(rest, n).0, Taken(rest, n).1)
    ensures Taken(l, n) == (done + rest[..1] + Taken(rest[1..], n).0, Taken(rest[1..], n).1)
  {
    var t := Taken(rest[1..], n).0;
    assert rest[..1] == [rest[0]];
    assert done + ([rest[0]] + t) == done + rest[..1] + t;
  }

  /** rt_page_alloc. */
  method Alloc(h: Heads, n: nat, ghost l: seq<Run>, ghost low: nat) returns (r: Heads, b: Page)
    requires Repr(h, l) && Above(l, low) && low > 0
    ensures Repr(r, Taken(l, n).0) && b == Found(Taken(l, n).1)
  {
    if n == 0 {
      return h, 0;
    }
    var prev: Page := 0;
    b := h.head;
    ghost var done: seq<Run>, rest, lo: nat := [], l, low;
    WalkStart(h, l, low);
    assert [] + Taken(l, n).0 == Taken(l, n).0;
    while b != 0
      invariant Walk(h, l, done, rest, prev, b, lo)
      invariant Taken(l, n) == (done + Taken(rest, n).0, Taken(rest, n).1)
      decreases |rest|
    {
      WalkStep(h, l, done, rest, prev, b, lo);
      if h.page[b] > n {
        r := Split(h, n, prev, b, l, done, rest, lo);
        return;
      }
      if h.page[b] == n {
        r := Store(h, prev, h.next[b]);
        Dropped(h, l, done, rest, prev, b, lo);
        return;
      }
      TakenStep(done, rest, l, n);
      done, rest, lo := done + rest[..1], rest[1..], b + h.page[b] + 1;
      prev, b := b, h.next[b];
    }
    assert rest == [];
    r := h;
    assert done + [] == done == l;
  }

  method Split(h: Heads, n: nat, prev: Page, b: Page, ghost l: seq<Run>, ghost done: seq<Run>, ghost rest: seq<Run>,
               ghost lo: nat)
    returns (r: Heads)
    requires Walk(h, l, done, rest, prev, b, lo) && b != 0 && b in h.next && b in h.page && h.page[b] > n > 0
    ensures rest != [] && rest[0] == Run(b, h.page[b])
    ensures Repr(r, done + ([Run(b + n, h.page[b] - n)] + rest[1..]))
  {
    var g := Heads(h.head, h.next[b + n := h.next[b]], h.page[b + n := h.page[b] - n]);
    r := Store(g, prev, b + n);
    Spliced(h, g, l, done, rest, prev, b, lo, b + h.page[b], Run(b + n, h.page[b] - n), rest[1..]);
  }

  lemma Dropped(h: Heads, l: seq<Run>, done: seq<Run>, rest: seq<Run>, prev: Page, b: Page, lo: nat)
    requires Walk(h, l, done, rest, prev, b, lo) && b != 0 && b in h.next
    ensures rest != [] && Repr(Store(h, prev, h.next[b]), done + rest[1..])
  {
    var r := Store(h, prev, h.next[b]);
    AboveAts(rest[1..], rest[0].at + rest[0].len + 1);
    DoneBelow(done, lo);
    SegmentFrame(h, r, h.next[b], rest[1..], 0);
    Replaced(h, h, done, b, rest[1..], h.next[b]);
  }

  lemma {:induction false} LastLink(h: Heads, from: Page, l: seq<Run>, to: Page)
    requires Segment(h, from, l, to) && l != []
    ensures Last(l) in h.next && h.next[Last(l)] == to
    decreases |l|
  {
    if |l| > 1 {
      LastLink(h, h.next[from], l[1..], to);
    }
  }

  /** The link before the walk already leads to b. */
  lemma StoreSame(h: Heads, g: Heads, l: seq<Run>, done: seq<Run>, rest: seq<Run>, prev: Page, b: Page, lo: nat,
                  to: Page)
    requires Walk(h, l, done, rest, prev, b, lo) && Wrote(h, g, lo, to)
    ensures Store(g, prev, b) == g
  {
    if done != [] {
      LastLink(h, h.head, done, b);
      SegmentNonzero(h, h.head, done, b);
      DoneBelow(done, lo);
      assert SameHead(h, g, prev);
      assert g.next[prev := b] == g.next;
    }
  }

  /** Where the walk stands for the run that is freed. */
  ghost predicate Before(rest: seq<Run>, at: Page, n: nat, lo: nat) {
    lo <= at && n > 0 && Span(at, n) !! Pages(rest)
  }

  lemma Passed(h: Heads, l: seq<Run>, done: seq<Run>, rest: seq<Run>, prev: Page, b: Page, lo: nat, at: Page, n: nat)
    requires Walk(h, l, done, rest, prev, b, lo) && b != 0 && Before(rest, at, n, lo)
    requires rest != [] && b == rest[0].at && b in h.page && h.page[b] == rest[0].len
    requires b + h.page[b] != at && b != at + n && b <= at + n
    requires Given(l, at, n) == done + Given(rest, at, n)
    ensures Before(rest[1..], at, n, b + h.page[b] + 1)
    ensures Given(l, at, n) == done + rest[..1] + Given(rest[1..], at, n)
  {
    var s, t := Span(at, n), Span(b, h.page[b]);
    assert b in t && at in s;
    assert at < b ==> b in s;
    assert b < at < b + h.page[b] ==> at in t;
    assert rest[..1] == [rest[0]];
    assert done + ([rest[0]] + Given(rest[1..], at, n)) == done + rest[..1] + Given(rest[1..], at, n);
  }

  /** The freed run directly follows the one at b, and may close the gap to the next. */
  method GrowRun(h: Heads, n: nat, prev: Page, b: Page, ghost l: seq<Run>, ghost done: seq<Run>, ghost rest: seq<Run>,
                 ghost lo: nat)
    returns (r: Heads)
    requires Walk(h, l, done, rest, prev, b, lo) && b != 0 && b in h.next && b in h.page && n > 0
    requires Before(rest, b + h.page[b], n, lo)
    ensures Repr(r, done + Given(rest, b + h.page[b], n))
  {
    WalkStep(h, l, done, rest, prev, b, lo);
    var size := h.page[b] + n;
    var c := h.next[b];
    if b + size == c {
      ghost var tail := rest[2..];
      assert rest[1..][1..] == tail && rest[1..][0] == rest[1];
      AboveLess(tail, rest[1].at + rest[1].len + 1, c + 1);
      r := h.(page := h.page[b := size + h.page[c]], next := h.next[b := h.next[c]]);
      assert Wrote(h, r, lo, c);
      Spliced(h, r, l, done, rest, prev, b, lo, c, Run(b, size + h.page[c]), tail);
      StoreSame(h, r, l, done, rest, prev, b, lo, c);
    } else {
      r := h.(page := h.page[b := size]);
      assert Wrote(h, r, lo, b);
      assert |rest| > 1 ==> rest[1..][0] == rest[1];
      AboveLess(rest[1..], b + h.page[b] + 1, b + 1);
      Spliced(h, r, l, done, rest, prev, b, lo, b, Run(b, size), rest[1..]);
      StoreSame(h, r, l, done, rest, prev, b, lo, b);
    }
  }

  /** A new head at `at`, in front of the runs of tail. */
  method Insert(h: Heads, prev: Page, at: Page, size: nat, next: Page, ghost l: seq<Run>, ghost done: seq<Run>,
                ghost rest: seq<Run>, ghost b: Page, ghost lo: nat, ghost to: Page, ghost tail: seq<Run>)
    returns (r: Heads)
    requires Walk(h, l, done, rest, prev, b, lo)
    requires lo <= at <= to && Segment(h, next, tail, 0) && Above(tail, to + 1)
    ensures Repr(r, done + ([Run(at, size)] + tail))
  {
    var g := h.(page := h.page[at := size], next := h.next[at := next]);
    r := Store(g, prev, at);
    Spliced(h, g, l, done, rest, prev, b, lo, to, Run(at, size), tail);
  }

  /** The freed run directly precedes the one at b. */
  method GrowBack(h: Heads, n: nat, prev: Page, at: Page, ghost l: seq<Run>, ghost done: seq<Run>,
                  ghost rest: seq<Run>, ghost lo: nat)
    returns (r: Heads)
    requires Walk(h, l, done, rest, prev, at + n, lo) && at + n in h.next && at + n in h.page
    requires Before(rest, at, n, lo)
    ensures Repr(r, done + Given(rest, at, n))
  {
    var b := at + n;
    WalkStep(h, l, done, rest, prev, b, lo);
    r := Insert(h, prev, at, h.page[b] + n, h.next[b], l, done, rest, b, lo, b, rest[1..]);
  }

  method InsertHere(h: Heads, n: nat, prev: Page, at: Page, b: Page, ghost l: seq<Run>, ghost done: seq<Run>,
                    ghost rest: seq<Run>, ghost lo: nat)
    returns (r: Heads)
    requires Walk(h, l, done, rest, prev, b, lo) && Before(rest, at, n, lo)
    requires b == 0 || b > at + n
    ensures Repr(r, done + Given(rest, at, n))
  {
    GivenHere(rest, at, n);
    r := Insert(h, prev, at, n, b, l, done, rest, b, lo, at, rest);
  }

  lemma GivenHere(rest: seq<Run>, at: Page, n: nat)
    requires rest == [] || rest[0].at > at + n
    ensures Given(rest, at, n) == [Run(at, n)] + rest
  {
  }

  /** rt_page_free. */
  method Free(h: Heads, at: Page, n: nat, ghost l: seq<Run>, ghost low: nat) returns (r: Heads)
    requires Repr(h, l) && Above(l, low) && 0 < low <= at && n > 0 && Span(at, n) !! Pages(l)
    ensures Repr(r, Given(l, at, n))
  {
    var prev: Page, b: Page := 0, h.head;
    ghost var done: seq<Run>, rest, lo: nat := [], l, low;
    WalkStart(h, l, low);
    assert [] + Given(l, at, n) == Given(l, at, n);
    while b != 0 && b <= at + n
      invariant Walk(h, l, done, rest, prev, b, lo)
      invariant Before(rest, at, n, lo) && Given(l, at, n) == done + Given(rest, at, n)
      decreases |rest|
    {
      WalkStep(h, l, done, rest, prev, b, lo);
      if b + h.page[b] == at {
        r := GrowRun(h, n, prev, b, l, done, rest, lo);
        return;
      }
      if b == at + n {
        r := GrowBack(h, n, prev, at, l, done, rest, lo);
        return;
      }
      Passed(h, l, done, rest, prev, b, lo, at, n);
      done, rest, lo := done + rest[..1], rest[1..], b + h.page[b] + 1;
      prev, b := b, h.next[b];
    }
    r := InsertHere(h, n, prev, at, b, l, done, rest, lo);
  }
}
