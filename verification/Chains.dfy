/** Singly linked lists: nodes are addresses and the links live in one map. */
module Chains {
  import opened RtList
  import opened IpcList

  /** From `from` the links lead through the nodes of xs to `to`. */
  ghost predicate Segment(next: map<int, int>, from: int, xs: seq<int>, to: int)
    decreases |xs|
  {
    if xs == [] then from == to
    else from == xs[0] && from in next && Segment(next, next[from], xs[1..], to)
  }

  /** A whole list: 0 ends it and is not one of its nodes. */
  ghost predicate Chain(next: map<int, int>, head: int, xs: seq<int>) {
    Segment(next, head, xs, 0) && 0 !in xs
  }

  ghost predicate Agree(next: map<int, int>, after: map<int, int>, xs: seq<int>) {
    forall x :: x in xs && x in next ==> x in after && after[x] == next[x]
  }

  lemma {:induction false} SegmentFrame(next: map<int, int>, after: map<int, int>, from: int, xs: seq<int>, to: int)
    requires Segment(next, from, xs, to) && Agree(next, after, xs)
    ensures Segment(after, from, xs, to)
    decreases |xs|
  {
    if xs != [] {
      assert xs[0] in xs;
      SegmentFrame(next, after, next[from], xs[1..], to);
    }
  }

  /** A store to a node that is not in the list. */
  lemma StoreFrame(next: map<int, int>, from: int, xs: seq<int>, to: int, x: int, v: int)
    requires Segment(next, from, xs, to) && x !in xs
    ensures Segment(next[x := v], from, xs, to)
  {
    SegmentFrame(next, next[x := v], from, xs, to);
  }

  lemma ChainFrame(next: map<int, int>, head: int, xs: seq<int>, x: int, v: int)
    requires Chain(next, head, xs) && x !in xs
    ensures Chain(next[x := v], head, xs)
  {
    StoreFrame(next, head, xs, 0, x, v);
  }

  lemma ChainPush(next: map<int, int>, head: int, xs: seq<int>, x: int)
    requires Chain(next, head, xs) && x !in xs && x != 0
    ensures Chain(next[x := head], x, [x] + xs)
  {
    ChainFrame(next, head, xs, x, head);
    assert ([x] + xs)[1..] == xs;
  }

  lemma ChainPop(next: map<int, int>, head: int, xs: seq<int>)
    requires Chain(next, head, xs) && (xs != [] || head != 0)
    ensures xs != [] && head == xs[0] && head in next && Chain(next, next[head], xs[1..])
  {
  }

  lemma {:induction false} SegmentJoin(next: map<int, int>, from: int, a: seq<int>, mid: int, b: seq<int>, to: int)
    requires Segment(next, from, a, mid) && Segment(next, mid, b, to)
    ensures Segment(next, from, a + b, to)
    decreases |a|
  {
    if a == [] {
      assert a + b == b;
    } else {
      SegmentJoin(next, next[from], a[1..], mid, b, to);
      assert (a + b)[1..] == a[1..] + b;
    }
  }

  /** The last link of a segment is changed. */
  lemma {:induction false} Relink(next: map<int, int>, from: int, xs: seq<int>, to: int, v: int)
    requires Segment(next, from, xs, to) && xs != [] && Distinct(xs)
    ensures Segment(next[xs[|xs| - 1] := v], from, xs, v)
    decreases |xs|
  {
    if |xs| > 1 {
      var t := xs[1..];
      assert forall i :: 0 <= i < |t| ==> t[i] == xs[i + 1];
      Relink(next, next[from], t, to, v);
    }
  }

  /** A node whose link already leads to the end is linked behind the last one. */
  lemma SegmentSnoc(next: map<int, int>, from: int, xs: seq<int>, end: int, x: int)
    requires Segment(next, from, xs, end) && xs != [] && Distinct(xs) && x !in xs && x in next && next[x] == end
    ensures Segment(next[xs[|xs| - 1] := x], from, xs + [x], end)
  {
    var after := next[xs[|xs| - 1] := x];
    Relink(next, from, xs, end, x);
    assert [x][1..] == [] && after[x] == end;
    SegmentJoin(after, from, xs, x, [x], end);
  }

  lemma {:induction false} WithoutAt(a: seq<int>, x: int, b: seq<int>)
    requires x !in a
    ensures Without(a + [x] + b, x) == a + b
    decreases |a|
  {
    var s := a + [x] + b;
    if a == [] {
      assert s[0] == x && s[1..] == b && a + b == b;
    } else {
      assert s[0] == a[0] && s[1..] == a[1..] + [x] + b;
      WithoutAt(a[1..], x, b);
      assert [a[0]] + (a[1..] + b) == a + b;
    }
  }

  lemma Step(next: map<int, int>, head: int, done: seq<int>, rest: seq<int>, p: int)
    requires Segment(next, head, done, p) && Segment(next, p, rest, 0) && rest != []
    ensures p == rest[0] && p in next && done + rest == done + [p] + rest[1..] && rest == [p] + rest[1..]
    ensures Segment(next, head, done + [p], next[p]) && Segment(next, next[p], rest[1..], 0)
  {
    assert [p][1..] == [];
    SegmentJoin(next, head, done, p, [p], next[p]);
  }

  /** The walk along a list up to the link that leads to x, and the store that takes
      x out. */
  method Unlink(next: map<int, int>, head: int, x: int, ghost xs: seq<int>) returns (h: int, after: map<int, int>)
    requires Chain(next, head, xs) && Distinct(xs) && x in xs
    ensures Chain(after, h, Without(xs, x))
    ensures forall y :: y !in xs ==> (y in next <==> y in after) && (y in next ==> after[y] == next[y])
    ensures x in next && x in after && after[x] == next[x]
  {
    var prev, p := 0, head;
    ghost var done: seq<int>, rest := [], xs;
    assert [] + xs == xs;
    while p != x
      invariant xs == done + rest && x in rest && x !in done
      invariant Segment(next, head, done, p) && Segment(next, p, rest, 0)
      invariant prev == if done == [] then 0 else done[|done| - 1]
      decreases |rest|
    {
      Step(next, head, done, rest, p);
      done, rest := done + [p], rest[1..];
      prev, p := p, next[p];
    }
    Found(next, p, x, rest, done, xs);
    if prev == 0 {
      h, after := next[x], next;
      NoNull(done, rest);
    } else {
      h, after := head, next[prev := next[x]];
      Spliced(next, head, x, done, rest, xs);
    }
  }

  lemma Found(next: map<int, int>, p: int, x: int, rest: seq<int>, done: seq<int>, xs: seq<int>)
    requires Segment(next, p, rest, 0) && p == x && x in rest && xs == done + rest && x !in done && 0 !in xs
    ensures rest[0] == x && x in next && Without(xs, x) == done + rest[1..] && Chain(next, next[x], rest[1..])
  {
    assert rest == [x] + rest[1..];
    assert xs == done + [x] + rest[1..];
    WithoutAt(done, x, rest[1..]);
  }

  lemma NoNull(a: seq<int>, b: seq<int>)
    requires 0 !in a + b
    ensures a != [] ==> a[|a| - 1] != 0
  {
    if a != [] {
      assert (a + b)[|a| - 1] == a[|a| - 1];
    }
  }

  lemma Spliced(next: map<int, int>, head: int, x: int, done: seq<int>, rest: seq<int>, xs: seq<int>)
    requires done != [] && xs == done + rest && Distinct(xs) && rest != [] && rest[0] == x && x in next && 0 !in xs
    requires Segment(next, head, done, x) && Chain(next, next[x], rest[1..])
    ensures Chain(next[done[|done| - 1] := next[x]], head, done + rest[1..])
  {
    var last := done[|done| - 1];
    var after := next[last := next[x]];
    assert forall i :: 0 <= i < |rest| ==> rest[i] == xs[|done| + i];
    assert last == xs[|done| - 1];
    assert forall i :: 0 <= i < |done| ==> done[i] == xs[i];
    assert last !in rest[1..];
    assert 0 !in done + rest[1..];
    Relink(next, head, done, x, next[x]);
    ChainFrame(next, next[x], rest[1..], last, next[x]);
    SegmentJoin(after, head, done, next[x], rest[1..], 0);
  }
}
