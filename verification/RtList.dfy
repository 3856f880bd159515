/** The intrusive circular doubly linked list of include/rtservice.h.

    A node is named by its address.  The `next` and `prev` words of all nodes
    live in one pair of maps, so that a store through a pointer is a map
    update and aliasing between lists is the aliasing of the original. */
module RtList {
  type Node = int

  datatype Links = Links(next: map<Node, Node>, prev: map<Node, Node>)

  ghost predicate Distinct(s: seq<Node>) {
    forall i, j :: 0 <= i < j < |s| ==> s[i] != s[j]
  }

  function After(i: nat, n: nat): nat {
    if i + 1 == n then 0 else i + 1
  }

  function Before(i: nat, n: nat): int {
    if i == 0 then n - 1 else i - 1
  }

  /** The i-th node of a ring points to its two neighbours. */
  ghost predicate NodeAt(l: Links, s: seq<Node>, i: nat)
    requires i < |s|
  {
    && s[i] in l.next && l.next[s[i]] == s[After(i, |s|)]
    && s[i] in l.prev && l.prev[s[i]] == s[Before(i, |s|)]
  }

  /** `s` lists, from any starting node, the nodes of one circular list. */
  ghost predicate Ring(l: Links, s: seq<Node>) {
    && |s| > 0
    && Distinct(s)
    && (forall i :: 0 <= i < |s| ==> s[i] in l.next && s[i] in l.prev)
    && (forall i :: 0 <= i < |s| ==> NodeAt(l, s, i))
  }

  ghost predicate SelfLinked(l: Links, n: Node) {
    n in l.next && n in l.prev && l.next[n] == n && l.prev[n] == n
  }

  function Init(l: Links, n: Node): Links {
    Links(l.next[n := n], l.prev[n := n])
  }

  /** The four stores of rt_list_insert_after, in the order of the source. */
  function InsertAfter(l: Links, p: Node, n: Node): Links
    requires p in l.next
  {
    var prev1 := l.prev[l.next[p] := n];
    var next1 := l.next[n := l.next[p]];
    Links(next1[p := n], prev1[n := p])
  }

  /** The four stores of rt_list_insert_before, in the order of the source. */
  function InsertBefore(l: Links, p: Node, n: Node): Links
    requires p in l.prev
  {
    var next1 := l.next[l.prev[p] := n];
    var prev1 := l.prev[n := l.prev[p]];
    Links(next1[n := p], prev1[p := n])
  }

  /** rt_list_remove: unlink the node and leave it linked to itself. */
  function Remove(l: Links, n: Node): Links
    requires n in l.next && n in l.prev
  {
    var prev1 := l.prev[l.next[n] := l.prev[n]];
    var next1 := l.next[prev1[n] := l.next[n]];
    Links(next1[n := n], prev1[n := n])
  }

  function Inserted<T>(s: seq<T>, k: nat, n: T): seq<T>
    requires k <= |s|
  {
    s[..k] + [n] + s[k..]
  }

  function Dropped<T>(s: seq<T>, k: nat): seq<T>
    requires k < |s|
  {
    s[..k] + s[k + 1..]
  }

  lemma DistinctInserted(s: seq<Node>, k: nat, n: Node)
    requires Distinct(s) && k <= |s| && n !in s
    ensures Distinct(Inserted(s, k, n))
  {
    var t := Inserted(s, k, n);
    forall i, j | 0 <= i < j < |t| ensures t[i] != t[j] {
      assert t[i] == if i < k then s[i] else if i == k then n else s[i - 1];
      assert t[j] == if j < k then s[j] else if j == k then n else s[j - 1];
    }
  }

  lemma DistinctDropped(s: seq<Node>, k: nat)
    requires Distinct(s) && k < |s|
    ensures Distinct(Dropped(s, k)) && s[k] !in Dropped(s, k)
  {
    var t := Dropped(s, k);
    forall i, j | 0 <= i < j < |t| ensures t[i] != t[j] {
      assert t[i] == if i < k then s[i] else s[i + 1];
      assert t[j] == if j < k then s[j] else s[j + 1];
    }
  }

  /** Inserting after the k-th node of a ring puts the new node at place k + 1. */
  lemma InsertAfterRing(l: Links, s: seq<Node>, k: nat, n: Node)
    requires Ring(l, s) && k < |s| && n !in s
    ensures Ring(InsertAfter(l, s[k], n), Inserted(s, k + 1, n))
  {
    DistinctInserted(s, k + 1, n);
    var m, t := InsertAfter(l, s[k], n), Inserted(s, k + 1, n);
    forall i | 0 <= i < |t| ensures NodeAt(m, t, i) {
      InsertAfterAt(l, s, k, n, i);
    }
  }

  lemma InsertedAt<T>(s: seq<T>, k: nat, e: T, i: nat)
    requires k <= |s| && i <= |s|
    ensures Inserted(s, k, e)[i] == if i < k then s[i] else if i == k then e else s[i - 1]
  {
  }

  lemma DroppedAt<T>(s: seq<T>, k: nat, i: nat)
    requires k < |s| && i < |s| - 1
    ensures Dropped(s, k)[i] == if i < k then s[i] else s[i + 1]
  {
  }

  lemma InsertAfterLookup(l: Links, p: Node, n: Node, x: Node)
    requires p in l.next && p != n && l.next[p] in l.prev && l.next[p] != n
    ensures var m := InsertAfter(l, p, n);
      && (x == p ==> x in m.next && m.next[x] == n)
      && (x == n ==> x in m.next && m.next[x] == l.next[p] && x in m.prev && m.prev[x] == p)
      && (x == l.next[p] ==> x in m.prev && m.prev[x] == n)
      && (x != p && x != n && x in l.next ==> x in m.next && m.next[x] == l.next[x])
      && (x != l.next[p] && x != n && x in l.prev ==> x in m.prev && m.prev[x] == l.prev[x])
  {
  }

  lemma InsertAfterAt(l: Links, s: seq<Node>, k: nat, n: Node, i: nat)
    requires Ring(l, s) && k < |s| && n !in s && i <= |s|
    ensures NodeAt(InsertAfter(l, s[k], n), Inserted(s, k + 1, n), i)
  {
    assert NodeAt(l, s, k);
    if i == k + 1 {
      InsertedNode(l, s, k, n);
    } else {
      var j := if i <= k then i else i - 1;
      assert NodeAt(l, s, j);
      ShiftedNode(l, s, k, n, i, j);
    }
  }

  lemma InsertedNode(l: Links, s: seq<Node>, k: nat, n: Node)
    requires k < |s| && n !in s && NodeAt(l, s, k) && s[After(k, |s|)] in l.prev
    ensures NodeAt(InsertAfter(l, s[k], n), Inserted(s, k + 1, n), k + 1)
  {
    var t := Inserted(s, k + 1, n);
    InsertedAt(s, k + 1, n, k + 1);
    InsertedAt(s, k + 1, n, After(k + 1, |t|));
    InsertedAt(s, k + 1, n, k);
    InsertAfterLookup(l, s[k], n, n);
  }

  /** Node j of the ring becomes node i of the longer one. */
  lemma ShiftedNode(l: Links, s: seq<Node>, k: nat, n: Node, i: nat, j: nat)
    requires k < |s| && n !in s && i <= |s| && i != k + 1 && j == if i <= k then i else i - 1
    requires NodeAt(l, s, k) && NodeAt(l, s, j) && s[After(k, |s|)] in l.prev
    requires (s[j] == s[k] ==> j == k) && (s[j] == s[After(k, |s|)] ==> j == After(k, |s|))
    ensures NodeAt(InsertAfter(l, s[k], n), Inserted(s, k + 1, n), i)
  {
    var t := Inserted(s, k + 1, n);
    InsertedAt(s, k + 1, n, i);
    InsertedAt(s, k + 1, n, After(i, |t|));
    InsertedAt(s, k + 1, n, Before(i, |t|));
    InsertAfterLookup(l, s[k], n, s[j]);
  }

  /** Inserting before the first node of a ring appends at its end. */
  lemma InsertBeforeRing(l: Links, s: seq<Node>, n: Node)
    requires Ring(l, s) && n !in s
    ensures Ring(InsertBefore(l, s[0], n), s + [n])
  {
    assert s + [n] == Inserted(s, |s|, n);
    DistinctInserted(s, |s|, n);
    var m, t := InsertBefore(l, s[0], n), s + [n];
    forall i | 0 <= i < |t| ensures NodeAt(m, t, i) {
      InsertBeforeAt(l, s, n, i);
    }
  }

  lemma InsertBeforeAt(l: Links, s: seq<Node>, n: Node, i: nat)
    requires Ring(l, s) && n !in s && i <= |s|
    ensures NodeAt(InsertBefore(l, s[0], n), s + [n], i)
  {
    assert NodeAt(l, s, 0);
    if i < |s| {
      assert NodeAt(l, s, i);
    }
  }

  /** Removing the k-th node closes the ring around it. */
  lemma RemoveRing(l: Links, s: seq<Node>, k: nat)
    requires Ring(l, s) && 0 < k < |s|
    ensures Ring(Remove(l, s[k]), Dropped(s, k)) && SelfLinked(Remove(l, s[k]), s[k])
  {
    DistinctDropped(s, k);
    var m, t := Remove(l, s[k]), Dropped(s, k);
    forall i | 0 <= i < |t| ensures NodeAt(m, t, i) {
      RemoveAt(l, s, k, i);
    }
  }

  lemma RemoveAt(l: Links, s: seq<Node>, k: nat, i: nat)
    requires Ring(l, s) && 0 < k < |s| && i + 1 < |s|
    ensures NodeAt(Remove(l, s[k]), Dropped(s, k), i)
  {
    assert NodeAt(l, s, k);
    assert NodeAt(l, s, if i < k then i else i + 1);
  }

  /** Stores that miss the nodes of a ring leave the ring alone. */
  lemma RingFrame(l: Links, m: Links, t: seq<Node>)
    requires Ring(l, t)
    requires forall i :: 0 <= i < |t| ==> t[i] in m.next && t[i] in m.prev
    requires forall i :: 0 <= i < |t| ==> m.next[t[i]] == l.next[t[i]] && m.prev[t[i]] == l.prev[t[i]]
    ensures Ring(m, t)
  {
    forall i | 0 <= i < |t| ensures NodeAt(m, t, i) {
      assert NodeAt(l, t, i);
    }
  }

  ghost predicate SameNode(l: Links, m: Links, x: Node) {
    && (x in l.next ==> x in m.next && m.next[x] == l.next[x])
    && (x in l.prev ==> x in m.prev && m.prev[x] == l.prev[x])
  }

  /** Only nodes of s were written. */
  ghost predicate Spares(l: Links, m: Links, s: seq<Node>) {
    forall x :: x !in s ==> SameNode(l, m, x)
  }

  lemma InsertSpares(l: Links, s: seq<Node>, k: nat, n: Node)
    requires Ring(l, s) && k < |s|
    ensures Spares(l, InsertBefore(l, s[k], n), s + [n])
  {
    assert NodeAt(l, s, k);
    assert s[k] in s && s[Before(k, |s|)] in s;
  }

  lemma RemoveSpares(l: Links, s: seq<Node>, k: nat)
    requires Ring(l, s) && k < |s|
    ensures Spares(l, Remove(l, s[k]), s)
  {
    assert NodeAt(l, s, k);
    assert s[k] in s && s[After(k, |s|)] in s && s[Before(k, |s|)] in s;
  }

  /** Another ring is not among the nodes written. */
  lemma SparedRing(l: Links, m: Links, s: seq<Node>, t: seq<Node>)
    requires Spares(l, m, s) && Ring(l, t) && forall x :: x in t ==> x !in s
    ensures Ring(m, t)
  {
    forall i | 0 <= i < |t| ensures SameNode(l, m, t[i]) {
      assert t[i] in t;
    }
    RingFrame(l, m, t);
  }

  /** Unlink a node by the two stores around it, leaving its own links stale. */
  function Cut(l: Links, n: Node): Links
    requires n in l.next && n in l.prev
  {
    Links(l.next[l.prev[n] := l.next[n]], l.prev[l.next[n] := l.prev[n]])
  }

  lemma CutRing(l: Links, s: seq<Node>, k: nat)
    requires Ring(l, s) && 0 < k < |s|
    ensures Ring(Cut(l, s[k]), Dropped(s, k))
  {
    RemoveRing(l, s, k);
    DistinctDropped(s, k);
    var m, t := Remove(l, s[k]), Dropped(s, k);
    assert NodeAt(l, s, k);
    forall i | 0 <= i < |t| ensures t[i] in Cut(l, s[k]).next && t[i] in Cut(l, s[k]).prev
      ensures Cut(l, s[k]).next[t[i]] == m.next[t[i]] && Cut(l, s[k]).prev[t[i]] == m.prev[t[i]]
    {
      assert NodeAt(m, t, i);
    }
    RingFrame(m, Cut(l, s[k]), t);
  }
}
