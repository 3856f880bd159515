/** One row of the skip list of src/timer.c: a circular list of timers behind a
    list head, ordered by deadline and, among equal deadlines, by start order. */
module TimerRow {
  import opened RtList
  import opened TimerSpec

  /** The list head that every row starts from; no timer has this name. */
  const HEAD: Node := -1

  /** What the order of timers depends on. */
  datatype Keys = Keys(deadline: map<Node, nat>, stamp: map<Node, nat>)

  ghost predicate Knows(o: Keys, s: seq<Node>) {
    forall i :: 0 <= i < |s| ==> s[i] in o.deadline && s[i] in o.stamp
  }

  ghost predicate Less(o: Keys, a: Node, b: Node)
    requires a in o.deadline && b in o.deadline && a in o.stamp && b in o.stamp
  {
    o.deadline[a] < o.deadline[b] || (o.deadline[a] == o.deadline[b] && o.stamp[a] < o.stamp[b])
  }

  ghost predicate Ordered(o: Keys, s: seq<Node>) {
    Knows(o, s) && forall i, j :: 0 <= i < j < |s| ==> Less(o, s[i], s[j])
  }

  /** A row over the timers `all`: timers outside the row are linked to themselves. */
  ghost predicate RowOk(l: Links, s: seq<Node>, o: Keys, all: set<Node>) {
    && HEAD !in all
    && (forall i :: 0 <= i < |s| ==> s[i] in all)
    && Ordered(o, s)
    && Ring(l, [HEAD] + s)
    && (forall t :: t in all && t !in s ==> SelfLinked(l, t))
  }

  ghost predicate IdSlot(o: Keys, s: seq<Node>, k: nat, d: nat)
    requires Knows(o, s)
  {
    && k <= |s|
    && (forall i :: 0 <= i < k ==> o.deadline[s[i]] <= d)
    && (forall i :: k <= i < |s| ==> o.deadline[s[i]] > d)
  }

  function WithoutId(s: seq<Node>, t: Node): seq<Node> {
    if s == [] then []
    else if s[0] == t then WithoutId(s[1..], t)
    else [s[0]] + WithoutId(s[1..], t)
  }

  lemma {:induction false} WithoutIdAbsent(s: seq<Node>, t: Node)
    requires t !in s
    ensures WithoutId(s, t) == s
  {
    if s != [] {
      assert s[0] in s;
      WithoutIdAbsent(s[1..], t);
    }
  }

  lemma {:induction false} WithoutIdAt(s: seq<Node>, k: nat)
    requires k < |s| && Distinct(s)
    ensures WithoutId(s, s[k]) == Dropped(s, k)
  {
    if k == 0 {
      WithoutIdAbsent(s[1..], s[0]);
    } else {
      WithoutIdAt(s[1..], k - 1);
      assert Dropped(s, k) == [s[0]] + Dropped(s[1..], k - 1);
    }
  }

  lemma {:induction false} WithoutIdMembers(s: seq<Node>, t: Node)
    ensures forall x :: x in WithoutId(s, t) <==> x in s && x != t
    ensures var r := WithoutId(s, t); forall i :: 0 <= i < |r| ==> r[i] in s && r[i] != t
  {
    if s != [] {
      WithoutIdMembers(s[1..], t);
    }
  }

  lemma OrderedDropped(o: Keys, s: seq<Node>, k: nat)
    requires Ordered(o, s) && k < |s|
    ensures Ordered(o, Dropped(s, k))
  {
    var r := Dropped(s, k);
    forall i | 0 <= i < |r| ensures r[i] in o.deadline && r[i] in o.stamp {
      DroppedAt(s, k, i);
    }
    forall i, j | 0 <= i < j < |r| ensures Less(o, r[i], r[j]) {
      DroppedAt(s, k, i);
      DroppedAt(s, k, j);
    }
  }

  lemma OrderedInserted(o: Keys, s: seq<Node>, k: nat, t: Node)
    requires Ordered(o, s) && t in o.deadline && t in o.stamp && IdSlot(o, s, k, o.deadline[t])
    requires forall i :: 0 <= i < |s| ==> o.stamp[s[i]] < o.stamp[t]
    ensures Ordered(o, Inserted(s, k, t))
  {
    var r := Inserted(s, k, t);
    forall i | 0 <= i < |r| ensures r[i] in o.deadline && r[i] in o.stamp {
      InsertedAt(s, k, t, i);
    }
    forall i, j | 0 <= i < j < |r| ensures Less(o, r[i], r[j]) {
      InsertedAt(s, k, t, i);
      InsertedAt(s, k, t, j);
    }
  }

  lemma RowDistinct(l: Links, s: seq<Node>)
    requires Ring(l, [HEAD] + s)
    ensures Distinct(s) && HEAD !in s
  {
    var c := [HEAD] + s;
    forall i, j | 0 <= i < j < |s| ensures s[i] != s[j] {
      assert c[i + 1] != c[j + 1];
    }
    forall i | 0 <= i < |s| ensures s[i] != HEAD {
      assert c[0] != c[i + 1];
    }
  }

  lemma RemoveRowRing(l: Links, s: seq<Node>, k: nat)
    requires Ring(l, [HEAD] + s) && k < |s|
    ensures s[k] in l.next && s[k] in l.prev && SelfLinked(Remove(l, s[k]), s[k])
    ensures Ring(Remove(l, s[k]), [HEAD] + Dropped(s, k))
  {
    var c := [HEAD] + s;
    assert c[k + 1] == s[k];
    RemoveRing(l, c, k + 1);
    assert Dropped(c, k + 1) == [HEAD] + Dropped(s, k);
  }

  /** Removing a node of one ring leaves a node linked to itself alone. */
  lemma RemoveOther(l: Links, s: seq<Node>, k: nat, x: Node)
    requires Ring(l, [HEAD] + s) && k < |s| && SelfLinked(l, x) && x !in s && x != HEAD
    ensures s[k] in l.next && s[k] in l.prev && SelfLinked(Remove(l, s[k]), x)
  {
    var c := [HEAD] + s;
    assert c[k + 1] == s[k];
    assert NodeAt(l, c, k + 1);
    assert c[After(k + 1, |c|)] != x && c[Before(k + 1, |c|)] != x;
  }

  lemma DroppedMembers(s: seq<Node>, k: nat, all: set<Node>)
    requires k < |s| && Distinct(s) && forall i :: 0 <= i < |s| ==> s[i] in all
    ensures var r := Dropped(s, k); forall i :: 0 <= i < |r| ==> r[i] in all
    ensures forall x :: x in Dropped(s, k) <==> x in s && x != s[k]
  {
    WithoutIdAt(s, k);
    WithoutIdMembers(s, s[k]);
    var r := Dropped(s, k);
    forall i | 0 <= i < |r| ensures r[i] in all {
      DroppedAt(s, k, i);
    }
  }

  /** rt_list_remove on one row takes the timer out, wherever it was. */
  lemma RemoveRow(l: Links, s: seq<Node>, o: Keys, all: set<Node>, t: Node)
    requires RowOk(l, s, o, all) && t in all
    ensures t in l.next && t in l.prev
    ensures RowOk(Remove(l, t), WithoutId(s, t), o, all)
  {
    if k :| 0 <= k < |s| && s[k] == t {
      RemoveRowRing(l, s, k);
      RowDistinct(l, s);
      WithoutIdAt(s, k);
      OrderedDropped(o, s, k);
      DroppedMembers(s, k, all);
      forall x | x in all && x !in Dropped(s, k) ensures SelfLinked(Remove(l, t), x) {
        if x != t {
          RemoveOther(l, s, k, x);
        }
      }
    } else {
      WithoutIdAbsent(s, t);
      assert SelfLinked(l, t);
      assert Remove(l, t) == l;
    }
  }

  lemma InsertOther(l: Links, s: seq<Node>, k: nat, t: Node, x: Node)
    requires Ring(l, [HEAD] + s) && k <= |s| && SelfLinked(l, x) && x !in s && x != HEAD && x != t
    ensures ([HEAD] + s)[k] in l.next && SelfLinked(InsertAfter(l, ([HEAD] + s)[k], t), x)
  {
    var c := [HEAD] + s;
    assert NodeAt(l, c, k);
    assert c[k] != x && c[After(k, |c|)] != x;
  }

  lemma InsertRowRing(l: Links, s: seq<Node>, k: nat, t: Node)
    requires Ring(l, [HEAD] + s) && k <= |s| && t !in s && t != HEAD
    ensures ([HEAD] + s)[k] in l.next
    ensures Ring(InsertAfter(l, ([HEAD] + s)[k], t), [HEAD] + Inserted(s, k, t))
  {
    var c := [HEAD] + s;
    InsertAfterRing(l, c, k, t);
    assert Inserted(c, k + 1, t) == [HEAD] + Inserted(s, k, t);
  }

  lemma InsertedMembers(s: seq<Node>, k: nat, t: Node)
    requires k <= |s|
    ensures forall x :: x in Inserted(s, k, t) <==> x == t || x in s
  {
    assert s == s[..k] + s[k..];
  }

  /** rt_list_insert_after behind the k-th node of a row. */
  lemma InsertRow(l: Links, s: seq<Node>, o: Keys, all: set<Node>, k: nat, t: Node)
    requires RowOk(l, s, o, all) && t in all && t !in s
    requires t in o.deadline && t in o.stamp && IdSlot(o, s, k, o.deadline[t])
    requires forall i :: 0 <= i < |s| ==> o.stamp[s[i]] < o.stamp[t]
    ensures ([HEAD] + s)[k] in l.next
    ensures RowOk(InsertAfter(l, ([HEAD] + s)[k], t), Inserted(s, k, t), o, all)
  {
    InsertRowRing(l, s, k, t);
    OrderedInserted(o, s, k, t);
    InsertedMembers(s, k, t);
    var r := Inserted(s, k, t);
    forall i | 0 <= i < |r| ensures r[i] in all {
      InsertedAt(s, k, t, i);
    }
    forall x | x in all && x !in r ensures SelfLinked(InsertAfter(l, ([HEAD] + s)[k], t), x) {
      InsertOther(l, s, k, t, x);
    }
  }

  // ------------------------------------------------------------- rows that nest

  function Restrict(s: seq<Node>, keep: set<Node>): seq<Node> {
    if s == [] then []
    else if s[0] in keep then [s[0]] + Restrict(s[1..], keep)
    else Restrict(s[1..], keep)
  }

  lemma SmallestFirst(o: Keys, a: seq<Node>, b: seq<Node>)
    requires Ordered(o, a) && Ordered(o, b) && b != [] && b[0] in a
    requires forall i :: 0 <= i < |a| ==> a[i] in b
    ensures a[0] == b[0] && forall m :: 1 <= m < |a| ==> a[m] in b[1..]
  {
    var j :| 0 <= j < |a| && a[j] == b[0];
    var i :| 0 <= i < |b| && b[i] == a[0];
    forall m | 1 <= m < |a| ensures a[m] in b[1..] {
      var n :| 0 <= n < |b| && b[n] == a[m];
      assert Less(o, a[0], a[m]);
      assert b[1..][n - 1] == a[m];
    }
  }

  /** Two ordered rows, one contained in the other: the smaller one is the larger
      one with timers left out. */
  lemma {:induction false} OrderedSubset(o: Keys, a: seq<Node>, b: seq<Node>)
    requires Ordered(o, a) && Ordered(o, b)
    requires forall i :: 0 <= i < |a| ==> a[i] in b
    ensures a == Restrict(b, set x | x in a)
    decreases |b|
  {
    if b == [] {
    } else if b[0] in a {
      SmallestFirst(o, a, b);
      OrderedSubset(o, a[1..], b[1..]);
      assert a == [a[0]] + a[1..];
      RestrictWider(b[1..], (set x | x in a[1..]), (set x | x in a), b[0]);
    } else {
      OrderedSubset(o, a, b[1..]);
    }
  }

  lemma {:induction false} RestrictWider(s: seq<Node>, small: set<Node>, big: set<Node>, x: Node)
    requires x !in s && big == small + {x}
    ensures Restrict(s, small) == Restrict(s, big)
  {
    if s != [] {
      assert s[0] in s;
      RestrictWider(s[1..], small, big, x);
    }
  }
}
