/** The list of threads suspended on an IPC object: rt_ipc_list_suspend and
    rt_ipc_list_resume of src/ipc.c. */
module IpcList {
  import opened RtList

  type Tid = Node

  datatype Flag = Fifo | Prio

  /** The list head in an object, which is the address of no thread. */
  const LIST: Node := -1

  /** Where a thread of priority p goes: behind all waiters at least as urgent. */
  function Place(waiters: seq<Tid>, prio: map<Tid, int>, p: int): (k: nat)
    requires forall i :: 0 <= i < |waiters| ==> waiters[i] in prio
    ensures k <= |waiters|
    ensures forall i :: 0 <= i < k ==> prio[waiters[i]] <= p
    ensures k < |waiters| ==> p < prio[waiters[k]]
  {
    if waiters == [] || p < prio[waiters[0]] then 0 else 1 + Place(waiters[1..], prio, p)
  }

  ghost predicate Known(waiters: seq<Tid>, prio: map<Tid, int>) {
    forall i :: 0 <= i < |waiters| ==> waiters[i] in prio
  }

  /** The waiters after a thread was suspended. */
  function Suspended(waiters: seq<Tid>, t: Tid, flag: Flag, prio: map<Tid, int>): seq<Tid>
    requires t in prio && forall i :: 0 <= i < |waiters| ==> waiters[i] in prio
  {
    match flag
    case Fifo => waiters + [t]
    case Prio => Inserted(waiters, Place(waiters, prio, prio[t]), t)
  }

  function Without(waiters: seq<Tid>, t: Tid): seq<Tid> {
    if waiters == [] then [] else if waiters[0] == t then waiters[1..] else [waiters[0]] + Without(waiters[1..], t)
  }

  /** Most urgent first. */
  ghost predicate Sorted(waiters: seq<Tid>, prio: map<Tid, int>) {
    Known(waiters, prio) && forall i, j :: 0 <= i < j < |waiters| ==> prio[waiters[i]] <= prio[waiters[j]]
  }

  lemma SuspendedIn(waiters: seq<Tid>, t: Tid, flag: Flag, prio: map<Tid, int>)
    requires t in prio && Known(waiters, prio)
    ensures var r := Suspended(waiters, t, flag, prio);
      |r| == |waiters| + 1 && Known(r, prio) && forall x :: x in r <==> x == t || x in waiters
  {
    if flag.Prio? {
      var k, r := Place(waiters, prio, prio[t]), Suspended(waiters, t, flag, prio);
      forall x ensures x in r <==> x == t || x in waiters {
        assert x in waiters ==> x in waiters[..k] || x in waiters[k..] by { assert waiters ==
               waiters[..k] + waiters[k..]; }
      }
      forall i | 0 <= i < |r| ensures r[i] in prio {
        InsertedAt(waiters, k, t, i);
      }
    }
  }

  lemma SuspendedDistinct(waiters: seq<Tid>, t: Tid, flag: Flag, prio: map<Tid, int>)
    requires t in prio && Known(waiters, prio) && Distinct(waiters) && t !in waiters
    ensures Distinct(Suspended(waiters, t, flag, prio))
  {
    if flag.Prio? {
      DistinctInserted(waiters, Place(waiters, prio, prio[t]), t);
    }
  }

  /** Under RT_IPC_FLAG_PRIO the waiters stay in order of urgency. */
  lemma SuspendedSorted(waiters: seq<Tid>, t: Tid, prio: map<Tid, int>)
    requires t in prio && Sorted(waiters, prio)
    ensures Sorted(Suspended(waiters, t, Prio, prio), prio)
  {
    var k, r := Place(waiters, prio, prio[t]), Suspended(waiters, t, Prio, prio);
    SuspendedIn(waiters, t, Prio, prio);
    forall i, j | 0 <= i < j < |r| ensures prio[r[i]] <= prio[r[j]] {
      InsertedAt(waiters, k, t, i);
      InsertedAt(waiters, k, t, j);
    }
  }

  lemma {:induction false} WithoutIn(waiters: seq<Tid>, t: Tid)
    requires Distinct(waiters)
    ensures forall x :: x in Without(waiters, t) <==> x in waiters && x != t
    ensures Distinct(Without(waiters, t)) && |Without(waiters, t)| == |waiters| - (if t in waiters then 1 else 0)
  {
    if waiters != [] {
      assert Distinct(waiters[1..]) && waiters[0] !in waiters[1..];
      WithoutIn(waiters[1..], t);
    }
  }

  // --------------------------------------------------------------- on the ring

  /** Inserting before the k-th waiter is inserting after its predecessor. */
  lemma BeforeIsAfter(l: Links, s: seq<Node>, k: nat, n: Node)
    requires Ring(l, s) && 0 < k < |s| && n !in s
    ensures s[k] in l.prev && s[k - 1] in l.next && InsertBefore(l, s[k], n) == InsertAfter(l, s[k - 1], n)
  {
    assert NodeAt(l, s, k) && NodeAt(l, s, k - 1);
  }

  lemma InsertedTail(list: Node, waiters: seq<Tid>, k: nat, t: Tid)
    requires k <= |waiters|
    ensures Inserted([list] + waiters, k + 1, t) == [list] + Inserted(waiters, k, t)
  {
  }

  /** rt_list_isempty on the list of waiters. */
  lemma EmptyIff(l: Links, list: Node, waiters: seq<Tid>)
    requires Ring(l, [list] + waiters)
    ensures list in l.next && (l.next[list] == list <==> waiters == [])
    ensures waiters != [] ==> l.next[list] == waiters[0]
    ensures list !in waiters && Distinct(waiters)
  {
    var s := [list] + waiters;
    assert NodeAt(l, s, 0);
    assert forall i :: 0 <= i < |waiters| ==> s[i + 1] == waiters[i];
  }

  /** rt_ipc_list_suspend on the linked list of waiters. */
  method Suspend(l: Links, list: Node, t: Tid, flag: Flag, prio: map<Tid, int>, ghost waiters: seq<Tid>)
    returns (m: Links)
    requires Ring(l, [list] + waiters) && t !in waiters && t != list && t in prio && Known(waiters, prio)
    ensures Ring(m, [list] + Suspended(waiters, t, flag, prio)) && Spares(l, m, [list] + waiters + [t])
  {
    ghost var s := [list] + waiters;
    EmptyIff(l, list, waiters);
    assert s[0] == list;
    InsertBeforeRing(l, s, t);
    InsertSpares(l, s, 0, t);
    assert s + [t] == [list] + (waiters + [t]);
    if flag == Fifo {
      return InsertBefore(l, list, t);
    }
    ghost var k := 0;
    var n := l.next[list];
    while n != list
      invariant 0 <= k <= |waiters| && n == (if k < |waiters| then waiters[k] else list)
      invariant k <= Place(waiters, prio, prio[t])
      decreases |waiters| - k
    {
      assert s[k + 1] == waiters[k] && NodeAt(l, s, k + 1);
      if prio[t] < prio[n] {
        m := InsertBefore(l, n, t);
        Squeezed(l, list, waiters, k, t);
        return;
      }
      n := l.next[n];
      k := k + 1;
    }
    assert Inserted(waiters, |waiters|, t) == waiters + [t];
    m := InsertBefore(l, list, t);
  }

  lemma Squeezed(l: Links, list: Node, waiters: seq<Tid>, k: nat, t: Tid)
    requires Ring(l, [list] + waiters) && t !in waiters && t != list && k < |waiters|
    ensures waiters[k] in l.prev
    ensures var m := InsertBefore(l, waiters[k], t);
      Ring(m, [list] + Inserted(waiters, k, t)) && Spares(l, m, [list] + waiters + [t])
  {
    var s := [list] + waiters;
    assert s[k + 1] == waiters[k];
    BeforeIsAfter(l, s, k + 1, t);
    InsertAfterRing(l, s, k, t);
    InsertedTail(list, waiters, k, t);
    InsertSpares(l, s, k + 1, t);
  }

  /** rt_ipc_list_resume: the first waiter leaves the ring and is linked to itself. */
  method Resume(l: Links, list: Node, ghost waiters: seq<Tid>) returns (m: Links, t: Tid)
    requires Ring(l, [list] + waiters) && waiters != []
    ensures t == waiters[0] && Ring(m, [list] + waiters[1..]) && SelfLinked(m, t) && Spares(l, m, [list] + waiters)
  {
    ghost var s := [list] + waiters;
    assert NodeAt(l, s, 0) && NodeAt(l, s, 1);
    t := l.next[list];
    RemoveRing(l, s, 1);
    RemoveSpares(l, s, 1);
    assert Dropped(s, 1) == [list] + waiters[1..];
    m := Remove(l, t);
  }

  lemma {:induction false} WithoutIsDropped(q: seq<Tid>, i: nat)
    requires Distinct(q) && i < |q|
    ensures Without(q, q[i]) == Dropped(q, i)
    decreases |q|
  {
    if i > 0 {
      assert q[1..][i - 1] == q[i];
      assert Distinct(q[1..]);
      WithoutIsDropped(q[1..], i - 1);
      assert [q[0]] + Dropped(q[1..], i - 1) == Dropped(q, i);
    }
  }

  lemma {:induction false} WithoutAbsent(q: seq<Tid>, t: Tid)
    requires t !in q
    ensures Without(q, t) == q
  {
    if q != [] {
      WithoutAbsent(q[1..], t);
    }
  }

  /** Thread t stands at place k of the waiters: last in FIFO order, else behind those at
      least as urgent and before the rest. */
  ghost predicate JoinedAt(q: seq<Tid>, r: seq<Tid>, k: nat, t: Tid, flag: Flag, prio: map<Tid, int>) {
    && k <= |q| && r == Inserted(q, k, t)
    && (flag == Fifo ==> k == |q|)
    && (flag == Prio ==>
         && t in prio && (forall i :: 0 <= i < |q| ==> q[i] in prio)
         && (forall i :: 0 <= i < k ==> prio[q[i]] <= prio[t]) && (k < |q| ==> prio[t] < prio[q[k]]))
  }

  ghost predicate Joined(q: seq<Tid>, r: seq<Tid>, t: Tid, flag: Flag, prio: map<Tid, int>) {
    exists k :: JoinedAt(q, r, k, t, flag, prio)
  }

  lemma SuspendedJoins(q: seq<Tid>, t: Tid, flag: Flag, prio: map<Tid, int>)
    requires t in prio && Known(q, prio)
    ensures Joined(q, Suspended(q, t, flag, prio), t, flag, prio) && t in Suspended(q, t, flag, prio)
  {
    var k := if flag == Fifo then |q| else Place(q, prio, prio[t]);
    var r := Suspended(q, t, flag, prio);
    assert r == Inserted(q, k, t);
    assert r[k] == t;
    assert JoinedAt(q, r, k, t, flag, prio);
  }

  /** rt_list_remove of a waiter, wherever it stands. */
  lemma LeftRing(l: Links, list: Node, waiters: seq<Tid>, t: Tid)
    requires Ring(l, [list] + waiters) && t in waiters
    ensures t in l.next && t in l.prev
    ensures var m := Remove(l, t);
      Ring(m, [list] + Without(waiters, t)) && SelfLinked(m, t) && Spares(l, m, [list] + waiters)
  {
    var s := [list] + waiters;
    var i :| 0 <= i < |waiters| && waiters[i] == t;
    assert s[i + 1] == t;
    EmptyIff(l, list, waiters);
    RemoveRing(l, s, i + 1);
    RemoveSpares(l, s, i + 1);
    WithoutIsDropped(waiters, i);
    DroppedTail(list, waiters, i);
  }

  lemma DroppedTail(list: Node, waiters: seq<Tid>, i: nat)
    requires i < |waiters|
    ensures Dropped([list] + waiters, i + 1) == [list] + Dropped(waiters, i)
  {
  }

  // ------------------------------------------------------------------ all of them

  const EOK: int := 0
  const ERROR: int := -1
  const ETIMEOUT: int := -2

  /** Every one of the threads gets the code of a reset. */
  function Failed(error: map<Tid, int>, ts: seq<Tid>): map<Tid, int>
    decreases |ts|
  {
    if ts == [] then error else Failed(error[ts[0] := ERROR], ts[1..])
  }

  /** rt_ipc_list_resume_all: the loop takes the first waiter off until none is left. */
  method ResumeAll(l: Links, list: Node, error: map<Tid, int>, ghost waiters: seq<Tid>)
    returns (m: Links, codes: map<Tid, int>)
    requires Ring(l, [list] + waiters)
    ensures Ring(m, [list]) && codes == Failed(error, waiters) && Spares(l, m, [list] + waiters)
  {
    m, codes := l, error;
    ghost var rest := waiters;
    EmptyIff(m, list, rest);
    while m.next[list] != list
      invariant Ring(m, [list] + rest) && list in m.next && (m.next[list] == list <==> rest == [])
      invariant Failed(codes, rest) == Failed(error, waiters) && Spares(l, m, [list] + waiters)
      invariant forall x :: x in rest ==> x in waiters
      decreases |rest|
    {
      ghost var before := m;
      var t;
      m, t := Resume(m, list, rest);
      codes := codes[t := ERROR];
      SparesTrans(l, before, m, [list] + waiters, [list] + rest);
      rest := rest[1..];
      EmptyIff(m, list, rest);
    }
    assert [list] + rest == [list];
  }

  lemma SparesTrans(l: Links, m: Links, n: Links, s: seq<Node>, t: seq<Node>)
    requires Spares(l, m, s) && Spares(m, n, t) && forall x :: x in t ==> x in s
    ensures Spares(l, n, s)
  {
    forall x | x !in s ensures SameNode(l, n, x) {
      assert SameNode(l, m, x) && SameNode(m, n, x);
    }
  }
}
