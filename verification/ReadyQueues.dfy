/** rt_thread_priority_table of src/scheduler.c in memory: one circular list for each
    priority, with the list heads and the tlist nodes of the threads in the same
    pair of link maps. */
module ReadyQueues {
  import opened RtList
  import opened IpcList

  /** The list head of priority p; threads have addresses from 0 on. */
  function Head(p: nat): Node {
    -1 - p
  }

  ghost function RingOf(queues: seq<seq<Tid>>, p: nat): seq<Node>
    requires p < |queues|
  {
    [Head(p)] + queues[p]
  }

  ghost predicate Forest(l: Links, queues: seq<seq<Tid>>) {
    forall p :: 0 <= p < |queues| ==> Ring(l, RingOf(queues, p))
  }

  /** Threads are in one queue only. */
  ghost predicate Single(queues: seq<seq<Tid>>) {
    && (forall p, t :: 0 <= p < |queues| && t in queues[p] ==> t >= 0)
    && (forall p, k, t :: 0 <= p < |queues| && 0 <= k < |queues| && p != k && t in queues[p] ==> t !in queues[k])
  }

  lemma Rings(l: Links, queues: seq<seq<Tid>>, p: nat)
    requires Forest(l, queues) && p < |queues|
    ensures Head(p) in l.next && Head(p) in l.prev
    ensures l.next[Head(p)] == if queues[p] == [] then Head(p) else queues[p][0]
  {
    var r := RingOf(queues, p);
    assert Ring(l, r);
    assert NodeAt(l, r, 0) && r[0] == Head(p);
  }

  /** Stores to nodes of ring p, or to a thread in no queue, spare the other rings. */
  lemma OtherRing(l: Links, m: Links, queues: seq<seq<Tid>>, p: nat, k: nat, t: Tid)
    requires Forest(l, queues) && Single(queues) && p < |queues| && k < |queues| && p != k && t >= 0 && t !in queues[k]
    requires Spares(l, m, RingOf(queues, p) + [t])
    ensures Ring(m, RingOf(queues, k))
  {
    assert Ring(l, RingOf(queues, k));
    SparedRing(l, m, RingOf(queues, p) + [t], RingOf(queues, k));
  }

  /** rt_list_insert_before on the list head: to the end of the queue. */
  lemma Enqueued(l: Links, queues: seq<seq<Tid>>, p: nat, t: Tid)
    requires Forest(l, queues) && Single(queues) && p < |queues| && t >= 0
    requires forall k :: 0 <= k < |queues| ==> t !in queues[k]
    ensures Head(p) in l.prev && Forest(InsertBefore(l, Head(p), t), queues[p := queues[p] + [t]])
  {
    var r := RingOf(queues, p);
    assert Ring(l, r) && r[0] == Head(p);
    var m, after := InsertBefore(l, Head(p), t), queues[p := queues[p] + [t]];
    InsertSpares(l, r, 0, t);
    forall k | 0 <= k < |after| ensures Ring(m, RingOf(after, k)) {
      if k == p {
        InsertBeforeRing(l, r, t);
        assert r + [t] == RingOf(after, p);
      } else {
        OtherRing(l, m, queues, p, k, t);
        assert RingOf(after, k) == RingOf(queues, k);
      }
    }
  }

  lemma OwnRing(l: Links, queues: seq<seq<Tid>>, p: nat, i: nat)
    requires p < |queues| && Ring(l, RingOf(queues, p)) && i < |queues[p]|
    ensures var t := queues[p][i];
      t in l.next && t in l.prev && Ring(RtList.Remove(l, t), [Head(p)] + Without(queues[p], t))
  {
    var r := RingOf(queues, p);
    assert r[i + 1] == queues[p][i];
    RemoveRing(l, r, i + 1);
    forall a, b | 0 <= a < b < |queues[p]| ensures queues[p][a] != queues[p][b] {
      assert r[a + 1] != r[b + 1];
    }
    WithoutIsDropped(queues[p], i);
    assert Dropped(r, i + 1) == [Head(p)] + Dropped(queues[p], i);
  }

  /** rt_list_remove on a thread of queue p. */
  lemma Dequeued(l: Links, queues: seq<seq<Tid>>, p: nat, t: Tid)
    requires Forest(l, queues) && Single(queues) && p < |queues| && t in queues[p]
    ensures t in l.next && t in l.prev && Forest(RtList.Remove(l, t), queues[p := Without(queues[p], t)])
  {
    var r := RingOf(queues, p);
    var i :| 0 <= i < |queues[p]| && queues[p][i] == t;
    assert Ring(l, r) && r[i + 1] == t;
    assert NodeAt(l, r, i + 1);
    var m, after := RtList.Remove(l, t), queues[p := Without(queues[p], t)];
    RemoveSpares(l, r, i + 1);
    assert Spares(l, m, r + [t]);
    forall k | 0 <= k < |after| ensures Ring(m, RingOf(after, k)) {
      if k == p {
        OwnRing(l, queues, p, i);
        assert RingOf(after, p) == [Head(p)] + Without(queues[p], t);
      } else {
        OtherRing(l, m, queues, p, k, t);
        assert RingOf(after, k) == RingOf(queues, k);
      }
    }
  }

  /** tlist.next differs from tlist.prev exactly when another thread is queued. */
  lemma Neighbours(l: Links, queues: seq<seq<Tid>>, p: nat, t: Tid)
    requires Forest(l, queues) && p < |queues| && t in queues[p]
    ensures t in l.next && t in l.prev && (l.next[t] != l.prev[t] <==> |queues[p]| >= 2)
  {
    var r := RingOf(queues, p);
    var i :| 0 <= i < |queues[p]| && queues[p][i] == t;
    assert Ring(l, r) && r[i + 1] == t;
    assert NodeAt(l, r, i + 1);
    var a, b := RtList.After(i + 1, |r|), RtList.Before(i + 1, |r|);
    assert |r| > 2 ==> a != b;
  }
}
