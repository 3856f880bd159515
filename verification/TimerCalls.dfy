/** What each call on a timer does, told by the entries of the list before and after it. */
module TimerCalls {
  import opened RtList
  import opened TimerSpec

  /** Nothing but the list and timer t changes. */
  ghost predicate OnlyTimer(s: Sys, r: Sys, t: Node) {
    && r.now == s.now && r.fired == s.fired && r.recs.Keys == s.recs.Keys
    && (forall x :: x in s.recs && x != t ==> r.recs[x] == s.recs[x])
  }

  /** Timer t stands at place k, behind all entries that are not due later. */
  ghost predicate QueuedAt(p: seq<Entry>, k: nat, t: Node, deadline: nat) {
    && k < |p| && p[k] == Entry(t, deadline)
    && (forall i :: 0 <= i < k ==> p[i].deadline <= deadline && p[i].id != t)
    && (forall i :: k < i < |p| ==> p[i].deadline > deadline && p[i].id != t)
  }

  ghost predicate Queued(p: seq<Entry>, t: Node, deadline: nat) {
    exists k: nat :: QueuedAt(p, k, t, deadline)
  }

  /** rt_timer_start: the timer is ACTIVATED and due after its period, once in the list and
      behind all entries that are not due later; the others keep their order. */
  lemma StartQueues(s: Sys, t: Node)
    requires WellFormed(s) && t in s.recs
    ensures var r := StartSpec(s, t);
      && OnlyTimer(s, r, t) && r.recs[t] == s.recs[t].(activated := true)
      && Queued(r.pending, t, s.now + s.recs[t].initTick)
      && Without(r.pending, t) == Without(s.pending, t)
  {
    ListQueues(s.pending, t, s.now + s.recs[t].initTick);
  }

  lemma ListQueues(p: seq<Entry>, t: Node, d: nat)
    requires Sorted(p) && UniqueIds(p)
    ensures var q := LinearInsert(Without(p, t), Entry(t, d)); Queued(q, t, d) && Without(q, t) == Without(p, t)
  {
    var w := Without(p, t);
    assert Sorted(w) && UniqueIds(w) by { WithoutKeeps(p, t); }
    assert forall x :: x in w ==> x.id != t by { WithoutMembers(p, t); }
    InsertQueues(w, Entry(t, d));
  }

  lemma InsertQueues(w: seq<Entry>, e: Entry)
    requires Sorted(w) && UniqueIds(w) && forall x :: x in w ==> x.id != e.id
    ensures Queued(LinearInsert(w, e), e.id, e.deadline) && Without(LinearInsert(w, e), e.id) == w
  {
    var k := FindSlot(w, e.deadline);
    LinearInsertAt(w, e, k);
    InsertedQueue(w, e, k);
  }

  lemma InsertedQueue(w: seq<Entry>, e: Entry, k: nat)
    requires Slot(w, k, e.deadline) && UniqueIds(w) && forall x :: x in w ==> x.id != e.id
    ensures QueuedAt(Inserted(w, k, e), k, e.id, e.deadline) && Without(Inserted(w, k, e), e.id) == w
  {
    var p := Inserted(w, k, e);
    forall i | 0 <= i < |p| ensures p[i] == if i < k then w[i] else if i == k then e else w[i - 1] {
      InsertedAt(w, k, e, i);
    }
    forall i | 0 <= i < |w| ensures w[i].id != e.id {
      assert w[i] in w;
    }
    assert UniqueIds(p);
    WithoutAt(p, k);
    assert Dropped(p, k) == w;
  }

  /** rt_timer_stop: an ACTIVATED timer is no longer, and is in the list no more; the
      others keep their order.  Any other timer is refused and nothing changes. */
  lemma StopUnqueues(s: Sys, t: Node)
    requires WellFormed(s) && t in s.recs
    ensures var r := StopSpec(s, t);
      if !s.recs[t].activated then r == s
      else
        && OnlyTimer(s, r, t) && r.recs[t] == s.recs[t].(activated := false)
        && (forall e :: e in r.pending <==> e in s.pending && e.id != t)
        && r.pending == Without(s.pending, t)
  {
    WithoutMembers(s.pending, t);
  }

  /** rt_timer_control: period and mode are the new ones, the list stays, and a start after
      it is due after the new period. */
  lemma ControlSets(s: Sys, t: Node, periodic: bool, ticks: nat)
    requires WellFormed(s) && t in s.recs
    ensures var c := ControlSpec(s, t, periodic, ticks);
      && OnlyTimer(s, c, t) && c.pending == s.pending && c.recs[t] == Rec(s.recs[t].activated, periodic, ticks)
      && Queued(StartSpec(c, t).pending, t, s.now + ticks)
  {
    StartQueues(ControlSpec(s, t, periodic, ticks), t);
  }

  /** The number of ticks and the mode of no timer change by commands. */
  lemma {:induction false} RunSame(s: Sys, cmds: seq<Cmd>, t: Node)
    requires WellFormed(s) && t in s.recs && forall c :: c in cmds ==> c.id in s.recs
    ensures var r := RunCmds(s, cmds);
      && WellFormed(r) && r.now == s.now && r.fired == s.fired
      && r.recs[t].periodic == s.recs[t].periodic && r.recs[t].initTick == s.recs[t].initTick
    decreases |cmds|
  {
    if cmds != [] {
      match cmds[0]
      case Start(x) => StartedEntries(s, x); RunSame(StartSpec(s, x), cmds[1..], t);
      case Stop(x) => StoppedEntries(s, x); RunSame(StopSpec(s, x), cmds[1..], t);
    }
  }

  /** A firing: a periodic timer that its callback leaves armed is due again a period from
      now; any other timer is not ACTIVATED afterwards. */
  lemma FireRearms(s: Sys, cb: Callbacks)
    requires WellFormed(s) && Closed(cb, s.recs) && s.pending != []
    ensures s.pending[0] in s.pending
    ensures var r, t := FireSpec(s, cb), s.pending[0].id;
      && r.fired == s.fired + [Firing(s.pending[0], s.now)] && r.now == s.now
      && (if s.recs[t].periodic && Armed(cb[t], t, s.recs[t].activated)
          then r.recs[t].activated && Queued(r.pending, t, s.now + s.recs[t].initTick)
          else !r.recs[t].activated)
  {
    assert s.pending[0] in s.pending;
    var t := s.pending[0].id;
    var s1 := s.(pending := Without(s.pending, t), fired := s.fired + [Firing(s.pending[0], s.now)]);
    WithoutKeeps(s.pending, t);
    WithoutMembers(s.pending, t);
    RunArmed(s1, cb[t], t);
    RunSame(s1, cb[t], t);
    var s2 := RunCmds(s1, cb[t]);
    StartQueues(s2.(recs := s2.recs[t := s2.recs[t].(activated := false)]), t);
  }
}
