/** What each thread operation does, told by the states of the threads and the queues
    before and after it. */
module SchedulerCalls {
  import opened RtList
  import opened IpcList
  import opened ReadyIndex
  import opened Scheduler
  import opened Dispatch

  /** Every thread but t is as before, and so are the current thread and the lock. */
  ghost predicate OthersSame(s: Sys, r: Sys, t: Tid) {
    && r.threads.Keys == s.threads.Keys && (forall x :: x in s.threads && x != t ==> r.threads[x] == s.threads[x])
    && r.current == s.current && r.lock == s.lock && |r.queues| == |s.queues|
  }

  /** All queues but those of p and q are as before. */
  ghost predicate QueuesSame(s: Sys, r: Sys, p: nat, q: nat) {
    |r.queues| == |s.queues| && forall k :: 0 <= k < |s.queues| && k != p && k != q ==> r.queues[k] == s.queues[k]
  }

  /** t was taken out of the queue a, wherever it stood, and the rest is b in order. */
  ghost predicate TakenFrom(a: seq<Tid>, b: seq<Tid>, t: Tid) {
    exists i :: 0 <= i < |a| && a[i] == t && b == Dropped(a, i)
  }

  /** t has the state and priority given, and is last in the queue of that priority. */
  ghost predicate LastIn(s: Sys, r: Sys, t: Tid, p: nat) {
    && t in r.threads && r.threads[t].stat == Ready && r.threads[t].prio == p
    && p < |s.queues| == |r.queues| && r.queues[p] == s.queues[p] + [t]
  }

  lemma OutOf(s: Sys, t: Tid, layout: Layout)
    requires Inv(s, layout) && t in s.threads && s.threads[t].stat == Ready
    ensures s.threads[t].prio < |s.queues| && t in s.queues[s.threads[t].prio]
    ensures TakenFrom(s.queues[s.threads[t].prio], Without(s.queues[s.threads[t].prio], t), t)
  {
    assert ThreadOk(s, t, layout) && Placed(s, t);
    var q := s.queues[s.threads[t].prio];
    assert QueueOk(s, s.threads[t].prio);
    var i :| 0 <= i < |q| && q[i] == t;
    WithoutIsDropped(q, i);
  }

  lemma NotIn(s: Sys, t: Tid, p: nat, layout: Layout)
    requires Inv(s, layout) && t in s.threads && p < |s.queues|
    requires s.threads[t].stat != Ready || s.threads[t].prio != p
    ensures t !in s.queues[p] && Without(s.queues[p], t) == s.queues[p]
  {
    assert Placed(s, t);
    WithoutAbsent(s.queues[p], t);
  }

  // ------------------------------------------------------------------ operations

  /** rt_thread_resume: a suspended thread becomes READY and last in the queue of its
      priority; nothing else changes, and nothing at all for any other thread. */
  lemma ResumeReadies(s: Sys, t: Tid, layout: Layout)
    requires Inv(s, layout) && t in s.threads
    ensures var r, x := Scheduler.Next(s, ResumeT(t), layout), s.threads[t];
      if x.stat != Suspend then r == s
      else
        && LastIn(s, r, t, x.prio) && r.threads[t] == x.(stat := Ready)
        && OthersSame(s, r, t) && QueuesSame(s, r, x.prio, x.prio)
  {
    assert ThreadOk(s, t, layout);
  }

  /** rt_thread_suspend: a ready thread is suspended and leaves its queue, the others in
      order; nothing else changes, and nothing at all for any other thread. */
  lemma SuspendStops(s: Sys, t: Tid, layout: Layout)
    requires Inv(s, layout) && t in s.threads
    ensures var r, x := Scheduler.Next(s, SuspendT(t), layout), s.threads[t];
      if x.stat != Ready then r == s
      else
        && t in r.threads && r.threads[t] == x.(stat := Suspend)
        && OthersSame(s, r, t) && QueuesSame(s, r, x.prio, x.prio)
        && x.prio < |s.queues| && TakenFrom(s.queues[x.prio], r.queues[x.prio], t)
  {
    if s.threads[t].stat == Ready {
      OutOf(s, t, layout);
    }
  }

  /** rt_thread_startup: a new thread becomes READY at its initial priority, last in its
      queue. */
  lemma StartupReadies(s: Sys, t: Tid, layout: Layout)
    requires Inv(s, layout) && t in s.threads && s.threads[t].stat == Init
    ensures var r, p := Scheduler.Next(s, Startup(t), layout), s.threads[t].initPrio;
      LastIn(s, r, t, p) && OthersSame(s, r, t) && QueuesSame(s, r, p, p)
  {
    assert ThreadOk(s, t, layout);
  }

  /** rt_thread_exit and rt_thread_detach: the thread is closed and in no queue. */
  lemma RemoveCloses(s: Sys, t: Tid, layout: Layout)
    requires Inv(s, layout) && t in s.threads && s.threads[t].stat != Init
    ensures var r, x := Scheduler.Next(s, Remove(t), layout), s.threads[t];
      && t in r.threads && r.threads[t] == x.(stat := Close) && OthersSame(s, r, t) && QueuesSame(s, r, x.prio, x.prio)
      && x.prio < |s.queues|
      && (x.stat == Ready ==> TakenFrom(s.queues[x.prio], r.queues[x.prio], t))
      && (x.stat != Ready ==> r.queues == s.queues)
  {
    assert ThreadOk(s, t, layout);
    if s.threads[t].stat == Ready {
      OutOf(s, t, layout);
    } else {
      NotIn(s, t, s.threads[t].prio, layout);
    }
  }

  /** The priority command of rt_thread_control: the thread has the new priority and keeps
      its state; a ready one moves from its queue to the end of the new one. */
  lemma ChangeMoves(s: Sys, t: Tid, p: nat, layout: Layout)
    requires Inv(s, layout) && t in s.threads && p < |s.queues|
    ensures var r, x := Scheduler.Next(s, Change(t, p), layout), s.threads[t];
      && t in r.threads && r.threads[t] == x.(prio := p, masks := MasksOf(layout, p)) && OthersSame(s, r, t)
      && QueuesSame(s, r, x.prio, p) && x.prio < |s.queues|
      && (x.stat != Ready ==> r.queues == s.queues)
      && (x.stat == Ready && x.prio != p ==>
           TakenFrom(s.queues[x.prio], r.queues[x.prio], t) && r.queues[p] == s.queues[p] + [t])
      && (x.stat == Ready && x.prio == p ==>
           r.queues[p] != [] && r.queues[p][|r.queues[p]| - 1] == t
           && TakenFrom(s.queues[p], r.queues[p][..|r.queues[p]| - 1], t))
  {
    assert ThreadOk(s, t, layout);
    if s.threads[t].stat == Ready {
      ReadyMoves(s, t, p, layout);
    }
  }

  lemma ReadyMoves(s: Sys, t: Tid, p: nat, layout: Layout)
    requires Inv(s, layout) && t in s.threads && p < |s.queues| && s.threads[t].stat == Ready
    ensures var r, q := ChangeStep(s, t, p, layout), s.threads[t].prio;
      && q < |s.queues| && t in r.threads && r.threads[t] == s.threads[t].(prio := p, masks := MasksOf(layout, p))
      && OthersSame(s, r, t) && QueuesSame(s, r, q, p)
      && (q != p ==> TakenFrom(s.queues[q], r.queues[q], t) && r.queues[p] == s.queues[p] + [t])
      && (q == p ==>
           r.queues[p] != [] && r.queues[p][|r.queues[p]| - 1] == t
           && TakenFrom(s.queues[p], r.queues[p][..|r.queues[p]| - 1], t))
  {
    OutOf(s, t, layout);
    RemoveLoose(s, t, layout);
    var q, w := s.threads[t].prio, Without(s.queues[s.threads[t].prio], t);
    var r := ChangeStep(s, t, p, layout);
    assert r.queues == s.queues[q := w][p := s.queues[q := w][p] + [t]];
    if q == p {
      assert (w + [t])[..|w|] == w;
    }
  }

  /** rt_thread_yield: the current thread goes behind the others of its queue. */
  lemma YieldMoves(s: Sys, layout: Layout)
    requires Inv(s, layout) && s.current in s.threads
    ensures var r, x := Scheduler.Next(s, Yield, layout), s.threads[s.current];
      && x.prio < |s.queues| && r.threads == s.threads && r.current == s.current && r.lock == s.lock
      && QueuesSame(s, r, x.prio, x.prio)
      && (if x.stat == Ready && |s.queues[x.prio]| >= 2 then
            r.queues[x.prio] != [] && r.queues[x.prio][|r.queues[x.prio]| - 1] == s.current &&
            TakenFrom(s.queues[x.prio], r.queues[x.prio][..|r.queues[x.prio]| - 1], s.current)
          else r == s)
  {
    var t := s.current;
    assert ThreadOk(s, t, layout);
    if s.threads[t].stat == Ready {
      OutOf(s, t, layout);
      var w := Without(s.queues[s.threads[t].prio], t);
      assert (w + [t])[..|w|] == w;
    }
  }

  // -------------------------------------------------------------- complete operations

  /** Threads are woken: each of ts that was suspended is READY, each other thread is as it
      was, and every queue has grown at its end only. */
  ghost predicate Awake(s: Sys, r: Sys, ts: seq<Tid>) {
    && r.threads.Keys == s.threads.Keys && |r.queues| == |s.queues| && r.lock == s.lock
    && (forall t :: t in s.threads ==>
         r.threads[t] == if t in ts && s.threads[t].stat == Suspend then s.threads[t].(stat := Ready) else s.threads[t])
    && (forall p :: 0 <= p < |s.queues| ==> s.queues[p] <= r.queues[p])
  }

  lemma {:induction false} WokenAwake(s: Sys, ts: seq<Tid>, layout: Layout)
    requires Inv(s, layout) && forall t :: t in ts ==> t in s.threads
    ensures Awake(s, Woken(s, ts, layout), ts)
    decreases |ts|
  {
    if ts != [] {
      var m := Scheduler.Next(s, ResumeT(ts[0]), layout);
      StepInv(s, ResumeT(ts[0]), layout);
      ResumeReadies(s, ts[0], layout);
      WokenAwake(m, ts[1..], layout);
      AwakeMore(s, m, Woken(s, ts, layout), ts, layout);
    }
  }

  lemma AwakeMore(s: Sys, m: Sys, r: Sys, ts: seq<Tid>, layout: Layout)
    requires Inv(s, layout) && ts != [] && ts[0] in s.threads && m == Scheduler.Next(s, ResumeT(ts[0]), layout)
    requires Awake(m, r, ts[1..])
    ensures Awake(s, r, ts)
  {
    ResumeReadies(s, ts[0], layout);
    forall t | t in s.threads
      ensures r.threads[t] ==
        if t in ts && s.threads[t].stat == Suspend then s.threads[t].(stat := Ready) else s.threads[t]
    {
      assert t in ts <==> t == ts[0] || t in ts[1..];
    }
  }

  /** Waking threads and the timeout of one, with the final rt_schedule. */
  lemma WakeReadies(s: Sys, ts: seq<Tid>, layout: Layout)
    requires Sane(s, layout) && Open(s, Wake(ts))
    ensures Awake(s, Dispatch.Next(s, Wake(ts), layout), ts)
  {
    WokenAwake(s, ts, layout);
  }

  lemma TimeoutReadies(s: Sys, t: Tid, layout: Layout)
    requires Sane(s, layout) && Open(s, Timeout(t))
    ensures Awake(s, Dispatch.Next(s, Timeout(t), layout), [t])
  {
    ResumeReadies(s, t, layout);
  }

  /** A thread that blocks is suspended, one that exits is closed, and neither runs on. */
  lemma StopsRunning(s: Sys, a: Act, layout: Layout)
    requires Sane(s, layout) && Open(s, a) && (a == Block || a == Exit)
    ensures var r, t := Dispatch.Next(s, a, layout), s.current;
      && t in r.threads && r.threads[t] == s.threads[t].(stat := if a == Block then Suspend else Close)
      && (forall x :: x in s.threads && x != t ==> x in r.threads && r.threads[x] == s.threads[x])
      && (forall p :: 0 <= p < |r.queues| ==> t !in r.queues[p])
      && (s.lock == 0 ==> r.current != t)
  {
    var t := s.current;
    if a == Block {
      SuspendStops(s, t, layout);
      BlockSettles(s, layout);
    } else {
      RemoveCloses(s, t, layout);
      ExitSettles(s, layout);
    }
    var r := Dispatch.Next(s, a, layout);
    assert Placed(r, t);
  }

  /** Startup with the final rt_schedule: the new thread is READY, the others as before. */
  lemma StartReadies(s: Sys, t: Tid, layout: Layout)
    requires Sane(s, layout) && Open(s, Start(t))
    ensures var r := Dispatch.Next(s, Start(t), layout);
      && LastIn(s, r, t, s.threads[t].initPrio) && r.lock == s.lock
      && (forall x :: x in s.threads && x != t ==> x in r.threads && r.threads[x] == s.threads[x])
  {
    StartupReadies(s, t, layout);
  }

  /** rt_enter_critical and rt_exit_critical count the nest and touch no thread and no
      queue. */
  lemma LockCounts(s: Sys, a: Act, layout: Layout)
    requires Sane(s, layout) && (a == Enter || a == Leave)
    ensures var r := Dispatch.Next(s, a, layout);
      && r.queues == s.queues && r.threads == s.threads
      && r.lock == (if a == Enter then s.lock + 1 else if s.lock == 0 then 0 else s.lock - 1)
  {
  }

  /** While the scheduler stays locked no operation changes the thread that runs. */
  lemma LockedStays(s: Sys, a: Act, layout: Layout)
    requires Sane(s, layout) && Open(s, a) && s.lock > 0 && (a == Leave ==> s.lock > 1)
    ensures Dispatch.Next(s, a, layout).current == s.current
  {
    match a
    case Start(t) => StartupReadies(s, t, layout);
    case Block => SuspendStops(s, s.current, layout);
    case Wake(ts) => WokenAwake(s, ts, layout);
    case Timeout(t) => ResumeReadies(s, t, layout);
    case Tick => TickLocked(s, layout);
    case GiveUp => YieldMoves(s, layout);
    case _ =>
  }

  lemma TickLocked(s: Sys, layout: Layout)
    requires Sane(s, layout) && s.lock > 0
    ensures Ticked(s, layout).current == s.current
  {
    var x := s.threads[s.current];
    TickedIs(s, layout);
    if (x.left - 1) % TICKS == 0 {
      YieldMoves(Scheduler.Next(s, Account(x.slice), layout), layout);
    }
  }
}
