/** The scheduler of src/scheduler.c and src/thread.c as it runs: ready lists, index
    words and thread blocks updated in place. */
module SchedulerObject {
  import opened RtList
  import opened IpcList
  import opened ReadyIndex
  import opened Scheduler
  import opened Dispatch
  import opened ReadyQueues

  lemma InNoQueue(s: Sys, t: Tid, layout: Layout)
    requires Inv(s, layout) && t in s.threads && !s.threads[t].stat.Ready?
    ensures forall k :: 0 <= k < |s.queues| ==> t !in s.queues[k]
  {
    assert Placed(s, t);
  }

  lemma InItsQueue(s: Sys, t: Tid, layout: Layout)
    requires Inv(s, layout) && t in s.threads && s.threads[t].stat.Ready?
    ensures s.threads[t].prio < |s.queues| && t in s.queues[s.threads[t].prio]
  {
    assert Placed(s, t) && ThreadOk(s, t, layout);
  }

  class ReadyTable {
    var links: Links
    var index: Index
    var threads: map<Tid, Thread>
    var current: Tid
    var lock: nat
    const layout: Layout
    ghost var queues: seq<seq<Tid>>

    ghost function Value(): Sys
      reads this
    {
      Sys(queues, index, threads, current, lock)
    }

    ghost predicate Linked()
      reads this
    {
      Forest(links, queues) && Single(queues) && forall t :: t in threads ==> t >= 0
    }

    ghost predicate Valid()
      reads this
    {
      Linked() && Inv(Value(), layout)
    }

    /** rt_system_scheduler_init: the loop makes every list head point to itself. */
    constructor (max: nat, threads: map<Tid, Thread>, layout: Layout)
      requires 0 < max <= Limit(layout)
      requires forall t :: t in threads ==>
        t >= 0 && threads[t].stat.Init? && threads[t].prio < max && threads[t].initPrio < max
      ensures Valid() && Value() == Sys(seq(max, i => []), Index(0, seq(32, i => 0)), threads, -1, 0)
      ensures this.layout == layout
    {
      index, current, lock := Index(0, seq(32, i => 0)), -1, 0;
      this.threads, this.layout := threads, layout;
      queues := seq(max, i => []);
      var l, p := Links(map[], map[]), 0;
      while p < max
        invariant 0 <= p <= max && Forest(l, seq(p, i => []))
      {
        ghost var m := l;
        l := RtList.Init(l, Head(p));
        Started(m, p);
        p := p + 1;
      }
      links := l;
      FreshInv(max, threads, layout);
    }

    /** rt_schedule_insert_thread, for a thread in no queue. */
    method InsertThread(t: Tid)
      requires Linked() && t in threads && threads[t].prio < |queues| && Fits(layout, index, threads[t].masks)
      requires forall k :: 0 <= k < |queues| ==> t !in queues[k]
      modifies this
      ensures Linked() && Value() == Scheduler.InsertThread(old(Value()), t, layout)
    {
      var x := threads[t];
      threads := threads[t := x.(stat := Ready)];
      Enqueued(links, queues, x.prio, t);
      links := InsertBefore(links, Head(x.prio), t);
      queues := queues[x.prio := queues[x.prio] + [t]];
      index := SetBits(layout, index, x.masks);
    }

    /** rt_schedule_remove_thread, for a thread in the queue of its priority. */
    method RemoveThread(t: Tid)
      requires Linked() && t in threads && threads[t].prio < |queues| && Fits(layout, index, threads[t].masks)
      requires t in queues[threads[t].prio] && Distinct(queues[threads[t].prio])
      modifies this
      ensures Linked() && Value() == Scheduler.RemoveThread(old(Value()), t, layout)
    {
      var x := threads[t];
      Dequeued(links, queues, x.prio, t);
      WithoutIn(queues[x.prio], t);
      links := RtList.Remove(links, t);
      queues := queues[x.prio := Without(queues[x.prio], t)];
      Rings(links, queues, x.prio);
      if links.next[Head(x.prio)] == Head(x.prio) {
        assert queues[x.prio] == [] by { NotHead(queues, x.prio); }
        index := ClearBits(layout, index, x.masks);
      }
    }

    /** rt_schedule. */
    method Schedule()
      requires Valid() && Alive(Value())
      modifies this`current
      ensures Valid() && Value() == Scheduled(old(Value()), layout)
    {
      if lock == 0 {
        ghost var s := Value();
        var highest := Highest(layout, index);
        FoundHighest(s, layout);
        Rings(links, queues, highest);
        current := links.next[Head(highest)];
        SameInv(s, Value(), layout);
      }
    }

    // ------------------------------------------------------------ thread operations

    /** rt_thread_suspend. */
    method Suspend(t: Tid) returns (ok: bool)
      requires Valid() && t in threads
      modifies this
      ensures Valid() && Value() == Scheduler.Next(old(Value()), SuspendT(t), layout)
      ensures ok <==> old(threads)[t].stat.Ready?
    {
      ghost var s := Value();
      StepInv(s, SuspendT(t), layout);
      ok := threads[t].stat == Ready;
      if ok {
        InItsQueue(s, t, layout);
        FitsOk(s, t, layout);
        assert QueueOk(s, threads[t].prio);
        RemoveThread(t);
        threads := threads[t := threads[t].(stat := Scheduler.Suspend)];
      }
    }

    /** rt_thread_resume. */
    method Resume(t: Tid) returns (ok: bool)
      requires Valid() && t in threads
      modifies this
      ensures Valid() && Value() == Scheduler.Next(old(Value()), ResumeT(t), layout)
      ensures ok <==> old(threads)[t].stat.Suspend?
    {
      ghost var s := Value();
      StepInv(s, ResumeT(t), layout);
      ok := threads[t].stat == Scheduler.Suspend;
      if ok {
        InNoQueue(s, t, layout);
        FitsOk(s, t, layout);
        InsertThread(t);
      }
    }

    /** rt_thread_startup: schedules only once a thread is running. */
    method Startup(t: Tid)
      requires Valid() && t in threads && threads[t].stat.Init?
      modifies this
      ensures Valid()
      ensures var r := Scheduler.Next(old(Value()), Scheduler.Startup(t), layout);
        Value() == if old(current) == -1 then r else Scheduled(r, layout)
    {
      ghost var s := Value();
      ghost var a := Assigned(s, t, Scheduler.Suspend, threads[t].initPrio, layout);
      StepInv(s, Scheduler.Startup(t), layout);
      assert ThreadOk(s, t, layout);
      InvLoose(s, t, layout);
      AssignedOk(s, t, Scheduler.Suspend, threads[t].initPrio, layout);
      var x := threads[t];
      threads := threads[t := x.(stat := Scheduler.Suspend, prio := x.initPrio, masks := MasksOf(layout, x.initPrio))];
      assert Value() == a;
      FitsOk(a, t, layout);
      InAlive(a, t, layout);
      var ok := Resume(t);
      if current != -1 {
        Schedule();
      }
    }

    /** The priority command of rt_thread_control. */
    method ChangePriority(t: Tid, p: nat)
      requires Valid() && t in threads && p < |queues|
      modifies this
      ensures Valid() && Value() == ChangeStep(old(Value()), t, p, layout)
    {
      ghost var s := Value();
      ChangeKeeps(s, t, p, layout);
      if threads[t].stat == Ready {
        InItsQueue(s, t, layout);
        FitsOk(s, t, layout);
        assert QueueOk(s, threads[t].prio);
        RemoveLoose(s, t, layout);
        AssignedOk(Scheduler.RemoveThread(s, t, layout), t, Scheduler.Suspend, p, layout);
        RemoveThread(t);
        Recalculate(t, p);
        FitsOk(Assigned(Scheduler.RemoveThread(s, t, layout), t, Scheduler.Suspend, p, layout), t, layout);
        InsertThread(t);
        assert Value() == ChangeStep(s, t, p, layout);
      } else {
        Recalculate(t, p);
      }
    }

    /** current_priority and the masks that go with it. */
    method Recalculate(t: Tid, p: nat)
      requires t in threads
      modifies this`threads
      ensures threads == old(threads)[t := old(threads)[t].(prio := p, masks := MasksOf(layout, p))]
    {
      threads := threads[t := threads[t].(prio := p, masks := MasksOf(layout, p))];
    }

    /** rt_list_remove, then rt_list_insert_before the head of the queue. */
    method MoveBack(p: nat, t: Tid)
      requires Linked() && p < |queues| && t in queues[p] && Distinct(queues[p])
      modifies this`links, this`queues
      ensures Linked() && queues == old(queues)[p := Without(old(queues)[p], t) + [t]]
    {
      WithoutIn(queues[p], t);
      Dequeued(links, queues, p, t);
      links := RtList.Remove(links, t);
      queues := queues[p := Without(queues[p], t)];
      Enqueued(links, queues, p, t);
      links := InsertBefore(links, Head(p), t);
      queues := queues[p := queues[p] + [t]];
    }

    /** rt_thread_yield. */
    method Yield()
      requires Valid() && Sane(Value(), layout)
      modifies this
      ensures Valid() && Value() == Yielded(old(Value()), layout)
    {
      ghost var s := Value();
      if threads[current].stat == Ready {
        var p := threads[current].prio;
        InItsQueue(s, current, layout);
        Neighbours(links, queues, p, current);
        if links.next[current] != links.prev[current] {
          assert QueueOk(s, p);
          MoveBack(p, current);
          YieldAlive(s, layout);
          Schedule();
        }
      }
    }

    /** The time slice of rt_tick_increase. */
    method Tick()
      requires Valid() && Sane(Value(), layout)
      modifies this
      ensures Valid() && Value() == Ticked(old(Value()), layout)
    {
      var left := (threads[current].left - 1) % TICKS;
      ghost var s := Value();
      TickedIs(s, layout);
      if left != 0 {
        SetLeft(left);
      } else {
        Renew();
      }
    }

    /** A slice is used up: a new one, and the end of the queue. */
    method Renew()
      requires Valid() && Sane(Value(), layout)
      modifies this
      ensures Valid() && Inv(Scheduler.Next(old(Value()), Account(old(threads)[old(current)].slice), layout), layout)
      ensures Value() == Yielded(Scheduler.Next(old(Value()), Account(old(threads)[old(current)].slice), layout),
              layout)
    {
      SetLeft(threads[current].slice);
      Yield();
    }

    method SetLeft(left: nat)
      requires Valid() && Sane(Value(), layout)
      modifies this`threads
      ensures Valid() && Sane(Value(), layout) && Value() == Scheduler.Next(old(Value()), Account(left), layout)
    {
      AccountKeeps(Value(), left, layout);
      threads := threads[current := threads[current].(left := left)];
    }

    /** rt_enter_critical. */
    method EnterCritical()
      requires Valid() && Sane(Value(), layout)
      modifies this
      ensures Valid() && Value() == Dispatch.Next(old(Value()), Enter, layout)
    {
      ghost var s := Value();
      lock := lock + 1;
      SameInv(s, Value(), layout);
    }

    /** rt_exit_critical. */
    method ExitCritical()
      requires Valid() && Sane(Value(), layout)
      modifies this
      ensures Valid() && Value() == Dispatch.Next(old(Value()), Leave, layout)
    {
      ghost var s := Value();
      if lock <= 1 {
        lock := 0;
        SameInv(s, Value(), layout);
        Schedule();
      } else {
        lock := lock - 1;
        SameInv(s, Value(), layout);
      }
    }
  }

  lemma FoundHighest(s: Sys, layout: Layout)
    requires Inv(s, layout) && Alive(s)
    ensures 0 <= Highest(layout, s.index) < |s.queues| && s.queues[Highest(layout, s.index)] != []
  {
    var p :| p in Busy(s.queues);
    HighestIs(layout, s.index, Busy(s.queues), p);
  }

  lemma NotHead(queues: seq<seq<Tid>>, p: nat)
    requires Single(queues) && p < |queues|
    ensures queues[p] != [] ==> queues[p][0] != Head(p)
  {
    if queues[p] != [] {
      assert queues[p][0] in queues[p];
    }
  }

  lemma Started(l: Links, p: nat)
    requires Forest(l, seq(p, i => []))
    ensures Forest(RtList.Init(l, Head(p)), seq(p + 1, i => []))
  {
    var before, after := seq(p, i => []), seq(p + 1, i => []);
    var m := RtList.Init(l, Head(p));
    forall k | 0 <= k < |after| ensures Ring(m, RingOf(after, k)) {
      assert RingOf(after, k) == [Head(k)];
      if k < p {
        assert RingOf(before, k) == [Head(k)] && Ring(l, [Head(k)]);
        RingFrame(l, m, [Head(k)]);
      } else {
        assert NodeAt(m, [Head(k)], 0);
      }
    }
  }
}
