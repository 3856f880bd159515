/** The ready queues of src/scheduler.c under the thread operations of
    src/thread.c, and what every run of them keeps. */
module Scheduler {
  import opened RtList
  import opened IpcList
  import opened ReadyIndex

  datatype Stat = Init | Ready | Suspend | Close

  /** `slice` and `left` are init_tick and remaining_tick. */
  datatype Thread = Thread(stat: Stat, prio: nat, initPrio: nat, masks: Masks, slice: nat, left: nat)

  datatype Sys = Sys(queues: seq<seq<Tid>>, index: Index, threads: map<Tid, Thread>, current: Tid, lock: nat)

  // -------------------------------------------------------------- the invariant

  ghost function Busy(queues: seq<seq<Tid>>): set<nat> {
    set p: nat | p < |queues| && queues[p] != []
  }

  /** A thread is in the queue of its current priority exactly when it is READY,
      and in no other queue. */
  ghost predicate Placed(s: Sys, t: Tid)
    requires t in s.threads
  {
    forall p :: 0 <= p < |s.queues| ==> (t in s.queues[p] <==> s.threads[t].stat.Ready? && s.threads[t].prio == p)
  }

  ghost predicate QueueOk(s: Sys, p: nat)
    requires p < |s.queues|
  {
    Distinct(s.queues[p]) && forall t :: t in s.queues[p] ==> t in s.threads
  }

  /** The masks of a thread that was started belong to its current priority. */
  ghost predicate ThreadOk(s: Sys, t: Tid, layout: Layout)
    requires t in s.threads
  {
    var x := s.threads[t];
    x.prio < |s.queues| && x.initPrio < |s.queues| && (!x.stat.Init? ==> x.masks == MasksOf(layout, x.prio))
  }

  ghost predicate Inv(s: Sys, layout: Layout) {
    && 0 < |s.queues| <= Limit(layout)
    && IndexOk(layout, s.index, Busy(s.queues))
    && (forall p :: 0 <= p < |s.queues| ==> QueueOk(s, p))
    && (forall t :: t in s.threads ==> Placed(s, t))
    && (forall t :: t in s.threads ==> ThreadOk(s, t, layout))
  }

  // ------------------------------------------------------------------ primitives

  /** rt_schedule_insert_thread. */
  ghost function InsertThread(s: Sys, t: Tid, layout: Layout): Sys
    requires t in s.threads && s.threads[t].prio < |s.queues| && Fits(layout, s.index, s.threads[t].masks)
  {
    var x := s.threads[t];
    s.(queues := s.queues[x.prio := s.queues[x.prio] + [t]],
       index := SetBits(layout, s.index, x.masks),
       threads := s.threads[t := x.(stat := Ready)])
  }

  /** rt_schedule_remove_thread. */
  ghost function RemoveThread(s: Sys, t: Tid, layout: Layout): Sys
    requires t in s.threads && s.threads[t].prio < |s.queues| && Fits(layout, s.index, s.threads[t].masks)
  {
    var x := s.threads[t];
    var q := Without(s.queues[x.prio], t);
    s.(queues := s.queues[x.prio := q], index := if q == [] then ClearBits(layout, s.index, x.masks) else s.index)
  }

  /** Give a thread that is in no queue a state, a priority and the masks of it. */
  ghost function Assigned(s: Sys, t: Tid, stat: Stat, p: nat, layout: Layout): Sys
    requires t in s.threads
  {
    s.(threads := s.threads[t := s.threads[t].(stat := stat, prio := p, masks := MasksOf(layout, p))])
  }

  lemma FitsOk(s: Sys, t: Tid, layout: Layout)
    requires Inv(s, layout) && t in s.threads && !s.threads[t].stat.Init?
    ensures s.threads[t].prio < |s.queues| && Fits(layout, s.index, s.threads[t].masks)
  {
    assert ThreadOk(s, t, layout);
  }

  lemma BusyUpdate(queues: seq<seq<Tid>>, p: nat, q: seq<Tid>)
    requires p < |queues|
    ensures Busy(queues[p := q]) == if q == [] then Busy(queues) - {p} else Busy(queues) + {p}
  {
    var b := Busy(queues[p := q]);
    forall x: nat ensures x in b <==> x in (if q == [] then Busy(queues) - {p} else Busy(queues) + {p}) {
      assert x < |queues| && x != p ==> queues[p := q][x] == queues[x];
    }
  }

  lemma InsertKeeps(s: Sys, t: Tid, layout: Layout)
    requires Inv(s, layout) && t in s.threads && s.threads[t].stat.Suspend?
    ensures s.threads[t].prio < |s.queues| && Fits(layout, s.index, s.threads[t].masks)
    ensures Inv(InsertThread(s, t, layout), layout)
  {
    var p := s.threads[t].prio;
    assert ThreadOk(s, t, layout) && Placed(s, t);
    var r := InsertThread(s, t, layout);
    SetOk(layout, s.index, Busy(s.queues), p);
    BusyUpdate(s.queues, p, s.queues[p] + [t]);
    forall q | 0 <= q < |r.queues| ensures QueueOk(r, q) {
      assert QueueOk(s, q);
    }
    forall x | x in r.threads ensures Placed(r, x) && ThreadOk(r, x, layout) {
      assert Placed(s, x) && ThreadOk(s, x, layout);
    }
  }

  /** Everything but the placing of t, whose state is about to change. */
  ghost predicate Loose(s: Sys, t: Tid, layout: Layout) {
    && 0 < |s.queues| <= Limit(layout)
    && IndexOk(layout, s.index, Busy(s.queues))
    && (forall p :: 0 <= p < |s.queues| ==> QueueOk(s, p))
    && (forall x :: x in s.threads && x != t ==> Placed(s, x))
    && (forall x :: x in s.threads ==> ThreadOk(s, x, layout))
    && (forall p :: 0 <= p < |s.queues| ==> t !in s.queues[p])
  }

  lemma RemoveLoose(s: Sys, t: Tid, layout: Layout)
    requires Inv(s, layout) && t in s.threads && !s.threads[t].stat.Init?
    ensures s.threads[t].prio < |s.queues| && Fits(layout, s.index, s.threads[t].masks)
    ensures Loose(RemoveThread(s, t, layout), t, layout)
  {
    var p := s.threads[t].prio;
    assert ThreadOk(s, t, layout) && Placed(s, t) && QueueOk(s, p);
    var r, q := RemoveThread(s, t, layout), Without(s.queues[p], t);
    WithoutIn(s.queues[p], t);
    BusyUpdate(s.queues, p, q);
    if q == [] {
      ClearOk(layout, s.index, Busy(s.queues), p);
    } else {
      assert Busy(s.queues) + {p} == Busy(s.queues) by { assert s.queues[p] != []; }
    }
    forall k | 0 <= k < |r.queues| ensures QueueOk(r, k) && t !in r.queues[k] {
      assert QueueOk(s, k);
    }
    forall x | x in r.threads ensures ThreadOk(r, x, layout) && (x != t ==> Placed(r, x)) {
      assert Placed(s, x) && ThreadOk(s, x, layout);
    }
  }

  /** A thread in no queue may take any state but READY and any priority. */
  lemma AssignedOk(s: Sys, t: Tid, stat: Stat, p: nat, layout: Layout)
    requires Loose(s, t, layout) && t in s.threads && !stat.Ready? && p < |s.queues|
    ensures Inv(Assigned(s, t, stat, p, layout), layout)
  {
    var r := Assigned(s, t, stat, p, layout);
    forall q | 0 <= q < |r.queues| ensures QueueOk(r, q) {
      assert QueueOk(s, q);
    }
    forall x | x in r.threads ensures Placed(r, x) && ThreadOk(r, x, layout) {
      assert ThreadOk(s, x, layout) && (x != t ==> Placed(s, x));
    }
  }

  lemma InvLoose(s: Sys, t: Tid, layout: Layout)
    requires Inv(s, layout) && t in s.threads && !s.threads[t].stat.Ready?
    ensures Loose(s, t, layout)
  {
    assert Placed(s, t);
  }

  // ------------------------------------------------------- the thread operations

  datatype Event =
    | Startup(t: Tid)
    | SuspendT(t: Tid)
    | ResumeT(t: Tid)
    | Change(t: Tid, p: nat)
    | Yield
    | Remove(t: Tid)
    | Account(left: nat)

  /** What the callers owe: known threads, startup once and before removal, and
      priorities that exist. */
  ghost predicate Enabled(s: Sys, e: Event) {
    match e
    case Startup(t) => t in s.threads && s.threads[t].stat.Init?
    case SuspendT(t) => t in s.threads
    case ResumeT(t) => t in s.threads
    case Change(t, p) => t in s.threads && p < |s.queues|
    case Remove(t) => t in s.threads && !s.threads[t].stat.Init?
    case _ => s.current in s.threads
  }

  /** rt_thread_startup, rt_thread_suspend, rt_thread_resume, the priority command
      of rt_thread_control, rt_thread_yield, rt_thread_exit or rt_thread_detach, and
      the accounting of rt_tick_increase, each without its final rt_schedule. */
  ghost function Next(s: Sys, e: Event, layout: Layout): Sys
    requires Inv(s, layout) && Enabled(s, e)
  {
    match e
    case Startup(t) => StartupStep(s, t, layout)
    case SuspendT(t) => if s.threads[t].stat.Ready? then SuspendStep(s, t, layout) else s
    case ResumeT(t) => if s.threads[t].stat.Suspend? then (FitsOk(s, t, layout); InsertThread(s, t, layout)) else s
    case Change(t, p) => ChangeStep(s, t, p, layout)
    case Yield => YieldStep(s)
    case Remove(t) => RemoveStep(s, t, layout)
    case Account(left) => s.(threads := s.threads[s.current := s.threads[s.current].(left := left)])
  }

  ghost function StartupStep(s: Sys, t: Tid, layout: Layout): Sys
    requires Inv(s, layout) && t in s.threads && s.threads[t].stat.Init?
  {
    assert ThreadOk(s, t, layout);
    var a := Assigned(s, t, Suspend, s.threads[t].initPrio, layout);
    InvLoose(s, t, layout);
    AssignedOk(s, t, Suspend, s.threads[t].initPrio, layout);
    FitsOk(a, t, layout);
    InsertThread(a, t, layout)
  }

  ghost function SuspendStep(s: Sys, t: Tid, layout: Layout): Sys
    requires Inv(s, layout) && t in s.threads && s.threads[t].stat.Ready?
  {
    FitsOk(s, t, layout);
    var r := RemoveThread(s, t, layout);
    r.(threads := r.threads[t := r.threads[t].(stat := Suspend)])
  }

  ghost function ChangeStep(s: Sys, t: Tid, p: nat, layout: Layout): Sys
    requires Inv(s, layout) && t in s.threads && p < |s.queues|
  {
    if s.threads[t].stat.Ready? then
      FitsOk(s, t, layout);
      var a := Assigned(RemoveThread(s, t, layout), t, Suspend, p, layout);
      RemoveLoose(s, t, layout);
      AssignedOk(RemoveThread(s, t, layout), t, Suspend, p, layout);
      FitsOk(a, t, layout);
      InsertThread(a, t, layout)
    else Assigned(s, t, s.threads[t].stat, p, layout)
  }

  /** The current thread goes behind the others of its queue, if there are any. */
  ghost function YieldStep(s: Sys): Sys
    requires s.current in s.threads && s.threads[s.current].prio < |s.queues|
  {
    var x := s.threads[s.current];
    var q := s.queues[x.prio];
    if x.stat.Ready? && |q| >= 2 then s.(queues := s.queues[x.prio := Without(q, s.current) + [s.current]]) else s
  }

  ghost function RemoveStep(s: Sys, t: Tid, layout: Layout): Sys
    requires Inv(s, layout) && t in s.threads && !s.threads[t].stat.Init?
  {
    FitsOk(s, t, layout);
    var r := RemoveThread(s, t, layout);
    r.(threads := r.threads[t := r.threads[t].(stat := Close)])
  }

  // ------------------------------------------------------------ every step keeps

  lemma SameMasks(s: Sys, t: Tid, stat: Stat, layout: Layout)
    requires t in s.threads && s.threads[t].masks == MasksOf(layout, s.threads[t].prio)
    ensures s.(threads := s.threads[t := s.threads[t].(stat := stat)]) ==
            Assigned(s, t, stat, s.threads[t].prio, layout)
  {
  }

  lemma TakenOut(s: Sys, t: Tid, stat: Stat, layout: Layout)
    requires Inv(s, layout) && t in s.threads && !s.threads[t].stat.Init? && !stat.Ready?
    ensures s.threads[t].prio < |s.queues| && Fits(layout, s.index, s.threads[t].masks)
    ensures var r := RemoveThread(s, t, layout);
      Inv(r.(threads := r.threads[t := r.threads[t].(stat := stat)]), layout)
  {
    assert ThreadOk(s, t, layout);
    RemoveLoose(s, t, layout);
    SameMasks(RemoveThread(s, t, layout), t, stat, layout);
    AssignedOk(RemoveThread(s, t, layout), t, stat, s.threads[t].prio, layout);
  }

  lemma StartupKeeps(s: Sys, t: Tid, layout: Layout)
    requires Inv(s, layout) && t in s.threads && s.threads[t].stat.Init?
    ensures Inv(StartupStep(s, t, layout), layout)
  {
    assert ThreadOk(s, t, layout);
    InvLoose(s, t, layout);
    AssignedOk(s, t, Suspend, s.threads[t].initPrio, layout);
    InsertKeeps(Assigned(s, t, Suspend, s.threads[t].initPrio, layout), t, layout);
  }

  lemma ChangeKeeps(s: Sys, t: Tid, p: nat, layout: Layout)
    requires Inv(s, layout) && t in s.threads && p < |s.queues|
    ensures Inv(ChangeStep(s, t, p, layout), layout)
  {
    if s.threads[t].stat.Ready? {
      RemoveLoose(s, t, layout);
      var r := RemoveThread(s, t, layout);
      AssignedOk(r, t, Suspend, p, layout);
      InsertKeeps(Assigned(r, t, Suspend, p, layout), t, layout);
    } else {
      InvLoose(s, t, layout);
      AssignedOk(s, t, s.threads[t].stat, p, layout);
    }
  }

  lemma YieldKeeps(s: Sys, layout: Layout)
    requires Inv(s, layout) && s.current in s.threads
    ensures s.threads[s.current].prio < |s.queues| && Inv(YieldStep(s), layout)
  {
    var t := s.current;
    var p := s.threads[t].prio;
    assert ThreadOk(s, t, layout) && Placed(s, t) && QueueOk(s, p);
    var r := YieldStep(s);
    WithoutIn(s.queues[p], t);
    if r != s {
      BusyUpdate(s.queues, p, r.queues[p]);
      assert Busy(s.queues) + {p} == Busy(s.queues);
    }
    forall q | 0 <= q < |r.queues| ensures QueueOk(r, q) {
      assert QueueOk(s, q);
    }
    forall x | x in r.threads ensures Placed(r, x) && ThreadOk(r, x, layout) {
      assert Placed(s, x) && ThreadOk(s, x, layout);
    }
  }

  lemma AccountKeeps(s: Sys, left: nat, layout: Layout)
    requires Inv(s, layout) && s.current in s.threads
    ensures Inv(Next(s, Account(left), layout), layout)
  {
    var r := Next(s, Account(left), layout);
    forall q | 0 <= q < |r.queues| ensures QueueOk(r, q) {
      assert QueueOk(s, q);
    }
    forall x | x in r.threads ensures Placed(r, x) && ThreadOk(r, x, layout) {
      assert Placed(s, x) && ThreadOk(s, x, layout);
    }
  }

  lemma StepInv(s: Sys, e: Event, layout: Layout)
    requires Inv(s, layout) && Enabled(s, e)
    ensures Inv(Next(s, e, layout), layout)
  {
    match e
    case Startup(t) => StartupKeeps(s, t, layout);
    case SuspendT(t) =>
      if s.threads[t].stat.Ready? {
        TakenOut(s, t, Suspend, layout);
      }
    case ResumeT(t) =>
      if s.threads[t].stat.Suspend? {
        InsertKeeps(s, t, layout);
      }
    case Change(t, p) => ChangeKeeps(s, t, p, layout);
    case Yield => YieldKeeps(s, layout);
    case Remove(t) => TakenOut(s, t, Close, layout);
    case Account(left) => AccountKeeps(s, left, layout);
  }

  ghost predicate Runnable(s: Sys, es: seq<Event>, layout: Layout)
    requires Inv(s, layout)
    decreases |es|
  {
    es == [] || (Enabled(s, es[0]) && (StepInv(s, es[0], layout); Runnable(Next(s, es[0], layout), es[1..], layout)))
  }

  ghost function Run(s: Sys, es: seq<Event>, layout: Layout): Sys
    requires Inv(s, layout) && Runnable(s, es, layout)
    decreases |es|
  {
    if es == [] then s
    else
      StepInv(s, es[0], layout);
      Run(Next(s, es[0], layout), es[1..], layout)
  }

  /** After any run, in either layout: a priority bit is set exactly when its queue
      is not empty, a started thread is READY exactly when it is in the queue of
      its priority, and the look-up yields the most urgent queue that is not empty. */
  lemma {:induction false} RunIndexed(s: Sys, es: seq<Event>, layout: Layout)
    requires Inv(s, layout) && Runnable(s, es, layout)
    ensures var r := Run(s, es, layout);
      && Inv(r, layout)
      && forall p :: p in Busy(r.queues) ==>
           0 <= Highest(layout, r.index) <= p && Highest(layout, r.index) in Busy(r.queues)
    decreases |es|
  {
    if es == [] {
      forall p | p in Busy(s.queues)
        ensures 0 <= Highest(layout, s.index) <= p && Highest(layout, s.index) in Busy(s.queues)
      {
        HighestIs(layout, s.index, Busy(s.queues), p);
      }
    } else {
      StepInv(s, es[0], layout);
      RunIndexed(Next(s, es[0], layout), es[1..], layout);
    }
  }

  /** The state rt_system_scheduler_init leaves, with threads yet to be started. */
  lemma FreshInv(max: nat, threads: map<Tid, Thread>, layout: Layout)
    requires 0 < max <= Limit(layout)
    requires forall t :: t in threads ==> threads[t].stat.Init? && threads[t].prio < max && threads[t].initPrio < max
    ensures Inv(Sys(seq(max, i => []), Index(0, seq(32, i => 0)), threads, -1, 0), layout)
  {
    var s := Sys(seq(max, i => []), Index(0, seq(32, i => 0)), threads, -1, 0);
    EmptyOk(layout);
    assert Busy(s.queues) == {};
  }
}
