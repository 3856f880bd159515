/** Who runs: rt_schedule of src/scheduler.c after every complete operation, the
    scheduler lock, and the time slices of src/clock.c. */
module Dispatch {
  import opened RtList
  import opened IpcList
  import opened ReadyIndex
  import opened Scheduler

  /** The range of remaining_tick. */
  const TICKS: int := 0x1_0000_0000

  /** rt_schedule: unless locked, the head of the most urgent queue runs. */
  ghost function Scheduled(s: Sys, layout: Layout): Sys {
    var p := Highest(layout, s.index);
    if s.lock == 0 && 0 <= p < |s.queues| && s.queues[p] != [] then s.(current := s.queues[p][0]) else s
  }

  ghost predicate Alive(s: Sys) {
    Busy(s.queues) != {}
  }

  /** The current thread is the head of the most urgent queue. */
  ghost predicate AtHead(s: Sys) {
    s.current in s.threads && s.threads[s.current].prio < |s.queues| &&
    var p := s.threads[s.current].prio;
    s.queues[p] != [] && s.queues[p][0] == s.current && forall q :: 0 <= q < p ==> s.queues[q] == []
  }

  /** Queues and index agree, some thread is ready and some thread runs. */
  ghost predicate Sane(s: Sys, layout: Layout) {
    Inv(s, layout) && Alive(s) && s.current in s.threads
  }

  /** Between complete operations: unless the scheduler is locked, the right thread runs. */
  ghost predicate Settled(s: Sys, layout: Layout) {
    Sane(s, layout) && (s.lock == 0 ==> AtHead(s))
  }

  lemma ScheduledSettles(s: Sys, layout: Layout)
    requires Sane(s, layout)
    ensures Settled(Scheduled(s, layout), layout)
  {
    var p :| p in Busy(s.queues);
    HighestIs(layout, s.index, Busy(s.queues), p);
    var r := Scheduled(s, layout);
    SameInv(s, r, layout);
    if s.lock == 0 {
      var h := Highest(layout, s.index);
      var t := s.queues[h][0];
      assert t in s.queues[h] && QueueOk(s, h);
      assert Placed(s, t);
      forall q | 0 <= q < h ensures s.queues[q] == [] {
        if s.queues[q] != [] {
          HighestIs(layout, s.index, Busy(s.queues), q);
        }
      }
    }
  }

  lemma SameInv(s: Sys, r: Sys, layout: Layout)
    requires Inv(s, layout) && r.queues == s.queues && r.index == s.index && r.threads == s.threads
    ensures Inv(r, layout)
  {
    forall q | 0 <= q < |r.queues| ensures QueueOk(r, q) {
      assert QueueOk(s, q);
    }
    forall x | x in r.threads ensures Placed(r, x) && ThreadOk(r, x, layout) {
      assert Placed(s, x) && ThreadOk(s, x, layout);
    }
  }

  // ---------------------------------------------------------- complete operations

  /** Start a thread; the current thread blocks on an object or sleeps; threads are
      woken; a wait or sleep times out; a clock tick; yield; exit; lock and unlock. */
  datatype Act = Start(t: Tid) | Block | Wake(ts: seq<Tid>) | Timeout(t: Tid) | Tick | GiveUp | Exit | Enter | Leave

  ghost predicate Open(s: Sys, a: Act)
    requires s.current in s.threads
  {
    match a
    case Start(t) => t in s.threads && s.threads[t].stat.Init?
    case Block => s.threads[s.current].stat.Ready? && OthersReady(s)
    case Wake(ts) => forall t :: t in ts ==> t in s.threads
    case Timeout(t) => t in s.threads && s.threads[t].stat.Suspend?
    case Exit => s.lock == 0 && s.threads[s.current].stat.Ready? && OthersReady(s)
    case _ => true
  }

  /** Some other thread, if only the idle thread, is ready. */
  ghost predicate OthersReady(s: Sys) {
    exists t, p :: t != s.current && 0 <= p < |s.queues| && t in s.queues[p]
  }

  ghost function Woken(s: Sys, ts: seq<Tid>, layout: Layout): (r: Sys)
    requires Inv(s, layout) && forall t :: t in ts ==> t in s.threads
    ensures Inv(r, layout) && r.threads.Keys == s.threads.Keys && r.current == s.current && r.lock == s.lock
    decreases |ts|
  {
    if ts == [] then s
    else
      StepInv(s, ResumeT(ts[0]), layout);
      Woken(Scheduler.Next(s, ResumeT(ts[0]), layout), ts[1..], layout)
  }

  /** One tick of the current thread's slice; the last one makes it yield. */
  ghost function Ticked(s: Sys, layout: Layout): Sys
    requires Inv(s, layout) && s.current in s.threads
  {
    var x := s.threads[s.current];
    var left := (x.left - 1) % TICKS;
    if left != 0 then Scheduler.Next(s, Account(left), layout)
    else
      var r := Scheduler.Next(s, Account(x.slice), layout);
      StepInv(s, Account(x.slice), layout);
      Yielded(r, layout)
  }

  /** The current thread shares its queue with others. */
  ghost predicate Shares(s: Sys) {
    s.current in s.threads && s.threads[s.current].prio < |s.queues| && s.threads[s.current].stat.Ready? &&
    |s.queues[s.threads[s.current].prio]| >= 2
  }

  /** rt_thread_yield schedules only where it moved the thread. */
  ghost function Yielded(s: Sys, layout: Layout): Sys
    requires Inv(s, layout) && s.current in s.threads
  {
    if Shares(s) then Scheduled(Scheduler.Next(s, Yield, layout), layout) else s
  }

  /** Behind the others the thread is still ready. */
  lemma YieldAlive(s: Sys, layout: Layout)
    requires Sane(s, layout) && Shares(s)
    ensures Sane(Scheduler.Next(s, Yield, layout), layout)
  {
    var r, p := Scheduler.Next(s, Yield, layout), s.threads[s.current].prio;
    StepInv(s, Yield, layout);
    assert r.queues[p][|r.queues[p]| - 1] == s.current;
    AliveBy(r, s.current, p);
  }

  ghost function Next(s: Sys, a: Act, layout: Layout): Sys
    requires Sane(s, layout) && Open(s, a)
  {
    match a
    case Start(t) => Scheduled(Scheduler.Next(s, Startup(t), layout), layout)
    case Block => Scheduled(Scheduler.Next(s, SuspendT(s.current), layout), layout)
    case Wake(ts) => Scheduled(Woken(s, ts, layout), layout)
    case Timeout(t) => Scheduled(Scheduler.Next(s, ResumeT(t), layout), layout)
    case Tick => Ticked(s, layout)
    case GiveUp => Yielded(s, layout)
    case Exit =>
      assert ThreadOk(s, s.current, layout);
      Scheduled(Scheduler.Next(s, Remove(s.current), layout), layout)
    case Enter => s.(lock := s.lock + 1)
    case Leave => if s.lock <= 1 then Scheduled(s.(lock := 0), layout) else s.(lock := s.lock - 1)
  }

  // -------------------------------------------------------------- it stays alive

  lemma AliveBy(s: Sys, t: Tid, p: nat)
    requires p < |s.queues| && t in s.queues[p]
    ensures Alive(s)
  {
    assert p in Busy(s.queues);
  }

  /** Taking one thread out of its queue leaves the others where they are. */
  lemma OutAlive(s: Sys, t: Tid, layout: Layout)
    requires Inv(s, layout) && t in s.threads && t == s.current && !s.threads[t].stat.Init? && OthersReady(s)
    ensures s.threads[t].prio < |s.queues| && Fits(layout, s.index, s.threads[t].masks)
    ensures Alive(RemoveThread(s, t, layout))
  {
    FitsOk(s, t, layout);
    var x, p :| x != s.current && 0 <= p < |s.queues| && x in s.queues[p];
    var k := s.threads[t].prio;
    assert QueueOk(s, k);
    WithoutIn(s.queues[k], t);
    AliveBy(RemoveThread(s, t, layout), x, p);
  }

  lemma InAlive(s: Sys, t: Tid, layout: Layout)
    requires t in s.threads && s.threads[t].prio < |s.queues| && Fits(layout, s.index, s.threads[t].masks)
    ensures Alive(InsertThread(s, t, layout))
  {
    AliveBy(InsertThread(s, t, layout), t, s.threads[t].prio);
  }

  lemma ResumeAlive(s: Sys, t: Tid, layout: Layout)
    requires Inv(s, layout) && t in s.threads && Alive(s)
    ensures Alive(Scheduler.Next(s, ResumeT(t), layout))
  {
    if s.threads[t].stat.Suspend? {
      FitsOk(s, t, layout);
      InAlive(s, t, layout);
    }
  }

  lemma {:induction false} WokenAlive(s: Sys, ts: seq<Tid>, layout: Layout)
    requires Inv(s, layout) && Alive(s) && forall t :: t in ts ==> t in s.threads
    ensures Alive(Woken(s, ts, layout))
    decreases |ts|
  {
    if ts != [] {
      StepInv(s, ResumeT(ts[0]), layout);
      ResumeAlive(s, ts[0], layout);
      WokenAlive(Scheduler.Next(s, ResumeT(ts[0]), layout), ts[1..], layout);
    }
  }

  lemma StartSettles(s: Sys, t: Tid, layout: Layout)
    requires Sane(s, layout) && Open(s, Start(t))
    ensures Settled(Next(s, Start(t), layout), layout)
  {
    StepInv(s, Startup(t), layout);
    var a := Assigned(s, t, Suspend, s.threads[t].initPrio, layout);
    assert ThreadOk(s, t, layout);
    InvLoose(s, t, layout);
    AssignedOk(s, t, Suspend, s.threads[t].initPrio, layout);
    FitsOk(a, t, layout);
    InAlive(a, t, layout);
    ScheduledSettles(Scheduler.Next(s, Startup(t), layout), layout);
  }

  lemma BlockSettles(s: Sys, layout: Layout)
    requires Sane(s, layout) && Open(s, Block)
    ensures Settled(Next(s, Block, layout), layout)
  {
    var e := SuspendT(s.current);
    StepInv(s, e, layout);
    OutAlive(s, s.current, layout);
    ScheduledSettles(Scheduler.Next(s, e, layout), layout);
  }

  lemma ExitSettles(s: Sys, layout: Layout)
    requires Sane(s, layout) && Open(s, Exit)
    ensures Settled(Next(s, Exit, layout), layout)
  {
    var e := Remove(s.current);
    StepInv(s, e, layout);
    OutAlive(s, s.current, layout);
    ScheduledSettles(Scheduler.Next(s, e, layout), layout);
  }

  lemma YieldSettles(s: Sys, layout: Layout)
    requires Settled(s, layout)
    ensures Settled(Yielded(s, layout), layout)
  {
    if Shares(s) {
      YieldAlive(s, layout);
      ScheduledSettles(Scheduler.Next(s, Yield, layout), layout);
    }
  }

  lemma AccountSettles(s: Sys, left: nat, layout: Layout)
    requires Settled(s, layout)
    ensures Settled(Scheduler.Next(s, Account(left), layout), layout)
  {
    StepInv(s, Account(left), layout);
  }

  lemma TickedIs(s: Sys, layout: Layout)
    requires Sane(s, layout)
    ensures var x := s.threads[s.current];
      var left, r := (x.left - 1) % TICKS, Scheduler.Next(s, Account(x.slice), layout);
      && Inv(r, layout)
      && Ticked(s, layout) == if left != 0 then Scheduler.Next(s, Account(left), layout) else Yielded(r, layout)
  {
    AccountKeeps(s, s.threads[s.current].slice, layout);
  }

  lemma TickSettles(s: Sys, layout: Layout)
    requires Settled(s, layout)
    ensures Settled(Ticked(s, layout), layout)
  {
    var x := s.threads[s.current];
    var left := (x.left - 1) % TICKS;
    assert Settled(if left != 0 then Scheduler.Next(s, Account(left), layout) else
                   Yielded(Scheduler.Next(s, Account(x.slice), layout), layout), layout) by {
      AccountSettles(s, left, layout);
      LastSettles(s, x.slice, layout);
    }
    TickedIs(s, layout);
  }

  lemma LastSettles(s: Sys, left: nat, layout: Layout)
    requires Settled(s, layout)
    ensures var r := Scheduler.Next(s, Account(left), layout); Settled(r, layout) && Settled(Yielded(r, layout), layout)
  {
    AccountSettles(s, left, layout);
    YieldSettles(Scheduler.Next(s, Account(left), layout), layout);
  }

  lemma WakeSettles(s: Sys, ts: seq<Tid>, layout: Layout)
    requires Sane(s, layout) && Open(s, Wake(ts))
    ensures Settled(Next(s, Wake(ts), layout), layout)
  {
    WokenAlive(s, ts, layout);
    ScheduledSettles(Woken(s, ts, layout), layout);
  }

  lemma TimeoutSettles(s: Sys, t: Tid, layout: Layout)
    requires Sane(s, layout) && Open(s, Timeout(t))
    ensures Settled(Next(s, Timeout(t), layout), layout)
  {
    StepInv(s, ResumeT(t), layout);
    ResumeAlive(s, t, layout);
    ScheduledSettles(Scheduler.Next(s, ResumeT(t), layout), layout);
  }

  lemma LockSettles(s: Sys, lock: nat, layout: Layout)
    requires Settled(s, layout)
    ensures lock > 0 ==> Settled(s.(lock := lock), layout)
    ensures lock == 0 ==> Settled(Scheduled(s.(lock := 0), layout), layout)
  {
    SameInv(s, s.(lock := lock), layout);
    if lock == 0 {
      ScheduledSettles(s.(lock := 0), layout);
    }
  }

  /** After every complete operation the current thread is the head of the most
      urgent queue, unless the scheduler is locked. */
  lemma ActSettles(s: Sys, a: Act, layout: Layout)
    requires Settled(s, layout) && Open(s, a)
    ensures Settled(Next(s, a, layout), layout)
  {
    match a
    case Start(t) => StartSettles(s, t, layout);
    case Block => BlockSettles(s, layout);
    case Wake(ts) => WakeSettles(s, ts, layout);
    case Timeout(t) => TimeoutSettles(s, t, layout);
    case Tick => TickSettles(s, layout);
    case GiveUp => YieldSettles(s, layout);
    case Exit => ExitSettles(s, layout);
    case Enter => LockSettles(s, s.lock + 1, layout);
    case Leave => LockSettles(s, if s.lock <= 1 then 0 else s.lock - 1, layout);
  }

  ghost predicate Playable(s: Sys, acts: seq<Act>, layout: Layout)
    requires Settled(s, layout)
    decreases |acts|
  {
    acts == [] || (Open(s, acts[0]) && (ActSettles(s, acts[0], layout);
      Playable(Next(s, acts[0], layout), acts[1..], layout)))
  }

  ghost function Play(s: Sys, acts: seq<Act>, layout: Layout): Sys
    requires Settled(s, layout) && Playable(s, acts, layout)
    decreases |acts|
  {
    if acts == [] then s
    else
      ActSettles(s, acts[0], layout);
      Play(Next(s, acts[0], layout), acts[1..], layout)
  }

  /** Over every run of complete operations the most urgent ready thread runs. */
  lemma {:induction false} RunSettled(s: Sys, acts: seq<Act>, layout: Layout)
    requires Settled(s, layout) && Playable(s, acts, layout)
    ensures Settled(Play(s, acts, layout), layout)
    decreases |acts|
  {
    if acts != [] {
      ActSettles(s, acts[0], layout);
      RunSettled(Next(s, acts[0], layout), acts[1..], layout);
    }
  }

  // ------------------------------------------- operations that do not reschedule

  /** No ready thread but t is at least as urgent as priority p. */
  ghost predicate Clear(s: Sys, t: Tid, p: nat) {
    forall x :: x in s.threads && x != t && s.threads[x].stat.Ready? ==> s.threads[x].prio > p
  }

  /** What a caller can check before it changes the priority of t to p. */
  ghost predicate ChangeOk(s: Sys, t: Tid, p: nat)
    requires t in s.threads && s.current in s.threads
  {
    s.threads[t].stat.Ready? ==> if t == s.current then Clear(s, t, p) else s.threads[s.current].prio <= p
  }

  /** Being at the head, told by the threads instead of the queues. */
  lemma HeadIff(s: Sys, layout: Layout)
    requires Inv(s, layout) && s.current in s.threads
    ensures AtHead(s) <==>
      var p := s.threads[s.current].prio;
      && s.threads[s.current].stat.Ready? && p < |s.queues| && s.queues[p] != [] && s.queues[p][0] == s.current
      && forall x :: x in s.threads && s.threads[x].stat.Ready? ==> s.threads[x].prio >= p
  {
    var p := s.threads[s.current].prio;
    assert ThreadOk(s, s.current, layout) && Placed(s, s.current);
    if s.queues[p] != [] && s.queues[p][0] == s.current {
      assert s.current in s.queues[p];
      if AtHead(s) {
        forall x | x in s.threads && s.threads[x].stat.Ready? ensures s.threads[x].prio >= p {
          assert Placed(s, x) && ThreadOk(s, x, layout);
          assert x in s.queues[s.threads[x].prio];
        }
      } else {
        var q :| 0 <= q < p && s.queues[q] != [];
        var x := s.queues[q][0];
        assert x in s.queues[q] && QueueOk(s, q);
        assert Placed(s, x);
      }
    }
  }

  /** The queues after a change of priority of a ready thread. */
  lemma ChangeQueues(s: Sys, t: Tid, p: nat, layout: Layout)
    requires Inv(s, layout) && t in s.threads && s.threads[t].stat.Ready? && p < |s.queues|
    ensures var r := ChangeStep(s, t, p, layout);
      var k := s.threads[t].prio;
      && k < |s.queues| && r.threads == s.threads[t := Thread(Ready, p, s.threads[t].initPrio, MasksOf(layout, p),
        s.threads[t].slice, s.threads[t].left)]
      && r.current == s.current && r.lock == s.lock && |r.queues| == |s.queues|
      && forall q :: 0 <= q < |s.queues| ==>
           r.queues[q] == (if q == k then Without(s.queues[q], t) else s.queues[q]) + (if q == p then [t] else [])
  {
    FitsOk(s, t, layout);
    forall q | 0 <= q < |s.queues| ensures s.queues[q] + [] == s.queues[q] &&
      Without(s.queues[q], t) + [] == Without(s.queues[q], t) {
    }
  }

  lemma OtherChangeIff(s: Sys, t: Tid, p: nat, layout: Layout)
    requires Inv(s, layout) && AtHead(s) && t in s.threads && s.threads[t].stat.Ready? && p < |s.queues| &&
             t != s.current
    ensures AtHead(ChangeStep(s, t, p, layout)) <==> s.threads[s.current].prio <= p
  {
    var r, c := ChangeStep(s, t, p, layout), s.threads[s.current].prio;
    ChangeKeeps(s, t, p, layout);
    ChangeQueues(s, t, p, layout);
    HeadIff(s, layout);
    HeadIff(r, layout);
    assert r.queues[c] != [] && r.queues[c][0] == s.current;
    assert t in r.threads && r.threads[t].prio == p;
  }

  lemma OwnChangeIff(s: Sys, p: nat, layout: Layout)
    requires Inv(s, layout) && AtHead(s) && p < |s.queues|
    ensures AtHead(ChangeStep(s, s.current, p, layout)) <==> Clear(s, s.current, p)
  {
    var t := s.current;
    HeadIff(s, layout);
    var r := ChangeStep(s, t, p, layout);
    ChangeKeeps(s, t, p, layout);
    ChangeQueues(s, t, p, layout);
    HeadIff(r, layout);
    var rest := if p == s.threads[t].prio then Without(s.queues[p], t) else s.queues[p];
    assert QueueOk(s, p) && Placed(s, t);
    WithoutIn(s.queues[p], t);
    assert t !in rest && (forall x :: x in rest <==> x in s.queues[p] && x != t);
    forall x | x in s.threads && x != t ensures x in rest <==> s.threads[x].stat.Ready? && s.threads[x].prio == p {
      assert Placed(s, x);
    }
    if rest != [] {
      var x := rest[0];
      assert x in rest && x in s.threads && x != t;
    }
    assert r.queues[p] == rest + [t];
    assert r.queues[p][0] == t <==> rest == [];
    forall x | x in s.threads && x != t ensures r.threads[x] == s.threads[x] {
    }
  }

  /** A change of priority, which does not call rt_schedule, leaves the right
      thread running exactly when the caller can tell beforehand that it does. */
  lemma ChangeAtHeadIff(s: Sys, t: Tid, p: nat, layout: Layout)
    requires Inv(s, layout) && AtHead(s) && t in s.threads && p < |s.queues|
    ensures AtHead(ChangeStep(s, t, p, layout)) <==> ChangeOk(s, t, p)
  {
    if !s.threads[t].stat.Ready? {
      HeadIff(s, layout);
      ChangeKeeps(s, t, p, layout);
      HeadIff(ChangeStep(s, t, p, layout), layout);
    } else if t == s.current {
      OwnChangeIff(s, p, layout);
    } else {
      OtherChangeIff(s, t, p, layout);
    }
  }

  /** Detaching a thread, which does not call rt_schedule either, does so exactly
      when it is not the current one. */
  lemma DetachAtHeadIff(s: Sys, t: Tid, layout: Layout)
    requires Inv(s, layout) && AtHead(s) && t in s.threads && !s.threads[t].stat.Init?
    ensures AtHead(RemoveStep(s, t, layout)) <==> t != s.current
  {
    var r, k := RemoveStep(s, t, layout), s.threads[t].prio;
    FitsOk(s, t, layout);
    TakenOut(s, t, Close, layout);
    HeadIff(s, layout);
    HeadIff(r, layout);
    assert QueueOk(s, k);
    WithoutIn(s.queues[k], t);
  }
}
