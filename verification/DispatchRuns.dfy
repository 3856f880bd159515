/** Runs with the operations that do not reschedule: a change of priority and the
    detaching of a thread. */
module DispatchRuns {
  import opened IpcList
  import opened ReadyIndex
  import opened Scheduler
  import opened Dispatch

  datatype Op = Do(act: Act) | Alter(t: Tid, p: nat) | Detach(t: Tid)

  /** Some thread other than t, if only the idle thread, is ready. */
  ghost predicate Others(s: Sys, t: Tid) {
    exists x, p :: x != t && 0 <= p < |s.queues| && x in s.queues[p]
  }

  ghost predicate Allowed(s: Sys, o: Op)
    requires s.current in s.threads
  {
    match o
    case Do(a) => Open(s, a)
    case Alter(t, p) => t in s.threads && p < |s.queues|
    case Detach(t) => t in s.threads && !s.threads[t].stat.Init? && Others(s, t)
  }

  ghost function After(s: Sys, o: Op, layout: Layout): Sys
    requires Sane(s, layout) && Allowed(s, o)
  {
    match o
    case Do(a) => Dispatch.Next(s, a, layout)
    case Alter(t, p) => ChangeStep(s, t, p, layout)
    case Detach(t) => RemoveStep(s, t, layout)
  }

  // ----------------------------------------------------------- what every one keeps

  lemma YieldSane(s: Sys, layout: Layout)
    requires Sane(s, layout)
    ensures Sane(Yielded(s, layout), layout)
  {
    if Shares(s) {
      YieldAlive(s, layout);
      ScheduledSettles(Scheduler.Next(s, Yield, layout), layout);
    }
  }

  lemma TickSane(s: Sys, layout: Layout)
    requires Sane(s, layout)
    ensures Sane(Ticked(s, layout), layout)
  {
    var x := s.threads[s.current];
    AccountSane(s, (x.left - 1) % TICKS, layout);
    LastSane(s, x.slice, layout);
  }

  lemma LastSane(s: Sys, left: nat, layout: Layout)
    requires Sane(s, layout)
    ensures var r := Scheduler.Next(s, Account(left), layout); Sane(r, layout) && Sane(Yielded(r, layout), layout)
  {
    AccountSane(s, left, layout);
    YieldSane(Scheduler.Next(s, Account(left), layout), layout);
  }

  lemma AccountSane(s: Sys, left: nat, layout: Layout)
    requires Sane(s, layout)
    ensures Sane(Scheduler.Next(s, Account(left), layout), layout)
  {
    AccountKeeps(s, left, layout);
  }

  lemma LockSane(s: Sys, lock: nat, layout: Layout)
    requires Sane(s, layout)
    ensures Sane(s.(lock := lock), layout) && Settled(Scheduled(s.(lock := lock), layout), layout)
  {
    SameInv(s, s.(lock := lock), layout);
    ScheduledSettles(s.(lock := lock), layout);
  }

  /** The complete operations that end in rt_schedule. */
  ghost predicate Reschedules(s: Sys, a: Act) {
    match a
    case Tick => false
    case GiveUp => Shares(s)
    case Enter => false
    case Leave => s.lock <= 1
    case _ => true
  }

  lemma GiveUpSettles(s: Sys, layout: Layout)
    requires Sane(s, layout) && Shares(s)
    ensures Settled(Yielded(s, layout), layout)
  {
    YieldAlive(s, layout);
    ScheduledSettles(Scheduler.Next(s, Yield, layout), layout);
  }

  /** Such an operation puts the right thread in place, whatever ran before. */
  lemma RescheduleSettles(s: Sys, a: Act, layout: Layout)
    requires Sane(s, layout) && Open(s, a) && Reschedules(s, a)
    ensures Settled(Dispatch.Next(s, a, layout), layout)
  {
    match a
    case Start(t) => StartSettles(s, t, layout);
    case Block => BlockSettles(s, layout);
    case Wake(ts) => WakeSettles(s, ts, layout);
    case Timeout(t) => TimeoutSettles(s, t, layout);
    case GiveUp => GiveUpSettles(s, layout);
    case Exit => ExitSettles(s, layout);
    case Leave => LockSane(s, 0, layout);
  }

  lemma ActSane(s: Sys, a: Act, layout: Layout)
    requires Sane(s, layout) && Open(s, a)
    ensures Sane(Dispatch.Next(s, a, layout), layout)
  {
    if Reschedules(s, a) {
      RescheduleSettles(s, a, layout);
    } else {
      QuietSane(s, a, layout);
    }
  }

  lemma QuietSane(s: Sys, a: Act, layout: Layout)
    requires Sane(s, layout) && !Reschedules(s, a)
    ensures Open(s, a) && Sane(Dispatch.Next(s, a, layout), layout)
  {
    match a
    case Tick => TickSane(s, layout);
    case GiveUp => YieldSane(s, layout);
    case _ => EnterLeaveSane(s, a, layout);
  }

  lemma EnterLeaveSane(s: Sys, a: Act, layout: Layout)
    requires Sane(s, layout) && (a.Enter? || (a.Leave? && s.lock > 1))
    ensures Sane(Dispatch.Next(s, a, layout), layout)
  {
    LockSane(s, if a.Enter? then s.lock + 1 else s.lock - 1, layout);
  }

  lemma AlterSane(s: Sys, t: Tid, p: nat, layout: Layout)
    requires Sane(s, layout) && t in s.threads && p < |s.queues|
    ensures Sane(ChangeStep(s, t, p, layout), layout)
  {
    ChangeKeeps(s, t, p, layout);
    if s.threads[t].stat.Ready? {
      ChangeQueues(s, t, p, layout);
      AliveBy(ChangeStep(s, t, p, layout), t, p);
    }
  }

  lemma DetachSane(s: Sys, t: Tid, layout: Layout)
    requires Sane(s, layout) && t in s.threads && !s.threads[t].stat.Init? && Others(s, t)
    ensures Sane(RemoveStep(s, t, layout), layout)
  {
    TakenOut(s, t, Close, layout);
    var x, p :| x != t && 0 <= p < |s.queues| && x in s.queues[p];
    var k := s.threads[t].prio;
    assert QueueOk(s, k);
    WithoutIn(s.queues[k], t);
    AliveBy(RemoveStep(s, t, layout), x, p);
  }

  lemma StepSane(s: Sys, o: Op, layout: Layout)
    requires Sane(s, layout) && Allowed(s, o)
    ensures Sane(After(s, o, layout), layout)
  {
    match o
    case Do(a) => ActSane(s, a, layout);
    case Alter(t, p) => AlterSane(s, t, p, layout);
    case Detach(t) => DetachSane(s, t, layout);
  }

  // ---------------------------------------------------------- the right thread runs

  /** What a caller can tell before an operation that does not reschedule. */
  ghost predicate Harmless(s: Sys, o: Op)
    requires s.current in s.threads
  {
    match o
    case Do(a) => true
    case Alter(t, p) => t in s.threads && (s.lock == 0 ==> ChangeOk(s, t, p))
    case Detach(t) => s.lock == 0 ==> t != s.current
  }

  /** An operation keeps the right thread running exactly when it is harmless. */
  lemma StepSettledIff(s: Sys, o: Op, layout: Layout)
    requires Settled(s, layout) && Allowed(s, o)
    ensures Settled(After(s, o, layout), layout) <==> Harmless(s, o)
  {
    StepSane(s, o, layout);
    match o
    case Do(a) => ActSettles(s, a, layout);
    case Alter(t, p) =>
      AlterLock(s, t, p, layout);
      if s.lock == 0 {
        ChangeAtHeadIff(s, t, p, layout);
      }
    case Detach(t) =>
      if s.lock == 0 {
        DetachAtHeadIff(s, t, layout);
      }
  }

  lemma AlterLock(s: Sys, t: Tid, p: nat, layout: Layout)
    requires Inv(s, layout) && t in s.threads && p < |s.queues|
    ensures ChangeStep(s, t, p, layout).lock == s.lock
  {
    if s.threads[t].stat.Ready? {
      ChangeQueues(s, t, p, layout);
    }
  }

  ghost predicate Runnable(s: Sys, ops: seq<Op>, layout: Layout)
    requires Sane(s, layout)
    decreases |ops|
  {
    ops == [] ||
    (Allowed(s, ops[0]) && (StepSane(s, ops[0], layout); Runnable(After(s, ops[0], layout), ops[1..], layout)))
  }

  ghost function Run(s: Sys, ops: seq<Op>, layout: Layout): (r: Sys)
    requires Sane(s, layout) && Runnable(s, ops, layout)
    ensures Sane(r, layout)
    decreases |ops|
  {
    if ops == [] then s else (StepSane(s, ops[0], layout); Run(After(s, ops[0], layout), ops[1..], layout))
  }

  /** The right thread runs in every state of the run. */
  ghost predicate AlwaysSettled(s: Sys, ops: seq<Op>, layout: Layout)
    requires Sane(s, layout) && Runnable(s, ops, layout)
    decreases |ops|
  {
    Settled(s, layout) &&
    (ops == [] || (StepSane(s, ops[0], layout); AlwaysSettled(After(s, ops[0], layout), ops[1..], layout)))
  }

  ghost predicate AllHarmless(s: Sys, ops: seq<Op>, layout: Layout)
    requires Sane(s, layout) && Runnable(s, ops, layout)
    decreases |ops|
  {
    ops == [] ||
    (Harmless(s, ops[0]) && (StepSane(s, ops[0], layout); AllHarmless(After(s, ops[0], layout), ops[1..], layout)))
  }

  /** Over every run, changes of priority and detaching included, the most urgent ready
      thread runs all along exactly when each of them is harmless where it happens. */
  lemma {:induction false} RunSettledIff(s: Sys, ops: seq<Op>, layout: Layout)
    requires Settled(s, layout) && Runnable(s, ops, layout)
    ensures AlwaysSettled(s, ops, layout) <==> AllHarmless(s, ops, layout)
    decreases |ops|
  {
    if ops != [] {
      StepSane(s, ops[0], layout);
      StepSettledIff(s, ops[0], layout);
      if Harmless(s, ops[0]) {
        RunSettledIff(After(s, ops[0], layout), ops[1..], layout);
      }
    }
  }

  /** Only what came after the last reschedule counts: whatever ran before it. */
  lemma SinceReschedule(s: Sys, before: seq<Op>, a: Act, ops: seq<Op>, layout: Layout)
    requires Sane(s, layout) && Runnable(s, before, layout)
    requires Open(Run(s, before, layout), a) && Reschedules(Run(s, before, layout), a)
    ensures var m := Dispatch.Next(Run(s, before, layout), a, layout);
      && Settled(m, layout)
      && (Runnable(m, ops, layout) ==> (AlwaysSettled(m, ops, layout) <==> AllHarmless(m, ops, layout)))
  {
    var m := Dispatch.Next(Run(s, before, layout), a, layout);
    RescheduleSettles(Run(s, before, layout), a, layout);
    if Runnable(m, ops, layout) {
      RunSettledIff(m, ops, layout);
    }
  }

  // ------------------------------------------------------------------- an example

  ghost function PairThread(p: nat): Thread
    requires p < 32
  {
    Thread(Ready, p, p, MasksOf(OneWord, p), 10, 10)
  }

  /** Thread 7 runs at priority 3; thread 8 is ready at priority 5. */
  ghost function Pair(): Sys {
    var none := Index(0, seq(32, i => 0));
    Sys([[], [], [], [7], [], [8]], SetBits(OneWord, SetBits(OneWord, none, MasksOf(OneWord, 3)), MasksOf(OneWord, 5)),
        map[7 := PairThread(3), 8 := PairThread(5)], 7, 0)
  }

  lemma PairBusy()
    ensures Busy(Pair().queues) == {3, 5}
  {
    var q := Pair().queues;
    forall p: nat ensures p in Busy(q) <==> p == 3 || p == 5 {
    }
  }

  lemma PairIndex()
    ensures IndexOk(OneWord, Pair().index, {3, 5})
  {
    var none := Index(0, seq(32, i => 0));
    var one := SetBits(OneWord, none, MasksOf(OneWord, 3));
    assert IndexOk(OneWord, one, {3}) by {
      EmptyOk(OneWord);
      SetOk(OneWord, none, {}, 3);
      assert {} + {3} == {3};
    }
    SetOk(OneWord, one, {3}, 5);
    assert {3} + {5} == {3, 5};
  }

  lemma PairSettled()
    ensures Settled(Pair(), OneWord)
  {
    var s := Pair();
    PairBusy();
    PairIndex();
    PairQueues();
    PairThreads();
  }

  lemma PairQueues()
    ensures forall p :: 0 <= p < |Pair().queues| ==> QueueOk(Pair(), p)
  {
  }

  lemma PairThreads()
    ensures forall t :: t in Pair().threads ==> Placed(Pair(), t) && ThreadOk(Pair(), t, OneWord)
  {
  }

  /** Making 8 the more urgent one, or detaching 7, leaves the wrong thread running. */
  lemma PairWitness()
    ensures Settled(Pair(), OneWord)
    ensures !Settled(After(Pair(), Alter(8, 2), OneWord), OneWord)
    ensures Others(Pair(), 7) && !Settled(After(Pair(), Detach(7), OneWord), OneWord)
  {
    PairSettled();
    assert 8 in Pair().queues[5];
    StepSettledIff(Pair(), Alter(8, 2), OneWord);
    StepSettledIff(Pair(), Detach(7), OneWord);
  }
}
