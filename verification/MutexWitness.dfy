/** Reachable states in which a guarantee of the mutexes fails, one for each
    condition that the exact theorems name. */
module MutexWitness {
  import opened IpcList
  import opened MutexSpec
  import opened MutexInherit
  import opened MutexUrgent
  import opened MutexFlat
  import opened MutexBase

  /** Thread 10 was boosted by 11 while it owned mutex 1, then took mutex 2. */
  function Crossed(): Sys {
    Sys(map[1 := Lock(0, 10, 20, 1, [11]), 2 := Lock(0, 10, 5, 1, [])], map[10 := 5, 11 := 5], map[10 := 20, 11 := 5],
        map[10 := [1, 2]])
  }

  lemma CrossedReached()
    ensures var s1 := TakeStep(Start({1, 2}, map[10 := 20, 11 := 5]), 10, 1, true, Prio).0;
      var s2 := TakeStep(s1, 11, 1, true, Prio).0;
      TakeStep(s2, 10, 2, true, Prio).0 == Crossed()
  {
    var s1 := TakeStep(Start({1, 2}, map[10 := 20, 11 := 5]), 10, 1, true, Prio).0;
    var s2 := TakeStep(s1, 11, 1, true, Prio).0;
    assert s2.locks[1].wait == [11];
    assert [1] + [2] == [1, 2] && [] + [1] == [1];
  }

  /** Releasing the oldest mutex first leaves a thread that owns nothing boosted. */
  lemma OutOfOrder()
    ensures Loses(Crossed(), 10, 1)
    ensures var r := ReleaseStep(ReleaseStep(Crossed(), 10, 1).0, 10, 2).0;
      Own(r, 10) == [] && r.base[10] == 20 && r.prio[10] == 5
  {
    assert [1, 2][..1] == [1] && Forget([1], 1) == [] && [] + [2] == [2];
    assert Forget([1, 2], 1) == [2] && Forget([2], 2) == [];
    var s := ReleaseStep(Crossed(), 10, 1).0;
    assert Own(s, 10) == [2];
  }

  /** Losing the base is not the end: with another mutex taken in between, at the base,
      and released last, thread 10 is back at its base when it owns nothing. */
  lemma Regained()
    ensures var s0 := Crossed().(locks := Crossed().locks[3 := Fresh()]);
      var s1 := ReleaseStep(s0, 10, 1).0;
      var s2 := TakeStep(s1, 10, 3, true, Prio).0;
      var s3 := ReleaseStep(s2, 10, 2).0;
      var s4 := ReleaseStep(s3, 10, 3).0;
      Loses(s0, 10, 1) && !Idle(s1, 10) && !Idle(s2, 10) && !Idle(s3, 10) && Idle(s4, 10) && s4.prio[10] == s4.base[10]
  {
    var s1 := ReleaseStep(Crossed().(locks := Crossed().locks[3 := Fresh()]), 10, 1).0;
    var s2 := TakeStep(s1, 10, 3, true, Prio).0;
    var s3 := ReleaseStep(s2, 10, 2).0;
    assert s1.locks[2].owner == 10 && s2.locks[3].owner == 10 && s3.locks[3].owner == 10;
  }

  /** The 256th take leaves a mutex that is owned and not held. */
  lemma HoldWraps()
    ensures var s := Sys(map[1 := Lock(0, 10, 20, 255, [])], map[10 := 20], map[10 := 20], map[10 := [1]]);
      && Wellformed(s) && Enabled(s, Take(10, 1, true))
      && var l := TakeStep(s, 10, 1, true, Prio).0.locks[1]; l.owner == 10 && l.hold == 0
  {
    var s := Sys(map[1 := Lock(0, 10, 20, 255, [])], map[10 := 20], map[10 := 20], map[10 := [1]]);
    assert LockOk(s.locks[1]);
  }

  /** Two threads queue in FIFO order for a mutex, the more urgent one second. */
  lemma FifoHandOff()
    ensures var s0 := Start({1}, map[10 := 20, 11 := 15, 12 := 5]);
      var s1 := TakeStep(s0, 10, 1, true, Fifo).0;
      var s2 := TakeStep(s1, 11, 1, true, Fifo).0;
      var s3 := TakeStep(s2, 12, 1, true, Fifo).0;
      var s4 := ReleaseStep(s3, 10, 1).0;
      s4.locks[1].owner == 11 && s4.locks[1].wait == [12] && s4.prio[12] < s4.prio[11]
  {
    var s0 := Start({1}, map[10 := 20, 11 := 15, 12 := 5]);
    var s1 := TakeStep(s0, 10, 1, true, Fifo).0;
    var s2 := TakeStep(s1, 11, 1, true, Fifo).0;
    assert s2.locks[1].wait == [11];
    var s3 := TakeStep(s2, 12, 1, true, Fifo).0;
    assert s3.locks[1].wait == [11, 12];
  }

  /** A boost does not travel through an owner that is itself blocked. */
  lemma BoostStops()
    ensures var s0 := Start({1, 2}, map[10 := 20, 11 := 15, 12 := 5]);
      var s1 := TakeStep(s0, 10, 1, true, Prio).0;
      var s2 := TakeStep(s1, 11, 2, true, Prio).0;
      var s3 := TakeStep(s2, 11, 1, true, Prio).0;
      var s4 := TakeStep(s3, 12, 2, true, Prio).0;
      s4.locks[1].owner == 10 && s4.locks[1].wait == [11] && s4.prio[11] < s4.prio[10]
  {
    var s0 := Start({1, 2}, map[10 := 20, 11 := 15, 12 := 5]);
    var s1 := TakeStep(s0, 10, 1, true, Prio).0;
    var s2 := TakeStep(s1, 11, 2, true, Prio).0;
    var s3 := TakeStep(s2, 11, 1, true, Prio).0;
    assert s3.locks[1].wait == [11];
  }

  /** Thread 10 took mutexes 1 and 2 before 11 came to wait for 1 and boosted it. */
  function Stacked(): Sys {
    Sys(map[1 := Lock(0, 10, 20, 1, [11]), 2 := Lock(0, 10, 20, 1, [])], map[10 := 5, 11 := 5], map[10 := 20, 11 := 5],
        map[10 := [1, 2]])
  }

  lemma StackedReached()
    ensures var s1 := TakeStep(Start({1, 2}, map[10 := 20, 11 := 5]), 10, 1, true, Prio).0;
      var s2 := TakeStep(s1, 10, 2, true, Prio).0;
      TakeStep(s2, 11, 1, true, Prio).0 == Stacked()
  {
    var s1 := TakeStep(Start({1, 2}, map[10 := 20, 11 := 5]), 10, 1, true, Prio).0;
    var s2 := TakeStep(s1, 10, 2, true, Prio).0;
    assert [1] + [2] == [1, 2] && [] + [1] == [1];
    var s3 := TakeStep(s2, 11, 1, true, Prio).0;
    assert s3.locks[1].wait == [11];
    assert s3.prio == map[10 := 5, 11 := 5];
  }

  /** Even in last-in-first-out order and with nobody blocked: releasing 2 takes
      the boost away while 11 still waits for 1. */
  lemma InnerReleaseDrops()
    ensures Lifo(Stacked(), Release(10, 2))
    ensures var r := ReleaseStep(Stacked(), 10, 2).0;
      r.locks[1].owner == 10 && r.locks[1].wait == [11] && r.prio[11] < r.prio[10]
  {
    assert Own(Stacked(), 10) == [1, 2];
  }

  /** 11 and 12 wait for mutex 1 of 10 in that order; 13 then waits for mutex 2
      of 12 and boosts it, but 12 keeps its place in the queue of 1. */
  function Unsorted(): Sys {
    Sys(map[1 := Lock(0, 10, 3, 1, [11, 12]), 2 := Lock(0, 12, 18, 1, [13])],
        map[10 := 3, 11 := 15, 12 := 5, 13 := 5], map[10 := 3, 11 := 15, 12 := 18, 13 := 5], map[10 := [1], 12 := [2]])
  }

  /** The state before 13 comes. */
  function Queued(): Sys {
    Sys(map[1 := Lock(0, 10, 3, 1, [11, 12]), 2 := Lock(0, 12, 18, 1, [])],
        map[10 := 3, 11 := 15, 12 := 18, 13 := 5], map[10 := 3, 11 := 15, 12 := 18, 13 := 5], map[10 := [1], 12 := [2]])
  }

  /** 10 owns 1 and 12 owns 2. */
  function Owned(): Sys {
    Sys(map[1 := Lock(0, 10, 3, 1, []), 2 := Lock(0, 12, 18, 1, [])],
        map[10 := 3, 11 := 15, 12 := 18, 13 := 5], map[10 := 3, 11 := 15, 12 := 18, 13 := 5], map[10 := [1], 12 := [2]])
  }

  lemma OwnedReached()
    ensures var s0 := Start({1, 2}, map[10 := 3, 11 := 15, 12 := 18, 13 := 5]);
      TakeStep(TakeStep(s0, 10, 1, true, Prio).0, 12, 2, true, Prio).0 == Owned()
  {
    assert [] + [1] == [1] && [] + [2] == [2];
  }

  lemma FirstWaits()
    ensures TakeStep(Owned(), 11, 1, true, Prio).0 == Owned().(locks := Owned().locks[1 := Lock(0, 10, 3, 1, [11])])
  {
    assert Suspended([], 11, Prio, Owned().prio) == [11];
  }

  lemma QueuedReached()
    ensures var s := Owned().(locks := Owned().locks[1 := Lock(0, 10, 3, 1, [11])]);
      TakeStep(s, 12, 1, true, Prio).0 == Queued()
  {
    var prio := Owned().prio;
    assert Place([11], prio, 18) == 1 by { assert [11][1..] == []; }
    assert Suspended([11], 12, Prio, prio) == [11, 12];
  }

  /** Every owner is urgent, and a hand-off under RT_IPC_FLAG_PRIO still picks a
      waiter less urgent than one that stays. */
  lemma QueueNotResorted()
    ensures TakeStep(Queued(), 13, 2, true, Prio).0 == Unsorted() && Urgent(Unsorted())
    ensures var r := ReleaseStep(Unsorted(), 10, 1).0;
      r.locks[1].owner == 11 && r.locks[1].wait == [12] && r.prio[12] < r.prio[11]
  {
    assert [11, 12][1..] == [12];
    assert TakeStep(Queued(), 13, 2, true, Prio).0.locks[2].wait == [13];
  }
}
