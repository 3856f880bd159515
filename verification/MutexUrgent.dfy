/** When the owner of a mutex is at least as urgent as its waiters: exactly which
    calls keep it so, for any nesting and either waiting order. */
module MutexUrgent {
  import opened IpcList
  import opened MutexSpec
  import opened MutexInherit

  ghost predicate Ahead(s: Sys, a: Tid, b: Tid) {
    a in s.prio && b in s.prio && s.prio[a] <= s.prio[b]
  }

  /** The owner of m is at least as urgent as each of its waiters. */
  ghost predicate UrgentLock(s: Sys, m: Mid)
    requires m in s.locks
  {
    forall x :: x in s.locks[m].wait ==> Ahead(s, s.locks[m].owner, x)
  }

  ghost predicate Urgent(s: Sys) {
    forall m :: m in s.locks ==> UrgentLock(s, m)
  }

  // -------------------------------------------------------- the exact conditions

  /** A thread that waits somewhere can be lifted to priority p: the owner of what
      it waits for is at least that urgent. */
  ghost predicate LiftOk(s: Sys, o: Tid, p: int) {
    forall n :: n in s.locks && o in s.locks[n].wait ==> s.locks[n].owner in s.prio && s.prio[s.locks[n].owner] <= p
  }

  /** A thread that gives up m can fall back to priority p: no waiter of its other
      mutexes is more urgent. */
  ghost predicate FallOk(s: Sys, t: Tid, m: Mid, p: int) {
    forall n, x :: n in s.locks && n != m && s.locks[n].owner == t && x in s.locks[n].wait ==>
      x in s.prio && p <= s.prio[x]
  }

  /** The first waiter is the most urgent one. */
  ghost predicate HandOk(s: Sys, m: Mid)
    requires m in s.locks
  {
    var w := s.locks[m].wait;
    w != [] ==> forall x :: x in w ==> Ahead(s, w[0], x)
  }

  /** Whether a take has to wait for a less urgent owner. */
  ghost predicate Boosts(s: Sys, t: Tid, m: Mid, wait: bool)
    requires m in s.locks && t in s.prio
  {
    var l := s.locks[m];
    wait && l.value <= 0 && l.owner != t && l.owner in s.prio && s.prio[t] < s.prio[l.owner]
  }

  ghost predicate LastRelease(s: Sys, t: Tid, m: Mid)
    requires m in s.locks
  {
    s.locks[m].owner == t && s.locks[m].hold == 1
  }

  /** What a caller can check before a call. */
  ghost predicate Calm(s: Sys, e: Event)
    requires Enabled(s, e)
  {
    match e
    case Take(t, m, wait) => Boosts(s, t, m, wait) ==> LiftOk(s, s.locks[m].owner, s.prio[t])
    case Release(t, m) => LastRelease(s, t, m) ==> FallOk(s, t, m, s.locks[m].original) && HandOk(s, m)
    case Expire(t, m) => true
  }

  // ------------------------------------------------------------------ one call

  lemma BlockUrgent(s: Sys, t: Tid, m: Mid, flag: Flag, n: Mid)
    requires Wellformed(s) && Urgent(s) && Enabled(s, Take(t, m, true)) && n in s.locks
    requires s.locks[m].owner != t && s.locks[m].value <= 0 && LockKnown(s, m) && s.locks[m].owner in s.prio
    requires Boosts(s, t, m, true) ==> LiftOk(s, s.locks[m].owner, s.prio[t])
    ensures UrgentLock(TakeStep(s, t, m, true, flag).0, n)
  {
    var l, r := s.locks[m], TakeStep(s, t, m, true, flag).0;
    assert LockOk(l) && LockOk(s.locks[n]) && LockKnown(s, n) && UrgentLock(s, n);
    SuspendedIn(l.wait, t, flag, r.prio);
    forall x | x in r.locks[n].wait ensures Ahead(r, r.locks[n].owner, x) {
      assert x in s.locks[n].wait || (n == m && x == t);
      assert x in s.locks[n].wait ==> Ahead(s, s.locks[n].owner, x);
    }
  }

  lemma BlockNeeds(s: Sys, t: Tid, m: Mid, flag: Flag)
    requires Wellformed(s) && Enabled(s, Take(t, m, true)) && LockKnown(s, m) && Boosts(s, t, m, true)
    requires Urgent(TakeStep(s, t, m, true, flag).0)
    ensures LiftOk(s, s.locks[m].owner, s.prio[t])
  {
    var o, r := s.locks[m].owner, TakeStep(s, t, m, true, flag).0;
    forall n | n in s.locks && o in s.locks[n].wait
      ensures s.locks[n].owner in s.prio && s.prio[s.locks[n].owner] <= s.prio[t]
    {
      assert LockOk(s.locks[n]) && LockOk(s.locks[m]) && LockKnown(s, n) && UrgentLock(r, n);
      assert n != m;
      assert Ahead(r, r.locks[n].owner, o);
    }
  }

  lemma TakeUrgentIff(s: Sys, t: Tid, m: Mid, wait: bool, flag: Flag)
    requires Wellformed(s) && Urgent(s) && Enabled(s, Take(t, m, wait))
    ensures LockKnown(s, m)
    ensures Urgent(TakeStep(s, t, m, wait, flag).0) <==> Calm(s, Take(t, m, wait))
  {
    var l := s.locks[m];
    assert LockOk(l) && LockKnown(s, m);
    var r := TakeStep(s, t, m, wait, flag).0;
    if l.owner != t && l.value <= 0 && wait {
      if Calm(s, Take(t, m, wait)) {
        forall n | n in r.locks ensures UrgentLock(r, n) {
          BlockUrgent(s, t, m, flag, n);
        }
      } else if Urgent(r) {
        BlockNeeds(s, t, m, flag);
      }
    } else {
      forall n | n in r.locks ensures UrgentLock(r, n) {
        assert UrgentLock(s, n);
      }
    }
  }

  /** After a hand-off, from any state and in either waiting order, the new owner
      is at least as urgent as every remaining waiter exactly when the first
      waiter was the most urgent one. */
  lemma HandOffUrgentIff(s: Sys, t: Tid, m: Mid)
    requires Wellformed(s) && Enabled(s, Release(t, m)) && LastRelease(s, t, m)
    ensures s.locks[m].wait != [] ==> s.locks[m].wait[0] in s.prio
    ensures UrgentLock(ReleaseStep(s, t, m).0, m) <==> HandOk(s, m)
  {
    ReleaseWellformed(s, t, m);
    var l, r := s.locks[m], ReleaseStep(s, t, m).0;
    assert LockOk(l) && LockKnown(s, m);
    if l.wait != [] {
      var w := l.wait;
      assert w == [w[0]] + w[1..];
      assert forall x :: x in w <==> x == w[0] || x in w[1..];
      forall x | x in w ensures x in s.prio && x in r.prio && r.prio[x] == s.prio[x] {
        InKnown(w, s.prio, x);
      }
      assert r.locks[m].owner == w[0] && r.locks[m].wait == w[1..];
      if HandOk(s, m) {
        forall x | x in w[1..] ensures Ahead(r, w[0], x) {
          assert Ahead(s, w[0], x);
        }
      } else if UrgentLock(r, m) {
        forall x | x in w ensures Ahead(s, w[0], x) {
          assert x in w[1..] ==> Ahead(r, w[0], x);
        }
      }
    }
  }

  /** Another mutex stays urgent exactly when its owner may fall back. */
  lemma FallUrgentIff(s: Sys, t: Tid, m: Mid, n: Mid)
    requires Wellformed(s) && Urgent(s) && Enabled(s, Release(t, m)) && LastRelease(s, t, m) && n in s.locks && n != m
    requires s.locks[m].wait != [] ==> s.locks[m].wait[0] in s.prio
    ensures UrgentLock(ReleaseStep(s, t, m).0, n) <==>
      (s.locks[n].owner == t ==> forall x :: x in s.locks[n].wait ==> x in s.prio && s.locks[m].original <= s.prio[x])
  {
    var r := ReleaseStep(s, t, m).0;
    assert LockOk(s.locks[m]) && UrgentLock(s, n) && LockKnown(s, n);
    assert r.locks[n] == s.locks[n];
    forall x | x in s.locks[n].wait ensures x != t && x in s.prio && r.prio[x] == s.prio[x] {
      InKnown(s.locks[n].wait, s.prio, x);
    }
    forall x | x in s.locks[n].wait
      ensures Ahead(r, r.locks[n].owner, x) <==> (s.locks[n].owner == t ==> s.locks[m].original <= s.prio[x])
    {
      assert Ahead(s, s.locks[n].owner, x);
    }
  }

  lemma ReleaseUrgentIff(s: Sys, t: Tid, m: Mid)
    requires Wellformed(s) && Urgent(s) && Enabled(s, Release(t, m))
    ensures s.locks[m].wait != [] ==> s.locks[m].wait[0] in s.prio
    ensures Urgent(ReleaseStep(s, t, m).0) <==> Calm(s, Release(t, m))
  {
    ReleaseWellformed(s, t, m);
    assert LockOk(s.locks[m]);
    var r := ReleaseStep(s, t, m).0;
    if LastRelease(s, t, m) {
      HandOffUrgentIff(s, t, m);
      forall n | n in s.locks && n != m
        ensures UrgentLock(r, n) <==> (s.locks[n].owner == t ==>
          forall x :: x in s.locks[n].wait ==> x in s.prio && s.locks[m].original <= s.prio[x])
      {
        FallUrgentIff(s, t, m, n);
      }
    } else {
      forall n | n in r.locks ensures UrgentLock(r, n) {
        assert UrgentLock(s, n);
      }
    }
  }

  lemma ExpireUrgent(s: Sys, t: Tid, m: Mid, flag: Flag)
    requires Wellformed(s) && Urgent(s) && Enabled(s, Expire(t, m))
    ensures Urgent(Next(s, Expire(t, m), flag).0)
  {
    var r := Next(s, Expire(t, m), flag).0;
    assert LockOk(s.locks[m]);
    WithoutIn(s.locks[m].wait, t);
    forall n | n in r.locks ensures UrgentLock(r, n) {
      assert UrgentLock(s, n);
      forall x | x in r.locks[n].wait ensures Ahead(r, r.locks[n].owner, x) {
        assert Ahead(s, s.locks[n].owner, x);
      }
    }
  }

  /** From any consistent state in which every owner is urgent enough, a call
      keeps it so exactly when it is calm. */
  lemma StepUrgentIff(s: Sys, e: Event, flag: Flag)
    requires Wellformed(s) && Urgent(s) && Enabled(s, e)
    ensures Urgent(Next(s, e, flag).0) <==> Calm(s, e)
  {
    match e
    case Take(t, m, wait) => TakeUrgentIff(s, t, m, wait, flag);
    case Release(t, m) => ReleaseUrgentIff(s, t, m);
    case Expire(t, m) => ExpireUrgent(s, t, m, flag);
  }

  // --------------------------------------------------------------- whole runs

  ghost predicate CalmRun(s: Sys, es: seq<Event>, flag: Flag)
    requires Wellformed(s) && Runnable(s, es, flag)
    decreases |es|
  {
    es == [] || (Calm(s, es[0]) && CalmRun(Next(s, es[0], flag).0, es[1..], flag))
  }

  ghost predicate AlwaysUrgent(s: Sys, es: seq<Event>, flag: Flag)
    requires Wellformed(s) && Runnable(s, es, flag)
    decreases |es|
  {
    Urgent(s) && (es == [] || AlwaysUrgent(Next(s, es[0], flag).0, es[1..], flag))
  }

  /** For every run, whatever the nesting and the waiting order: owners are at
      least as urgent as waiters all along exactly when every call is calm. */
  lemma {:induction false} RunUrgentIff(s: Sys, es: seq<Event>, flag: Flag)
    requires Wellformed(s) && Urgent(s) && Runnable(s, es, flag)
    ensures AlwaysUrgent(s, es, flag) <==> CalmRun(s, es, flag)
    decreases |es|
  {
    if es != [] {
      StepUrgentIff(s, es[0], flag);
      if Calm(s, es[0]) {
        RunUrgentIff(Next(s, es[0], flag).0, es[1..], flag);
      }
    }
  }
}
