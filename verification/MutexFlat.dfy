/** Mutexes used without nesting: what then remains of the exact conditions. */
module MutexFlat {
  import opened IpcList
  import opened MutexSpec
  import opened MutexInherit
  import opened MutexUrgent

  /** Without nesting an owner owns nothing else and a waiter owns nothing; under
      RT_IPC_FLAG_PRIO the waiters stand in order of urgency. */
  ghost predicate FlatLock(s: Sys, m: Mid, flag: Flag)
    requires m in s.locks
  {
    var l := s.locks[m];
    l.owner != NOBODY ==>
      && Own(s, l.owner) == [m]
      && (flag == Prio ==> Sorted(l.wait, s.prio))
      && (forall x :: x in l.wait ==> Own(s, x) == [])
  }

  ghost predicate Flat(s: Sys, flag: Flag) {
    Nested(s) && forall m :: m in s.locks ==> FlatLock(s, m, flag)
  }

  /** A thread takes a second mutex only once it has given up the first. */
  ghost predicate Single(s: Sys, e: Event)
    requires Enabled(s, e)
  {
    e.Take? ==> Own(s, e.t) == [] || s.locks[e.m].owner == e.t
  }

  lemma FlatSafe(s: Sys, e: Event, flag: Flag)
    requires Flat(s, flag) && Enabled(s, e) && !Wraps(s, e)
    ensures Safe(s, e)
  {
    StepWellformedIff(s, e, flag);
    assert FlatLock(s, e.m, flag) && LockOk(s.locks[e.m]) && LockKnown(s, e.m);
  }

  /** Threads that own or wait for other mutexes are not the owner of this one. */
  lemma FlatApart(s: Sys, m: Mid, n: Mid, x: Tid, flag: Flag)
    requires Flat(s, flag) && m in s.locks && n in s.locks && m != n && s.locks[m].owner != NOBODY
    requires x == s.locks[n].owner || x in s.locks[n].wait
    ensures x != s.locks[m].owner
  {
    assert FlatLock(s, m, flag) && FlatLock(s, n, flag) && LockOk(s.locks[n]) && LockOk(s.locks[m]);
  }

  /** A lock is untouched by a change to another one, and to threads that are
      neither its owner nor among its waiters. */
  lemma FlatFrame(s: Sys, r: Sys, n: Mid, flag: Flag)
    requires n in s.locks && FlatLock(s, n, flag) && n in r.locks && r.locks[n] == s.locks[n] &&
             r.prio.Keys == s.prio.Keys
    requires Own(r, s.locks[n].owner) == Own(s, s.locks[n].owner)
    requires forall x :: x in s.locks[n].wait ==> Own(r, x) == Own(s, x) && (x in s.prio ==> r.prio[x] == s.prio[x])
    ensures FlatLock(r, n, flag)
  {
    var w := s.locks[n].wait;
    if s.locks[n].owner != NOBODY && flag == Prio {
      SortedSame(w, s.prio, r.prio);
    }
  }

  lemma SortedSame(w: seq<Tid>, p: map<Tid, int>, q: map<Tid, int>)
    requires Sorted(w, p) && q.Keys == p.Keys && forall x :: x in w && x in p ==> q[x] == p[x]
    ensures Sorted(w, q)
  {
    forall i | 0 <= i < |w| ensures w[i] in q && q[w[i]] == p[w[i]] {
      var x := w[i];
      assert x in w && x in p.Keys;
    }
  }

  lemma {:induction false} WithoutSorted(w: seq<Tid>, t: Tid, prio: map<Tid, int>)
    requires Sorted(w, prio)
    ensures Sorted(Without(w, t), prio) && forall x :: x in Without(w, t) ==> x in w
  {
    if w != [] && w[0] != t {
      var r := Without(w[1..], t);
      assert Sorted(w[1..], prio);
      WithoutSorted(w[1..], t, prio);
      forall i | 0 <= i < |r| ensures r[i] in prio && prio[w[0]] <= prio[r[i]] {
        var x := r[i];
        assert x in r;
        var k :| 0 <= k < |w[1..]| && w[1..][k] == x;
        assert w[k + 1] == x;
      }
    } else if w != [] {
      assert forall x :: x in w[1..] ==> x in w;
    }
  }

  // ---------------------------------------------------------------- every call

  lemma BlockFlat(s: Sys, t: Tid, m: Mid, flag: Flag)
    requires Flat(s, flag) && t in s.prio && m in s.locks && t != s.locks[m].owner && Own(s, t) == []
    requires Known(s.locks[m].wait, s.prio) && s.locks[m].owner in s.prio
    ensures var p := Boosted(s.prio, s.locks[m].owner, t);
      FlatLock(s.(prio := p, locks := s.locks[m := s.locks[m].(wait := Suspended(s.locks[m].wait, t, flag, p))]), m,
        flag)
  {
    var l := s.locks[m];
    var p := Boosted(s.prio, l.owner, t);
    assert FlatLock(s, m, flag) && LockOk(l);
    SuspendedIn(l.wait, t, flag, p);
    if flag == Prio {
      SortedSame(l.wait, s.prio, p);
      SuspendedSorted(l.wait, t, p);
    }
  }

  lemma TakeFlat(s: Sys, t: Tid, m: Mid, wait: bool, flag: Flag, n: Mid)
    requires Flat(s, flag) && Enabled(s, Take(t, m, wait)) && Single(s, Take(t, m, wait)) && LockKnown(s, m) &&
             n in s.locks
    ensures FlatLock(TakeStep(s, t, m, wait, flag).0, n, flag)
  {
    var l, r := s.locks[m], TakeStep(s, t, m, wait, flag).0;
    assert LockOk(l) && FlatLock(s, m, flag) && FlatLock(s, n, flag) && LockOk(s.locks[n]);
    if n == m {
      if l.owner != t && l.value <= 0 && wait {
        BlockFlat(s, t, m, flag);
      } else if l.owner != t && l.value > 0 {
        assert Own(r, t) == [] + [m];
      }
    } else {
      if l.owner != NOBODY {
        forall x | x == s.locks[n].owner || x in s.locks[n].wait ensures x != l.owner {
          FlatApart(s, m, n, x, flag);
        }
      }
      FlatFrame(s, r, n, flag);
    }
  }

  lemma HandFlat(s: Sys, t: Tid, m: Mid, flag: Flag)
    requires Flat(s, flag) && Enabled(s, Release(t, m)) && LastRelease(s, t, m) && s.locks[m].wait != []
    requires s.locks[m].wait[0] in s.prio
    ensures FlatLock(ReleaseStep(s, t, m).0, m, flag)
  {
    var l := s.locks[m];
    var w, n, r := l.wait, l.wait[0], ReleaseStep(s, t, m).0;
    assert FlatLock(s, m, flag) && LockOk(l) && LockKnown(s, m);
    assert n in w && forall x :: x in w[1..] ==> x in w;
    assert Own(r, n) == [] + [m];
    assert n !in w[1..];
    if flag == Prio {
      assert Sorted(w[1..], s.prio);
      SortedSame(w[1..], s.prio, r.prio);
    }
  }

  lemma ReleaseFlat(s: Sys, t: Tid, m: Mid, flag: Flag, n: Mid)
    requires Flat(s, flag) && Enabled(s, Release(t, m)) && n in s.locks
    requires s.locks[m].wait != [] ==> s.locks[m].wait[0] in s.prio
    ensures FlatLock(ReleaseStep(s, t, m).0, n, flag)
  {
    var l, r := s.locks[m], ReleaseStep(s, t, m).0;
    assert LockOk(l) && FlatLock(s, m, flag) && FlatLock(s, n, flag);
    if n == m {
      if LastRelease(s, t, m) && l.wait != [] {
        HandFlat(s, t, m, flag);
      }
    } else {
      ReleaseFrame(s, t, m, flag, n);
    }
  }

  lemma ReleaseFrame(s: Sys, t: Tid, m: Mid, flag: Flag, n: Mid)
    requires Flat(s, flag) && Enabled(s, Release(t, m)) && n in s.locks && n != m
    requires s.locks[m].wait != [] ==> s.locks[m].wait[0] in s.prio
    ensures FlatLock(ReleaseStep(s, t, m).0, n, flag)
  {
    var l, r := s.locks[m], ReleaseStep(s, t, m).0;
    assert LockOk(l) && FlatLock(s, m, flag) && FlatLock(s, n, flag) && LockOk(s.locks[n]);
    if l.owner == t {
      forall x | x == s.locks[n].owner || x in s.locks[n].wait ensures x != t {
        FlatApart(s, m, n, x, flag);
      }
      if l.wait != [] {
        var w := l.wait[0];
        assert w in l.wait && Own(s, w) == [];
        assert w != s.locks[n].owner && w !in s.locks[n].wait;
      }
    }
    FlatFrame(s, r, n, flag);
  }

  lemma ExpireFlat(s: Sys, t: Tid, m: Mid, flag: Flag, n: Mid)
    requires Flat(s, flag) && Enabled(s, Expire(t, m)) && n in s.locks
    ensures FlatLock(Next(s, Expire(t, m), flag).0, n, flag)
  {
    var l, r := s.locks[m], Next(s, Expire(t, m), flag).0;
    assert FlatLock(s, n, flag) && LockOk(l);
    if n == m {
      WithoutIn(l.wait, t);
      if flag == Prio && l.owner != NOBODY {
        WithoutSorted(l.wait, t, s.prio);
      }
    } else {
      FlatFrame(s, r, n, flag);
    }
  }

  lemma StepFlat(s: Sys, e: Event, flag: Flag)
    requires Flat(s, flag) && Enabled(s, e) && Single(s, e) && !Wraps(s, e)
    ensures Flat(Next(s, e, flag).0, flag)
  {
    FlatSafe(s, e, flag);
    StepNestedIff(s, e, flag);
    assert LockKnown(s, e.m) && LockOk(s.locks[e.m]);
    var r := Next(s, e, flag).0;
    forall n | n in r.locks ensures FlatLock(r, n, flag) {
      match e
      case Take(t, m, wait) => TakeFlat(s, t, m, wait, flag, n);
      case Release(t, m) => ReleaseFlat(s, t, m, flag, n);
      case Expire(t, m) => ExpireFlat(s, t, m, flag, n);
    }
  }

  // -------------------------------------------------------- what is left to check

  /** Only hand-offs need a check, and under RT_IPC_FLAG_PRIO not even those. */
  lemma FlatCalmIff(s: Sys, e: Event, flag: Flag)
    requires Flat(s, flag) && Enabled(s, e)
    ensures Calm(s, e) <==> (e.Release? && LastRelease(s, e.t, e.m) ==> HandOk(s, e.m))
    ensures flag == Prio ==> Calm(s, e)
  {
    var m := e.m;
    assert FlatLock(s, m, flag) && LockOk(s.locks[m]) && LockKnown(s, m);
    match e
    case Take(t, _, wait) =>
      if Boosts(s, t, m, wait) {
        forall n | n in s.locks && s.locks[m].owner in s.locks[n].wait ensures n == m {
          if n != m {
            FlatApart(s, m, n, s.locks[m].owner, flag);
          }
        }
      }
    case Release(t, _) =>
      if LastRelease(s, t, m) {
        forall n | n in s.locks && n != m ensures s.locks[n].owner != t {
          FlatApart(s, m, n, s.locks[n].owner, flag);
        }
        if flag == Prio {
          FlatHandOk(s, m);
        }
      }
    case Expire(_, _) =>
  }

  lemma FlatHandOk(s: Sys, m: Mid)
    requires m in s.locks && Sorted(s.locks[m].wait, s.prio)
    ensures HandOk(s, m)
  {
    var w := s.locks[m].wait;
    if w != [] {
      forall x | x in w ensures Ahead(s, w[0], x) {
        var i :| 0 <= i < |w| && w[i] == x;
      }
    }
  }

  ghost predicate SingleRun(s: Sys, es: seq<Event>, flag: Flag)
    requires Wellformed(s) && Runnable(s, es, flag)
    decreases |es|
  {
    es == [] || (Single(s, es[0]) && SingleRun(Next(s, es[0], flag).0, es[1..], flag))
  }

  /** Every hand-off along the run goes to the most urgent waiter. */
  ghost predicate HandRun(s: Sys, es: seq<Event>, flag: Flag)
    requires Wellformed(s) && Runnable(s, es, flag)
    decreases |es|
  {
    es == [] || ((es[0].Release? && LastRelease(s, es[0].t, es[0].m) ==> HandOk(s, es[0].m))
                 && HandRun(Next(s, es[0], flag).0, es[1..], flag))
  }

  /** Without nesting, in either waiting order, owners are urgent all along
      exactly when every hand-off goes to the most urgent waiter; under
      RT_IPC_FLAG_PRIO that is always so, timeouts of waiters included. */
  lemma {:induction false} RunFlatIff(s: Sys, es: seq<Event>, flag: Flag)
    requires Flat(s, flag) && Urgent(s) && Runnable(s, es, flag) && SingleRun(s, es, flag)
    ensures AlwaysUrgent(s, es, flag) <==> HandRun(s, es, flag)
    ensures flag == Prio ==> AlwaysUrgent(s, es, flag)
    decreases |es|
  {
    if es != [] {
      StepUrgentIff(s, es[0], flag);
      FlatCalmIff(s, es[0], flag);
      StepFlat(s, es[0], flag);
      if Calm(s, es[0]) {
        RunFlatIff(Next(s, es[0], flag).0, es[1..], flag);
      }
    }
  }

  // ------------------------------------------------------------------- the start

  /** All mutexes free and every thread at its base priority. */
  ghost function Start(locks: set<Mid>, base: map<Tid, int>): Sys {
    Sys(map m | m in locks :: Fresh(), base, base, map[])
  }

  lemma StartFlat(locks: set<Mid>, base: map<Tid, int>, flag: Flag)
    requires NOBODY !in base
    ensures Flat(Start(locks, base), flag) && Urgent(Start(locks, base))
  {
    var s := Start(locks, base);
    assert forall m :: m in s.locks ==> LockOk(s.locks[m]);
    assert forall m :: m in s.locks ==> LockKnown(s, m);
  }
}
