/** What a call on a mutex returns and does, told by the states before and after it. */
module MutexCalls {
  import opened RtList
  import opened IpcList
  import opened MutexSpec

  /** Every other mutex, and the priority of every thread but x, is as before. */
  ghost predicate Elsewhere(s: Sys, r: Sys, m: Mid, x: Tid) {
    && r.locks.Keys == s.locks.Keys && (forall n :: n in s.locks && n != m ==> r.locks[n] == s.locks[n])
    && r.prio.Keys == s.prio.Keys && (forall t :: t in s.prio && t != x ==> r.prio[t] == s.prio[t])
  }

  // --------------------------------------------------------------------- take

  /** rt_mutex_take answers RT_EOK exactly when the caller owns the mutex afterwards,
      suspends it exactly when it waits afterwards, and otherwise, with no time to wait,
      changes nothing. */
  lemma TakeAnswers(s: Sys, t: Tid, m: Mid, wait: bool, flag: Flag)
    requires Wellformed(s) && Enabled(s, Take(t, m, wait))
    ensures var (r, o) := Next(s, Take(t, m, wait), flag);
      && m in r.locks
      && (o == Ok <==> r.locks[m].owner == t)
      && (o == Blocked <==> t in r.locks[m].wait)
      && (o == Timeout <==> r.locks[m].owner != t && t !in r.locks[m].wait)
      && (o == Timeout ==> r == s && !wait)
  {
    var l := s.locks[m];
    assert LockOk(l) && LockKnown(s, m) && t !in l.wait;
    if l.owner != t && l.value <= 0 && wait {
      SuspendedIn(l.wait, t, flag, Boosted(s.prio, l.owner, t));
    }
  }

  /** A take that succeeds: one more hold of the mutex it owns, or the first hold of a
      free one, with the caller's priority on record. */
  lemma TakeOwns(s: Sys, t: Tid, m: Mid, wait: bool, flag: Flag)
    requires Wellformed(s) && Enabled(s, Take(t, m, wait))
    requires s.locks[m].owner == t || s.locks[m].owner == NOBODY
    ensures var (r, o) := Next(s, Take(t, m, wait), flag);
      && o == Ok && m in r.locks && Elsewhere(s, r, m, NOBODY)
      && var l, n := s.locks[m], r.locks[m];
         && n.owner == t && n.wait == l.wait
         && (l.owner == t ==> n.hold == (l.hold + 1) % 256 && n.original == l.original && n.value == l.value)
         && (l.owner == NOBODY ==> n.hold == 1 && n.original == s.prio[t] && n.value == 0)
  {
    assert LockOk(s.locks[m]);
  }

  /** A take of a mutex that another thread owns: with no time to wait it is refused; else
      the caller joins the waiters, the others keep their order, and the owner becomes at
      least as urgent as the caller. */
  lemma TakeWaits(s: Sys, t: Tid, m: Mid, wait: bool, flag: Flag)
    requires Wellformed(s) && Enabled(s, Take(t, m, wait))
    requires s.locks[m].owner != t && s.locks[m].owner != NOBODY
    ensures var (r, o) := Next(s, Take(t, m, wait), flag);
      && (o == if wait then Blocked else Timeout)
      && (!wait ==> r == s)
      && (wait ==>
           && m in r.locks && Elsewhere(s, r, m, s.locks[m].owner) && s.locks[m].owner in r.prio
           && r.locks[m] == s.locks[m].(wait := r.locks[m].wait)
           && Joined(s.locks[m].wait, r.locks[m].wait, t, flag, r.prio)
           && r.prio[s.locks[m].owner] == Least(s.prio[s.locks[m].owner], s.prio[t]))
  {
    var l := s.locks[m];
    assert LockOk(l) && LockKnown(s, m) && t !in l.wait;
    if wait {
      var p := Boosted(s.prio, l.owner, t);
      SuspendedJoins(l.wait, t, flag, p);
    }
  }

  function Least(a: int, b: int): int { if b < a then b else a }

  // ------------------------------------------------------------------ release

  /** rt_mutex_release answers RT_EOK exactly to the owner, and changes nothing for
      anybody else. */
  lemma ReleaseAnswers(s: Sys, t: Tid, m: Mid, flag: Flag)
    requires Wellformed(s) && Enabled(s, Release(t, m))
    ensures var (r, o) := Next(s, Release(t, m), flag);
      && (o == Ok <==> s.locks[m].owner == t)
      && (o != Ok ==> o == Error && r == s)
  {
    assert LockKnown(s, m);
  }

  /** The owner gives up one hold; with the last one its priority is the one on record,
      and the mutex goes to the first waiter, who then waits no more, or is free. */
  lemma ReleaseHands(s: Sys, t: Tid, m: Mid, flag: Flag)
    requires Wellformed(s) && Enabled(s, Release(t, m)) && s.locks[m].owner == t
    ensures var r := Next(s, Release(t, m), flag).0;
      var l := s.locks[m];
      && m in r.locks && t in r.prio
      && var n := r.locks[m];
         && Elsewhere(s, r, m, t)
         && (l.hold > 1 ==> n == l.(hold := l.hold - 1) && r.prio == s.prio)
         && (l.hold == 1 ==> r.prio[t] == l.original)
         && (l.hold == 1 && l.wait == [] ==> n == Fresh())
         && (l.hold == 1 && l.wait != [] ==>
              [n.owner] + n.wait == l.wait && n.owner in r.prio && n.original == r.prio[n.owner]
              && n.hold == 1 && n.value == 0)
  {
    assert LockOk(s.locks[m]) && LockKnown(s, m);
  }

  // ------------------------------------------------------------------ timeout

  /** A waiter whose time is up leaves the list, and nothing else changes. */
  lemma ExpireLeaves(s: Sys, t: Tid, m: Mid, flag: Flag)
    requires Wellformed(s) && Enabled(s, Expire(t, m))
    ensures var (r, o) := Next(s, Expire(t, m), flag);
      && o == Timeout && m in r.locks && Elsewhere(s, r, m, NOBODY)
      && r.locks[m] == s.locks[m].(wait := r.locks[m].wait) && !Waits(r, t)
      && (exists i :: 0 <= i < |s.locks[m].wait| && s.locks[m].wait[i] == t
           && r.locks[m].wait == Dropped(s.locks[m].wait, i))
  {
    var w := s.locks[m].wait;
    assert LockOk(s.locks[m]);
    var i :| 0 <= i < |w| && w[i] == t;
    WithoutIsDropped(w, i);
    WithoutIn(w, t);
  }
}
