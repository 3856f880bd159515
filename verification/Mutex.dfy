/** rt_mutex_take and rt_mutex_release of src/ipc.c on the mutexes and thread
    priorities of a system. */
module Mutex {
  import opened RtList
  import opened IpcList
  import opened MutexSpec
  import opened MutexFlat

  /** struct rt_mutex without the list of its waiters. */
  datatype Body = Body(value: int, owner: Tid, original: int, hold: int)

  function BodyOf(l: Lock): Body {
    Body(l.value, l.owner, l.original, l.hold)
  }

  /** Mutexes and threads are different objects, so their list nodes are. */
  ghost predicate Apart(s: Sys) {
    forall m :: m in s.locks ==> m !in s.prio
  }

  /** The list of every mutex, with its head in the mutex, leads through its waiters. */
  ghost predicate Waiting(l: Links, locks: map<Mid, Lock>) {
    forall m :: m in locks ==> Ring(l, [m] + locks[m].wait)
  }

  ghost predicate Bodies(bodies: map<Mid, Body>, locks: map<Mid, Lock>) {
    bodies.Keys == locks.Keys && forall m :: m in locks ==> bodies[m] == BodyOf(locks[m])
  }

  /** Stores to the list of mutex m, and to thread t that waits nowhere else, leave the
      lists of the other mutexes alone. */
  lemma OtherLists(l: Links, after: Links, s: Sys, m: Mid, lock: Lock, t: Tid)
    requires Wellformed(s) && Apart(s) && Waiting(l, s.locks) && m in s.locks && t in s.prio
    requires t in s.locks[m].wait || !Waits(s, t)
    requires Ring(after, [m] + lock.wait) && Spares(l, after, [m] + s.locks[m].wait + [t])
    ensures Waiting(after, s.locks[m := lock])
  {
    var touched := [m] + s.locks[m].wait + [t];
    assert LockKnown(s, m);
    forall n | n in s.locks && n != m ensures Ring(after, [n] + s.locks[n].wait) {
      var r := [n] + s.locks[n].wait;
      assert Ring(l, r) && LockKnown(s, n);
      forall x | x in r ensures x !in touched {
        if x in s.locks[n].wait {
          InKnown(s.locks[n].wait, s.prio, x);
        }
        if x in s.locks[m].wait {
          InKnown(s.locks[m].wait, s.prio, x);
        }
      }
      SparedRing(l, after, touched, r);
    }
  }

  /** rt_ipc_list_suspend on the list of mutex m. */
  method WaitOn(l: Links, t: Tid, m: Mid, flag: Flag, prio: map<Tid, int>, ghost s: Sys, ghost lock: Lock)
    returns (after: Links)
    requires Wellformed(s) && Apart(s) && Waiting(l, s.locks) && m in s.locks && t in s.prio && !Waits(s, t)
    requires prio.Keys == s.prio.Keys && Known(s.locks[m].wait, prio)
    requires lock.wait == Suspended(s.locks[m].wait, t, flag, prio)
    ensures Waiting(after, s.locks[m := lock])
  {
    after := Suspend(l, m, t, flag, prio, s.locks[m].wait);
    OtherLists(l, after, s, m, lock, t);
  }

  /** The priority is changed back only if it is another one. */
  method Restore(prio: map<Tid, int>, t: Tid, original: int) returns (p: map<Tid, int>)
    requires t in prio
    ensures p == prio[t := original]
  {
    p := prio;
    if original != prio[t] {
      p := p[t := original];
    }
  }

  /** The first waiter becomes the owner, or nobody does. */
  function Passed(l: Lock, prio: map<Tid, int>): Lock
    requires l.wait != [] ==> l.wait[0] in prio
  {
    if l.wait == [] then Lock(l.value + 1, NOBODY, UNSET, 0, [])
    else Lock(l.value, l.wait[0], prio[l.wait[0]], 1, l.wait[1..])
  }

  /** The end of rt_mutex_release, when the last hold is given up. */
  method PassOn(b: Body, l: Links, m: Mid, prio: map<Tid, int>, ghost s: Sys) returns (r: Body, after: Links)
    requires Wellformed(s) && Apart(s) && Waiting(l, s.locks) && m in s.locks && prio.Keys == s.prio.Keys
    requires b == BodyOf(s.locks[m]).(hold := 0)
    ensures var wait := s.locks[m].wait; wait != [] ==> wait[0] in prio
    ensures r == BodyOf(Passed(s.locks[m], prio)) && Waiting(after, s.locks[m := Passed(s.locks[m], prio)])
  {
    ghost var wait := s.locks[m].wait;
    EmptyIff(l, m, wait);
    if l.next[m] != m {
      assert LockKnown(s, m);
      InKnown(wait, s.prio, wait[0]);
      assert wait[0] in prio.Keys;
      var n := l.next[m];
      r := b.(owner := n, original := prio[n]);
      r := r.(hold := (r.hold + 1) % 256);
      after, n := Resume(l, m, wait);
      OtherLists(l, after, s, m, Passed(s.locks[m], prio), n);
    } else {
      r := b.(value := b.value + 1);
      r := r.(owner := NOBODY, original := UNSET);
      after := l;
    }
  }

  /** The lock and the priorities after a release by the owner. */
  lemma ReleaseIs(s: Sys, t: Tid, m: Mid)
    requires m in s.locks && t in s.prio && t == s.locks[m].owner
    requires s.locks[m].wait != [] ==> s.locks[m].wait[0] in s.prio
    ensures var l, (r, o) := s.locks[m], ReleaseStep(s, t, m);
      var hold := (l.hold - 1) % 256;
      && o == Ok && r.prio == (if hold == 0 then s.prio[t := l.original] else s.prio)
      && r.locks == s.locks[m := if hold == 0 then Passed(l, r.prio) else l.(hold := hold)]
  {
  }

  /** The links, the mutex and the priorities stand for the state r. */
  ghost predicate Stands(links: Links, b: Body, prio: map<Tid, int>, m: Mid, r: Sys) {
    m in r.locks && b == BodyOf(r.locks[m]) && Waiting(links, r.locks) && prio == r.prio
  }

  /** A call changes no other mutex. */
  ghost predicate OneChanged(s: Sys, r: Sys, m: Mid) {
    m in r.locks && r.locks == s.locks[m := r.locks[m]] && r.prio.Keys == s.prio.Keys
  }

  lemma Stored(bodies: map<Mid, Body>, s: Sys, r: Sys, m: Mid)
    requires Bodies(bodies, s.locks) && Apart(s) && m in s.locks && OneChanged(s, r, m)
    ensures Bodies(bodies[m := BodyOf(r.locks[m])], r.locks) && Apart(r)
  {
  }

  /** rt_mutex_take on the fields of mutex m. */
  method TakeOne(b: Body, links: Links, prio: map<Tid, int>, t: Tid, m: Mid, wait: bool, flag: Flag, ghost s: Sys)
    returns (r: Body, after: Links, p: map<Tid, int>, o: Outcome)
    requires Wellformed(s) && Apart(s) && Enabled(s, Take(t, m, wait)) && Stands(links, b, prio, m, s)
    ensures LockKnown(s, m)
    ensures s.locks[m].value <= 0 ==> s.locks[m].owner in s.prio
    ensures var (x, y) := TakeStep(s, t, m, wait, flag); o == y && Stands(after, r, p, m, x) && OneChanged(s, x, m)
  {
    assert LockOk(s.locks[m]) && LockKnown(s, m);
    r, after, p, o := b, links, prio, Ok;
    if b.owner == t {
      r := r.(hold := (r.hold + 1) % 256);
    } else if b.value > 0 {
      r := r.(value := r.value - 1);
      r := r.(owner := t, original := prio[t]);
      r := r.(hold := (r.hold + 1) % 256);
    } else if !wait {
      o := Timeout;
    } else {
      if prio[t] < prio[b.owner] {
        p := prio[b.owner := prio[t]];
      }
      after := WaitOn(links, t, m, flag, p, s, TakeStep(s, t, m, wait, flag).0.locks[m]);
      o := Blocked;
    }
  }

  /** rt_mutex_release on the fields of mutex m. */
  method ReleaseOne(b: Body, links: Links, prio: map<Tid, int>, t: Tid, m: Mid, ghost s: Sys)
    returns (r: Body, after: Links, p: map<Tid, int>, o: Outcome)
    requires Wellformed(s) && Apart(s) && Enabled(s, Release(t, m)) && Stands(links, b, prio, m, s)
    ensures s.locks[m].wait != [] ==> s.locks[m].wait[0] in s.prio
    ensures var (x, y) := ReleaseStep(s, t, m); o == y && Stands(after, r, p, m, x) && OneChanged(s, x, m)
  {
    assert LockKnown(s, m);
    r, after, p, o := b, links, prio, Ok;
    if t != b.owner {
      return r, after, p, Error;
    }
    ReleaseIs(s, t, m);
    r := r.(hold := (r.hold - 1) % 256);
    if r.hold == 0 {
      p := Restore(prio, t, r.original);
      r, after := PassOn(r, links, m, p, s);
    }
  }

  class Mutexes {
    const flag: Flag
    var bodies: map<Mid, Body>
    var links: Links
    var prio: map<Tid, int>
    ghost var view: Sys

    ghost predicate Valid()
      reads this
    {
      && Wellformed(view) && Apart(view)
      && Bodies(bodies, view.locks) && Waiting(links, view.locks) && prio == view.prio
    }

    /** rt_mutex_init of each mutex; every thread starts at the priority it was given. */
    constructor (mutexes: set<Mid>, base: map<Tid, int>, flag: Flag)
      requires NOBODY !in base && mutexes !! base.Keys
      ensures Valid() && this.flag == flag && view == Start(mutexes, base)
    {
      this.flag := flag;
      bodies := map m | m in mutexes :: BodyOf(Fresh());
      links := Links(map m | m in mutexes :: m, map m | m in mutexes :: m);
      prio := base;
      view := Start(mutexes, base);
      StartFlat(mutexes, base, flag);
    }

    /** rt_mutex_take by thread t; Blocked stands for the call up to its suspension. */
    method TakeMutex(t: Tid, m: Mid, wait: bool) returns (o: Outcome)
      requires Valid() && Enabled(view, Event.Take(t, m, wait)) && !(bodies[m].owner == t && bodies[m].hold == 255)
      modifies this
      ensures Valid() && (view, o) == Next(old(view), Event.Take(t, m, wait), flag)
    {
      TakeWellformed(view, t, m, wait, flag);
      var b;
      b, links, prio, o := TakeOne(bodies[m], links, prio, t, m, wait, flag, view);
      ghost var next := TakeStep(view, t, m, wait, flag).0;
      Stored(bodies, view, next, m);
      bodies := bodies[m := b];
      view := next;
    }

    /** rt_mutex_release by thread t. */
    method ReleaseMutex(t: Tid, m: Mid) returns (o: Outcome)
      requires Valid() && Enabled(view, Event.Release(t, m))
      modifies this
      ensures Valid() && (view, o) == Next(old(view), Event.Release(t, m), flag)
    {
      ReleaseWellformed(view, t, m);
      var b;
      b, links, prio, o := ReleaseOne(bodies[m], links, prio, t, m, view);
      ghost var next := ReleaseStep(view, t, m).0;
      Stored(bodies, view, next, m);
      bodies := bodies[m := b];
      view := next;
    }

    /** rt_thread_timeout of a thread that waits for mutex m. */
    method ExpireWait(t: Tid, m: Mid)
      requires Valid() && Enabled(view, Event.Expire(t, m))
      modifies this
      ensures Valid() && view == Next(old(view), Event.Expire(t, m), flag).0
    {
      ExpireWellformed(view, t, m, flag);
      ghost var next := Next(view, Event.Expire(t, m), flag).0;
      LeftRing(links, m, view.locks[m].wait, t);
      OtherLists(links, RtList.Remove(links, t), view, m, next.locks[m], t);
      links := RtList.Remove(links, t);
      view := next;
    }
  }
}
