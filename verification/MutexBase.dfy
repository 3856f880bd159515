/** When a thread that owns no mutex is at its base priority: over every run, whatever
    the order of its takes and releases. */
module MutexBase {
  import opened IpcList
  import opened MutexSpec
  import opened MutexInherit
  import opened MutexFlat

  ghost predicate Idle(s: Sys, t: Tid) {
    forall m :: m in s.locks ==> s.locks[m].owner != t
  }

  ghost predicate IdleAtBase(s: Sys, t: Tid)
    requires t in s.prio && t in s.base
  {
    Idle(s, t) ==> s.prio[t] == s.base[t]
  }

  /** Every thread that owns nothing is at its base priority. */
  ghost predicate AtBase(s: Sys) {
    && s.base.Keys == s.prio.Keys
    && forall t :: t in s.prio ==> IdleAtBase(s, t)
  }

  /** The release by which a thread lets go of the only mutex it owns. */
  ghost predicate Leaves(s: Sys, e: Event) {
    && e.Release? && e.m in s.locks && s.locks[e.m].owner == e.t && s.locks[e.m].hold == 1
    && forall n :: n in s.locks && n != e.m ==> s.locks[n].owner != e.t
  }

  // -------------------------------------------------- the priority at the take

  /** The priority that the owner of each mutex had when it became the owner, as an
      onlooker of owners and priorities would note it down. */
  ghost function Noted(g: map<Mid, int>, s: Sys, r: Sys): map<Mid, int> {
    map m | m in r.locks && Entry(g, s, r, m).0 :: Entry(g, s, r, m).1
  }

  ghost function Entry(g: map<Mid, int>, s: Sys, r: Sys, m: Mid): (bool, int)
    requires m in r.locks
  {
    var o := r.locks[m].owner;
    if m in s.locks && s.locks[m].owner == o then (m in g, if m in g then g[m] else 0)
    else (o in r.prio, if o in r.prio then r.prio[o] else 0)
  }

  ghost predicate Agrees(g: map<Mid, int>, s: Sys, m: Mid)
    requires m in s.locks
  {
    s.locks[m].owner != NOBODY ==> m in g && g[m] == s.locks[m].original
  }

  /** original_priority is what was noted. */
  ghost predicate Remembers(g: map<Mid, int>, s: Sys) {
    forall m :: m in s.locks ==> Agrees(g, s, m)
  }

  /** A call changes the remembered priority of a mutex only together with its owner. */
  lemma StepRemembers(g: map<Mid, int>, s: Sys, e: Event, flag: Flag)
    requires Wellformed(s) && Enabled(s, e) && !Wraps(s, e) && Remembers(g, s)
    ensures Remembers(Noted(g, s, Next(s, e, flag).0), Next(s, e, flag).0)
  {
    var r := Next(s, e, flag).0;
    StepWellformedIff(s, e, flag);
    forall m | m in r.locks ensures Agrees(Noted(g, s, r), r, m) {
      assert m in s.locks && Agrees(g, s, m) && LockOk(s.locks[m]) && LockKnown(r, m);
      StepAgrees(g, s, e, flag, m);
    }
  }

  lemma StepAgrees(g: map<Mid, int>, s: Sys, e: Event, flag: Flag, m: Mid)
    requires Wellformed(s) && Enabled(s, e) && m in s.locks && Agrees(g, s, m) && LockOk(s.locks[m])
    requires var r := Next(s, e, flag).0; m in r.locks && LockKnown(r, m)
    ensures var r := Next(s, e, flag).0; Agrees(Noted(g, s, r), r, m)
  {
  }

  // -------------------------------------------------------------------- one call

  /** A call keeps idle threads at their base exactly when it is not the release of an
      only mutex that was taken at another priority. */
  lemma StepBaseIff(g: map<Mid, int>, s: Sys, e: Event, flag: Flag)
    requires Wellformed(s) && Enabled(s, e) && !Wraps(s, e) && Remembers(g, s) && AtBase(s)
    ensures Leaves(s, e) ==> e.m in g && e.t in s.base
    ensures AtBase(Next(s, e, flag).0) <==> (Leaves(s, e) ==> g[e.m] == s.base[e.t])
  {
    var r := Next(s, e, flag).0;
    StepWellformedIff(s, e, flag);
    assert e.t in s.prio.Keys;
    assert LockOk(s.locks[e.m]) && Agrees(g, s, e.m) && LockKnown(s, e.m);
    assert r.base == s.base && r.prio.Keys == s.prio.Keys;
    forall t | t in r.prio && !(Leaves(s, e) && t == e.t) ensures IdleAtBase(r, t) {
      assert t in s.prio.Keys && IdleAtBase(s, t);
      OthersStay(s, e, flag, t);
    }
    if Leaves(s, e) {
      assert Idle(r, e.t) by { LeavesIdle(s, e, flag); }
      assert r.prio[e.t] == s.locks[e.m].original;
      assert AtBase(r) ==> IdleAtBase(r, e.t);
    }
  }

  lemma LeavesIdle(s: Sys, e: Event, flag: Flag)
    requires Wellformed(s) && Enabled(s, e) && Leaves(s, e)
    ensures Idle(Next(s, e, flag).0, e.t)
  {
    assert LockOk(s.locks[e.m]);
    assert s.locks[e.m].wait != [] ==> s.locks[e.m].wait[0] in s.locks[e.m].wait;
  }

  /** A thread that is idle after the call, and did not just leave, was idle before and
      has kept its priority. */
  lemma OthersStay(s: Sys, e: Event, flag: Flag, t: Tid)
    requires Wellformed(s) && Enabled(s, e) && !Wraps(s, e) && t in s.prio && !(Leaves(s, e) && t == e.t)
    ensures var r := Next(s, e, flag).0;
      Idle(r, t) ==> t in r.prio && Idle(s, t) && r.prio[t] == s.prio[t]
  {
    assert LockOk(s.locks[e.m]) && LockKnown(s, e.m);
    if !Idle(s, t) {
      OwnersStay(s, e, flag, t);
    }
  }

  /** An owner still owns something after any call but the one it leaves by. */
  lemma OwnersStay(s: Sys, e: Event, flag: Flag, t: Tid)
    requires Wellformed(s) && Enabled(s, e) && t in s.prio && !(Leaves(s, e) && t == e.t) && !Idle(s, t)
    ensures !Idle(Next(s, e, flag).0, t)
  {
    var r := Next(s, e, flag).0;
    assert LockOk(s.locks[e.m]) && LockKnown(s, e.m);
    var m :| m in s.locks && s.locks[m].owner == t;
    assert m in r.locks;
    if r.locks[m].owner != t {
      assert m == e.m && e.Release? && t == e.t && s.locks[m].hold == 1;
      var n :| n in s.locks && n != m && s.locks[n].owner == t;
      assert n in r.locks && r.locks[n] == s.locks[n];
    }
  }

  // ------------------------------------------------------------------- every run

  /** Idle threads are at their base in every state of the run. */
  ghost predicate AlwaysAtBase(s: Sys, es: seq<Event>, flag: Flag)
    requires Wellformed(s) && Runnable(s, es, flag)
    decreases |es|
  {
    AtBase(s) && (es == [] || AlwaysAtBase(Next(s, es[0], flag).0, es[1..], flag))
  }

  /** Whenever a thread lets go of the only mutex it owns, it was at its base when it
      became the owner. */
  ghost predicate CameAtBase(g: map<Mid, int>, s: Sys, es: seq<Event>, flag: Flag)
    requires Wellformed(s) && Runnable(s, es, flag)
    decreases |es|
  {
    es == [] ||
    (&& (Leaves(s, es[0]) ==> es[0].m in g && es[0].t in s.base && g[es[0].m] == s.base[es[0].t])
     && CameAtBase(Noted(g, s, Next(s, es[0], flag).0), Next(s, es[0], flag).0, es[1..], flag))
  }

  /** Over every run, in either waiting order and whatever the nesting: threads that own
      nothing are at their base all along exactly when every thread that lets go of its
      last mutex had become its owner at the base. */
  lemma {:induction false} RunBaseIff(g: map<Mid, int>, s: Sys, es: seq<Event>, flag: Flag)
    requires Wellformed(s) && Remembers(g, s) && AtBase(s) && Runnable(s, es, flag)
    ensures AlwaysAtBase(s, es, flag) <==> CameAtBase(g, s, es, flag)
    decreases |es|
  {
    if es != [] {
      var r := Next(s, es[0], flag).0;
      StepRemembers(g, s, es[0], flag);
      StepBaseIff(g, s, es[0], flag);
      if AtBase(r) {
        RunBaseIff(Noted(g, s, r), r, es[1..], flag);
      }
    }
  }

  /** original_priority is the priority noted when its owner came, after every run. */
  lemma {:induction false} RunRemembers(g: map<Mid, int>, s: Sys, es: seq<Event>, flag: Flag)
    requires Wellformed(s) && Remembers(g, s) && Runnable(s, es, flag)
    ensures Remembers(Notes(g, s, es, flag), Run(s, es, flag))
    decreases |es|
  {
    if es != [] {
      StepRemembers(g, s, es[0], flag);
      RunRemembers(Noted(g, s, Next(s, es[0], flag).0), Next(s, es[0], flag).0, es[1..], flag);
    }
  }

  ghost function Notes(g: map<Mid, int>, s: Sys, es: seq<Event>, flag: Flag): map<Mid, int>
    requires Wellformed(s) && Runnable(s, es, flag)
    decreases |es|
  {
    if es == [] then g else Notes(Noted(g, s, Next(s, es[0], flag).0), Next(s, es[0], flag).0, es[1..], flag)
  }

  /** What the runs start from, with nothing noted yet. */
  lemma StartBase(locks: set<Mid>, base: map<Tid, int>)
    requires NOBODY !in base
    ensures var s := Start(locks, base); Wellformed(s) && AtBase(s) && Remembers(map[], s)
  {
    StartFlat(locks, base, Prio);
  }

  /** The same from fresh mutexes and threads at their base. */
  lemma FreshBaseIff(locks: set<Mid>, base: map<Tid, int>, es: seq<Event>, flag: Flag)
    requires NOBODY !in base
    ensures var s := Start(locks, base);
      Wellformed(s) && (Runnable(s, es, flag) ==> (AlwaysAtBase(s, es, flag) <==> CameAtBase(map[], s, es, flag)))
  {
    StartBase(locks, base);
    if Runnable(Start(locks, base), es, flag) {
      RunBaseIff(map[], Start(locks, base), es, flag);
    }
  }
}
