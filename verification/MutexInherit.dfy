/** Priority inheritance: what nesting in last-in-first-out order and what no
    nesting at all guarantee, and where the guarantees end. */
module MutexInherit {
  import opened RtList
  import opened IpcList
  import opened MutexSpec

  // ------------------------------------------------------------- who owns what

  ghost predicate OwnOk(s: Sys, t: Tid) {
    Distinct(Own(s, t)) && forall m :: m in Own(s, t) <==> m in s.locks && s.locks[m].owner == t
  }

  /** A thread that owns nothing is at its base priority; the mutex it has owned
      longest remembers that priority. */
  ghost predicate Grounded(s: Sys, t: Tid)
    requires t in s.prio && t in s.base
  {
    if Own(s, t) == [] then s.prio[t] == s.base[t]
    else Own(s, t)[0] in s.locks && s.locks[Own(s, t)[0]].original == s.base[t]
  }

  ghost predicate Nested(s: Sys) {
    && Wellformed(s) && s.base.Keys == s.prio.Keys
    && (forall t :: t in s.prio ==> OwnOk(s, t))
    && (forall t :: t in s.prio ==> Grounded(s, t))
  }

  /** t owns a second mutex that remembers a boosted priority and is about to
      let go of its oldest one, which remembers the base. */
  ghost predicate Loses(s: Sys, t: Tid, m: Mid) {
    var own := Own(s, t);
    && t in s.base && m in s.locks && s.locks[m].owner == t && s.locks[m].hold == 1
    && |own| > 1 && own[0] == m && own[1] in s.locks && s.locks[own[1]].original != s.base[t]
  }

  /** What a caller checks before a call: no 256th nested take, no losing release. */
  ghost predicate Safe(s: Sys, e: Event)
    requires Enabled(s, e)
  {
    match e
    case Take(t, m, w) => !(s.locks[m].owner == t && s.locks[m].hold == 255)
    case Release(t, m) => !Loses(s, t, m)
    case Expire(t, m) => true
  }

  function Last(h: seq<Mid>): Mid {
    if h == [] then -1 else h[|h| - 1]
  }

  lemma AddLast(h: seq<Mid>, m: Mid)
    requires Distinct(h) && m !in h
    ensures Distinct(h + [m]) && forall x :: x in h + [m] <==> x in h || x == m
  {
  }

  /** Forgetting one of several distinct mutexes keeps the others in order. */
  lemma {:induction false} ForgetOne(h: seq<Mid>, m: Mid)
    requires Distinct(h) && m in h
    ensures var r := Forget(h, m);
      && Distinct(r) && |r| == |h| - 1
      && (forall x :: x in r <==> x in h && x != m)
      && (r != [] ==> r[0] == if h[0] == m then h[1] else h[0])
  {
    var k := |h| - 1;
    assert h == h[..k] + [h[k]];
    if h[k] != m {
      ForgetOne(h[..k], m);
      assert h[k] !in h[..k];
      AddLast(Forget(h[..k], m), h[k]);
    }
  }

  /** A lock that changes neither owner nor remembered priority, and a priority
      that changes only for a thread that owns something. */
  lemma StillNested(s: Sys, r: Sys, m: Mid)
    requires Nested(s) && Wellformed(r) && r.base == s.base && r.held == s.held && r.prio.Keys == s.prio.Keys
    requires m in s.locks && m in r.locks && r.locks == s.locks[m := r.locks[m]]
    requires r.locks[m].owner == s.locks[m].owner && r.locks[m].original == s.locks[m].original
    requires forall t :: t in s.prio && r.prio[t] != s.prio[t] ==> Own(s, t) != []
    ensures Nested(r)
  {
    forall t | t in r.prio ensures OwnOk(r, t) {
      assert t in s.prio.Keys;
      assert OwnOk(s, t);
    }
    forall t | t in r.prio ensures Grounded(r, t) {
      assert t in s.prio.Keys;
      assert Grounded(s, t);
    }
  }

  lemma TakeNested(s: Sys, t: Tid, m: Mid, wait: bool, flag: Flag)
    requires Nested(s) && Enabled(s, Take(t, m, wait)) && Safe(s, Take(t, m, wait))
    ensures LockKnown(s, m) && Nested(TakeStep(s, t, m, wait, flag).0)
  {
    var l := s.locks[m];
    assert LockOk(l) && LockKnown(s, m);
    var r := TakeStep(s, t, m, wait, flag).0;
    TakeWellformed(s, t, m, wait, flag);
    if l.owner != t && l.value > 0 {
      TakeFree(s, t, m, r);
    } else {
      assert s.locks[m := l] == s.locks;
      assert l.owner in s.prio ==> OwnOk(s, l.owner);
      StillNested(s, r, m);
    }
  }

  lemma TakeFree(s: Sys, t: Tid, m: Mid, r: Sys)
    requires Nested(s) && t in s.prio && m in s.locks && s.locks[m].owner == NOBODY && Wellformed(r)
    requires r.base == s.base && r.prio == s.prio && r.held == s.held[t := Own(s, t) + [m]]
    requires m in r.locks && r.locks == s.locks[m := r.locks[m]] && r.locks[m].owner == t &&
             r.locks[m].original == s.prio[t]
    ensures Nested(r)
  {
    assert OwnOk(s, t) && Grounded(s, t);
    AddLast(Own(s, t), m);
    forall x | x in r.prio ensures OwnOk(r, x) {
      assert OwnOk(s, x);
    }
    forall x | x in r.prio ensures Grounded(r, x) {
      assert Grounded(s, x) && OwnOk(s, x);
      assert Own(s, x) != [] ==> Own(s, x)[0] in Own(s, x);
    }
  }

  /** Everything but t's own ground is kept by a last release, and that ground
      exactly when the release does not lose it. */
  lemma Released(s: Sys, t: Tid, m: Mid, r: Sys)
    requires Nested(s) && t in s.prio && t in s.base && m in s.locks && Wellformed(r)
    requires s.locks[m].owner == t && s.locks[m].hold == 1
    requires m in r.locks && r.locks == s.locks[m := r.locks[m]] && r.base == s.base
    requires r.prio == s.prio[t := s.locks[m].original] && r.locks[m].owner != t
    requires var h := s.held[t := Forget(Own(s, t), m)];
      var n := r.locks[m].owner;
      r.held == if n == NOBODY then h else h[n := Own(s, n) + [m]]
    requires r.locks[m].owner != NOBODY ==>
      r.locks[m].owner in s.prio && r.locks[m].original == s.prio[r.locks[m].owner]
    ensures Nested(r) <==> !Loses(s, t, m)
  {
    var n := r.locks[m].owner;
    assert OwnOk(s, t);
    ForgetOne(Own(s, t), m);
    if n != NOBODY {
      assert OwnOk(s, n);
      AddLast(Own(s, n), m);
    }
    forall x | x in r.prio ensures OwnOk(r, x) {
      assert x in s.prio && OwnOk(s, x);
    }
    forall x | x in r.prio && x != t ensures x in r.base && Grounded(r, x) {
      assert x in s.prio.Keys;
      OtherGrounded(s, t, m, r, x);
    }
    ReleasedGround(s, t, m, r);
    assert r.base.Keys == r.prio.Keys;
  }

  lemma OtherGrounded(s: Sys, t: Tid, m: Mid, r: Sys, x: Tid)
    requires Nested(s) && x in s.prio && x in s.base && x != t && m in s.locks && s.locks[m].owner == t
    requires m in r.locks && r.locks == s.locks[m := r.locks[m]] && r.base == s.base && x in r.prio &&
             r.prio[x] == s.prio[x]
    requires Own(r, x) == if r.locks[m].owner == x then Own(s, x) + [m] else Own(s, x)
    requires r.locks[m].owner == x ==> r.locks[m].original == s.prio[x]
    ensures Grounded(r, x)
  {
    assert Grounded(s, x) && OwnOk(s, x);
    assert Own(s, x) != [] ==> Own(s, x)[0] in Own(s, x);
  }

  lemma ReleasedGround(s: Sys, t: Tid, m: Mid, r: Sys)
    requires Nested(s) && t in s.prio && t in s.base && m in s.locks && s.locks[m].owner == t && s.locks[m].hold == 1
    requires m in r.locks && r.locks == s.locks[m := r.locks[m]] && r.base == s.base
    requires t in r.prio && r.prio[t] == s.locks[m].original && Own(r, t) == Forget(Own(s, t), m)
    ensures Grounded(r, t) <==> !Loses(s, t, m)
  {
    var own := Own(s, t);
    assert Grounded(s, t) && OwnOk(s, t);
    ForgetOne(own, m);
    assert own[0] in own;
    if |own| > 1 {
      assert own[1] in own && own[0] != own[1];
    }
  }

  /** A release keeps every thread grounded exactly when it does not lose the base. */
  lemma ReleaseNestedIff(s: Sys, t: Tid, m: Mid)
    requires Nested(s) && Enabled(s, Release(t, m))
    ensures t in s.base && (s.locks[m].wait != [] ==> s.locks[m].wait[0] in s.prio)
    ensures Nested(ReleaseStep(s, t, m).0) <==> !Loses(s, t, m)
  {
    var l := s.locks[m];
    assert t in s.prio.Keys;
    ReleaseWellformed(s, t, m);
    var r := ReleaseStep(s, t, m).0;
    assert LockOk(l);
    if t == l.owner && l.hold != 1 {
      StillNested(s, r, m);
    } else if t == l.owner {
      if l.wait != [] {
        assert l.wait[0] in l.wait;
      }
      Released(s, t, m, r);
    }
  }

  /** A call keeps every thread grounded exactly when it is safe. */
  lemma StepNestedIff(s: Sys, e: Event, flag: Flag)
    requires Nested(s) && Enabled(s, e)
    ensures Nested(Next(s, e, flag).0) <==> Safe(s, e)
  {
    match e
    case Take(t, m, wait) =>
      StepWellformedIff(s, e, flag);
      if Safe(s, e) {
        TakeNested(s, t, m, wait, flag);
      }
    case Release(t, m) => ReleaseNestedIff(s, t, m);
    case Expire(t, m) =>
      ExpireWellformed(s, t, m, flag);
      StillNested(s, Next(s, e, flag).0, m);
  }

  // --------------------------------------------------------------- whole runs

  /** A run without a 256th nested take, the one call that breaks a lock. */
  ghost predicate Runnable(s: Sys, es: seq<Event>, flag: Flag): (r: bool)
    requires Wellformed(s)
    ensures r && es != [] ==> Enabled(s, es[0]) && Wellformed(Next(s, es[0], flag).0)
    decreases |es|
  {
    es == [] ||
    (Enabled(s, es[0]) && !Wraps(s, es[0]) &&
     (StepWellformedIff(s, es[0], flag); Runnable(Next(s, es[0], flag).0, es[1..], flag)))
  }

  ghost function Run(s: Sys, es: seq<Event>, flag: Flag): Sys
    requires Wellformed(s) && Runnable(s, es, flag)
    decreases |es|
  {
    if es == [] then s else Run(Next(s, es[0], flag).0, es[1..], flag)
  }

  /** Over every run value is 1 exactly when there is no owner, exactly when hold is
      0, and who waits waits for an owner. */
  lemma {:induction false} RunWellformed(s: Sys, es: seq<Event>, flag: Flag)
    requires Wellformed(s) && Runnable(s, es, flag)
    ensures Wellformed(Run(s, es, flag))
    decreases |es|
  {
    if es != [] {
      RunWellformed(Next(s, es[0], flag).0, es[1..], flag);
    }
  }

  /** No release along the run loses the base of its thread. */
  ghost predicate SafeRun(s: Sys, es: seq<Event>, flag: Flag)
    requires Wellformed(s) && Runnable(s, es, flag)
    decreases |es|
  {
    es == [] || (Safe(s, es[0]) && SafeRun(Next(s, es[0], flag).0, es[1..], flag))
  }

  /** Every state along the run is grounded. */
  ghost predicate AlwaysNested(s: Sys, es: seq<Event>, flag: Flag)
    requires Wellformed(s) && Runnable(s, es, flag)
    decreases |es|
  {
    Nested(s) && (es == [] || AlwaysNested(Next(s, es[0], flag).0, es[1..], flag))
  }

  /** All states of a run are grounded exactly when all its calls are safe. */
  lemma {:induction false} RunNestedIff(s: Sys, es: seq<Event>, flag: Flag)
    requires Nested(s) && Runnable(s, es, flag)
    ensures AlwaysNested(s, es, flag) <==> SafeRun(s, es, flag)
    decreases |es|
  {
    if es != [] {
      StepNestedIff(s, es[0], flag);
      if Safe(s, es[0]) {
        RunNestedIff(Next(s, es[0], flag).0, es[1..], flag);
      }
    }
  }

  /** After any run of safe calls, under either waiting order, a thread that owns
      nothing is at its base priority. */
  lemma {:induction false} RunGrounded(s: Sys, es: seq<Event>, flag: Flag, t: Tid)
    requires Nested(s) && Runnable(s, es, flag) && SafeRun(s, es, flag) && t in s.base
    ensures Run(s, es, flag).base == s.base
    ensures var r := Run(s, es, flag);
      Nested(r) && t in r.prio && (Own(r, t) == [] ==> r.prio[t] == s.base[t])
    decreases |es|
  {
    if es == [] {
      assert t in s.prio.Keys;
      assert Grounded(s, t);
    } else {
      StepNestedIff(s, es[0], flag);
      RunGrounded(Next(s, es[0], flag).0, es[1..], flag, t);
    }
  }

  /** Last in, first out: a thread gives up what it took last. */
  ghost predicate Lifo(s: Sys, e: Event)
    requires Enabled(s, e)
  {
    e.Release? && s.locks[e.m].owner == e.t && s.locks[e.m].hold == 1 ==> Last(Own(s, e.t)) == e.m
  }

  /** Releasing in last-in-first-out order is safe. */
  lemma LifoSafe(s: Sys, e: Event, flag: Flag)
    requires Nested(s) && Enabled(s, e) && Lifo(s, e) && !Wraps(s, e)
    ensures Safe(s, e)
  {
    StepWellformedIff(s, e, flag);
    if e.Release? {
      assert OwnOk(s, e.t);
    }
  }
}
