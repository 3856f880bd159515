/** The mutexes of src/ipc.c and the priorities of the threads that use them,
    as a machine over whole calls up to the point where they block. */
module MutexSpec {
  import opened RtList
  import opened IpcList

  type Mid = int

  /** No thread, the null owner. */
  const NOBODY: Tid := -1
  /** original_priority of a free mutex. */
  const UNSET: int := 0xff

  datatype Lock = Lock(value: int, owner: Tid, original: int, hold: int, wait: seq<Tid>)

  /** `base` is the priority a thread was given; `held` lists what each thread
      owns in the order it got it. */
  datatype Sys = Sys(locks: map<Mid, Lock>, prio: map<Tid, int>, base: map<Tid, int>, held: map<Tid, seq<Mid>>)

  datatype Event =
    | Take(t: Tid, m: Mid, wait: bool)
    | Release(t: Tid, m: Mid)
    | Expire(t: Tid, m: Mid)

  datatype Outcome = Ok | Timeout | Error | Blocked

  function Fresh(): Lock { Lock(1, NOBODY, UNSET, 0, []) }

  // ------------------------------------------------------------------ the steps

  ghost predicate Waits(s: Sys, t: Tid) {
    exists m :: m in s.locks && t in s.locks[m].wait
  }

  ghost predicate Enabled(s: Sys, e: Event) {
    && e.m in s.locks && e.t in s.prio
    && match e
       case Take(t, m, w) => !Waits(s, t)
       case Release(t, m) => !Waits(s, t)
       case Expire(t, m) => t in s.locks[m].wait
  }

  function Own(s: Sys, t: Tid): seq<Mid> {
    if t in s.held then s.held[t] else []
  }

  /** The owner gets the priority of a more urgent thread that has to wait. */
  function Boosted(prio: map<Tid, int>, owner: Tid, t: Tid): map<Tid, int>
    requires t in prio && owner in prio
  {
    if prio[t] < prio[owner] then prio[owner := prio[t]] else prio
  }

  /** rt_mutex_take, up to the suspension of a thread that has to wait. */
  ghost function TakeStep(s: Sys, t: Tid, m: Mid, wait: bool, flag: Flag): (Sys, Outcome)
    requires m in s.locks && t in s.prio
    requires s.locks[m].value <= 0 ==> s.locks[m].owner in s.prio && Known(s.locks[m].wait, s.prio)
  {
    var l := s.locks[m];
    if l.owner == t then (s.(locks := s.locks[m := l.(hold := (l.hold + 1) % 256)]), Ok)
    else if l.value > 0 then
      (s.(locks := s.locks[m := Lock(l.value - 1, t, s.prio[t], (l.hold + 1) % 256, l.wait)],
          held := s.held[t := Own(s, t) + [m]]), Ok)
    else if !wait then (s, Timeout)
    else
      var p := Boosted(s.prio, l.owner, t);
      (s.(prio := p, locks := s.locks[m := l.(wait := Suspended(l.wait, t, flag, p))]), Blocked)
  }

  /** The list without its last occurrence of m. */
  function Forget(held: seq<Mid>, m: Mid): seq<Mid> {
    if held == [] then []
    else if held[|held| - 1] == m then held[..|held| - 1]
    else Forget(held[..|held| - 1], m) + [held[|held| - 1]]
  }

  /** rt_mutex_release. */
  function ReleaseStep(s: Sys, t: Tid, m: Mid): (Sys, Outcome)
    requires m in s.locks && t in s.prio && (s.locks[m].wait != [] ==> s.locks[m].wait[0] in s.prio)
  {
    var l := s.locks[m];
    if t != l.owner then (s, Error)
    else if (l.hold - 1) % 256 != 0 then (s.(locks := s.locks[m := l.(hold := (l.hold - 1) % 256)]), Ok)
    else
      var p := s.prio[t := l.original];
      var h := s.held[t := Forget(Own(s, t), m)];
      if l.wait == [] then (s.(prio := p, held := h, locks := s.locks[m := Lock(l.value + 1, NOBODY, UNSET, 0, [])]),
        Ok)
      else
        var n := l.wait[0];
        (s.(prio := p, held := h[n := (if n in h then h[n] else []) + [m]],
            locks := s.locks[m := Lock(l.value, n, p[n], 1, l.wait[1..])]), Ok)
  }

  ghost function Next(s: Sys, e: Event, flag: Flag): (Sys, Outcome)
    requires Enabled(s, e) && Wellformed(s)
  {
    match e
    case Take(t, m, wait) => TakeStep(s, t, m, wait, flag)
    case Release(t, m) => ReleaseStep(s, t, m)
    case Expire(t, m) => (s.(locks := s.locks[m := s.locks[m].(wait := Without(s.locks[m].wait, t))]), Timeout)
  }

  // ------------------------------------------------------ what every state keeps

  /** The value is one iff nobody owns the mutex iff it is not held, and only an
      owned mutex has waiters. */
  ghost predicate LockOk(l: Lock) {
    && (l.value == 0 || l.value == 1)
    && (l.value == 1 <==> l.owner == NOBODY)
    && (l.owner == NOBODY <==> l.hold == 0)
    && 0 <= l.hold < 256
    && (l.wait != [] ==> l.owner != NOBODY)
    && Distinct(l.wait) && l.owner !in l.wait
  }

  ghost predicate LockKnown(s: Sys, m: Mid)
    requires m in s.locks
  {
    var l := s.locks[m];
    Known(l.wait, s.prio) && (l.owner != NOBODY ==> l.owner in s.prio)
  }

  ghost predicate Wellformed(s: Sys) {
    && NOBODY !in s.prio
    && (forall m :: m in s.locks ==> LockOk(s.locks[m]))
    && (forall m :: m in s.locks ==> LockKnown(s, m))
    && OneWait(s)
  }

  /** A thread waits for at most one mutex. */
  ghost predicate OneWait(s: Sys) {
    forall m, n, t :: m in s.locks && n in s.locks && t in s.locks[m].wait && t in s.locks[n].wait ==> m == n
  }

  // ------------------------------------------------------------ it stays formed

  lemma InKnown(w: seq<Tid>, prio: map<Tid, int>, x: Tid)
    requires Known(w, prio) && x in w
    ensures x in prio
  {
  }

  /** Replacing one lock by a good one whose waiters waited there before, or are
      the one thread t that waited nowhere. */
  lemma LockReplaced(s: Sys, m: Mid, l: Lock, t: Tid, r: Sys)
    requires Wellformed(s) && m in s.locks && LockOk(l) && r.locks == s.locks[m := l] && r.prio.Keys == s.prio.Keys
    requires forall x :: x in l.wait ==> x in s.locks[m].wait || (x == t && !Waits(s, t) && t in s.prio)
    requires l.owner != NOBODY ==> l.owner in s.prio
    ensures Wellformed(r)
  {
    forall n | n in r.locks ensures LockKnown(r, n) {
      var w := r.locks[n].wait;
      assert LockKnown(s, n);
      forall i | 0 <= i < |w| ensures w[i] in r.prio {
        var x := w[i];
        assert x in w;
        if x in s.locks[n].wait {
          InKnown(s.locks[n].wait, s.prio, x);
        }
        assert x in s.prio.Keys;
      }
    }
    forall a, b, x | a in r.locks && b in r.locks && x in r.locks[a].wait && x in r.locks[b].wait ensures a == b {
      assert a != m ==> x in s.locks[a].wait;
      assert b != m ==> x in s.locks[b].wait;
    }
  }

  lemma TakeWellformed(s: Sys, t: Tid, m: Mid, wait: bool, flag: Flag)
    requires Wellformed(s) && Enabled(s, Take(t, m, wait)) && !(s.locks[m].owner == t && s.locks[m].hold == 255)
    ensures LockKnown(s, m) && Wellformed(TakeStep(s, t, m, wait, flag).0)
  {
    var l, r := s.locks[m], TakeStep(s, t, m, wait, flag).0;
    assert LockOk(l) && LockKnown(s, m);
    if l.owner != t && l.value <= 0 && wait {
      var p := Boosted(s.prio, l.owner, t);
      assert t !in l.wait;
      SuspendedIn(l.wait, t, flag, p);
      SuspendedDistinct(l.wait, t, flag, p);
    }
    LockReplaced(s, m, r.locks[m], t, r);
  }

  lemma ReleaseWellformed(s: Sys, t: Tid, m: Mid)
    requires Wellformed(s) && Enabled(s, Release(t, m))
    ensures (s.locks[m].wait != [] ==> s.locks[m].wait[0] in s.prio) && Wellformed(ReleaseStep(s, t, m).0)
  {
    var l := s.locks[m];
    assert LockOk(l) && LockKnown(s, m);
    var r := ReleaseStep(s, t, m).0;
    if l.wait != [] {
      assert l.wait[0] !in l.wait[1..] && l.wait[0] in l.wait;
      assert forall x :: x in l.wait[1..] ==> x in l.wait;
    }
    LockReplaced(s, m, r.locks[m], t, r);
  }

  lemma ExpireWellformed(s: Sys, t: Tid, m: Mid, flag: Flag)
    requires Wellformed(s) && Enabled(s, Expire(t, m))
    ensures Wellformed(Next(s, Expire(t, m), flag).0)
  {
    var l := s.locks[m];
    assert LockOk(l);
    WithoutIn(l.wait, t);
    var r := Next(s, Expire(t, m), flag).0;
    LockReplaced(s, m, r.locks[m], t, r);
  }

  /** The 256th nested take by one owner, where the 8-bit hold count wraps. */
  ghost predicate Wraps(s: Sys, e: Event)
    requires e.m in s.locks
  {
    e.Take? && s.locks[e.m].owner == e.t && s.locks[e.m].hold == 255
  }

  /** Every call keeps value, owner, hold and waiters consistent, except the one that
      wraps the hold count. */
  lemma StepWellformedIff(s: Sys, e: Event, flag: Flag)
    requires Wellformed(s) && Enabled(s, e)
    ensures Wellformed(Next(s, e, flag).0) <==> !Wraps(s, e)
  {
    match e
    case Take(t, m, wait) =>
      if s.locks[m].owner == t && s.locks[m].hold == 255 {
        assert !LockOk(Next(s, e, flag).0.locks[m]);
      } else {
        TakeWellformed(s, t, m, wait, flag);
      }
    case Release(t, m) => ReleaseWellformed(s, t, m);
    case Expire(t, m) => ExpireWellformed(s, t, m, flag);
  }
}
