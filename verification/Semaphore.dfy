/** The semaphore of src/ipc.c: conservation of its count, and how blocked
    takers leave its queue. */
module Semaphore {
  import opened RtList
  import opened IpcList

  /** The range of the 16-bit value. */
  const RANGE: int := 0x1_0000

  /** `error` is the error field of the threads. */
  datatype State = State(value: int, wait: seq<Tid>, error: map<Tid, int>)

  datatype Event =
    | Take(t: Tid, block: bool, prio: map<Tid, int>)
    | Release
    | Expire(t: Tid)
    | Reset(value: nat)

  datatype Outcome = Granted | Refused | Blocked | Handed(t: Tid) | Counted | Quiet

  ghost predicate Enabled(s: State, e: Event) {
    match e
    case Take(t, b, prio) => t !in s.wait && t in prio && Known(s.wait, prio)
    case Expire(t) => t in s.wait
    case _ => true
  }

  /** One call, up to the suspension of a thread that has to wait. */
  function Next(s: State, e: Event, flag: Flag): (State, Outcome)
    requires e.Take? ==> e.t in e.prio && forall i :: 0 <= i < |s.wait| ==> s.wait[i] in e.prio
  {
    match e
    case Take(t, block, prio) =>
      if s.value > 0 then (s.(value := s.value - 1), Granted)
      else if !block then (s, Refused)
      else (State(s.value, Suspended(s.wait, t, flag, prio), s.error[t := EOK]), Blocked)
    case Release =>
      if s.wait != [] then (s.(wait := s.wait[1..]), Handed(s.wait[0]))
      else (s.(value := (s.value + 1) % RANGE), Counted)
    case Expire(t) => (s.(wait := Without(s.wait, t), error := s.error[t := ETIMEOUT]), Quiet)
    case Reset(v) => (State(v % RANGE, [], Failed(s.error, s.wait)), Quiet)
  }

  // ------------------------------------------------------ what every state keeps

  /** A positive value means nobody waits; who waits has no error yet. */
  ghost predicate Inv(s: State) {
    && 0 <= s.value < RANGE && Distinct(s.wait) && (s.value > 0 ==> s.wait == [])
    && (forall i :: 0 <= i < |s.wait| ==> Clean(s, s.wait[i]))
  }

  ghost predicate Clean(s: State, t: Tid) {
    t in s.error && s.error[t] == EOK
  }

  lemma CleanIn(s: State, t: Tid)
    requires Inv(s) && t in s.wait
    ensures Clean(s, t)
  {
    var i :| 0 <= i < |s.wait| && s.wait[i] == t;
  }

  lemma StepInv(s: State, e: Event, flag: Flag)
    requires Inv(s) && Enabled(s, e)
    ensures Inv(Next(s, e, flag).0)
  {
    var r := Next(s, e, flag).0;
    match e {
      case Take(t, block, prio) =>
        SuspendedIn(s.wait, t, flag, prio);
        SuspendedDistinct(s.wait, t, flag, prio);
      case Expire(t) => WithoutIn(s.wait, t);
      case _ =>
    }
    forall i | 0 <= i < |r.wait| ensures Clean(r, r.wait[i]) {
      var x := r.wait[i];
      assert x in r.wait;
      assert x in s.wait || (e.Take? && x == e.t);
      if x in s.wait {
        CleanIn(s, x);
      }
    }
  }

  // ---------------------------------------------------------------- what is seen

  /** rt_sem_take: granted exactly when the value was positive, refused exactly when it was
      0 and the caller does not wait, and then nothing changed; else the caller waits, the
      others keep their order, and its error is cleared. */
  lemma TakeAnswers(s: State, t: Tid, block: bool, prio: map<Tid, int>, flag: Flag)
    requires Inv(s) && Enabled(s, Take(t, block, prio))
    ensures var (r, o) := Next(s, Take(t, block, prio), flag);
      && (o == Granted <==> s.value > 0) && (o == Granted ==> r == s.(value := s.value - 1))
      && (o == Refused <==> s.value == 0 && !block) && (o == Refused ==> r == s)
      && (o == Blocked <==> t in r.wait) && (o == Blocked <==> s.value == 0 && block)
      && (o == Blocked ==> r.value == s.value && r.error == s.error[t := EOK] && Joined(s.wait, r.wait, t, flag, prio))
  {
    SuspendedJoins(s.wait, t, flag, prio);
  }

  /** rt_sem_release: with waiters the first one leaves the queue and the value stays 0;
      with none the value is one more, modulo 2^16. */
  lemma ReleaseAnswers(s: State, flag: Flag)
    requires Inv(s)
    ensures var (r, o) := Next(s, Release, flag);
      && r.error == s.error
      && (o.Handed? <==> s.wait != []) && (o.Handed? ==> [o.t] + r.wait == s.wait && r.value == s.value == 0)
      && (o == Counted <==> s.wait == []) && (o == Counted ==> r.wait == [] && r.value == (s.value + 1) % RANGE)
  {
  }

  /** A reset sets the value and leaves nobody waiting; a timeout takes one waiter off. */
  lemma ResetSets(s: State, v: nat, flag: Flag)
    requires Inv(s)
    ensures var r := Next(s, Reset(v), flag).0; r.value == v % RANGE && r.wait == []
    ensures forall t :: t in s.wait ==>
      t in Next(s, Reset(v), flag).0.error && Next(s, Reset(v), flag).0.error[t] == ERROR
  {
    forall t | t in s.wait ensures t in Failed(s.error, s.wait) && Failed(s.error, s.wait)[t] == ERROR {
      FailedAll(s.error, s.wait, t);
    }
  }

  lemma ExpireLeaves(s: State, t: Tid, flag: Flag)
    requires Inv(s) && t in s.wait
    ensures var r := Next(s, Expire(t), flag).0;
      && r.value == s.value && r.error == s.error[t := ETIMEOUT] && t !in r.wait
      && (exists i :: 0 <= i < |s.wait| && s.wait[i] == t && r.wait == Dropped(s.wait, i))
  {
    var i :| 0 <= i < |s.wait| && s.wait[i] == t;
    WithoutIsDropped(s.wait, i);
    WithoutIn(s.wait, t);
  }

  // --------------------------------------------------------------- conservation

  ghost predicate Runnable(s: State, es: seq<Event>, flag: Flag)
    decreases |es|
  {
    es == [] || (Enabled(s, es[0]) && Runnable(Next(s, es[0], flag).0, es[1..], flag))
  }

  ghost function Run(s: State, es: seq<Event>, flag: Flag): State
    requires Runnable(s, es, flag)
    decreases |es|
  {
    if es == [] then s else Run(Next(s, es[0], flag).0, es[1..], flag)
  }

  function Given(o: Outcome): nat {
    if o.Granted? || o.Handed? then 1 else 0
  }

  /** Immediate takes and hand-offs along a run. */
  ghost function Grants(s: State, es: seq<Event>, flag: Flag): nat
    requires Runnable(s, es, flag)
    decreases |es|
  {
    if es == [] then 0 else Given(Next(s, es[0], flag).1) + Grants(Next(s, es[0], flag).0, es[1..], flag)
  }

  ghost function Releases(es: seq<Event>): nat {
    if es == [] then 0 else (if es[0].Release? then 1 else 0) + Releases(es[1..])
  }

  /** Releases that find the 16-bit value at its maximum with nobody waiting. */
  ghost function Lost(s: State, es: seq<Event>, flag: Flag): nat
    requires Runnable(s, es, flag)
    decreases |es|
  {
    if es == [] then 0 else (if Overflows(s, es[0]) then 1 else 0) + Lost(Next(s, es[0], flag).0, es[1..], flag)
  }

  ghost predicate Overflows(s: State, e: Event) {
    e.Release? && s.wait == [] && s.value == RANGE - 1
  }

  /** One call conserves the count exactly when it does not overflow the value. */
  lemma StepConservesIff(s: State, e: Event, flag: Flag)
    requires Inv(s) && Enabled(s, e) && !e.Reset?
    ensures s.value + (if e.Release? then 1 else 0) == Next(s, e, flag).0.value + Given(Next(s, e, flag).1)
            <==> !Overflows(s, e)
  {
  }

  /** Between resets: initial value plus releases is the value plus the grants, plus a
      full turn of the value for every overflow. */
  lemma {:induction false} RunBalance(s: State, es: seq<Event>, flag: Flag)
    requires Inv(s) && Runnable(s, es, flag) && forall i :: 0 <= i < |es| ==> !es[i].Reset?
    ensures s.value + Releases(es) == Run(s, es, flag).value + Grants(s, es, flag) + RANGE * Lost(s, es, flag)
    ensures Inv(Run(s, es, flag))
    decreases |es|
  {
    if es != [] {
      StepInv(s, es[0], flag);
      StepConservesIff(s, es[0], flag);
      RunBalance(Next(s, es[0], flag).0, es[1..], flag);
    }
  }

  /** So the count is conserved over a run exactly when no release overflows. */
  lemma RunConservesIff(s: State, es: seq<Event>, flag: Flag)
    requires Inv(s) && Runnable(s, es, flag) && forall i :: 0 <= i < |es| ==> !es[i].Reset?
    ensures s.value + Releases(es) == Run(s, es, flag).value + Grants(s, es, flag) <==> Lost(s, es, flag) == 0
  {
    RunBalance(s, es, flag);
  }

  /** A release at 65535 leaves 0 behind. */
  lemma OverflowWitness()
    ensures var s := State(65535, [], map[]); Inv(s) && Next(s, Release, Fifo) == (State(0, [], map[]), Counted)
  {
  }

  // --------------------------------------------------------- leaving the queue

  lemma {:induction false} FailedAll(error: map<Tid, int>, ts: seq<Tid>, t: Tid)
    ensures t in ts ==> t in Failed(error, ts) && Failed(error, ts)[t] == ERROR
    ensures t !in ts && t in error ==> t in Failed(error, ts) && Failed(error, ts)[t] == error[t]
    decreases |ts|
  {
    if ts != [] {
      FailedAll(error[ts[0] := ERROR], ts[1..], t);
    }
  }

  /** A waiter that leaves carries the error code of the way it left: none for a
      grant, a timeout, or the error of a reset. */
  lemma LeavesWith(s: State, e: Event, flag: Flag, t: Tid)
    requires Inv(s) && Enabled(s, e) && t in s.wait && t !in Next(s, e, flag).0.wait
    ensures var (r, o) := Next(s, e, flag);
      && t in r.error
      && (r.error[t] == EOK <==> o == Handed(t))
      && (r.error[t] == ETIMEOUT <==> e == Expire(t))
      && (r.error[t] == ERROR <==> e.Reset?)
  {
    CleanIn(s, t);
    match e
    case Take(x, block, prio) => SuspendedIn(s.wait, x, flag, prio);
    case Release => assert s.wait == [s.wait[0]] + s.wait[1..];
    case Expire(x) => WithoutIn(s.wait, x);
    case Reset(v) => FailedAll(s.error, s.wait, t);
  }

  function Here(s: State, t: Tid): nat {
    if t in s.wait then 1 else 0
  }

  /** How often t was suspended on the semaphore along a run, and how often it left. */
  ghost function Blocks(s: State, es: seq<Event>, flag: Flag, t: Tid): nat
    requires Runnable(s, es, flag)
    decreases |es|
  {
    if es == [] then 0
    else (if Next(s, es[0], flag).1.Blocked? && es[0].t == t then 1
      else 0) + Blocks(Next(s, es[0], flag).0, es[1..], flag, t)
  }

  ghost function Leaves(s: State, es: seq<Event>, flag: Flag, t: Tid): nat
    requires Runnable(s, es, flag)
    decreases |es|
  {
    if es == [] then 0
    else (if Leaving(s, es[0], flag, t) then 1 else 0) + Leaves(Next(s, es[0], flag).0, es[1..], flag, t)
  }

  /** The call ends the wait of t: a hand-off to it, its timeout, or a reset. */
  ghost predicate Leaving(s: State, e: Event, flag: Flag, t: Tid)
    requires Enabled(s, e)
  {
    t in s.wait && (Next(s, e, flag).1 == Handed(t) || e == Expire(t) || e.Reset?)
  }

  lemma StepLeaves(s: State, e: Event, flag: Flag, t: Tid)
    requires Inv(s) && Enabled(s, e)
    ensures Here(s, t) + (if Next(s, e, flag).1.Blocked? && e.t == t then 1 else 0) ==
            Here(Next(s, e, flag).0, t) + (if Leaving(s, e, flag, t) then 1 else 0)
  {
    match e
    case Take(x, block, prio) => SuspendedIn(s.wait, x, flag, prio);
    case Release =>
      if s.wait != [] {
        assert s.wait == [s.wait[0]] + s.wait[1..];
        assert s.wait[0] !in s.wait[1..];
      }
    case Expire(x) => WithoutIn(s.wait, x);
    case Reset(v) =>
  }

  /** Each suspension ends exactly once, or the thread is still in the queue. */
  lemma {:induction false} RunLeaves(s: State, es: seq<Event>, flag: Flag, t: Tid)
    requires Inv(s) && Runnable(s, es, flag)
    ensures Here(s, t) + Blocks(s, es, flag, t) == Here(Run(s, es, flag), t) + Leaves(s, es, flag, t)
    decreases |es|
  {
    if es != [] {
      StepInv(s, es[0], flag);
      StepLeaves(s, es[0], flag, t);
      RunLeaves(Next(s, es[0], flag).0, es[1..], flag, t);
    }
  }

  // ---------------------------------------------------------------- the object

  class SemaphoreObject {
    const flag: Flag
    var value: int
    var links: Links
    var error: map<Tid, int>
    ghost var wait: seq<Tid>

    ghost function View(): State
      reads this
    {
      State(value, wait, error)
    }

    ghost predicate Valid()
      reads this
    {
      Inv(View()) && Ring(links, [LIST] + wait)
    }

    /** rt_sem_init. */
    constructor (value: nat, flag: Flag)
      requires value < RANGE
      ensures Valid() && this.flag == flag && View() == State(value, [], map[])
    {
      this.value, this.flag, wait, error := value, flag, [], map[];
      links := Links(map[LIST := LIST], map[LIST := LIST]);
      assert NodeAt(Links(map[LIST := LIST], map[LIST := LIST]), [LIST], 0);
      assert [LIST] + [] == [LIST];
    }

    /** rt_sem_take up to the suspension of a thread that has to wait. */
    method TakeSem(t: Tid, block: bool, prio: map<Tid, int>) returns (o: Outcome)
      requires Valid() && Enabled(View(), Event.Take(t, block, prio)) && t != LIST
      modifies this
      ensures Valid() && (View(), o) == Next(old(View()), Event.Take(t, block, prio), flag)
    {
      StepInv(View(), Event.Take(t, block, prio), flag);
      if value > 0 {
        value := value - 1;
        o := Granted;
      } else if !block {
        o := Refused;
      } else {
        error := error[t := EOK];
        links := Suspend(links, LIST, t, flag, prio, wait);
        wait := Suspended(wait, t, flag, prio);
        o := Blocked;
      }
    }

    /** rt_sem_release. */
    method ReleaseSem() returns (o: Outcome)
      requires Valid()
      modifies this
      ensures Valid() && (View(), o) == Next(old(View()), Event.Release, flag)
    {
      StepInv(View(), Event.Release, flag);
      EmptyIff(links, LIST, wait);
      if links.next[LIST] != LIST {
        var t;
        links, t := Resume(links, LIST, wait);
        o := Handed(t);
        wait := wait[1..];
      } else {
        value := (value + 1) % RANGE;
        o := Counted;
      }
    }

    /** rt_thread_timeout of a thread suspended on the semaphore. */
    method ExpireWait(t: Tid)
      requires Valid() && t in wait
      modifies this
      ensures Valid() && View() == Next(old(View()), Event.Expire(t), flag).0
    {
      StepInv(View(), Event.Expire(t), flag);
      error := error[t := ETIMEOUT];
      LeftRing(links, LIST, wait, t);
      links := Remove(links, t);
      wait := Without(wait, t);
    }

    /** rt_sem_control with RT_IPC_CMD_RESET. */
    method ResetSem(v: nat)
      requires Valid()
      modifies this
      ensures Valid() && View() == Next(old(View()), Event.Reset(v), flag).0
    {
      StepInv(View(), Event.Reset(v), flag);
      links, error := ResumeAll(links, LIST, error, wait);
      wait := [];
      value := v % RANGE;
      assert [LIST] + [] == [LIST];
    }
  }
}
