/** When a timer that nobody else touches fires: exactly at its deadline and, if it is
    periodic, at every period after it. */
module TimerBeats {
  import opened RtList
  import opened TimerSpec
  import opened TimerRuns

  /** No callback starts or stops timer t. */
  ghost predicate Private(cb: Callbacks, t: Node) {
    forall x, c :: x in cb && c in cb[x] ==> c.id != t
  }

  /** Timer t is pending for tick d. */
  ghost predicate Waits(s: Sys, t: Node, d: nat) {
    && t in s.recs && s.recs[t].activated
    && (forall x :: Entry(t, x) in s.pending <==> x == d)
  }

  ghost predicate Idle(s: Sys, t: Node) {
    t in s.recs && forall x :: Entry(t, x) !in s.pending
  }

  ghost predicate SameTimer(s: Sys, r: Sys, t: Node) {
    && t in s.recs && t in r.recs && r.recs[t] == s.recs[t]
    && (forall x :: Entry(t, x) in r.pending <==> Entry(t, x) in s.pending)
  }

  /** The firings of timer t. */
  function Of(log: seq<Firing>, t: Node): seq<Firing> {
    if log == [] then []
    else
      var before, f := log[..|log| - 1], log[|log| - 1];
      if f.entry.id == t then Of(before, t) + [f] else Of(before, t)
  }

  lemma OfJoin(a: seq<Firing>, f: Firing, t: Node)
    ensures Of(a + [f], t) == if f.entry.id == t then Of(a, t) + [f] else Of(a, t)
  {
    assert (a + [f])[..|a + [f]| - 1] == a;
  }

  // ------------------------------------------------------------ turns of the check

  lemma CmdOther(s: Sys, c: Cmd, t: Node)
    requires WellFormed(s) && c.id in s.recs && t in s.recs && c.id != t
    ensures WellFormed(CmdSpec(s, c)) && SameTimer(s, CmdSpec(s, c), t)
  {
    match c
    case Start(x) => StartedEntries(s, x);
    case Stop(x) => StoppedEntries(s, x);
  }

  lemma {:induction false} CmdsOther(s: Sys, cmds: seq<Cmd>, t: Node)
    requires WellFormed(s) && t in s.recs && forall c :: c in cmds ==> c.id in s.recs && c.id != t
    ensures WellFormed(RunCmds(s, cmds)) && SameTimer(s, RunCmds(s, cmds), t)
    decreases |cmds|
  {
    if cmds != [] {
      CmdOther(s, cmds[0], t);
      CmdsOther(CmdSpec(s, cmds[0]), cmds[1..], t);
    }
  }

  /** Timer x is taken off the list and its callback has run. */
  function Called(s: Sys, x: Node, cb: Callbacks, log: seq<Firing>): Sys
    requires x in cb && forall c :: c in cb[x] ==> c.id in s.recs
  {
    RunCmds(s.(pending := Without(s.pending, x), fired := log), cb[x])
  }

  lemma CalledOther(s: Sys, x: Node, cb: Callbacks, log: seq<Firing>, t: Node)
    requires WellFormed(s) && Closed(cb, s.recs) && Private(cb, t) && x in cb && t in s.recs
    ensures var r := Called(s, x, cb, log); WellFormed(r) && r.recs.Keys == s.recs.Keys && r.recs[t] == s.recs[t]
    ensures forall d :: Entry(t, d) in Called(s, x, cb, log).pending <==> Entry(t, d) in s.pending && x != t
  {
    WithoutKeeps(s.pending, x);
    WithoutMembers(s.pending, x);
    CmdsOther(s.(pending := Without(s.pending, x), fired := log), cb[x], t);
  }

  lemma FireOther(s: Sys, cb: Callbacks, t: Node)
    requires WellFormed(s) && Closed(cb, s.recs) && Private(cb, t) && t in s.recs
    requires s.pending != [] && s.pending[0].id != t
    ensures s.pending[0] in s.pending && SameTimer(s, FireSpec(s, cb), t)
  {
    assert s.pending[0] in s.pending;
    var x, log := s.pending[0].id, s.fired + [Firing(s.pending[0], s.now)];
    CalledOther(s, x, cb, log, t);
    var c := Called(s, x, cb, log);
    StartedEntries(c.(recs := c.recs[x := c.recs[x].(activated := false)]), x);
  }

  /** The turn of timer t itself. */
  lemma FireOwn(s: Sys, cb: Callbacks, t: Node, d: nat)
    requires WellFormed(s) && Closed(cb, s.recs) && Private(cb, t) && Waits(s, t, d)
    requires s.pending != [] && s.pending[0].id == t
    ensures s.pending[0] == Entry(t, d)
    ensures var r := FireSpec(s, cb);
      if s.recs[t].periodic then Waits(r, t, r.now + s.recs[t].initTick) && r.recs[t] == s.recs[t] else Idle(r, t)
  {
    var e := s.pending[0];
    assert e in s.pending && e == Entry(t, e.deadline);
    var log := s.fired + [Firing(e, s.now)];
    CalledOther(s, t, cb, log, t);
    var c := Called(s, t, cb, log);
    StartedEntries(c.(recs := c.recs[t := c.recs[t].(activated := false)]), t);
  }

  // ------------------------------------------------------------------- one check

  /** A check in which t is not due leaves it alone. */
  lemma {:induction false} CheckOther(s: Sys, cb: Callbacks, t: Node)
    requires Good(s, cb) && Private(cb, t) && t in s.recs
    requires forall d: nat :: Entry(t, d) in s.pending ==> d > s.now
    ensures var r := CheckSpec(s, cb); SameTimer(s, r, t) && Of(r.fired, t) == Of(s.fired, t)
    decreases |Due(s.pending, s.now)|
  {
    if s.pending != [] && s.pending[0].deadline <= s.now {
      var e := s.pending[0];
      assert e in s.pending && e == Entry(e.id, e.deadline);
      FireDrains(s, cb);
      FireOther(s, cb, t);
      OfJoin(s.fired, Firing(e, s.now), t);
      CheckOther(FireSpec(s, cb), cb, t);
    }
  }

  /** A check in which t is due fires it once and, if it is periodic, arms it again. */
  lemma {:induction false} CheckOwn(s: Sys, cb: Callbacks, t: Node, d: nat)
    requires Good(s, cb) && Private(cb, t) && Waits(s, t, d) && d <= s.now
    requires s.recs[t].periodic ==> s.recs[t].initTick >= 1
    ensures var r := CheckSpec(s, cb);
      && Of(r.fired, t) == Of(s.fired, t) + [Firing(Entry(t, d), s.now)]
      && (if s.recs[t].periodic then Waits(r, t, s.now + s.recs[t].initTick) && r.recs[t] == s.recs[t] else Idle(r, t))
    decreases |Due(s.pending, s.now)|
  {
    assert Entry(t, d) in s.pending;
    FirstDue(s.pending, Entry(t, d));
    var e, r := s.pending[0], FireSpec(s, cb);
    FireDrains(s, cb);
    OfJoin(s.fired, Firing(e, s.now), t);
    if e.id == t {
      FireOwn(s, cb, t, d);
      CheckOther(r, cb, t);
    } else {
      FireOther(s, cb, t);
      CheckOwn(r, cb, t, d);
    }
  }

  lemma FirstDue(p: seq<Entry>, e: Entry)
    requires Sorted(p) && e in p
    ensures p != [] && p[0].deadline <= e.deadline
  {
    var i :| 0 <= i < |p| && p[i] == e;
    assert i > 0 ==> p[0].deadline <= p[i].deadline;
  }

  // ----------------------------------------------------------------- whole runs

  /** The run neither starts nor stops nor controls timer t. */
  ghost predicate Untouched(evs: seq<Event>, t: Node) {
    forall ev :: ev in evs ==> ev.Tick? || ev.id != t
  }

  function Ticks(evs: seq<Event>): nat {
    if evs == [] then 0 else (if evs[0].Tick? then 1 else 0) + Ticks(evs[1..])
  }

  /** The firings of a timer due at d, up to a tick: at d and, if it is periodic, at every
      period after it. */
  function Beats(t: Node, d: nat, rec: Rec, now: nat): seq<Firing>
    decreases now + 1 - d, 1
  {
    if d > now then []
    else [Firing(Entry(t, d), d)] + Later(t, d, rec, now)
  }

  function Later(t: Node, d: nat, rec: Rec, now: nat): seq<Firing>
    decreases now + 1 - d, 0
  {
    if rec.periodic && 0 < rec.initTick <= now - d then Beats(t, d + rec.initTick, rec, now) else []
  }

  lemma EventOther(s: Sys, ev: Event, cb: Callbacks, t: Node)
    requires Between(s, cb, 0) && Legal(s, ev, cb, 0) && !ev.Tick? && ev.id != t && t in s.recs
    ensures var r := StepSpec(s, ev, cb); SameTimer(s, r, t) && r.fired == s.fired && r.now == s.now
  {
    match ev
    case DoStart(x) => CmdOther(s, Start(x), t);
    case DoStop(x) => CmdOther(s, Stop(x), t);
    case DoControl(x, periodic, ticks) =>
  }

  lemma IdleTick(s: Sys, cb: Callbacks, t: Node)
    requires WellFormed(s) && Tame(cb, s.recs) && Private(cb, t) && Idle(s, t)
    ensures var r := TickSpec(s, cb); Idle(r, t) && Of(r.fired, t) == Of(s.fired, t) && r.now == s.now + 1
  {
    var s1 := s.(now := s.now + 1);
    TickGood(s, cb);
    assert Idle(s1, t);
    assert SameTimer(s1, CheckSpec(s1, cb), t) && Of(CheckSpec(s1, cb).fired, t) == Of(s.fired, t) by {
      CheckOther(s1, cb, t);
    }
  }

  lemma {:induction false} RunIdle(s: Sys, evs: seq<Event>, cb: Callbacks, t: Node)
    requires Between(s, cb, 0) && LegalRun(s, evs, cb, 0) && Private(cb, t) && Untouched(evs, t) && Idle(s, t)
    ensures var r := Run(s, evs, cb); Of(r.fired, t) == Of(s.fired, t) && r.now == s.now + Ticks(evs)
    decreases |evs|
  {
    if evs != [] {
      StepBetween(s, evs[0], cb, 0);
      if evs[0].Tick? {
        IdleTick(s, cb, t);
      } else {
        EventOther(s, evs[0], cb, t);
      }
      RunIdle(StepSpec(s, evs[0], cb), evs[1..], cb, t);
    }
  }

  /** One tick before the deadline. */
  lemma TickBefore(s: Sys, cb: Callbacks, t: Node, d: nat)
    requires WellFormed(s) && Tame(cb, s.recs) && Private(cb, t) && Waits(s, t, d) && d > s.now + 1
    ensures var r := TickSpec(s, cb);
      r.now == s.now + 1 && Waits(r, t, d) && r.recs[t] == s.recs[t] && Of(r.fired, t) == Of(s.fired, t)
  {
    var s1 := s.(now := s.now + 1);
    TickGood(s, cb);
    assert Waits(s1, t, d);
    assert SameTimer(s1, CheckSpec(s1, cb), t) && Of(CheckSpec(s1, cb).fired, t) == Of(s.fired, t) by {
      CheckOther(s1, cb, t);
    }
  }

  lemma TickGood(s: Sys, cb: Callbacks)
    requires WellFormed(s) && Tame(cb, s.recs)
    ensures Good(s.(now := s.now + 1), cb) && TickSpec(s, cb).now == s.now + 1
  {
    CheckLeavesFuture(s.(now := s.now + 1), cb);
  }

  lemma Advance(s: Sys, cb: Callbacks, t: Node, d: nat)
    requires WellFormed(s) && Tame(cb, s.recs) && Waits(s, t, d)
    ensures var s1 := s.(now := s.now + 1);
      Good(s1, cb) && Tame(cb, s1.recs) && Waits(s1, t, d) && TickSpec(s, cb) == CheckSpec(s1, cb)
  {
    TickGood(s, cb);
  }

  /** After a firing: armed for the next period, or done. */
  ghost predicate Onward(r: Sys, t: Node, rec: Rec) {
    if rec.periodic then Waits(r, t, r.now + rec.initTick) && r.recs[t] == rec else Idle(r, t)
  }

  /** The tick of the deadline. */
  lemma OwnOnward(s: Sys, cb: Callbacks, t: Node, d: nat)
    requires Good(s, cb) && Tame(cb, s.recs) && Private(cb, t) && Waits(s, t, d) && d == s.now
    ensures var r := CheckSpec(s, cb);
      r.now == d && Of(r.fired, t) == Of(s.fired, t) + [Firing(Entry(t, d), d)] && Onward(r, t, s.recs[t])
  {
    CheckLeavesFuture(s, cb);
    CheckOwn(s, cb, t, d);
  }

  /** Over every run, whatever happens to the other timers, a timer that nobody touches
      fires exactly at its deadline and, if it is periodic, at every period after it: no
      firing is early, late, missed or made twice. */
  lemma {:induction false} RunBeats(s: Sys, evs: seq<Event>, cb: Callbacks, t: Node, d: nat)
    requires Between(s, cb, 0) && LegalRun(s, evs, cb, 0) && Private(cb, t) && Untouched(evs, t)
    requires Waits(s, t, d) && d > s.now
    ensures var r := Run(s, evs, cb);
      Of(r.fired, t) == Of(s.fired, t) + Beats(t, d, s.recs[t], r.now) && r.now == s.now + Ticks(evs)
    decreases |evs|, 0
  {
    if evs != [] {
      StepBetween(s, evs[0], cb, 0);
      if !evs[0].Tick? {
        EventOther(s, evs[0], cb, t);
        RunBeats(StepSpec(s, evs[0], cb), evs[1..], cb, t, d);
      } else if d > s.now + 1 {
        TickBefore(s, cb, t, d);
        RunBeats(TickSpec(s, cb), evs[1..], cb, t, d);
      } else {
        RunAt(s, evs[1..], cb, t, d);
      }
    }
  }

  lemma {:induction false} RunAt(s: Sys, rest: seq<Event>, cb: Callbacks, t: Node, d: nat)
    requires Between(s, cb, 0) && Between(TickSpec(s, cb), cb, 0) && LegalRun(TickSpec(s, cb), rest, cb, 0)
    requires Private(cb, t) && Untouched(rest, t) && Waits(s, t, d) && d == s.now + 1
    ensures var r := Run(TickSpec(s, cb), rest, cb);
      Of(r.fired, t) == Of(s.fired, t) + Beats(t, d, s.recs[t], r.now) && r.now == s.now + 1 + Ticks(rest)
    decreases |rest|, 2
  {
    var m, rec := TickSpec(s, cb), s.recs[t];
    assert m.now == d && Of(m.fired, t) == Of(s.fired, t) + [Firing(Entry(t, d), d)] && Onward(m, t, rec) by {
      Advance(s, cb, t, d);
      OwnOnward(s.(now := s.now + 1), cb, t, d);
    }
    RunLater(m, rest, cb, t, rec);
    Assoc(Of(s.fired, t), [Firing(Entry(t, d), d)], Later(t, d, rec, Run(m, rest, cb).now));
  }

  /** From the tick of a firing on. */
  lemma {:induction false} RunLater(m: Sys, rest: seq<Event>, cb: Callbacks, t: Node, rec: Rec)
    requires Between(m, cb, 0) && LegalRun(m, rest, cb, 0) && Private(cb, t) && Untouched(rest, t)
    requires Onward(m, t, rec)
    ensures var r := Run(m, rest, cb);
      Of(r.fired, t) == Of(m.fired, t) + Later(t, m.now, rec, r.now) && r.now == m.now + Ticks(rest)
    decreases |rest|, 1
  {
    if rec.periodic {
      RunBeats(m, rest, cb, t, m.now + rec.initTick);
    } else {
      RunIdle(m, rest, cb, t);
    }
  }
}
