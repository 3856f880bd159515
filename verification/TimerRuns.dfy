/** Whole runs of the timer system: starts, stops and ticks in any order. */
module TimerRuns {
  import opened RtList
  import opened TimerSpec

  ghost predicate HasId(p: seq<Entry>, t: Node) {
    exists e :: e in p && e.id == t
  }

  /** The flag of a timer tells whether the timer is linked. */
  ghost predicate FlagTells(s: Sys, t: Node)
    requires t in s.recs
  {
    s.recs[t].activated <==> HasId(s.pending, t)
  }

  ghost predicate Coherent(s: Sys) {
    forall t :: t in s.recs ==> FlagTells(s, t)
  }

  /** A timer that is ACTIVATED is linked; the other direction can fail. */
  ghost predicate Backed(s: Sys) {
    forall t :: t in s.recs && s.recs[t].activated ==> HasId(s.pending, t)
  }

  /** The timers whose flag does not tell. */
  ghost function Astray(s: Sys): set<Node> {
    set t | t in s.recs && !FlagTells(s, t)
  }

  ghost function StartedBy(cmds: seq<Cmd>): set<Node> {
    set c | c in cmds && c.Start? :: c.id
  }

  lemma CmdLinks(s: Sys, c: Cmd, x: Node)
    requires WellFormed(s) && c.id in s.recs && x in s.recs
    ensures WellFormed(CmdSpec(s, c))
    ensures c.Start? ==> (HasId(CmdSpec(s, c).pending, x) <==> x == c.id || HasId(s.pending, x))
    ensures c.Stop? && s.recs[c.id].activated ==>
              (HasId(CmdSpec(s, c).pending, x) <==> x != c.id && HasId(s.pending, x))
  {
    match c
    case Start(t) =>
      StartedEntries(s, t);
      var r := StartSpec(s, t);
      var e := Entry(t, s.now + s.recs[t].initTick);
      assert e in r.pending;
    case Stop(t) =>
      StoppedEntries(s, t);
  }

  /** A timer that went astray stays so until somebody starts it. */
  lemma {:induction false} RunFlagTells(s: Sys, cmds: seq<Cmd>, x: Node)
    requires WellFormed(s) && x in s.recs && (s.recs[x].activated ==> HasId(s.pending, x))
    requires forall c :: c in cmds ==> c.id in s.recs
    ensures var r := RunCmds(s, cmds);
      && WellFormed(r) && (r.recs[x].activated ==> HasId(r.pending, x))
      && (FlagTells(r, x) <==> FlagTells(s, x) || x in StartedBy(cmds))
    decreases |cmds|
  {
    if cmds != [] {
      CmdLinks(s, cmds[0], x);
      assert cmds == [cmds[0]] + cmds[1..];
      assert StartedBy(cmds) == (if cmds[0].Start? then {cmds[0].id} else {}) + StartedBy(cmds[1..]);
      RunFlagTells(CmdSpec(s, cmds[0]), cmds[1..], x);
    }
  }

  /** The fired timer starts its callback unlinked, whatever its flag says. */
  lemma {:induction false} RunArms(s: Sys, cmds: seq<Cmd>, t: Node, armed: bool)
    requires WellFormed(s) && t in s.recs
    requires HasId(s.pending, t) == armed && (armed ==> s.recs[t].activated)
    requires forall c :: c in cmds ==> c.id in s.recs
    ensures var r := RunCmds(s, cmds);
      && WellFormed(r)
      && HasId(r.pending, t) == Armed(cmds, t, armed)
      && (Armed(cmds, t, armed) ==> r.recs[t].activated)
      && r.recs[t].periodic == s.recs[t].periodic
    decreases |cmds|
  {
    if cmds != [] {
      var c := cmds[0];
      CmdLinks(s, c, t);
      RunArms(CmdSpec(s, c), cmds[1..], t, if c.id == t then c.Start? else armed);
    }
  }

  lemma FiredUnlinked(s: Sys, t: Node, f: seq<Firing>, x: Node)
    requires WellFormed(s) && t in s.recs && x in s.recs && Backed(s)
    ensures var s1 := s.(pending := Without(s.pending, t), fired := f);
      && WellFormed(s1) && !HasId(s1.pending, t)
      && (x != t ==> (HasId(s1.pending, x) <==> HasId(s.pending, x)) && (FlagTells(s1, x) <==> FlagTells(s, x)))
  {
    WithoutKeeps(s.pending, t);
    WithoutMembers(s.pending, t);
  }

  /** A one-shot timer whose own callback leaves it started. */
  ghost predicate SelfRestart(cb: Callbacks, recs: map<Node, Rec>, t: Node)
    requires t in cb && t in recs
  {
    !recs[t].periodic && Armed(cb[t], t, false)
  }

  lemma FireOwnFlag(s: Sys, cb: Callbacks)
    requires WellFormed(s) && Closed(cb, s.recs) && Backed(s) && s.pending != []
    ensures s.pending[0] in s.pending
    ensures var t, r := s.pending[0].id, FireSpec(s, cb);
      (r.recs[t].activated ==> HasId(r.pending, t)) && (FlagTells(r, t) <==> !SelfRestart(cb, s.recs, t))
  {
    assert s.pending[0] in s.pending;
    var t := s.pending[0].id;
    var s1 := s.(pending := Without(s.pending, t), fired := s.fired + [Firing(s.pending[0], s.now)]);
    FiredUnlinked(s, t, s1.fired, t);
    RunArms(s1, cb[t], t, false);
    var s2 := RunCmds(s1, cb[t]);
    var off := s2.(recs := s2.recs[t := s2.recs[t].(activated := false)]);
    if s2.recs[t].periodic && s2.recs[t].activated {
      CmdLinks(off, Start(t), t);
    }
  }

  lemma FireOtherFlag(s: Sys, cb: Callbacks, x: Node)
    requires WellFormed(s) && Closed(cb, s.recs) && Backed(s) && s.pending != [] && x in s.recs
    requires s.pending[0] in s.pending && x != s.pending[0].id
    ensures var t, r := s.pending[0].id, FireSpec(s, cb);
      && (r.recs[x].activated ==> HasId(r.pending, x))
      && (FlagTells(r, x) <==> FlagTells(s, x) || x in StartedBy(cb[t]))
  {
    var t := s.pending[0].id;
    var s1 := s.(pending := Without(s.pending, t), fired := s.fired + [Firing(s.pending[0], s.now)]);
    FiredUnlinked(s, t, s1.fired, x);
    RunFlagTells(s1, cb[t], x);
    var s2 := RunCmds(s1, cb[t]);
    var off := s2.(recs := s2.recs[t := s2.recs[t].(activated := false)]);
    CmdLinks(off, Start(t), x);
  }

  /** What a firing does to the timers that are astray. */
  ghost function AstrayNext(bad: set<Node>, t: Node, cb: Callbacks, recs: map<Node, Rec>): set<Node>
    requires t in cb && t in recs
  {
    (bad - {t} - StartedBy(cb[t])) + (if SelfRestart(cb, recs, t) then {t} else {})
  }

  lemma FireAstray(s: Sys, cb: Callbacks)
    requires WellFormed(s) && Closed(cb, s.recs) && Backed(s) && s.pending != []
    ensures s.pending[0] in s.pending && Backed(FireSpec(s, cb))
    ensures Astray(FireSpec(s, cb)) == AstrayNext(Astray(s), s.pending[0].id, cb, s.recs)
  {
    FireOwnFlag(s, cb);
    var r, t := FireSpec(s, cb), s.pending[0].id;
    forall x | x in s.recs && x != t
      ensures r.recs[x].activated ==> HasId(r.pending, x)
      ensures FlagTells(r, x) <==> FlagTells(s, x) || x in StartedBy(cb[t])
    {
      FireOtherFlag(s, cb, x);
    }
  }

  lemma NoneAstray(s: Sys)
    ensures Coherent(s) <==> Astray(s) == {}
    ensures Coherent(s) ==> Backed(s)
  {
    if Astray(s) == {} {
      forall t | t in s.recs ensures FlagTells(s, t) {
        assert t !in Astray(s);
      }
    }
    if Coherent(s) {
      forall t | t in s.recs && s.recs[t].activated ensures HasId(s.pending, t) {
        assert FlagTells(s, t);
      }
    }
  }

  /** A firing keeps "linked if and only if ACTIVATED" exactly when it is not a
      one-shot timer whose own callback leaves it started. */
  lemma FireCoherentIff(s: Sys, cb: Callbacks)
    requires WellFormed(s) && Closed(cb, s.recs) && Coherent(s) && s.pending != []
    ensures s.pending[0] in s.pending
    ensures Coherent(FireSpec(s, cb)) <==> !SelfRestart(cb, s.recs, s.pending[0].id)
  {
    NoneAstray(s);
    FireAstray(s, cb);
    NoneAstray(FireSpec(s, cb));
  }

  /** The timers astray after the firings, one after the other. */
  ghost function AstrayAfter(fired: seq<Firing>, bad: set<Node>, cb: Callbacks, recs: map<Node, Rec>): set<Node>
    requires forall f :: f in fired ==> f.entry.id in cb && f.entry.id in recs
  {
    if fired == [] then bad
    else AstrayAfter(fired[1..], AstrayNext(bad, fired[0].entry.id, cb, recs), cb, recs)
  }

  lemma {:induction false} AstraySame(fired: seq<Firing>, bad: set<Node>, cb: Callbacks, a: map<Node, Rec>,
                                      b: map<Node, Rec>)
    requires SameTimers(a, b) && forall f :: f in fired ==> f.entry.id in cb && f.entry.id in a
    ensures AstrayAfter(fired, bad, cb, a) == AstrayAfter(fired, bad, cb, b)
  {
    if fired != [] {
      AstraySame(fired[1..], AstrayNext(bad, fired[0].entry.id, cb, a), cb, a, b);
    }
  }

  /** The firings of a check. */
  ghost function Log(s: Sys, cb: Callbacks): (f: seq<Firing>)
    requires Good(s, cb)
    ensures forall x :: x in f ==> x.entry.id in cb && x.entry.id in s.recs
  {
    CheckFiresExactly(s, cb);
    RefMembers(Due(s.pending, s.now), {}, cb, s.recs, s.now);
    DueMembers(s.pending, s.now);
    FiredRef(Due(s.pending, s.now), {}, cb, s.recs, s.now)
  }

  lemma {:induction false} RefMembers(due: seq<Entry>, gone: set<Node>, cb: Callbacks, recs: map<Node, Rec>, now: nat)
    requires forall i :: 0 <= i < |due| ==> due[i].id in cb
    ensures forall f :: f in FiredRef(due, gone, cb, recs, now) ==> f.entry in due && f.at == now
  {
    if due == [] {
    } else if due[0].id in gone {
      RefMembers(due[1..], gone, cb, recs, now);
    } else {
      RefMembers(due[1..], gone + TakenOff(cb[due[0].id], recs), cb, recs, now);
    }
  }

  lemma LogUnfolds(s: Sys, cb: Callbacks)
    requires Good(s, cb) && s.pending != [] && s.pending[0].deadline <= s.now
    ensures Good(FireSpec(s, cb), cb) && Log(s, cb) == [Firing(s.pending[0], s.now)] + Log(FireSpec(s, cb), cb)
    ensures CheckSpec(s, cb) == CheckSpec(FireSpec(s, cb), cb) && SameTimers(FireSpec(s, cb).recs, s.recs)
  {
    FireDrains(s, cb);
    var r, f := FireSpec(s, cb), [Firing(s.pending[0], s.now)];
    assert s.fired + Log(s, cb) == CheckSpec(s, cb).fired by { CheckFiresExactly(s, cb); }
    assert r.fired + Log(r, cb) == CheckSpec(r, cb).fired by { CheckFiresExactly(r, cb); }
    SameTail(s.fired, Log(s, cb), f, Log(r, cb));
  }

  lemma SameTail(a: seq<Firing>, b: seq<Firing>, c: seq<Firing>, d: seq<Firing>)
    requires a + b == a + c + d
    ensures b == c + d
  {
    assert (a + b)[|a|..] == b;
    assert (a + c + d)[|a|..] == c + d;
  }

  /** Which timers are astray after a check, told by the list of those it fires. */
  lemma {:induction false} CheckAstray(s: Sys, cb: Callbacks)
    requires Good(s, cb) && Backed(s)
    ensures Backed(CheckSpec(s, cb)) && Astray(CheckSpec(s, cb)) == AstrayAfter(Log(s, cb), Astray(s), cb, s.recs)
    decreases |Due(s.pending, s.now)|
  {
    if s.pending != [] && s.pending[0].deadline <= s.now {
      FireDrains(s, cb);
      FireAstray(s, cb);
      LogUnfolds(s, cb);
      var r, f := FireSpec(s, cb), [Firing(s.pending[0], s.now)];
      CheckAstray(r, cb);
      AstraySame(Log(r, cb), Astray(r), cb, r.recs, s.recs);
      assert (f + Log(r, cb))[1..] == Log(r, cb);
    } else {
      NothingDue(s);
    }
  }

  /** A check keeps "linked if and only if ACTIVATED" exactly when every one-shot timer
      that it fires and that restarts itself is started again by a later callback of the
      same check. */
  lemma CheckCoherentIff(s: Sys, cb: Callbacks)
    requires Good(s, cb) && Coherent(s)
    ensures Coherent(CheckSpec(s, cb)) <==> AstrayAfter(Log(s, cb), {}, cb, s.recs) == {}
  {
    NoneAstray(s);
    CheckAstray(s, cb);
    NoneAstray(CheckSpec(s, cb));
  }

  // -------------------------------------------------------------------- runs

  datatype Event = DoStart(id: Node) | DoStop(id: Node) | DoControl(id: Node, periodic: bool, ticks: nat) | Tick

  /** Between two events: the list is in order and no pending deadline is past.  With
      `slack` 1 no timer has a zero period and every pending deadline is in the future. */
  ghost predicate Between(s: Sys, cb: Callbacks, slack: nat) {
    && WellFormed(s) && Tame(cb, s.recs)
    && (forall e :: e in s.pending ==> e.deadline >= s.now + slack)
    && (forall t :: t in s.recs ==> s.recs[t].initTick >= slack)
    && (forall f :: f in s.fired ==> f.entry.deadline <= f.at <= f.entry.deadline + 1 - slack)
  }

  ghost function TickSpec(s: Sys, cb: Callbacks): Sys
    requires WellFormed(s) && Tame(cb, s.recs)
  {
    CheckSpec(s.(now := s.now + 1), cb)
  }

  ghost function StepSpec(s: Sys, ev: Event, cb: Callbacks): Sys
    requires WellFormed(s) && Tame(cb, s.recs) && (!ev.Tick? ==> ev.id in s.recs)
  {
    match ev
    case DoStart(t) => StartSpec(s, t)
    case DoStop(t) => StopSpec(s, t)
    case DoControl(t, periodic, ticks) => ControlSpec(s, t, periodic, ticks)
    case Tick => TickSpec(s, cb)
  }

  /** What one check adds to the log. */
  lemma CheckLog(s: Sys, cb: Callbacks)
    requires Good(s, cb)
    ensures forall f :: f in CheckSpec(s, cb).fired ==>
              f in s.fired || (f.entry in s.pending && f.entry.deadline <= s.now && f.at == s.now)
  {
    CheckFiresExactly(s, cb);
    RefMembers(Due(s.pending, s.now), {}, cb, s.recs, s.now);
    DueMembers(s.pending, s.now);
  }

  lemma TickBetween(s: Sys, cb: Callbacks, slack: nat)
    requires Between(s, cb, slack) && slack <= 1
    ensures Between(TickSpec(s, cb), cb, slack)
  {
    var s1 := s.(now := s.now + 1);
    CheckLeavesFuture(s1, cb);
    CheckLog(s1, cb);
  }

  lemma CmdBetween(s: Sys, c: Cmd, cb: Callbacks, slack: nat)
    requires Between(s, cb, slack) && c.id in s.recs
    ensures Between(CmdSpec(s, c), cb, slack)
  {
    var r := CmdSpec(s, c);
    match c
    case Start(t) =>
      StartedEntries(s, t);
      assert SameTimers(r.recs, s.recs);
    case Stop(t) =>
      StoppedEntries(s, t);
      assert SameTimers(r.recs, s.recs);
  }

  /** What an event must respect: known timers, and new settings that are still
      safe for the callbacks. */
  ghost predicate Legal(s: Sys, ev: Event, cb: Callbacks, slack: nat) {
    match ev
    case Tick => true
    case DoControl(t, periodic, ticks) =>
      && t in s.recs && ticks >= slack
      && Tame(cb, ControlSpec(s, t, periodic, ticks).recs)
    case _ => ev.id in s.recs
  }

  lemma ControlBetween(s: Sys, t: Node, periodic: bool, ticks: nat, cb: Callbacks, slack: nat)
    requires Between(s, cb, slack) && Legal(s, DoControl(t, periodic, ticks), cb, slack)
    ensures Between(ControlSpec(s, t, periodic, ticks), cb, slack)
  {
  }

  lemma StepBetween(s: Sys, ev: Event, cb: Callbacks, slack: nat)
    requires Between(s, cb, slack) && slack <= 1 && Legal(s, ev, cb, slack)
    ensures Between(StepSpec(s, ev, cb), cb, slack)
  {
    match ev
    case DoStart(t) => CmdBetween(s, Start(t), cb, slack);
    case DoStop(t) => CmdBetween(s, Stop(t), cb, slack);
    case DoControl(t, periodic, ticks) => ControlBetween(s, t, periodic, ticks, cb, slack);
    case Tick =>
      TickBetween(s, cb, slack);
  }

  ghost predicate LegalRun(s: Sys, evs: seq<Event>, cb: Callbacks, slack: nat)
    requires Between(s, cb, 0)
    decreases |evs|
  {
    evs == [] ||
    (Legal(s, evs[0], cb, slack) && (StepBetween(s, evs[0], cb, 0);
      LegalRun(StepSpec(s, evs[0], cb), evs[1..], cb, slack)))
  }

  ghost function Run(s: Sys, evs: seq<Event>, cb: Callbacks): Sys
    requires Between(s, cb, 0) && LegalRun(s, evs, cb, 0)
    decreases |evs|
  {
    if evs == [] then s
    else
      StepBetween(s, evs[0], cb, 0);
      Run(StepSpec(s, evs[0], cb), evs[1..], cb)
  }

  /** Over every run, a timer fires never early and at most one tick late, and
      exactly on its deadline when no timer was given a zero period. */
  lemma {:induction false} RunOnTime(s: Sys, evs: seq<Event>, cb: Callbacks, slack: nat)
    requires Between(s, cb, slack) && slack <= 1
    requires Between(s, cb, 0) && LegalRun(s, evs, cb, slack)
    ensures LegalRun(s, evs, cb, 0) && Between(Run(s, evs, cb), cb, slack)
    decreases |evs|
  {
    if evs != [] {
      StepBetween(s, evs[0], cb, slack);
      RunOnTime(StepSpec(s, evs[0], cb), evs[1..], cb, slack);
    }
  }

  // ------------------------------------------------------- which flags tell

  lemma StepCoherentIff(s: Sys, ev: Event, cb: Callbacks)
    requires Between(s, cb, 0) && Coherent(s) && Legal(s, ev, cb, 0)
    ensures Coherent(StepSpec(s, ev, cb)) <==>
      (ev.Tick? ==> AstrayAfter(Log(s.(now := s.now + 1), cb), {}, cb, s.recs) == {})
  {
    match ev
    case DoStart(t) => CmdCoherent(s, Start(t));
    case DoStop(t) => CmdCoherent(s, Stop(t));
    case DoControl(t, periodic, ticks) =>
      forall x | x in s.recs ensures FlagTells(ControlSpec(s, t, periodic, ticks), x) {
        assert FlagTells(s, x);
      }
    case Tick =>
      var s1 := s.(now := s.now + 1);
      forall x | x in s1.recs ensures FlagTells(s1, x) {
        assert FlagTells(s, x);
      }
      CheckCoherentIff(s1, cb);
  }

  lemma CmdCoherent(s: Sys, c: Cmd)
    requires WellFormed(s) && Coherent(s) && c.id in s.recs
    ensures Coherent(CmdSpec(s, c))
  {
    forall x | x in s.recs ensures FlagTells(CmdSpec(s, c), x) {
      assert FlagTells(s, x);
      CmdLinks(s, c, x);
    }
  }

  /** Flags tell in every state of the run. */
  ghost predicate AlwaysCoherent(s: Sys, evs: seq<Event>, cb: Callbacks)
    requires Between(s, cb, 0) && LegalRun(s, evs, cb, 0)
    decreases |evs|
  {
    Coherent(s) &&
    (evs == [] || (StepBetween(s, evs[0], cb, 0); AlwaysCoherent(StepSpec(s, evs[0], cb), evs[1..], cb)))
  }

  /** No tick of the run leaves a timer that restarted itself unattended. */
  ghost predicate AllAttended(s: Sys, evs: seq<Event>, cb: Callbacks)
    requires Between(s, cb, 0) && LegalRun(s, evs, cb, 0)
    decreases |evs|
  {
    evs == [] ||
    (&& (evs[0].Tick? ==> AstrayAfter(Log(s.(now := s.now + 1), cb), {}, cb, s.recs) == {})
     && (StepBetween(s, evs[0], cb, 0); AllAttended(StepSpec(s, evs[0], cb), evs[1..], cb)))
  }

  lemma {:induction false} RunCoherentIff(s: Sys, evs: seq<Event>, cb: Callbacks)
    requires Between(s, cb, 0) && LegalRun(s, evs, cb, 0) && Coherent(s)
    ensures AlwaysCoherent(s, evs, cb) <==> AllAttended(s, evs, cb)
    decreases |evs|
  {
    if evs != [] {
      StepBetween(s, evs[0], cb, 0);
      StepCoherentIff(s, evs[0], cb);
      if Coherent(StepSpec(s, evs[0], cb)) {
        RunCoherentIff(StepSpec(s, evs[0], cb), evs[1..], cb);
      }
    }
  }

  // ------------------------------------------------------- where it goes wrong

  /** A one-shot timer that its own callback restarts is linked, not ACTIVATED. */
  lemma SelfRestartWitness() returns (s: Sys, cb: Callbacks)
    ensures Good(s, cb) && Coherent(s) && s.pending != [] && !s.recs[s.pending[0].id].periodic
    ensures !Coherent(FireSpec(s, cb))
  {
    var e := Entry(7, 3);
    s := Sys(3, [e], map[7 := Rec(true, false, 5)], []);
    cb := map[7 := [Start(7)]];
    assert e in s.pending;
    assert forall t :: t in s.recs ==> FlagTells(s, t);
    assert Armed(cb[7][1..], 7, true);
    FireCoherentIff(s, cb);
  }
}
