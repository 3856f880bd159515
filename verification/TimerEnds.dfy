/** Exactly when the loop of rt_timer_check ends. */
module TimerEnds {
  import opened RtList
  import opened Options
  import opened TimerSpec

  /** One turn of the loop, if it takes one. */
  ghost function Once(s: Sys, cb: Callbacks): Option<Sys> {
    if WellFormed(s) && Closed(cb, s.recs) && s.pending != [] && s.pending[0].deadline <= s.now then
      assert s.pending[0] in s.pending;
      Some(FireSpec(s, cb))
    else None
  }

  ghost function Loop(cb: Callbacks): Sys -> Option<Sys> {
    (s: Sys) => Once(s, cb)
  }

  /** The state after k turns of a loop, if the loop takes that many. */
  ghost function Turns(s: Sys, k: nat, loop: Sys -> Option<Sys>): Option<Sys>
    decreases k
  {
    if k == 0 then Some(s)
    else
      match loop(s)
      case None => None
      case Some(r) => Turns(r, k - 1, loop)
  }

  lemma {:induction false} TurnsAdd(s: Sys, n: nat, k: nat, loop: Sys -> Option<Sys>)
    requires Turns(s, n, loop).Some?
    ensures Turns(s, n + k, loop) == Turns(Turns(s, n, loop).value, k, loop)
    decreases n
  {
    if n > 0 {
      TurnsAdd(loop(s).value, n - 1, k, loop);
    }
  }

  lemma {:induction false} Longer(s: Sys, j: nat, k: nat, loop: Sys -> Option<Sys>)
    requires j <= k && Turns(s, k, loop).Some?
    ensures Turns(s, j, loop).Some?
    decreases j
  {
    if j > 0 {
      Longer(loop(s).value, j - 1, k - 1, loop);
    }
  }

  lemma {:induction false} GoesOn(s: Sys, k: nat, loop: Sys -> Option<Sys>, keeps: Sys -> bool)
    requires keeps(s) && forall x :: keeps(x) ==> loop(x).Some? && keeps(loop(x).value)
    ensures Turns(s, k, loop).Some?
    decreases k
  {
    if k > 0 {
      GoesOn(loop(s).value, k - 1, loop, keeps);
    }
  }

  // ------------------------------------------------------------- one turn

  /** The entry that a timer with a period of zero leaves behind. */
  ghost function Again(cb: Callbacks, recs: map<Node, Rec>, t: Node, now: nat): seq<Entry> {
    if Rearmed(cb, recs, t) then [Entry(t, now)] else []
  }

  /** Arming a timer for the current tick puts it behind all that are due. */
  lemma {:induction false} DueNow(p: seq<Entry>, t: Node, now: nat)
    requires Sorted(p)
    ensures Due(LinearInsert(p, Entry(t, now)), now) == Due(p, now) + [Entry(t, now)]
  {
    if p == [] || p[0].deadline > now {
      NoneDue(p, now);
      assert ([Entry(t, now)] + p)[1..] == p;
    } else {
      assert Sorted(p[1..]);
      DueNow(p[1..], t, now);
      assert ([p[0]] + LinearInsert(p[1..], Entry(t, now)))[1..] == LinearInsert(p[1..], Entry(t, now));
    }
  }

  lemma {:induction false} NoneDue(p: seq<Entry>, now: nat)
    requires Sorted(p) && (p == [] || p[0].deadline > now)
    ensures Due(p, now) == []
  {
    if p != [] {
      assert forall i :: 0 <= i < |p[1..]| ==> p[1..][i] == p[i + 1];
      NoneDue(p[1..], now);
    }
  }

  /** Commands that never start t leave it armed only if it was. */
  lemma {:induction false} NeverStarted(cmds: seq<Cmd>, t: Node, armed: bool)
    requires Start(t) !in cmds && Armed(cmds, t, armed)
    ensures armed && Stop(t) !in cmds
  {
    if cmds != [] {
      assert cmds[0] in cmds;
      NeverStarted(cmds[1..], t, if cmds[0].id == t then cmds[0].Start? else armed);
    }
  }

  /** Up to the point where a timer may be armed again. */
  lemma FiredOff(s: Sys, cb: Callbacks) returns (off: Sys)
    requires WellFormed(s) && Mild(cb, s.recs) && s.pending != [] && s.pending[0].id in s.recs
    ensures var t := s.pending[0].id;
      && off.recs.Keys == s.recs.Keys && Drains(s, off, {t} + TakenOff(cb[t], s.recs))
      && FireSpec(s, cb) ==
         if s.recs[t].periodic && Armed(cb[t], t, s.recs[t].activated) then StartSpec(off, t) else off
  {
    var t := s.pending[0].id;
    var gone := {t} + TakenOff(cb[t], s.recs);
    var s1 := s.(pending := Without(s.pending, t), fired := s.fired + [Firing(s.pending[0], s.now)]);
    RemoveDrains(s, t, s1.fired);
    RunDrains(s1, cb[t]);
    RunArmed(s1, cb[t], t);
    var s2 := RunCmds(s1, cb[t]);
    DrainsTrans(s, s1, s2, {t}, TakenOff(cb[t], s.recs));
    MinusMembers(Due(s.pending, s.now), gone);
    off := s2.(recs := s2.recs[t := s2.recs[t].(activated := false)]);
    ClearDrains(s2, t);
    DrainsTrans(s, s2, off, gone, {t});
    assert gone + {t} == gone;
  }

  lemma StartNow(off: Sys, t: Node, s: Sys, gone: set<Node>)
    requires WellFormed(s) && Drains(s, off, gone) && t in gone && t in off.recs && off.recs[t].initTick == 0
    requires t in s.recs && s.recs[t].activated
    ensures var r := StartSpec(off, t);
      && WellFormed(r) && r.now == s.now && SameTimers(r.recs, s.recs)
      && Due(r.pending, r.now) == Due(off.pending, off.now) + [Entry(t, s.now)] && SameFlags(s.recs, r)
  {
    StartedEntries(off, t);
    WithoutKeeps(off.pending, t);
    DueWithout(off.pending, t, off.now);
    var due := Due(off.pending, off.now);
    MinusMembers(Due(s.pending, s.now), gone);
    forall i | 0 <= i < |due| ensures due[i].id !in {t} {
      assert due[i] in due;
    }
    MinusNone(due, {t});
    DueNow(Without(off.pending, t), t, off.now);
  }

  /** What one turn makes of the list of due timers. */
  lemma TurnDue(s: Sys, cb: Callbacks)
    requires WellFormed(s) && Mild(cb, s.recs) && s.pending != [] && s.pending[0].deadline <= s.now
    ensures s.pending[0] in s.pending && Due(s.pending, s.now) != []
    ensures var t, r := s.pending[0].id, FireSpec(s, cb);
      && WellFormed(r) && r.now == s.now && SameTimers(r.recs, s.recs) && SameFlags(s.recs, r)
      && Due(r.pending, r.now) ==
         Minus(Due(s.pending, s.now)[1..], TakenOff(cb[t], s.recs)) + Again(cb, s.recs, t, s.now)
  {
    assert s.pending[0] in s.pending;
    var t, due := s.pending[0].id, Due(s.pending, s.now);
    var off := FiredOff(s, cb);
    var gone := {t} + TakenOff(cb[t], s.recs);
    NothingDue(s);
    DueUnique(s.pending, s.now);
    MinusNone(due, {});
    MinusStep(due, {}, TakenOff(cb[t], s.recs));
    assert {} + TakenOff(cb[t], s.recs) == TakenOff(cb[t], s.recs);
    if s.recs[t].periodic && Armed(cb[t], t, s.recs[t].activated) {
      if s.recs[t].initTick == 0 {
        NeverStarted(cb[t], t, s.recs[t].activated);
        StartNow(off, t, s, gone);
      } else {
        StartDrains(off, t);
        DrainsTrans(s, off, StartSpec(off, t), gone, {t});
        assert gone + {t} == gone;
      }
    }
  }

  // ---------------------------------------------------- once through the due timers

  ghost predicate Known(fired: seq<Firing>, cb: Callbacks) {
    forall f :: f in fired ==> f.entry.id in cb
  }

  /** What is due again after the firings, when b was due again before them. */
  ghost function Requeued(fired: seq<Firing>, b: seq<Entry>, cb: Callbacks, recs: map<Node, Rec>, now: nat): seq<Entry>
    requires Known(fired, cb)
    decreases |fired|
  {
    if fired == [] then b
    else
      var t := fired[0].entry.id;
      Requeued(fired[1..], Minus(b, TakenOff(cb[t], recs)) + Again(cb, recs, t, now), cb, recs, now)
  }

  lemma {:induction false} MinusJoin(p: seq<Entry>, q: seq<Entry>, gone: set<Node>)
    ensures Minus(p + q, gone) == Minus(p, gone) + Minus(q, gone)
  {
    if p == [] {
      assert p + q == q;
    } else {
      assert (p + q)[1..] == p[1..] + q;
      MinusJoin(p[1..], q, gone);
    }
  }

  /** The state of the loop, told by the timers as the check found them. */
  ghost predicate At(s: Sys, cb: Callbacks, recs: map<Node, Rec>, due: seq<Entry>) {
    && WellFormed(s) && Mild(cb, s.recs) && SameTimers(s.recs, recs) && SameFlags(recs, s)
    && Due(s.pending, s.now) == due
  }

  /** One turn on the list of due timers. */
  lemma Turn(s: Sys, cb: Callbacks, recs: map<Node, Rec>, due: seq<Entry>)
    requires At(s, cb, recs, due) && due != []
    ensures s.pending != [] && s.pending[0] == due[0] && due[0].deadline <= s.now && due[0].id in cb
    ensures forall c :: c in cb[due[0].id] ==> c.id in s.recs
    ensures var t := due[0].id;
      At(FireSpec(s, cb), cb, recs, Minus(due[1..], TakenOff(cb[t], recs)) + Again(cb, recs, t, s.now))
    ensures FireSpec(s, cb).now == s.now
  {
    NothingDue(s);
    DueMembers(s.pending, s.now);
    assert due[0] in due;
    TurnDue(s, cb);
    var t, r := due[0].id, FireSpec(s, cb);
    forall i | 0 <= i < |due[1..]|
      ensures due[1..][i].id in TakenOff(cb[t], s.recs) <==> due[1..][i].id in TakenOff(cb[t], recs)
    {
      assert due[1..][i] in due;
    }
    MinusSame(due[1..], TakenOff(cb[t], s.recs), TakenOff(cb[t], recs));
    assert Rearmed(cb, s.recs, t) == Rearmed(cb, recs, t);
    FlagsStay(s, r, recs, due, TakenOff(cb[t], recs), Again(cb, recs, t, s.now));
  }

  lemma FlagsStay(s: Sys, r: Sys, recs: map<Node, Rec>, due: seq<Entry>, gone: set<Node>, again: seq<Entry>)
    requires SameFlags(recs, s) && SameFlags(s.recs, r) && due == Due(s.pending, s.now) && due != []
    requires Due(r.pending, r.now) == Minus(due[1..], gone) + again && forall e :: e in again ==> e.id == due[0].id
    ensures SameFlags(recs, r)
  {
    MinusMembers(due[1..], gone);
    forall e | e in Due(r.pending, r.now)
      ensures e.id in recs && e.id in r.recs && r.recs[e.id].activated == recs[e.id].activated
    {
      if e in again {
        assert due[0] in due;
      } else {
        assert e in due;
      }
    }
  }

  lemma OnceIs(s: Sys, cb: Callbacks, recs: map<Node, Rec>, due: seq<Entry>)
    requires At(s, cb, recs, due) && due != []
    ensures s.pending != [] && s.pending[0] in s.pending && Loop(cb)(s) == Some(FireSpec(s, cb))
  {
    NothingDue(s);
    DueMembers(s.pending, s.now);
    assert s.pending[0] in s.pending;
  }

  lemma TurnsStep(s: Sys, r: Sys, k: nat, loop: Sys -> Option<Sys>)
    requires loop(s) == Some(r)
    ensures Turns(s, k + 1, loop) == Turns(r, k, loop)
  {
  }

  /** The first pass fires exactly the timers of the reference, and leaves due exactly
      what they have armed again. */
  lemma {:induction false} Pass(s: Sys, cb: Callbacks, recs: map<Node, Rec>, p: seq<Entry>, gone: set<Node>,
                                b: seq<Entry>) returns (r: Sys)
    requires At(s, cb, recs, Minus(p, gone) + b) && forall i :: 0 <= i < |p| ==> p[i].id in cb
    ensures var f := FiredRef(p, gone, cb, recs, s.now);
      && Known(f, cb) && Turns(s, |f|, Loop(cb)) == Some(r) && r.now == s.now
      && At(r, cb, recs, Requeued(f, b, cb, recs, s.now))
    decreases |p|
  {
    if p == [] {
      r := s;
      assert Minus(p, gone) + b == b;
    } else if p[0].id in gone {
      r := Pass(s, cb, recs, p[1..], gone, b);
    } else {
      var off := TakenOff(cb[p[0].id], recs);
      var f := FiredRef(p[1..], gone + off, cb, recs, s.now);
      var s1 := PassTurn(s, cb, recs, p, gone, b);
      r := Pass(s1, cb, recs, p[1..], gone + off, Minus(b, off) + Again(cb, recs, p[0].id, s.now));
      TurnsStep(s, s1, |f|, Loop(cb));
      assert ([Firing(p[0], s.now)] + f)[1..] == f;
    }
  }

  /** One turn of the first pass. */
  lemma PassTurn(s: Sys, cb: Callbacks, recs: map<Node, Rec>, p: seq<Entry>, gone: set<Node>, b: seq<Entry>)
      returns (r: Sys)
    requires At(s, cb, recs, Minus(p, gone) + b) && p != [] && p[0].id in cb && p[0].id !in gone
    ensures var t, off := p[0].id, TakenOff(cb[p[0].id], recs);
      && Loop(cb)(s) == Some(r) && r.now == s.now
      && At(r, cb, recs, Minus(p[1..], gone + off) + (Minus(b, off) + Again(cb, recs, t, s.now)))
  {
    var t := p[0].id;
    var due := Minus(p, gone) + b;
    PassDue(p, gone, b, TakenOff(cb[t], recs), Again(cb, recs, t, s.now));
    OnceIs(s, cb, recs, due);
    Turn(s, cb, recs, due);
    r := FireSpec(s, cb);
  }

  lemma PassDue(p: seq<Entry>, gone: set<Node>, b: seq<Entry>, off: set<Node>, again: seq<Entry>)
    requires p != [] && p[0].id !in gone
    ensures var due := Minus(p, gone) + b;
      due != [] && due[0] == p[0] && Minus(due[1..], off) + again == Minus(p[1..], gone + off) + (Minus(b, off) + again)
  {
    var q := Minus(p[1..], gone);
    TailOf(p[0], q, b);
    MinusJoin(q, b, off);
    MinusMinus(p[1..], gone, off);
    Assoc(Minus(q, off), Minus(b, off), again);
  }

  lemma TailOf(e: Entry, q: seq<Entry>, b: seq<Entry>)
    ensures ([e] + q + b)[1..] == q + b && ([e] + q + b)[0] == e
  {
  }

  // ------------------------------------------------------------- what is left over

  ghost predicate NoneTakes(fired: seq<Firing>, cb: Callbacks, recs: map<Node, Rec>, t: Node)
    requires Known(fired, cb)
  {
    forall f :: f in fired ==> t !in TakenOff(cb[f.entry.id], recs)
  }

  lemma {:induction false} Kept(fired: seq<Firing>, b: seq<Entry>, cb: Callbacks, recs: map<Node, Rec>, now: nat,
                                e: Entry)
    requires Known(fired, cb) && e in b && NoneTakes(fired, cb, recs, e.id)
    ensures e in Requeued(fired, b, cb, recs, now)
    decreases |fired|
  {
    if fired != [] {
      assert fired[0] in fired;
      var off := TakenOff(cb[fired[0].entry.id], recs);
      MinusMembers(b, off);
      Kept(fired[1..], Minus(b, off) + Again(cb, recs, fired[0].entry.id, now), cb, recs, now, e);
    }
  }

  lemma {:induction false} Stays(fired: seq<Firing>, b: seq<Entry>, cb: Callbacks, recs: map<Node, Rec>, now: nat,
                                 i: nat)
    requires Known(fired, cb) && i < |fired| && Rearmed(cb, recs, fired[i].entry.id)
    requires NoneTakes(fired, cb, recs, fired[i].entry.id)
    ensures Entry(fired[i].entry.id, now) in Requeued(fired, b, cb, recs, now)
    decreases |fired|
  {
    var t := fired[0].entry.id;
    assert fired[0] in fired;
    var b' := Minus(b, TakenOff(cb[t], recs)) + Again(cb, recs, t, now);
    if i == 0 {
      assert Entry(t, now) in b';
      Kept(fired[1..], b', cb, recs, now, Entry(t, now));
    } else {
      assert fired[1..][i - 1] == fired[i];
      Stays(fired[1..], b', cb, recs, now, i - 1);
    }
  }

  /** An entry left over was there before, or was armed by a firing; no later one took it. */
  lemma {:induction false} Came(fired: seq<Firing>, b: seq<Entry>, cb: Callbacks, recs: map<Node, Rec>, now: nat,
                                e: Entry) returns (i: int)
    requires Known(fired, cb) && e in Requeued(fired, b, cb, recs, now)
    ensures -1 <= i < |fired| && NoneTakes(fired[i + 1..], cb, recs, e.id)
    ensures if i == -1 then e in b else fired[i].entry.id == e.id && Rearmed(cb, recs, e.id) && e.deadline == now
    decreases |fired|
  {
    if fired == [] {
      i := -1;
    } else {
      var t := fired[0].entry.id;
      assert fired[0] in fired;
      var off := TakenOff(cb[t], recs);
      var k := Came(fired[1..], Minus(b, off) + Again(cb, recs, t, now), cb, recs, now, e);
      assert fired[1..][k + 1..] == fired[k + 2..];
      i := k + 1;
      if k == -1 {
        MinusMembers(b, off);
        if e in Minus(b, off) {
          i := -1;
          assert fired == [fired[0]] + fired[1..];
        }
      }
    }
  }

  lemma {:induction false} RefNotGone(p: seq<Entry>, gone: set<Node>, cb: Callbacks, recs: map<Node, Rec>, now: nat)
    requires forall i :: 0 <= i < |p| ==> p[i].id in cb
    ensures forall f :: f in FiredRef(p, gone, cb, recs, now) ==> f.entry.id !in gone && f.entry.id in cb
  {
    if p == [] {
    } else if p[0].id in gone {
      RefNotGone(p[1..], gone, cb, recs, now);
    } else {
      RefNotGone(p[1..], gone + TakenOff(cb[p[0].id], recs), cb, recs, now);
    }
  }

  /** Nothing that fires was taken off by what fired before it. */
  lemma {:induction false} RefClear(p: seq<Entry>, gone: set<Node>, cb: Callbacks, recs: map<Node, Rec>, now: nat,
                                    i: nat)
    requires (forall i :: 0 <= i < |p| ==> p[i].id in cb) && i < |FiredRef(p, gone, cb, recs, now)|
    ensures var f := FiredRef(p, gone, cb, recs, now); Known(f, cb) && NoneTakes(f[..i], cb, recs, f[i].entry.id)
  {
    RefNotGone(p, gone, cb, recs, now);
    if p[0].id in gone {
      RefClear(p[1..], gone, cb, recs, now, i);
    } else {
      var off := TakenOff(cb[p[0].id], recs);
      var f, g := FiredRef(p, gone, cb, recs, now), FiredRef(p[1..], gone + off, cb, recs, now);
      RefNotGone(p[1..], gone + off, cb, recs, now);
      if i > 0 {
        RefClear(p[1..], gone + off, cb, recs, now, i - 1);
        assert f[i] == g[i - 1] && g[i - 1] in g;
        assert f[..i] == [f[0]] + g[..i - 1];
      }
    }
  }

  /** A timer that a firing arms again for ever: nothing that fires takes it off. */
  ghost predicate Forever(f: seq<Firing>, i: nat, cb: Callbacks, recs: map<Node, Rec>)
    requires Known(f, cb) && i < |f|
  {
    Rearmed(cb, recs, f[i].entry.id) && NoneTakes(f, cb, recs, f[i].entry.id)
  }

  lemma OwnClear(cb: Callbacks, recs: map<Node, Rec>, t: Node)
    requires Mild(cb, recs) && Rearmed(cb, recs, t)
    ensures t !in TakenOff(cb[t], recs)
  {
    assert Start(t) !in cb[t];
    NeverStarted(cb[t], t, recs[t].activated);
  }

  lemma {:induction false} LeftOver(p: seq<Entry>, cb: Callbacks, recs: map<Node, Rec>, now: nat, e: Entry)
      returns (i: nat)
    requires Mild(cb, recs) && forall i :: 0 <= i < |p| ==> p[i].id in cb
    requires Known(FiredRef(p, {}, cb, recs, now), cb)
    requires e in Requeued(FiredRef(p, {}, cb, recs, now), [], cb, recs, now)
    ensures var f := FiredRef(p, {}, cb, recs, now);
      i < |f| && f[i].entry.id == e.id && e.deadline == now && Forever(f, i, cb, recs)
  {
    var f := FiredRef(p, {}, cb, recs, now);
    i := Came(f, [], cb, recs, now, e);
    RefClear(p, {}, cb, recs, now, i);
    OwnClear(cb, recs, e.id);
    assert f == f[..i] + [f[i]] + f[i + 1..];
  }

  // ----------------------------------------------------------------- the theorem

  /** Timers that arm themselves and do not take each other off. */
  ghost predicate Stable(due: seq<Entry>, cb: Callbacks, recs: map<Node, Rec>) {
    && (forall e :: e in due ==> Rearmed(cb, recs, e.id))
    && (forall e, g :: e in due && g in due ==> e.id !in TakenOff(cb[g.id], recs))
  }

  /** A turn only moves the first of them to the end. */
  lemma StableTurn(due: seq<Entry>, cb: Callbacks, recs: map<Node, Rec>, now: nat)
    requires due != [] && Stable(due, cb, recs)
    ensures due[0].id in cb
    ensures var t := due[0].id;
      Minus(due[1..], TakenOff(cb[t], recs)) + Again(cb, recs, t, now) == due[1..] + [Entry(t, now)]
    ensures Stable(due[1..] + [Entry(due[0].id, now)], cb, recs)
  {
    var t := due[0].id;
    assert due[0] in due;
    forall i | 0 <= i < |due[1..]| ensures due[1..][i].id !in TakenOff(cb[t], recs) {
      assert due[1..][i] in due;
    }
    MinusNone(due[1..], TakenOff(cb[t], recs));
    forall e | e in due[1..] + [Entry(t, now)] ensures exists g :: g in due && g.id == e.id {
      assert e in due[1..] ==> e in due;
    }
  }

  /** Only such timers are due, and some are. */
  ghost predicate Churns(s: Sys, cb: Callbacks, recs: map<Node, Rec>) {
    var due := Due(s.pending, s.now);
    At(s, cb, recs, due) && due != [] && Stable(due, cb, recs)
  }

  lemma ChurnsOn(s: Sys, cb: Callbacks, recs: map<Node, Rec>)
    requires Churns(s, cb, recs)
    ensures Loop(cb)(s).Some? && Churns(Loop(cb)(s).value, cb, recs)
  {
    var due := Due(s.pending, s.now);
    OnceIs(s, cb, recs, due);
    StableTurn(due, cb, recs, s.now);
    Turn(s, cb, recs, due);
  }

  lemma NeverEnds(s: Sys, cb: Callbacks, recs: map<Node, Rec>, k: nat)
    requires Churns(s, cb, recs)
    ensures Turns(s, k, Loop(cb)).Some?
  {
    var keeps := (x: Sys) => Churns(x, cb, recs);
    forall x | keeps(x) ensures Loop(cb)(x).Some? && keeps(Loop(cb)(x).value) {
      ChurnsOn(x, cb, recs);
    }
    GoesOn(s, k, Loop(cb), keeps);
  }

  /** The timers that the first pass fires. */
  ghost function FirstPass(s: Sys, cb: Callbacks): (f: seq<Firing>)
    requires WellFormed(s) && Mild(cb, s.recs)
    ensures Known(f, cb)
  {
    DueKnown(s, cb);
    RefNotGone(Due(s.pending, s.now), {}, cb, s.recs, s.now);
    FiredRef(Due(s.pending, s.now), {}, cb, s.recs, s.now)
  }

  lemma DueKnown(s: Sys, cb: Callbacks)
    requires WellFormed(s) && Mild(cb, s.recs)
    ensures forall i :: 0 <= i < |Due(s.pending, s.now)| ==> Due(s.pending, s.now)[i].id in cb
    ensures SameFlags(s.recs, s)
  {
    var due := Due(s.pending, s.now);
    DueMembers(s.pending, s.now);
    forall i | 0 <= i < |due| ensures due[i].id in cb {
      assert due[i] in due;
    }
  }

  lemma AfterPass(s: Sys, cb: Callbacks) returns (r: Sys)
    requires WellFormed(s) && Mild(cb, s.recs)
    ensures Turns(s, |FirstPass(s, cb)|, Loop(cb)) == Some(r) && r.now == s.now
    ensures At(r, cb, s.recs, Requeued(FirstPass(s, cb), [], cb, s.recs, s.now))
  {
    var due := Due(s.pending, s.now);
    DueKnown(s, cb);
    MinusNone(due, {});
    assert Minus(due, {}) + [] == due;
    r := Pass(s, cb, s.recs, due, {}, []);
  }

  lemma PassLeft(s: Sys, cb: Callbacks, e: Entry) returns (i: nat)
    requires WellFormed(s) && Mild(cb, s.recs) && e in Requeued(FirstPass(s, cb), [], cb, s.recs, s.now)
    ensures var f := FirstPass(s, cb); i < |f| && f[i].entry.id == e.id && Forever(f, i, cb, s.recs)
  {
    DueKnown(s, cb);
    i := LeftOver(Due(s.pending, s.now), cb, s.recs, s.now, e);
  }

  lemma LeftStable(s: Sys, cb: Callbacks)
    requires WellFormed(s) && Mild(cb, s.recs)
    ensures Stable(Requeued(FirstPass(s, cb), [], cb, s.recs, s.now), cb, s.recs)
  {
    var f := FirstPass(s, cb);
    var rest := Requeued(f, [], cb, s.recs, s.now);
    forall e | e in rest ensures Rearmed(cb, s.recs, e.id) {
      var a := PassLeft(s, cb, e);
    }
    forall e, g | e in rest && g in rest ensures e.id !in TakenOff(cb[g.id], s.recs) {
      var a := PassLeft(s, cb, e);
      var b := PassLeft(s, cb, g);
      assert f[b] in f;
    }
  }

  /** rt_timer_check ends, for any timers and any callbacks that start timers for a later
      tick, exactly when no timer that fires in the first pass has a period of zero, keeps
      itself armed, and is stopped by none of those that fire. */
  lemma CheckEndsIff(s: Sys, cb: Callbacks)
    requires WellFormed(s) && Mild(cb, s.recs)
    ensures (exists k: nat :: Turns(s, k, Loop(cb)).None?) <==>
      forall i :: 0 <= i < |FirstPass(s, cb)| ==> !Forever(FirstPass(s, cb), i, cb, s.recs)
  {
    var f := FirstPass(s, cb);
    if Requeued(f, [], cb, s.recs, s.now) == [] {
      EndsThen(s, cb);
      forall i | 0 <= i < |f| ensures !Forever(f, i, cb, s.recs) {
        if Forever(f, i, cb, s.recs) {
          Stays(f, [], cb, s.recs, s.now, i);
        }
      }
    } else {
      OnAndOn(s, cb);
    }
  }

  lemma EndsThen(s: Sys, cb: Callbacks)
    requires WellFormed(s) && Mild(cb, s.recs) && Requeued(FirstPass(s, cb), [], cb, s.recs, s.now) == []
    ensures Turns(s, |FirstPass(s, cb)| + 1, Loop(cb)).None?
  {
    var n := |FirstPass(s, cb)|;
    var r := AfterPass(s, cb);
    assert Loop(cb)(r).None? by { NothingDue(r); }
    StopsAt(s, r, n, Loop(cb));
  }

  lemma StopsAt(s: Sys, r: Sys, n: nat, loop: Sys -> Option<Sys>)
    requires Turns(s, n, loop) == Some(r) && loop(r).None?
    ensures Turns(s, n + 1, loop).None?
  {
    TurnsAdd(s, n, 1, loop);
  }

  lemma OnAndOn(s: Sys, cb: Callbacks)
    requires WellFormed(s) && Mild(cb, s.recs) && Requeued(FirstPass(s, cb), [], cb, s.recs, s.now) != []
    ensures exists i :: 0 <= i < |FirstPass(s, cb)| && Forever(FirstPass(s, cb), i, cb, s.recs)
    ensures forall k: nat :: Turns(s, k, Loop(cb)).Some?
  {
    var f := FirstPass(s, cb);
    var rest := Requeued(f, [], cb, s.recs, s.now);
    assert rest[0] in rest;
    var i := PassLeft(s, cb, rest[0]);
    assert Forever(f, i, cb, s.recs);
    forall k: nat ensures Turns(s, k, Loop(cb)).Some? {
      NeverStops(s, cb, k);
    }
  }

  lemma NeverStops(s: Sys, cb: Callbacks, k: nat)
    requires WellFormed(s) && Mild(cb, s.recs) && Requeued(FirstPass(s, cb), [], cb, s.recs, s.now) != []
    ensures Turns(s, k, Loop(cb)).Some?
  {
    var r := AfterPass(s, cb);
    LeftStable(s, cb);
    NeverEnds(r, cb, s.recs, k);
    StillGoing(s, r, |FirstPass(s, cb)|, k, Loop(cb));
  }

  lemma StillGoing(s: Sys, r: Sys, n: nat, k: nat, loop: Sys -> Option<Sys>)
    requires Turns(s, n, loop) == Some(r) && Turns(r, k, loop).Some?
    ensures Turns(s, k, loop).Some?
  {
    TurnsAdd(s, n, k, loop);
    Longer(s, k, n + k, loop);
  }

  // ----------------------------------------------------------------- two examples

  /** A periodic timer with a period of 0, due and left alone: the loop never ends. */
  lemma ZeroPeriodWitness(k: nat)
    ensures var s, cb := Sys(3, [Entry(7, 3)], map[7 := Rec(true, true, 0)], []), map[7 := []];
      WellFormed(s) && Mild(cb, s.recs) && Turns(s, k, Loop(cb)).Some?
  {
    var s, cb: Callbacks := Sys(3, [Entry(7, 3)], map[7 := Rec(true, true, 0)], []), map[7 := []];
    assert Due(s.pending, s.now) == [Entry(7, 3)] by { assert s.pending[1..] == []; }
    assert Stable([Entry(7, 3)], cb, s.recs);
    NeverEnds(s, cb, s.recs, k);
  }

  /** Two timers are due: 7 with the zero period, and 8. */
  ghost function TwoDue(): Sys {
    Sys(3, [Entry(7, 3), Entry(8, 3)], map[7 := Rec(true, true, 0), 8 := Rec(true, false, 5)], [])
  }

  lemma TwoDuePass(cb: Callbacks)
    requires cb == map[7 := [], 8 := [Stop(7)]]
    ensures FirstPass(TwoDue(), cb) == [Firing(Entry(7, 3), 3), Firing(Entry(8, 3), 3)]
    ensures Due(TwoDue().pending, 3) == TwoDue().pending && 7 in TakenOff(cb[8], TwoDue().recs)
  {
    var s := TwoDue();
    assert s.pending[1..] == [Entry(8, 3)] && s.pending[1..][1..] == [];
    assert Due(s.pending, s.now) == s.pending;
    TwoFired(cb, s.recs);
    assert Stop(7) in cb[8];
  }

  /** The same timer, stopped by the callback of another that is due as well: it ends. */
  lemma StoppedWitness()
    ensures var cb: Callbacks := map[7 := [], 8 := [Stop(7)]];
      WellFormed(TwoDue()) && Mild(cb, TwoDue().recs) && exists k: nat :: Turns(TwoDue(), k, Loop(cb)).None?
  {
    var cb: Callbacks := map[7 := [], 8 := [Stop(7)]];
    TwoDuePass(cb);
    var f := FirstPass(TwoDue(), cb);
    assert f[1] in f;
    CheckEndsIff(TwoDue(), cb);
  }

  lemma TwoFired(cb: Callbacks, recs: map<Node, Rec>)
    requires 7 in cb && 8 in cb && cb[7] == []
    ensures FiredRef([Entry(7, 3), Entry(8, 3)], {}, cb, recs, 3) == [Firing(Entry(7, 3), 3), Firing(Entry(8, 3), 3)]
  {
    var none := {} + TakenOff(cb[7], recs);
    assert none == {};
    assert [Entry(7, 3), Entry(8, 3)][1..] == [Entry(8, 3)] && [Entry(8, 3)][1..] == [];
    assert FiredRef([Entry(8, 3)], none, cb, recs, 3) == [Firing(Entry(8, 3), 3)];
  }
}
