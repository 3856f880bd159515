/** What the timer lists of src/timer.c are for, said without ticks that wrap
    and without a skip list: one list of pending timers in unbounded time. */
module TimerSpec {
  import opened RtList

  datatype Entry = Entry(id: Node, deadline: nat)

  datatype Rec = Rec(activated: bool, periodic: bool, initTick: nat)

  /** What a timeout function may do to timers. */
  datatype Cmd = Start(id: Node) | Stop(id: Node)

  type Callbacks = map<Node, seq<Cmd>>

  /** A timeout function was called at tick `at` for this list entry. */
  datatype Firing = Firing(entry: Entry, at: nat)

  datatype Sys = Sys(now: nat, pending: seq<Entry>, recs: map<Node, Rec>, fired: seq<Firing>)

  // ---------------------------------------------------------------- the list

  function LinearInsert(s: seq<Entry>, e: Entry): seq<Entry> {
    if s == [] || s[0].deadline > e.deadline then [e] + s
    else [s[0]] + LinearInsert(s[1..], e)
  }

  function Without(s: seq<Entry>, t: Node): seq<Entry> {
    if s == [] then []
    else if s[0].id == t then Without(s[1..], t)
    else [s[0]] + Without(s[1..], t)
  }

  ghost predicate Sorted(s: seq<Entry>) {
    forall i, j :: 0 <= i < j < |s| ==> s[i].deadline <= s[j].deadline
  }

  ghost predicate UniqueIds(s: seq<Entry>) {
    forall i, j :: 0 <= i < j < |s| ==> s[i].id != s[j].id
  }

  /** Place k separates the deadlines up to d from the later ones. */
  ghost predicate Slot(s: seq<Entry>, k: nat, d: nat) {
    && k <= |s|
    && (forall i :: 0 <= i < k ==> s[i].deadline <= d)
    && (forall i :: k <= i < |s| ==> s[i].deadline > d)
  }

  /** The linear insert goes after all earlier or equal deadlines. */
  lemma {:induction false} LinearInsertAt(s: seq<Entry>, e: Entry, k: nat)
    requires Slot(s, k, e.deadline)
    ensures LinearInsert(s, e) == Inserted(s, k, e)
  {
    if k > 0 {
      LinearInsertAt(s[1..], e, k - 1);
    }
  }

  lemma FindSlot(s: seq<Entry>, d: nat) returns (k: nat)
    requires Sorted(s)
    ensures Slot(s, k, d)
  {
    k := 0;
    while k < |s| && s[k].deadline <= d
      invariant k <= |s| && forall i :: 0 <= i < k ==> s[i].deadline <= d
    {
      k := k + 1;
    }
  }

  lemma LinearInsertKeeps(s: seq<Entry>, e: Entry)
    requires Sorted(s) && UniqueIds(s) && forall x :: x in s ==> x.id != e.id
    ensures Sorted(LinearInsert(s, e)) && UniqueIds(LinearInsert(s, e))
  {
    var k := FindSlot(s, e.deadline);
    LinearInsertAt(s, e, k);
    var r := Inserted(s, k, e);
    forall i, j | 0 <= i < j < |r|
      ensures r[i].deadline <= r[j].deadline && r[i].id != r[j].id
    {
      InsertedAt(s, k, e, i);
      InsertedAt(s, k, e, j);
    }
  }

  lemma {:induction false} LinearInsertMembers(s: seq<Entry>, e: Entry)
    ensures forall x :: x in LinearInsert(s, e) <==> x == e || x in s
  {
    if s == [] || s[0].deadline > e.deadline {
    } else {
      LinearInsertMembers(s[1..], e);
    }
  }

  lemma {:induction false} WithoutMembers(s: seq<Entry>, t: Node)
    ensures forall x :: x in Without(s, t) <==> x in s && x.id != t
  {
    if s != [] {
      WithoutMembers(s[1..], t);
    }
  }

  lemma {:induction false} WithoutAbsent(s: seq<Entry>, t: Node)
    requires forall i :: 0 <= i < |s| ==> s[i].id != t
    ensures Without(s, t) == s
  {
    if s != [] {
      WithoutAbsent(s[1..], t);
    }
  }

  lemma {:induction false} WithoutAt(s: seq<Entry>, k: nat)
    requires k < |s| && UniqueIds(s)
    ensures Without(s, s[k].id) == Dropped(s, k)
  {
    if k == 0 {
      WithoutAbsent(s[1..], s[0].id);
    } else {
      WithoutAt(s[1..], k - 1);
      assert Dropped(s, k) == [s[0]] + Dropped(s[1..], k - 1);
    }
  }

  lemma WithoutKeeps(s: seq<Entry>, t: Node)
    requires Sorted(s) && UniqueIds(s)
    ensures Sorted(Without(s, t)) && UniqueIds(Without(s, t))
  {
    if k :| 0 <= k < |s| && s[k].id == t {
      WithoutAt(s, k);
      var r := Dropped(s, k);
      forall i, j | 0 <= i < j < |r|
        ensures r[i].deadline <= r[j].deadline && r[i].id != r[j].id
      {
        DroppedAt(s, k, i);
        DroppedAt(s, k, j);
      }
    } else {
      WithoutAbsent(s, t);
    }
  }

  // ---------------------------------------------------------- the operations

  ghost predicate WellFormed(s: Sys) {
    && Sorted(s.pending)
    && UniqueIds(s.pending)
    && (forall e :: e in s.pending ==> e.id in s.recs)
  }

  function StartSpec(s: Sys, t: Node): Sys
    requires t in s.recs
  {
    s.(pending := LinearInsert(Without(s.pending, t), Entry(t, s.now + s.recs[t].initTick)),
       recs := s.recs[t := s.recs[t].(activated := true)])
  }

  function StopSpec(s: Sys, t: Node): Sys
    requires t in s.recs
  {
    if !s.recs[t].activated then s
    else s.(pending := Without(s.pending, t),
            recs := s.recs[t := s.recs[t].(activated := false)])
  }

  /** The period and mode of a timer change; a pending deadline stays. */
  function ControlSpec(s: Sys, t: Node, periodic: bool, ticks: nat): Sys
    requires t in s.recs
  {
    s.(recs := s.recs[t := s.recs[t].(periodic := periodic, initTick := ticks)])
  }

  function CmdSpec(s: Sys, c: Cmd): Sys
    requires c.id in s.recs
  {
    match c
    case Start(t) => StartSpec(s, t)
    case Stop(t) => StopSpec(s, t)
  }

  function RunCmds(s: Sys, cmds: seq<Cmd>): (r: Sys)
    requires forall c :: c in cmds ==> c.id in s.recs
    ensures r.recs.Keys == s.recs.Keys
    decreases |cmds|
  {
    if cmds == [] then s
    else RunCmds(CmdSpec(s, cmds[0]), cmds[1..])
  }

  /** The callbacks are those of the known timers and name known timers only. */
  ghost predicate Closed(cb: Callbacks, recs: map<Node, Rec>) {
    && cb.Keys == recs.Keys
    && (forall t, c :: t in cb && c in cb[t] ==> c.id in recs)
  }

  /** A callback starts timers for a later tick only. */
  ghost predicate Mild(cb: Callbacks, recs: map<Node, Rec>) {
    && Closed(cb, recs)
    && (forall t, c :: t in cb && c in cb[t] && c.Start? ==> recs[c.id].initTick >= 1)
  }

  /** Every timer that a check can re-arm is re-armed for a later tick. */
  ghost predicate Tame(cb: Callbacks, recs: map<Node, Rec>) {
    Mild(cb, recs) && forall t :: t in recs && recs[t].periodic ==> recs[t].initTick >= 1
  }

  ghost predicate SameTimers(a: map<Node, Rec>, b: map<Node, Rec>) {
    && a.Keys == b.Keys
    && (forall t :: t in a ==> a[t].periodic == b[t].periodic && a[t].initTick == b[t].initTick)
  }

  /** One turn of the loop of rt_timer_check. */
  function FireSpec(s: Sys, cb: Callbacks): (r: Sys)
    requires s.pending != [] && s.pending[0].id in s.recs && s.pending[0].id in cb
    requires forall c :: c in cb[s.pending[0].id] ==> c.id in s.recs
    ensures r.recs.Keys == s.recs.Keys
  {
    var t := s.pending[0].id;
    var s1 := s.(pending := Without(s.pending, t), fired := s.fired + [Firing(s.pending[0], s.now)]);
    var s2 := RunCmds(s1, cb[t]);
    var off := s2.(recs := s2.recs[t := s2.recs[t].(activated := false)]);
    if s2.recs[t].periodic && s2.recs[t].activated then StartSpec(off, t) else off
  }

  /** The entries whose deadline is reached. */
  function Due(p: seq<Entry>, now: nat): seq<Entry> {
    if p == [] then []
    else if p[0].deadline <= now then [p[0]] + Due(p[1..], now)
    else Due(p[1..], now)
  }

  function Minus(p: seq<Entry>, gone: set<Node>): (r: seq<Entry>)
    ensures |r| <= |p|
  {
    if p == [] then []
    else if p[0].id in gone then Minus(p[1..], gone)
    else [p[0]] + Minus(p[1..], gone)
  }

  /** The timers that the commands take off the list of due timers: those they start,
      for a later tick, and those they stop, unless the flag makes rt_timer_stop refuse. */
  ghost function TakenOff(cmds: seq<Cmd>, recs: map<Node, Rec>): set<Node> {
    set c | c in cmds && c.id in recs && (c.Start? || recs[c.id].activated) :: c.id
  }

  /** Whether timer t is armed after the commands, given whether it was before. */
  predicate Armed(cmds: seq<Cmd>, t: Node, armed: bool) {
    if cmds == [] then armed
    else Armed(cmds[1..], t, if cmds[0].id == t then cmds[0].Start? else armed)
  }

  /** A timer with a period of zero ticks that its firing will arm again. */
  ghost predicate Rearmed(cb: Callbacks, recs: map<Node, Rec>, t: Node) {
    && t in recs && t in cb
    && recs[t].periodic && recs[t].initTick == 0 && Armed(cb[t], t, recs[t].activated)
  }

  ghost predicate NoneStuck(s: Sys, cb: Callbacks) {
    forall e :: e in s.pending && e.deadline <= s.now ==> !Rearmed(cb, s.recs, e.id)
  }

  // ------------------------------------------- how one firing changes the list

  lemma {:induction false} DueMembers(p: seq<Entry>, now: nat)
    ensures forall x :: x in Due(p, now) <==> x in p && x.deadline <= now
  {
    if p != [] {
      DueMembers(p[1..], now);
    }
  }

  lemma {:induction false} DueUnique(p: seq<Entry>, now: nat)
    requires UniqueIds(p)
    ensures UniqueIds(Due(p, now))
  {
    if p != [] {
      DueUnique(p[1..], now);
      DueMembers(p[1..], now);
      var rest := Due(p[1..], now);
      forall i | 0 <= i < |rest| ensures rest[i].id != p[0].id {
        assert rest[i] in rest;
        assert rest[i] in p[1..];
      }
    }
  }

  lemma {:induction false} DueInsert(s: seq<Entry>, e: Entry, now: nat)
    requires e.deadline > now
    ensures Due(LinearInsert(s, e), now) == Due(s, now)
  {
    if s == [] || s[0].deadline > e.deadline {
      assert ([e] + s)[1..] == s;
    } else {
      DueInsert(s[1..], e, now);
      assert ([s[0]] + LinearInsert(s[1..], e))[1..] == LinearInsert(s[1..], e);
    }
  }

  lemma {:induction false} DueWithout(s: seq<Entry>, t: Node, now: nat)
    ensures Due(Without(s, t), now) == Minus(Due(s, now), {t})
  {
    if s != [] {
      DueWithout(s[1..], t, now);
      assert ([s[0]] + Due(s[1..], now))[1..] == Due(s[1..], now);
      assert ([s[0]] + Without(s[1..], t))[1..] == Without(s[1..], t);
    }
  }

  lemma {:induction false} MinusMinus(p: seq<Entry>, a: set<Node>, b: set<Node>)
    ensures Minus(Minus(p, a), b) == Minus(p, a + b)
  {
    if p != [] {
      MinusMinus(p[1..], a, b);
      assert ([p[0]] + Minus(p[1..], a))[1..] == Minus(p[1..], a);
    }
  }

  lemma {:induction false} MinusNone(p: seq<Entry>, gone: set<Node>)
    requires forall i :: 0 <= i < |p| ==> p[i].id !in gone
    ensures Minus(p, gone) == p
  {
    if p != [] {
      MinusNone(p[1..], gone);
    }
  }

  lemma {:induction false} MinusMembers(p: seq<Entry>, gone: set<Node>)
    ensures forall x :: x in Minus(p, gone) <==> x in p && x.id !in gone
  {
    if p != [] {
      MinusMembers(p[1..], gone);
    }
  }

  /** The two sets agree on what is in the list. */
  lemma {:induction false} MinusSame(p: seq<Entry>, a: set<Node>, b: set<Node>)
    requires forall i :: 0 <= i < |p| ==> (p[i].id in a <==> p[i].id in b)
    ensures Minus(p, a) == Minus(p, b)
  {
    if p != [] {
      MinusSame(p[1..], a, b);
    }
  }

  ghost predicate Good(s: Sys, cb: Callbacks) {
    WellFormed(s) && Mild(cb, s.recs) && NoneStuck(s, cb)
  }

  /** Timers that are still due in r have the flag they had. */
  ghost predicate SameFlags(recs: map<Node, Rec>, r: Sys) {
    forall e :: e in Due(r.pending, r.now) ==>
      e.id in recs && e.id in r.recs && r.recs[e.id].activated == recs[e.id].activated
  }

  /** `r` is reached from `s` by taking the timers `gone` off the due list. */
  ghost predicate Drains(s: Sys, r: Sys, gone: set<Node>) {
    && WellFormed(r)
    && r.now == s.now
    && SameTimers(r.recs, s.recs)
    && Due(r.pending, r.now) == Minus(Due(s.pending, s.now), gone)
    && SameFlags(s.recs, r)
  }

  lemma DrainsGood(s: Sys, r: Sys, gone: set<Node>, cb: Callbacks)
    requires Good(s, cb) && Drains(s, r, gone)
    ensures Good(r, cb)
  {
    MinusMembers(Due(s.pending, s.now), gone);
    DueMembers(s.pending, s.now);
    DueMembers(r.pending, r.now);
    forall e | e in r.pending && e.deadline <= r.now ensures !Rearmed(cb, r.recs, e.id) {
      assert e in Due(r.pending, r.now);
    }
  }

  /** A change that leaves the due timers and their flags alone. */
  lemma DrainsNone(s: Sys, r: Sys)
    requires WellFormed(s) && WellFormed(r) && r.now == s.now && SameTimers(r.recs, s.recs)
    requires Due(r.pending, r.now) == Due(s.pending, s.now) && SameFlags(s.recs, r)
    ensures Drains(s, r, {})
  {
    MinusNone(Due(s.pending, s.now), {});
  }

  lemma StartedEntries(s: Sys, t: Node)
    requires WellFormed(s) && t in s.recs
    ensures WellFormed(StartSpec(s, t))
    ensures forall e :: e in StartSpec(s, t).pending <==>
              e == Entry(t, s.now + s.recs[t].initTick) || (e in s.pending && e.id != t)
  {
    WithoutKeeps(s.pending, t);
    WithoutMembers(s.pending, t);
    LinearInsertKeeps(Without(s.pending, t), Entry(t, s.now + s.recs[t].initTick));
    LinearInsertMembers(Without(s.pending, t), Entry(t, s.now + s.recs[t].initTick));
  }

  lemma StoppedEntries(s: Sys, t: Node)
    requires WellFormed(s) && t in s.recs
    ensures WellFormed(StopSpec(s, t))
    ensures forall e :: e in StopSpec(s, t).pending <==>
              e in s.pending && (s.recs[t].activated ==> e.id != t)
  {
    WithoutKeeps(s.pending, t);
    WithoutMembers(s.pending, t);
  }

  /** Taking one timer off keeps the flags of the others. */
  lemma OthersFlags(s: Sys, r: Sys, t: Node)
    requires WellFormed(s) && r.now == s.now && r.recs.Keys == s.recs.Keys
    requires forall x :: x in s.recs && x != t ==> r.recs[x].activated == s.recs[x].activated
    requires Due(r.pending, r.now) == Minus(Due(s.pending, s.now), {t})
    ensures SameFlags(s.recs, r)
  {
    MinusMembers(Due(s.pending, s.now), {t});
    DueMembers(s.pending, s.now);
  }

  lemma StartDrains(s: Sys, t: Node)
    requires WellFormed(s) && t in s.recs && s.recs[t].initTick >= 1
    ensures Drains(s, StartSpec(s, t), {t})
  {
    StartedEntries(s, t);
    DueWithout(s.pending, t, s.now);
    DueInsert(Without(s.pending, t), Entry(t, s.now + s.recs[t].initTick), s.now);
    OthersFlags(s, StartSpec(s, t), t);
  }

  lemma StopDrains(s: Sys, t: Node)
    requires WellFormed(s) && t in s.recs
    ensures Drains(s, StopSpec(s, t), if s.recs[t].activated then {t} else {})
  {
    StoppedEntries(s, t);
    if s.recs[t].activated {
      DueWithout(s.pending, t, s.now);
      OthersFlags(s, StopSpec(s, t), t);
    } else {
      DueMembers(s.pending, s.now);
      DrainsNone(s, s);
    }
  }

  ghost function CmdTakes(c: Cmd, recs: map<Node, Rec>): set<Node>
    requires c.id in recs
  {
    if c.Start? || recs[c.id].activated then {c.id} else {}
  }

  lemma CmdDrains(s: Sys, c: Cmd)
    requires WellFormed(s) && c.id in s.recs && (c.Start? ==> s.recs[c.id].initTick >= 1)
    ensures Drains(s, CmdSpec(s, c), CmdTakes(c, s.recs)) && CmdSpec(s, c).fired == s.fired
  {
    if c.Start? { StartDrains(s, c.id); } else { StopDrains(s, c.id); }
  }

  /** What is taken off by the first command and then by the others, judged by the flags
      at the start. */
  lemma TakenOffCons(cmds: seq<Cmd>, s: Sys, s1: Sys)
    requires cmds != [] && WellFormed(s) && cmds[0].id in s.recs && Drains(s, s1, CmdTakes(cmds[0], s.recs))
    ensures Minus(Due(s1.pending, s1.now), TakenOff(cmds[1..], s1.recs)) ==
            Minus(Due(s.pending, s.now), TakenOff(cmds, s.recs))
  {
    var due, due1 := Due(s.pending, s.now), Due(s1.pending, s1.now);
    var first, rest := CmdTakes(cmds[0], s.recs), TakenOff(cmds[1..], s.recs);
    assert cmds == [cmds[0]] + cmds[1..];
    assert TakenOff(cmds, s.recs) == first + rest;
    forall i | 0 <= i < |due1| ensures due1[i].id in TakenOff(cmds[1..], s1.recs) <==> due1[i].id in rest {
      assert due1[i] in due1;
    }
    MinusSame(due1, TakenOff(cmds[1..], s1.recs), rest);
    MinusMinus(due, first, rest);
  }

  lemma {:induction false} RunDrains(s: Sys, cmds: seq<Cmd>)
    requires WellFormed(s)
    requires forall c :: c in cmds ==> c.id in s.recs && (c.Start? ==> s.recs[c.id].initTick >= 1)
    ensures Drains(s, RunCmds(s, cmds), TakenOff(cmds, s.recs))
    ensures RunCmds(s, cmds).fired == s.fired
    decreases |cmds|
  {
    if cmds == [] {
      assert TakenOff(cmds, s.recs) == {};
      DueMembers(s.pending, s.now);
      DrainsNone(s, s);
    } else {
      var s1 := CmdSpec(s, cmds[0]);
      CmdDrains(s, cmds[0]);
      RunDrains(s1, cmds[1..]);
      TakenOffCons(cmds, s, s1);
      FlagsTrans(s, s1, RunCmds(s1, cmds[1..]), CmdTakes(cmds[0], s.recs), TakenOff(cmds[1..], s1.recs));
    }
  }

  lemma FlagsTrans(a: Sys, b: Sys, c: Sys, x: set<Node>, y: set<Node>)
    requires Drains(a, b, x) && Drains(b, c, y)
    ensures SameFlags(a.recs, c) && SameTimers(c.recs, a.recs)
  {
    MinusMembers(Due(b.pending, b.now), y);
  }

  lemma DrainsTrans(a: Sys, b: Sys, c: Sys, x: set<Node>, y: set<Node>)
    requires Drains(a, b, x) && Drains(b, c, y)
    ensures Drains(a, c, x + y)
  {
    FlagsTrans(a, b, c, x, y);
    MinusMinus(Due(a.pending, a.now), x, y);
  }

  /** Taking the fired timer off the list. */
  lemma RemoveDrains(s: Sys, t: Node, f: seq<Firing>)
    requires WellFormed(s) && t in s.recs
    ensures Drains(s, s.(pending := Without(s.pending, t), fired := f), {t})
  {
    WithoutKeeps(s.pending, t);
    WithoutMembers(s.pending, t);
    DueWithout(s.pending, t, s.now);
    OthersFlags(s, s.(pending := Without(s.pending, t), fired := f), t);
  }

  /** Clearing the flag of a timer that is not due. */
  lemma ClearDrains(s: Sys, t: Node)
    requires WellFormed(s) && t in s.recs
    requires forall e :: e in Due(s.pending, s.now) ==> e.id != t
    ensures Drains(s, s.(recs := s.recs[t := s.recs[t].(activated := false)]), {t})
  {
    var due := Due(s.pending, s.now);
    DueMembers(s.pending, s.now);
    forall i | 0 <= i < |due| ensures due[i].id !in {t} {
      assert due[i] in due;
    }
    MinusNone(due, {t});
  }

  /** A timer that is not linked is armed by the commands exactly as they say. */
  lemma {:induction false} RunArmed(s: Sys, cmds: seq<Cmd>, t: Node)
    requires t in s.recs && forall c :: c in cmds ==> c.id in s.recs
    ensures RunCmds(s, cmds).recs[t].activated == Armed(cmds, t, s.recs[t].activated)
    decreases |cmds|
  {
    if cmds != [] {
      RunArmed(CmdSpec(s, cmds[0]), cmds[1..], t);
    }
  }

  /** A firing takes off the due list the fired timer and whatever its callback takes
      off, and nothing else; in particular the due list gets shorter. */
  lemma FireDrains(s: Sys, cb: Callbacks)
    requires Good(s, cb) && s.pending != [] && s.pending[0].deadline <= s.now
    ensures var t := s.pending[0].id;
      && Good(FireSpec(s, cb), cb)
      && Drains(s, FireSpec(s, cb), {t} + TakenOff(cb[t], s.recs))
      && FireSpec(s, cb).fired == s.fired + [Firing(s.pending[0], s.now)]
      && |Due(FireSpec(s, cb).pending, s.now)| < |Due(s.pending, s.now)|
  {
    var t := s.pending[0].id;
    var gone := {t} + TakenOff(cb[t], s.recs);
    var s1 := s.(pending := Without(s.pending, t), fired := s.fired + [Firing(s.pending[0], s.now)]);
    RemoveDrains(s, t, s1.fired);
    var s2 := RunCmds(s1, cb[t]);
    RunDrains(s1, cb[t]);
    DrainsTrans(s, s1, s2, {t}, TakenOff(cb[t], s.recs));
    MinusMembers(Due(s.pending, s.now), gone);
    var off := s2.(recs := s2.recs[t := s2.recs[t].(activated := false)]);
    ClearDrains(s2, t);
    DrainsTrans(s, s2, off, gone, {t});
    assert gone + {t} == gone;
    if s2.recs[t].periodic && s2.recs[t].activated {
      RunArmed(s1, cb[t], t);
      assert !Rearmed(cb, s.recs, t);
      StartDrains(off, t);
      DrainsTrans(s, off, StartSpec(off, t), gone, {t});
    }
    DrainsGood(s, FireSpec(s, cb), gone, cb);
  }

  /** The whole loop of rt_timer_check: fire the first timer while it is due. */
  ghost function CheckSpec(s: Sys, cb: Callbacks): Sys
    requires Good(s, cb)
    decreases |Due(s.pending, s.now)|
  {
    if s.pending == [] || s.pending[0].deadline > s.now then s
    else
      FireDrains(s, cb);
      CheckSpec(FireSpec(s, cb), cb)
  }

  // ------------------------------------------------ which timers a check fires

  /** A due timer fires unless an earlier fired timer's callback took it off; `recs` are
      the timers as the check finds them. */
  ghost function FiredRef(due: seq<Entry>, gone: set<Node>, cb: Callbacks, recs: map<Node, Rec>, now: nat): seq<Firing>
    requires forall i :: 0 <= i < |due| ==> due[i].id in cb
  {
    if due == [] then []
    else if due[0].id in gone then FiredRef(due[1..], gone, cb, recs, now)
    else [Firing(due[0], now)] + FiredRef(due[1..], gone + TakenOff(cb[due[0].id], recs), cb, recs, now)
  }

  lemma CheckUnfolds(s: Sys, cb: Callbacks) returns (r: Sys)
    requires Good(s, cb) && s.pending != [] && s.pending[0].deadline <= s.now
    ensures Good(r, cb) && Drains(s, r, {s.pending[0].id} + TakenOff(cb[s.pending[0].id], s.recs))
    ensures CheckSpec(s, cb) == CheckSpec(r, cb)
    ensures r.fired == s.fired + [Firing(s.pending[0], s.now)]
    ensures |Due(r.pending, r.now)| < |Due(s.pending, s.now)|
  {
    FireDrains(s, cb);
    r := FireSpec(s, cb);
  }

  lemma NothingDue(s: Sys)
    requires Sorted(s.pending)
    ensures Due(s.pending, s.now) == [] <==> s.pending == [] || s.pending[0].deadline > s.now
    ensures Due(s.pending, s.now) != [] ==> s.pending != [] && Due(s.pending, s.now)[0] == s.pending[0]
  {
    DueMembers(s.pending, s.now);
    var due := Due(s.pending, s.now);
    if due != [] {
      assert due[0] in due;
    }
  }

  lemma MinusStep(due: seq<Entry>, gone: set<Node>, touched: set<Node>)
    requires due != [] && UniqueIds(due)
    ensures Minus(Minus(due, gone), {due[0].id} + touched) == Minus(due[1..], gone + touched)
  {
    var t := due[0].id;
    MinusMinus(due, gone, {t} + touched);
    MinusNone(due[1..], {t});
    MinusMinus(due[1..], {t}, gone + touched);
    assert {t} + (gone + touched) == gone + ({t} + touched);
  }

  lemma Assoc<T>(a: seq<T>, b: seq<T>, c: seq<T>)
    ensures (a + b) + c == a + (b + c)
  {
  }

  /** What a callback takes off is told by the flags at the start of the check. */
  lemma SameTaken(s: Sys, cmds: seq<Cmd>, recs: map<Node, Rec>, t: Node)
    requires SameFlags(recs, s) && s.recs.Keys == recs.Keys
    ensures Minus(Due(s.pending, s.now), {t} + TakenOff(cmds, s.recs)) ==
            Minus(Due(s.pending, s.now), {t} + TakenOff(cmds, recs))
  {
    var due := Due(s.pending, s.now);
    forall i | 0 <= i < |due| ensures due[i].id in TakenOff(cmds, s.recs) <==> due[i].id in TakenOff(cmds, recs) {
      assert due[i] in due;
    }
    MinusSame(due, {t} + TakenOff(cmds, s.recs), {t} + TakenOff(cmds, recs));
  }

  /** One turn, with the due timers told as those of the start less the ones gone. */
  lemma CheckTurn(s: Sys, cb: Callbacks, due: seq<Entry>, gone: set<Node>, recs: map<Node, Rec>) returns (r: Sys)
    requires Good(s, cb) && UniqueIds(due) && due != [] && due[0].id in cb && due[0].id !in gone
    requires Due(s.pending, s.now) == Minus(due, gone) && SameFlags(recs, s) && s.recs.Keys == recs.Keys
    ensures Good(r, cb) && CheckSpec(s, cb) == CheckSpec(r, cb) && r.now == s.now
    ensures r.fired == s.fired + [Firing(due[0], s.now)]
    ensures Due(r.pending, r.now) == Minus(due[1..], gone + TakenOff(cb[due[0].id], recs))
    ensures SameFlags(recs, r) && r.recs.Keys == recs.Keys
  {
    NothingDue(s);
    var t := due[0].id;
    r := CheckUnfolds(s, cb);
    SameTaken(s, cb[t], recs, t);
    MinusStep(due, gone, TakenOff(cb[t], recs));
    StillSame(s, r, {t} + TakenOff(cb[t], s.recs), recs);
  }

  lemma StillSame(s: Sys, r: Sys, gone: set<Node>, recs: map<Node, Rec>)
    requires SameFlags(recs, s) && Drains(s, r, gone)
    ensures SameFlags(recs, r)
  {
    MinusMembers(Due(s.pending, s.now), gone);
  }

  lemma {:induction false} CheckFires(s: Sys, cb: Callbacks, due: seq<Entry>, gone: set<Node>, recs: map<Node, Rec>)
    requires Good(s, cb) && UniqueIds(due) && forall i :: 0 <= i < |due| ==> due[i].id in cb
    requires Due(s.pending, s.now) == Minus(due, gone) && SameFlags(recs, s) && s.recs.Keys == recs.Keys
    ensures CheckSpec(s, cb).fired == s.fired + FiredRef(due, gone, cb, recs, s.now)
    decreases |due|
  {
    if due == [] {
      NothingDue(s);
    } else if due[0].id in gone {
      CheckFires(s, cb, due[1..], gone, recs);
    } else {
      var off := TakenOff(cb[due[0].id], recs);
      var r := CheckTurn(s, cb, due, gone, recs);
      CheckFires(r, cb, due[1..], gone + off, recs);
      Assoc(s.fired, [Firing(due[0], s.now)], FiredRef(due[1..], gone + off, cb, recs, s.now));
    }
  }

  /** rt_timer_check fires the due timers in list order, each once, leaving out exactly
      those an earlier callback of the same check started, or stopped while ACTIVATED. */
  lemma CheckFiresExactly(s: Sys, cb: Callbacks)
    requires Good(s, cb)
    ensures var due := Due(s.pending, s.now);
      && (forall i :: 0 <= i < |due| ==> due[i].id in cb)
      && CheckSpec(s, cb).fired == s.fired + FiredRef(due, {}, cb, s.recs, s.now)
  {
    var due := Due(s.pending, s.now);
    DueMembers(s.pending, s.now);
    DueUnique(s.pending, s.now);
    forall i | 0 <= i < |due| ensures due[i].id in cb {
      assert due[i] in due;
    }
    MinusNone(due, {});
    CheckFires(s, cb, due, {}, s.recs);
  }

  /** After a check every pending deadline lies in the future. */
  lemma {:induction false} CheckLeavesFuture(s: Sys, cb: Callbacks)
    requires Good(s, cb)
    ensures var r := CheckSpec(s, cb);
      && Good(r, cb) && r.now == s.now && SameTimers(r.recs, s.recs)
      && forall e :: e in r.pending ==> e.deadline > r.now
    decreases |Due(s.pending, s.now)|
  {
    if s.pending == [] || s.pending[0].deadline > s.now {
      forall e | e in s.pending ensures e.deadline > s.now {
        var i :| 0 <= i < |s.pending| && s.pending[i] == e;
        assert s.pending[0].deadline <= s.pending[i].deadline;
      }
    } else {
      var r := CheckUnfolds(s, cb);
      CheckLeavesFuture(r, cb);
    }
  }
}
