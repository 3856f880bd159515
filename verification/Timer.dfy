/** The hard timer list of src/timer.c and the tick of src/clock.c: 32-bit ticks
    that wrap, and a skip list with any number of rows. */
module Timer {
  import opened RtList
  import opened TimerSpec
  import opened TimerRow

  const TICKS := 0x1_0000_0000
  const TICK_MAX := 0xFFFF_FFFF
  const HALF := TICK_MAX / 2

  datatype TimerObj = TimerObj(activated: bool, periodic: bool, initTick: nat, timeoutTick: nat)

  function Sub32(a: int, b: int): (r: int)
    ensures 0 <= r < TICKS
  {
    (a - b) % TICKS
  }

  /** The test that ends the search for a place in rt_timer_start. */
  predicate Later32(a: int, b: int) {
    Sub32(a, b) != 0 && Sub32(a, b) < HALF
  }

  /** The test for an expired timer in rt_timer_check. */
  predicate Reached32(now: int, timeout: int) {
    Sub32(now, timeout) < HALF
  }

  lemma SubMod(a: nat, b: nat)
    ensures Sub32(a % TICKS, b % TICKS) == (a - b) % TICKS
  {
  }

  /** For deadlines less than a full turn apart, the search test of the source
      agrees with unbounded time exactly in a window of half a turn. */
  lemma Later32Iff(a: nat, b: nat)
    requires -TICKS < a - b < TICKS
    ensures (Later32(a % TICKS, b % TICKS) <==> a > b) <==> HALF - TICKS <= a - b < HALF
  {
    SubMod(a, b);
  }

  lemma Reached32Iff(now: nat, d: nat)
    requires -TICKS < now - d < TICKS
    ensures (Reached32(now % TICKS, d % TICKS) <==> now >= d) <==> HALF - TICKS <= now - d < HALF
  {
    SubMod(now, d);
  }

  /** Half a turn apart, the later deadline is taken for the earlier one, and a timer that
      late for one that is not due. */
  lemma HalfTurnWitness()
    ensures !Later32(HALF, 0) && !Reached32(HALF, 0)
  {
  }

  ghost function Deadline(d: map<Node, nat>, t: Node): nat {
    if t in d then d[t] else 0
  }

  ghost function Entries(s: seq<Node>, d: map<Node, nat>): (r: seq<Entry>)
    ensures |r| == |s| && forall i :: 0 <= i < |s| ==> r[i] == Entry(s[i], Deadline(d, s[i]))
  {
    if s == [] then [] else [Entry(s[0], Deadline(d, s[0]))] + Entries(s[1..], d)
  }

  lemma {:induction false} EntriesWithout(s: seq<Node>, d: map<Node, nat>, t: Node)
    ensures Entries(WithoutId(s, t), d) == Without(Entries(s, d), t)
  {
    if s != [] {
      EntriesWithout(s[1..], d, t);
      assert Entries(s, d)[1..] == Entries(s[1..], d);
      assert ([s[0]] + WithoutId(s[1..], t))[1..] == WithoutId(s[1..], t);
    }
  }

  lemma EntriesInserted(s: seq<Node>, d: map<Node, nat>, k: nat, t: Node)
    requires k <= |s|
    ensures Entries(Inserted(s, k, t), d) == Inserted(Entries(s, d), k, Entry(t, Deadline(d, t)))
  {
    var a, b := Entries(Inserted(s, k, t), d), Inserted(Entries(s, d), k, Entry(t, Deadline(d, t)));
    forall i | 0 <= i <= |s| ensures a[i] == b[i] {
      InsertedAt(s, k, t, i);
      InsertedAt(Entries(s, d), k, Entry(t, Deadline(d, t)), i);
    }
  }

  ghost predicate Sub(a: seq<Node>, b: seq<Node>) {
    forall i :: 0 <= i < |a| ==> a[i] in b
  }

  /** Every row is contained in the rows below it. */
  ghost predicate Nested(rows: seq<seq<Node>>) {
    forall l, m :: 0 <= l <= m < |rows| ==> Sub(rows[l], rows[m])
  }

  ghost predicate RowsOk(links: seq<Links>, rows: seq<seq<Node>>, o: Keys, all: set<Node>) {
    |links| == |rows| && forall l :: 0 <= l < |rows| ==> RowOk(links[l], rows[l], o, all)
  }

  /** The tick stored in a pending timer stands for its deadline, which is at
      most one tick late and less than half a turn ahead. */
  ghost predicate TicksOk(s: seq<Node>, objs: map<Node, TimerObj>, o: Keys, now: nat) {
    forall i :: 0 <= i < |s| ==>
      && s[i] in objs && s[i] in o.deadline
      && objs[s[i]].timeoutTick == o.deadline[s[i]] % TICKS
      && now - 1 <= o.deadline[s[i]] < now + HALF
  }

  ghost predicate StampsOk(s: seq<Node>, o: Keys, starts: nat) {
    forall i :: 0 <= i < |s| ==> s[i] in o.stamp && o.stamp[s[i]] < starts
  }

  /** All rows together, over the timers `objs`. */
  ghost predicate Core(links: seq<Links>, rows: seq<seq<Node>>, o: Keys, objs: map<Node, TimerObj>, now: nat,
                       starts: nat) {
    && |rows| >= 1
    && objs.Keys == o.deadline.Keys == o.stamp.Keys
    && RowsOk(links, rows, o, objs.Keys)
    && Nested(rows)
    && TicksOk(rows[|rows| - 1], objs, o, now)
    && StampsOk(rows[|rows| - 1], o, starts)
  }

  /** The pending timers as the bottom row holds them. */
  ghost function Bottom(rows: seq<seq<Node>>, o: Keys): seq<Entry> {
    if rows == [] then [] else Entries(rows[|rows| - 1], o.deadline)
  }

  /** RT_ASSERT of rt_timer_start: no period reaches half a turn. */
  ghost predicate InitOk(objs: map<Node, TimerObj>) {
    forall t :: t in objs ==> objs[t].initTick < HALF
  }

  ghost function Recs(objs: map<Node, TimerObj>): map<Node, Rec> {
    map t | t in objs :: Rec(objs[t].activated, objs[t].periodic, objs[t].initTick)
  }

  datatype Config = Config(levels: nat, mask: nat, callbacks: Callbacks)

  /** The variables of the timer system: the tick of src/clock.c, the timer
      objects, the rows of the skip list and the insertion counter. */
  datatype State = State(tick: nat, objs: map<Node, TimerObj>, links: seq<Links>, randomNr: nat)

  /** What the variables stand for. */
  datatype View = View(now: nat, rows: seq<seq<Node>>, keys: Keys, starts: nat, fired: seq<Firing>)

  ghost predicate Ok(c: Config, st: State, v: View) {
    && (c.mask == 1 || c.mask == 3)
    && |v.rows| == c.levels
    && st.objs.Keys == c.callbacks.Keys
    && st.tick == v.now % TICKS
    && InitOk(st.objs)
    && Core(st.links, v.rows, v.keys, st.objs, v.now, v.starts)
  }

  ghost function Abs(st: State, v: View): Sys {
    Sys(v.now, Bottom(v.rows, v.keys), Recs(st.objs), v.fired)
  }

  /** rt_timer_start, with interrupts disabled throughout. */
  method DoStart(c: Config, st: State, ghost v: View, t: Node) returns (st': State, ghost v': View)
    requires Ok(c, st, v) && t in st.objs
    ensures Ok(c, st', v') && Abs(st', v') == StartSpec(Abs(st, v), t)
  {
    var nr := (st.randomNr + 1) % TICKS;
    var links, objs, rows, keys := Restart(st.links, st.objs, c.mask, nr, st.tick, t, v.rows, v.keys, v.now, v.starts);
    st' := State(st.tick, objs, links, nr);
    v' := View(v.now, rows, keys, v.starts + 1, v.fired);
    StartedAbs(st, v, st', v', t);
  }

  /** What rt_timer_start makes of the timers and of the bottom row. */
  ghost predicate Restarted(rows0: seq<seq<Node>>, keys0: Keys, objs0: map<Node, TimerObj>, rows: seq<seq<Node>>,
                            keys: Keys, objs: map<Node, TimerObj>, t: Node, now: nat)
    requires t in objs0
  {
    && Recs(objs) == Recs(objs0)[t := Recs(objs0)[t].(activated := true)]
    && Bottom(rows, keys) == LinearInsert(Without(Bottom(rows0, keys0), t), Entry(t, now + objs0[t].initTick))
  }

  lemma StartedAbs(st: State, v: View, st': State, v': View, t: Node)
    requires t in st.objs && Restarted(v.rows, v.keys, st.objs, v'.rows, v'.keys, st'.objs, t, v.now)
    requires v'.now == v.now && v'.fired == v.fired
    ensures Abs(st', v') == StartSpec(Abs(st, v), t)
  {
    assert Recs(st.objs)[t].initTick == st.objs[t].initTick;
  }

  /** rt_timer_stop; false is the error returned for a timer not ACTIVATED. */
  method DoStop(c: Config, st: State, ghost v: View, t: Node) returns (st': State, ghost v': View, ok: bool)
    requires Ok(c, st, v) && t in st.objs
    ensures Ok(c, st', v') && Abs(st', v') == StopSpec(Abs(st, v), t)
    ensures ok == st.objs[t].activated
  {
    st', v', ok := st, v, st.objs[t].activated;
    if ok {
      st', v' := DoUnlink(c, st', v', t);
      st' := DoDeactivate(c, st', v', t);
    }
  }

  /** _rt_timer_remove on the whole state. */
  method DoUnlink(c: Config, st: State, ghost v: View, t: Node) returns (st': State, ghost v': View)
    requires Ok(c, st, v) && t in st.objs
    ensures Ok(c, st', v') && st'.objs == st.objs
    ensures Abs(st', v') == Abs(st, v).(pending := Without(Abs(st, v).pending, t))
  {
    var links, rows := UnlinkAll(st.links, t, v.rows, v.keys, st.objs, v.now, v.starts);
    st', v' := st.(links := links), v.(rows := rows);
  }

  method DoDeactivate(c: Config, st: State, ghost v: View, t: Node) returns (st': State)
    requires Ok(c, st, v) && t in st.objs
    ensures st' == st.(objs := st.objs[t := st.objs[t].(activated := false)]) && Ok(c, st', v)
    ensures Abs(st', v) == Abs(st, v).(recs := Abs(st, v).recs[t := Abs(st, v).recs[t].(activated := false)])
  {
    Reflag(st.links, v.rows, v.keys, st.objs, v.now, v.starts, t, st.objs[t].(activated := false));
    RecsUpdate(st.objs, t, st.objs[t].(activated := false));
    st' := st.(objs := st.objs[t := st.objs[t].(activated := false)]);
  }

  /** rt_timer_control: set the period and whether it repeats. */
  method DoControl(c: Config, st: State, ghost v: View, t: Node, periodic: bool, ticks: nat) returns (st': State)
    requires Ok(c, st, v) && t in st.objs && ticks < HALF
    ensures Ok(c, st', v) && Abs(st', v) == ControlSpec(Abs(st, v), t, periodic, ticks)
  {
    var obj := st.objs[t].(periodic := periodic, initTick := ticks);
    Reflag(st.links, v.rows, v.keys, st.objs, v.now, v.starts, t, obj);
    RecsUpdate(st.objs, t, obj);
    st' := st.(objs := st.objs[t := obj]);
  }

  /** What the timeout function does, one timer call after the other. */
  method DoCmds(c: Config, st: State, ghost v: View, cmds: seq<Cmd>) returns (st': State, ghost v': View)
    requires Ok(c, st, v) && forall x :: x in cmds ==> x.id in st.objs
    ensures Ok(c, st', v') && Abs(st', v') == RunCmds(Abs(st, v), cmds)
    decreases |cmds|
  {
    st', v' := st, v;
    if cmds != [] {
      match cmds[0] {
        case Start(t) =>
          st', v' := DoStart(c, st, v, t);
        case Stop(t) =>
          var ok;
          st', v', ok := DoStop(c, st, v, t);
      }
      st', v' := DoCmds(c, st', v', cmds[1..]);
    }
  }

  /** The first timer of the bottom row. */
  lemma FirstPending(c: Config, st: State, v: View)
    requires Ok(c, st, v)
    ensures c.levels >= 1 && |st.links| == c.levels && HEAD in st.links[c.levels - 1].next
    ensures var p, n := Abs(st, v).pending, st.links[c.levels - 1].next[HEAD];
      && (n == HEAD <==> p == [])
      && (p != [] ==> n == p[0].id && n in st.objs && n in c.callbacks)
      && (p != [] ==> (Reached32(st.tick, st.objs[n].timeoutTick) <==> p[0].deadline <= v.now))
  {
    var s := v.rows[c.levels - 1];
    assert RowOk(st.links[c.levels - 1], s, v.keys, st.objs.Keys);
    assert ([HEAD] + s)[0] == HEAD && NodeAt(st.links[c.levels - 1], [HEAD] + s, 0);
    if s != [] {
      assert ([HEAD] + s)[1] == s[0];
      Reached32Iff(v.now, v.keys.deadline[s[0]]);
    }
  }

  /** One turn of the loop of rt_timer_check for the expired timer t. */
  method DoFire(c: Config, st: State, ghost v: View, t: Node) returns (st': State, ghost v': View)
    requires Ok(c, st, v) && Closed(c.callbacks, Recs(st.objs))
    requires Abs(st, v).pending != [] && t == Abs(st, v).pending[0].id && t in st.objs
    ensures Ok(c, st', v') && Abs(st', v') == FireSpec(Abs(st, v), c.callbacks)
  {
    ghost var s0 := Abs(st, v);
    st', v' := DoUnlink(c, st, v, t);
    v' := v'.(fired := v'.fired + [Firing(s0.pending[0], s0.now)]);
    st', v' := DoCmds(c, st', v', c.callbacks[t]);
    var again := st'.objs[t].periodic && st'.objs[t].activated;
    st' := DoDeactivate(c, st', v', t);
    if again {
      st', v' := DoStart(c, st', v', t);
    }
  }

  /** rt_timer_check: the loop over expired timers. */
  method DoCheck(c: Config, st: State, ghost v: View) returns (st': State, ghost v': View)
    requires Ok(c, st, v) && Good(Abs(st, v), c.callbacks)
    ensures Ok(c, st', v') && Abs(st', v') == CheckSpec(Abs(st, v), c.callbacks)
  {
    st', v' := st, v;
    while true
      invariant Ok(c, st', v') && Good(Abs(st', v'), c.callbacks)
      invariant CheckSpec(Abs(st', v'), c.callbacks) == CheckSpec(Abs(st, v), c.callbacks)
      decreases |Due(Abs(st', v').pending, v'.now)|
    {
      FirstPending(c, st', v');
      var t := st'.links[c.levels - 1].next[HEAD];
      if t == HEAD || !Reached32(st'.tick, st'.objs[t].timeoutTick) {
        return;
      }
      FireDrains(Abs(st', v'), c.callbacks);
      st', v' := DoFire(c, st', v', t);
    }
  }

  /** The body of rt_timer_start: remove, set the timeout tick, insert again. */
  method Restart(links0: seq<Links>, objs0: map<Node, TimerObj>, mask: nat, nr: nat, tick: nat, t: Node,
                 ghost rows0: seq<seq<Node>>, ghost keys0: Keys, ghost now: nat, ghost starts: nat)
    returns (links: seq<Links>, objs: map<Node, TimerObj>, ghost rows: seq<seq<Node>>, ghost keys: Keys)
    requires Core(links0, rows0, keys0, objs0, now, starts) && t in objs0 && InitOk(objs0) && tick == now % TICKS
    ensures Core(links, rows, keys, objs, now, starts + 1) && |rows| == |rows0| && InitOk(objs) &&
            objs.Keys == objs0.Keys
    ensures Restarted(rows0, keys0, objs0, rows, keys, objs, t, now)
  {
    links, objs, rows, keys := Unset(links0, objs0, tick, t, rows0, keys0, now, starts);
    links, rows := LinkAll(links, objs, mask, nr, t, rows, keys, now, starts);
  }

  lemma WrapAdd(now: nat, n: nat)
    ensures (now % TICKS + n) % TICKS == (now + n) % TICKS
  {
  }

  /** The first half of rt_timer_start: off the list, with the new timeout tick. */
  method Unset(links0: seq<Links>, objs0: map<Node, TimerObj>, tick: nat, t: Node,
               ghost rows0: seq<seq<Node>>, ghost keys0: Keys, ghost now: nat, ghost starts: nat)
    returns (links: seq<Links>, objs: map<Node, TimerObj>, ghost rows: seq<seq<Node>>, ghost keys: Keys)
    requires Core(links0, rows0, keys0, objs0, now, starts) && t in objs0 && InitOk(objs0) && tick == now % TICKS
    ensures Core(links, rows, keys, objs, now, starts) && |rows| == |rows0| && InitOk(objs) && objs.Keys == objs0.Keys
    ensures Recs(objs) == Recs(objs0)[t := Recs(objs0)[t].(activated := true)]
    ensures forall l :: 0 <= l < |rows| ==> t !in rows[l]
    ensures keys.stamp[t] == starts && keys.deadline[t] == now + objs0[t].initTick
    ensures objs[t].timeoutTick == keys.deadline[t] % TICKS && keys.deadline[t] < now + HALF
    ensures Bottom(rows, keys) == Without(Bottom(rows0, keys0), t)
  {
    links, rows := UnlinkAll(links0, t, rows0, keys0, objs0, now, starts);
    var obj := objs0[t].(activated := true, timeoutTick := (tick + objs0[t].initTick) % TICKS);
    ghost var d := now + objs0[t].initTick;
    WrapAdd(now, objs0[t].initTick);
    Retime(links, rows, keys0, objs0, now, starts, t, obj, d);
    objs := objs0[t := obj];
    keys := Keys(keys0.deadline[t := d], keys0.stamp[t := starts]);
    RecsUpdate(objs0, t, obj);
  }

  /** _rt_timer_remove with what it does to the pending timers. */
  method UnlinkAll(links0: seq<Links>, t: Node, ghost rows0: seq<seq<Node>>, ghost o: Keys,
                   ghost objs: map<Node, TimerObj>, ghost now: nat, ghost starts: nat)
    returns (links: seq<Links>, ghost rows: seq<seq<Node>>)
    requires Core(links0, rows0, o, objs, now, starts) && t in objs
    ensures Core(links, rows, o, objs, now, starts) && |rows| == |rows0|
    ensures forall l :: 0 <= l < |rows| ==> t !in rows[l]
    ensures Bottom(rows, o) == Without(Bottom(rows0, o), t)
  {
    ghost var b := |rows0| - 1;
    links, rows := UnlinkRows(links0, t, rows0, o, objs.Keys);
    assert TicksOk(rows[b], objs, o, now) && StampsOk(rows[b], o, starts)
        && Entries(rows[b], o.deadline) == Without(Entries(rows0[b], o.deadline), t)
    by {
      WithoutIdMembers(rows0[b], t);
      FewerPending(rows0[b], rows[b], objs, o, now, starts);
      EntriesWithout(rows0[b], o.deadline, t);
    }
  }

  /** The loop of _rt_timer_remove over the rows. */
  method UnlinkRows(links0: seq<Links>, t: Node, ghost rows0: seq<seq<Node>>, ghost o: Keys, ghost all: set<Node>)
    returns (links: seq<Links>, ghost rows: seq<seq<Node>>)
    requires RowsOk(links0, rows0, o, all) && Nested(rows0) && t in all
    ensures RowsOk(links, rows, o, all) && Nested(rows) && |rows| == |rows0|
    ensures forall l :: 0 <= l < |rows| ==> rows[l] == WithoutId(rows0[l], t) && t !in rows[l]
  {
    links, rows := links0, rows0;
    var i := 0;
    while i < |links|
      invariant i <= |rows| == |rows0|
      invariant RowsOk(links, rows, o, all) && Nested(rows)
      invariant forall l :: 0 <= l < i ==> rows[l] == WithoutId(rows0[l], t) && t !in rows[l]
      invariant forall l :: i <= l < |rows| ==> rows[l] == rows0[l]
    {
      UnlinkRow(links, rows, o, all, i, t);
      links := links[i := Remove(links[i], t)];
      rows := rows[i := WithoutId(rows[i], t)];
      i := i + 1;
    }
  }

  /** Search and insertion together. */
  method LinkAll(links0: seq<Links>, objs: map<Node, TimerObj>, mask: nat, nr: nat, t: Node,
                 ghost rows0: seq<seq<Node>>, ghost o: Keys, ghost now: nat, ghost starts: nat)
    returns (links: seq<Links>, ghost rows: seq<seq<Node>>)
    requires Core(links0, rows0, o, objs, now, starts) && t in objs && o.stamp[t] == starts
    requires forall l :: 0 <= l < |rows0| ==> t !in rows0[l]
    requires objs[t].timeoutTick == o.deadline[t] % TICKS && now <= o.deadline[t] < now + HALF
    ensures Core(links, rows, o, objs, now, starts + 1) && |rows| == |rows0|
    ensures Bottom(rows, o)
         == LinearInsert(Bottom(rows0, o), Entry(t, o.deadline[t]))
  {
    ghost var b := |rows0| - 1;
    var heads, ks := SearchRows(links0, objs, objs[t].timeoutTick, rows0, o, now, o.deadline[t]);
    assert SlotAt(rows0[b], ks[b], heads[b], o, o.deadline[t]);
    ghost var r := Inserted(rows0[b], ks[b], t);
    assert TicksOk(r, objs, o, now) && StampsOk(r, o, starts + 1)
        && Entries(r, o.deadline) == LinearInsert(Entries(rows0[b], o.deadline), Entry(t, o.deadline[t]))
    by {
      LinkedPending(rows0[b], objs, o, now, starts, ks[b], t);
    }
    links, rows := LinkRows(links0, heads, mask, nr, t, rows0, o, objs.Keys, ks);
  }

  /** The insertion loop of rt_timer_start: always the bottom row, then upwards
      while the low bits of the counter are zero. */
  method LinkRows(links0: seq<Links>, heads: seq<Node>, mask: nat, nr: nat, t: Node,
                  ghost rows0: seq<seq<Node>>, ghost o: Keys, ghost all: set<Node>, ghost ks: seq<nat>)
    returns (links: seq<Links>, ghost rows: seq<seq<Node>>)
    requires |rows0| > 0 && RowsOk(links0, rows0, o, all) && Nested(rows0)
    requires t in all && t in o.deadline && t in o.stamp && forall l :: 0 <= l < |rows0| ==> t !in rows0[l]
    requires SlotsOk(heads, ks, rows0, o, o.deadline[t]) && |ks| == |rows0|
    requires StampsOk(rows0[|rows0| - 1], o, o.stamp[t])
    ensures |rows| == |rows0| && RowsOk(links, rows, o, all) && Nested(rows)
    ensures rows[|rows| - 1] == Inserted(rows0[|rows| - 1], ks[|rows| - 1], t)
  {
    var levels := |links0|;
    var bottom := levels - 1;
    links, rows := links0, rows0;
    LinkRow(links, rows, o, all, bottom, ks[bottom], t);
    links := links[bottom := InsertAfter(links[bottom], heads[bottom], t)];
    rows := rows[bottom := Inserted(rows[bottom], ks[bottom], t)];
    var lvl, tst := 2, nr;
    while lvl <= levels
      invariant 2 <= lvl <= levels + 1 && |rows| == levels
      invariant RowsOk(links, rows, o, all) && Nested(rows)
      invariant rows[bottom] == Inserted(rows0[bottom], ks[bottom], t)
      invariant forall l :: 0 <= l <= levels - lvl ==> rows[l] == rows0[l]
      invariant forall l :: levels - lvl < l < levels ==> t in rows[l]
    {
      if tst % (mask + 1) != 0 {
        break;
      }
      var up := levels - lvl;
      StampsAbove(rows0, o, o.stamp[t], up);
      LinkRow(links, rows, o, all, up, ks[up], t);
      links := links[up := InsertAfter(links[up], heads[up], t)];
      rows := rows[up := Inserted(rows[up], ks[up], t)];
      tst := tst / (mask + 1);
      lvl := lvl + 1;
    }
  }

  /** Node `from` is the start-th of the row; all before it are due by d. */
  ghost predicate StartOk(s: seq<Node>, start: nat, from: Node, o: Keys, d: nat) {
    && start <= |s| && from == ([HEAD] + s)[start]
    && (forall i :: 0 <= i < start ==> s[i] in o.deadline && o.deadline[s[i]] <= d)
  }

  /** Node `cur` is where a timer with deadline d belongs in the row. */
  ghost predicate SlotAt(s: seq<Node>, k: nat, cur: Node, o: Keys, d: nat) {
    Knows(o, s) && IdSlot(o, s, k, d) && cur == ([HEAD] + s)[k]
  }

  /** The inner loop of rt_timer_start: walk one row from `from` to the last
      node whose timer is not due after the new one. */
  method SearchRow(l: Links, objs: map<Node, TimerObj>, from: Node, timeout: nat,
                   ghost s: seq<Node>, ghost o: Keys, ghost start: nat, ghost now: nat, ghost d: nat)
    returns (cur: Node, ghost k: nat)
    requires RowOk(l, s, o, objs.Keys)
    requires TicksOk(s, objs, o, now)
    requires timeout == d % TICKS && now <= d < now + HALF
    requires StartOk(s, start, from, o, d)
    ensures SlotAt(s, k, cur, o, d)
  {
    ghost var c := [HEAD] + s;
    cur, k := from, start;
    assert c[0] == HEAD && NodeAt(l, c, 0);
    while cur != l.prev[HEAD]
      invariant start <= k <= |s| && cur == c[k]
      invariant forall i :: 0 <= i < k ==> o.deadline[s[i]] <= d
      decreases |s| - k
    {
      assert NodeAt(l, c, k);
      var p := l.next[cur];
      assert k < |s| && p == s[k];
      PendingLater(s, objs, o, now, k, d);
      if Later32(objs[p].timeoutTick, timeout) {
        return;
      }
      cur := l.next[cur];
      k := k + 1;
    }
  }

  /** On a pending timer the wrapping comparison tells the truth. */
  lemma PendingLater(s: seq<Node>, objs: map<Node, TimerObj>, o: Keys, now: nat, k: nat, d: nat)
    requires TicksOk(s, objs, o, now) && k < |s| && Ordered(o, s)
    requires now <= d < now + HALF
    ensures Later32(objs[s[k]].timeoutTick, d % TICKS) <==> o.deadline[s[k]] > d
    ensures o.deadline[s[k]] > d ==> forall i :: k <= i < |s| ==> o.deadline[s[i]] > d
  {
    Later32Iff(o.deadline[s[k]], d);
    forall j | k < j < |s| ensures o.deadline[s[j]] >= o.deadline[s[k]] {
      assert Less(o, s[k], s[j]);
    }
  }

  /** A place found in row s carries over to the row below. */
  lemma BelowStart(s: seq<Node>, r: seq<Node>, o: Keys, k: nat, cur: Node, d: nat) returns (at: nat)
    requires Ordered(o, s) && Ordered(o, r) && Sub(s, r) && SlotAt(s, k, cur, o, d)
    ensures StartOk(r, at, cur, o, d)
  {
    if k == 0 {
      at := 0;
    } else {
      var x := s[k - 1];
      assert s[k - 1] in r;
      var i :| 0 <= i < |r| && r[i] == x;
      at := i + 1;
      forall j | 0 <= j < i ensures o.deadline[r[j]] <= d {
        assert Less(o, r[j], r[i]);
      }
    }
  }

  /** The heads found for a new deadline d: one insertion point per row. */
  ghost predicate SlotsOk(heads: seq<Node>, ks: seq<nat>, rows: seq<seq<Node>>, o: Keys, d: nat) {
    |heads| == |ks| <= |rows| && forall j :: 0 <= j < |ks| ==> SlotAt(rows[j], ks[j], heads[j], o, d)
  }

  lemma RowTicks(rows: seq<seq<Node>>, objs: map<Node, TimerObj>, o: Keys, now: nat, l: nat)
    requires Nested(rows) && l < |rows| && TicksOk(rows[|rows| - 1], objs, o, now)
    ensures TicksOk(rows[l], objs, o, now)
  {
    assert Sub(rows[l], rows[|rows| - 1]);
  }

  /** The outer search loop of rt_timer_start over all rows. */
  method SearchRows(links: seq<Links>, objs: map<Node, TimerObj>, timeout: nat,
                    ghost rows: seq<seq<Node>>, ghost o: Keys, ghost now: nat, ghost d: nat)
    returns (heads: seq<Node>, ghost ks: seq<nat>)
    requires |rows| > 0 && RowsOk(links, rows, o, objs.Keys) && Nested(rows)
    requires TicksOk(rows[|rows| - 1], objs, o, now)
    requires timeout == d % TICKS && now <= d < now + HALF
    ensures SlotsOk(heads, ks, rows, o, d) && |ks| == |rows|
  {
    heads, ks := [], [];
    var lvl, from := 0, HEAD;
    ghost var start: nat := 0;
    while lvl < |links|
      invariant lvl <= |rows| && |heads| == lvl && SlotsOk(heads, ks, rows, o, d)
      invariant lvl < |rows| ==> StartOk(rows[lvl], start, from, o, d)
    {
      ghost var s := rows[lvl];
      assert RowOk(links[lvl], s, o, objs.Keys);
      RowTicks(rows, objs, o, now, lvl);
      var cur, k := SearchRow(links[lvl], objs, from, timeout, s, o, start, now, d);
      heads, ks := heads + [cur], ks + [k];
      if lvl != |links| - 1 {
        assert RowOk(links[lvl + 1], rows[lvl + 1], o, objs.Keys) && Sub(rows[lvl], rows[lvl + 1]);
        start := BelowStart(s, rows[lvl + 1], o, k, cur, d);
        from := cur;
      }
      lvl := lvl + 1;
    }
  }

  lemma InsertNested(rows: seq<seq<Node>>, i: nat, k: nat, t: Node)
    requires Nested(rows) && i < |rows| && k <= |rows[i]| && forall m :: i < m < |rows| ==> t in rows[m]
    ensures Nested(rows[i := Inserted(rows[i], k, t)])
  {
    var r := rows[i := Inserted(rows[i], k, t)];
    InsertedMembers(rows[i], k, t);
    forall l, m | 0 <= l <= m < |r| ensures Sub(r[l], r[m]) {
      assert Sub(rows[l], rows[m]);
      forall j | 0 <= j < |r[l]| ensures r[l][j] in r[m] {
        var x := r[l][j];
        assert x in r[l];
      }
    }
  }

  /** Linking a timer into row i, when the rows below already hold it. */
  lemma LinkRow(links: seq<Links>, rows: seq<seq<Node>>, o: Keys, all: set<Node>, i: nat, k: nat, t: Node)
    requires RowsOk(links, rows, o, all) && Nested(rows) && i < |rows| && t in all && t !in rows[i]
    requires t in o.deadline && t in o.stamp && Knows(o, rows[i]) && IdSlot(o, rows[i], k, o.deadline[t])
    requires forall j :: 0 <= j < |rows[i]| ==> o.stamp[rows[i][j]] < o.stamp[t]
    requires forall m :: i < m < |rows| ==> t in rows[m]
    ensures ([HEAD] + rows[i])[k] in links[i].next
    ensures var r := rows[i := Inserted(rows[i], k, t)];
      && RowsOk(links[i := InsertAfter(links[i], ([HEAD] + rows[i])[k], t)], r, o, all)
      && Nested(r) && t in r[i]
  {
    InsertRow(links[i], rows[i], o, all, k, t);
    InsertNested(rows, i, k, t);
    InsertedMembers(rows[i], k, t);
  }

  lemma StampsAbove(rows: seq<seq<Node>>, o: Keys, starts: nat, l: nat)
    requires l < |rows| && Nested(rows) && StampsOk(rows[|rows| - 1], o, starts)
    ensures StampsOk(rows[l], o, starts)
  {
    assert Sub(rows[l], rows[|rows| - 1]);
  }

  lemma LinkedPending(s: seq<Node>, objs: map<Node, TimerObj>, o: Keys, now: nat, starts: nat, k: nat, t: Node)
    requires TicksOk(s, objs, o, now) && StampsOk(s, o, starts) && t in objs && t in o.deadline && t in o.stamp
    requires objs[t].timeoutTick == o.deadline[t] % TICKS && now <= o.deadline[t] < now + HALF && o.stamp[t] == starts
    requires IdSlot(o, s, k, o.deadline[t])
    ensures var r := Inserted(s, k, t);
      && TicksOk(r, objs, o, now) && StampsOk(r, o, starts + 1)
      && Entries(r, o.deadline) == LinearInsert(Entries(s, o.deadline), Entry(t, o.deadline[t]))
  {
    EntriesInserted(s, o.deadline, k, t);
    LinearInsertAt(Entries(s, o.deadline), Entry(t, o.deadline[t]), k);
    var r := Inserted(s, k, t);
    forall i | 0 <= i < |r| ensures r[i] == t || r[i] in s {
      InsertedAt(s, k, t, i);
    }
  }

  /** Changing the order key of a timer that is in no row. */
  lemma RetimeRow(l: Links, s: seq<Node>, o: Keys, all: set<Node>, t: Node, d: nat, st: nat)
    requires RowOk(l, s, o, all) && t !in s
    ensures RowOk(l, s, Keys(o.deadline[t := d], o.stamp[t := st]), all)
  {
    var p := Keys(o.deadline[t := d], o.stamp[t := st]);
    forall i | 0 <= i < |s| ensures s[i] != t {
      var x := s[i];
      assert x in s;
    }
    forall i, j | 0 <= i < j < |s| ensures Less(p, s[i], s[j]) {
      assert Less(o, s[i], s[j]);
    }
  }

  lemma Retime(links: seq<Links>, rows: seq<seq<Node>>, o: Keys, objs: map<Node, TimerObj>, now: nat, starts: nat,
               t: Node, obj: TimerObj, d: nat)
    requires Core(links, rows, o, objs, now, starts) && t in objs && forall l :: 0 <= l < |rows| ==> t !in rows[l]
    ensures var p := Keys(o.deadline[t := d], o.stamp[t := starts]);
      && Core(links, rows, p, objs[t := obj], now, starts)
      && Bottom(rows, p) == Bottom(rows, o)
  {
    var p := Keys(o.deadline[t := d], o.stamp[t := starts]);
    forall l | 0 <= l < |rows| ensures RowOk(links[l], rows[l], p, objs.Keys) {
      RetimeRow(links[l], rows[l], o, objs.Keys, t, d, starts);
    }
    var s := rows[|rows| - 1];
    forall i | 0 <= i < |s| ensures s[i] != t {
      var x := s[i];
      assert x in s;
    }
    assert objs[t := obj].Keys == objs.Keys;
    assert p.deadline.Keys == o.deadline.Keys && p.stamp.Keys == o.stamp.Keys;
    assert Entries(s, p.deadline) == Entries(s, o.deadline);
  }

  /** A timer object may change in everything but its timeout tick. */
  lemma Reflag(links: seq<Links>, rows: seq<seq<Node>>, o: Keys, objs: map<Node, TimerObj>, now: nat, starts: nat,
               t: Node, obj: TimerObj)
    requires Core(links, rows, o, objs, now, starts) && t in objs && obj.timeoutTick == objs[t].timeoutTick
    ensures Core(links, rows, o, objs[t := obj], now, starts)
  {
    assert objs[t := obj].Keys == objs.Keys;
  }

  lemma RecsUpdate(objs: map<Node, TimerObj>, t: Node, obj: TimerObj)
    requires t in objs
    ensures Recs(objs[t := obj]) == Recs(objs)[t := Rec(obj.activated, obj.periodic, obj.initTick)]
  {
  }

  lemma RemoveNested(rows: seq<seq<Node>>, i: nat, t: Node)
    requires Nested(rows) && i < |rows| && forall l :: 0 <= l < i ==> t !in rows[l]
    ensures Nested(rows[i := WithoutId(rows[i], t)])
  {
    var r := rows[i := WithoutId(rows[i], t)];
    WithoutIdMembers(rows[i], t);
    forall l, m | 0 <= l <= m < |r| ensures Sub(r[l], r[m]) {
      assert Sub(rows[l], rows[m]);
      forall j | 0 <= j < |r[l]| ensures r[l][j] in r[m] {
        var x := r[l][j];
        assert x in r[l] && x in rows[l];
      }
    }
  }

  /** Taking a timer out of row i, when the rows above no longer hold it. */
  lemma UnlinkRow(links: seq<Links>, rows: seq<seq<Node>>, o: Keys, all: set<Node>, i: nat, t: Node)
    requires RowsOk(links, rows, o, all) && Nested(rows) && i < |rows| && t in all
    requires forall l :: 0 <= l < i ==> t !in rows[l]
    ensures t in links[i].next && t in links[i].prev
    ensures var r := rows[i := WithoutId(rows[i], t)];
      && RowsOk(links[i := Remove(links[i], t)], r, o, all)
      && Nested(r) && t !in r[i]
  {
    RemoveRow(links[i], rows[i], o, all, t);
    RemoveNested(rows, i, t);
    WithoutIdMembers(rows[i], t);
  }

  lemma FewerPending(s: seq<Node>, r: seq<Node>, objs: map<Node, TimerObj>, o: Keys, now: nat, starts: nat)
    requires TicksOk(s, objs, o, now) && StampsOk(s, o, starts) && Sub(r, s)
    ensures TicksOk(r, objs, o, now) && StampsOk(r, o, starts)
  {
  }

  /** Every row of the skip list is the bottom row with timers left out. */
  lemma RowsAreSubsequences(c: Config, st: State, v: View, l: nat, m: nat)
    requires Ok(c, st, v) && l <= m < c.levels
    ensures v.rows[l] == Restrict(v.rows[m], set x | x in v.rows[l])
  {
    assert RowOk(st.links[l], v.rows[l], v.keys, st.objs.Keys);
    assert RowOk(st.links[m], v.rows[m], v.keys, st.objs.Keys);
    assert Sub(v.rows[l], v.rows[m]);
    OrderedSubset(v.keys, v.rows[l], v.rows[m]);
  }
}
