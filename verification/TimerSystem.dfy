/** The timer system as one object: what rt_timer_start, rt_timer_stop and
    rt_tick_increase do to it over its whole life. */
module TimerSystem {
  import opened RtList
  import opened TimerSpec
  import opened TimerRow
  import opened TimerRuns
  import opened Timer

  class Timers {
    const config: Config
    var state: State
    ghost var view: View

    /** In every state between two calls the list refines the sorted list of
        unbounded time, and no pending deadline is past. */
    ghost predicate Valid()
      reads this
    {
      Ok(config, state, view) && Between(Sys(), config.callbacks, 0)
    }

    ghost function Sys(): TimerSpec.Sys
      reads this
    {
      Abs(state, view)
    }

    /** rt_system_timer_init and one _rt_timer_init for every timer. */
    constructor (levels: nat, mask: nat, callbacks: Callbacks, periods: map<Node, (bool, nat)>)
      requires levels >= 1 && (mask == 1 || mask == 3)
      requires periods.Keys == callbacks.Keys && HEAD !in periods
      requires forall t :: t in periods ==> periods[t].1 < HALF
      requires Tame(callbacks, FreshRecs(periods))
      ensures Valid() && Sys() == TimerSpec.Sys(0, [], FreshRecs(periods), [])
    {
      config := Config(levels, mask, callbacks);
      state := FreshState(levels, periods);
      view := FreshView(levels, periods);
      FreshValid(levels, mask, callbacks, periods);
    }

    method Start(t: Node)
      requires Valid() && t in state.objs
      modifies this`state, this`view
      ensures Valid() && Sys() == StepSpec(old(Sys()), DoStart(t), config.callbacks)
    {
      StepBetween(Sys(), DoStart(t), config.callbacks, 0);
      state, view := Timer.DoStart(config, state, view, t);
    }

    method Stop(t: Node) returns (ok: bool)
      requires Valid() && t in state.objs
      modifies this`state, this`view
      ensures Valid() && Sys() == StepSpec(old(Sys()), DoStop(t), config.callbacks)
      ensures ok == old(Sys().recs[t].activated)
    {
      StepBetween(Sys(), DoStop(t), config.callbacks, 0);
      state, view, ok := Timer.DoStop(config, state, view, t);
    }

    /** rt_timer_control; a new period is below half a turn, as rt_timer_start asserts. */
    method Control(t: Node, periodic: bool, ticks: nat)
      requires Valid() && t in state.objs && ticks < HALF
      requires Legal(Sys(), DoControl(t, periodic, ticks), config.callbacks, 0)
      modifies this`state
      ensures Valid() && Sys() == StepSpec(old(Sys()), DoControl(t, periodic, ticks), config.callbacks)
    {
      StepBetween(Sys(), DoControl(t, periodic, ticks), config.callbacks, 0);
      state := Timer.DoControl(config, state, view, t, periodic, ticks);
    }

    /** rt_tick_increase, as far as timers go: advance the tick, then check. */
    method TickIncrease()
      requires Valid()
      modifies this`state, this`view
      ensures Valid() && Sys() == StepSpec(old(Sys()), Tick, config.callbacks)
    {
      StepBetween(Sys(), Tick, config.callbacks, 0);
      state, view := DoTick(config, state, view);
    }

    /** rt_timer_next_timeout_tick: RT_TICK_MAX stands for an empty list. */
    method NextTimeout() returns (tick: nat)
      requires Valid()
      ensures Sys().pending == [] ==> tick == TICK_MAX
      ensures Sys().pending != [] ==> tick == Sys().pending[0].deadline % TICKS
      ensures forall e :: e in Sys().pending ==> Sys().pending[0].deadline <= e.deadline
    {
      FirstPending(config, state, view);
      var t := state.links[config.levels - 1].next[HEAD];
      tick := if t == HEAD then TICK_MAX else state.objs[t].timeoutTick;
      EarliestFirst(Sys());
    }
  }

  lemma TickReady(s: TimerSpec.Sys, s1: TimerSpec.Sys, cb: Callbacks)
    requires Between(s, cb, 0) && s1 == s.(now := s.now + 1)
    ensures Good(s1, cb) && CheckSpec(s1, cb) == TickSpec(s, cb)
  {
  }

  method DoTick(c: Config, st: State, ghost v: View) returns (st': State, ghost v': View)
    requires Ok(c, st, v) && Between(Abs(st, v), c.callbacks, 0)
    ensures Ok(c, st', v') && Abs(st', v') == TickSpec(Abs(st, v), c.callbacks)
  {
    var st1 := st.(tick := (st.tick + 1) % TICKS);
    ghost var v1 := v.(now := v.now + 1);
    TickReady(Abs(st, v), Abs(st1, v1), c.callbacks);
    TickedOk(c, st, v);
    st', v' := DoCheck(c, st1, v1);
  }

  lemma EarliestFirst(s: TimerSpec.Sys)
    requires Sorted(s.pending)
    ensures forall e :: e in s.pending ==> s.pending[0].deadline <= e.deadline
  {
    forall e | e in s.pending ensures s.pending[0].deadline <= e.deadline {
      var i :| 0 <= i < |s.pending| && s.pending[i] == e;
    }
  }

  lemma EmptyOk(c: Config, st: State, v: View, self: map<Node, Node>)
    requires c.levels >= 1 && (c.mask == 1 || c.mask == 3) && HEAD !in st.objs
    requires st.objs.Keys == c.callbacks.Keys == v.keys.deadline.Keys == v.keys.stamp.Keys
    requires self == map n | n in st.objs.Keys + {HEAD} :: n
    requires v.now == 0 && st.tick == 0 && InitOk(st.objs)
    requires |st.links| == |v.rows| == c.levels
    requires forall l :: 0 <= l < c.levels ==> st.links[l] == Links(self, self) && v.rows[l] == []
    ensures Ok(c, st, v) && Abs(st, v).pending == []
  {
    forall l | 0 <= l < c.levels ensures RowOk(st.links[l], v.rows[l], v.keys, st.objs.Keys) {
      assert [HEAD] + v.rows[l] == [HEAD];
      assert NodeAt(st.links[l], [HEAD], 0);
    }
    assert v.rows[c.levels - 1] == [];
  }

  ghost function FreshRecs(periods: map<Node, (bool, nat)>): map<Node, Rec> {
    map t | t in periods :: Rec(false, periods[t].0, periods[t].1)
  }

  function FreshState(levels: nat, periods: map<Node, (bool, nat)>): State {
    var self := map n | n in periods.Keys + {HEAD} :: n;
    var objs := map t | t in periods :: TimerObj(false, periods[t].0, periods[t].1, 0);
    State(0, objs, seq(levels, i => Links(self, self)), 0)
  }

  ghost function FreshView(levels: nat, periods: map<Node, (bool, nat)>): View {
    View(0, seq(levels, i => []), Keys(map t | t in periods :: 0, map t | t in periods :: 0), 0, [])
  }

  lemma FreshOk(levels: nat, mask: nat, callbacks: Callbacks, periods: map<Node, (bool, nat)>)
    requires levels >= 1 && (mask == 1 || mask == 3) && periods.Keys == callbacks.Keys && HEAD !in periods
    requires forall t :: t in periods ==> periods[t].1 < HALF
    ensures var st, v := FreshState(levels, periods), FreshView(levels, periods);
      Ok(Config(levels, mask, callbacks), st, v) && Abs(st, v).pending == []
  {
    var st, v := FreshState(levels, periods), FreshView(levels, periods);
    EmptyOk(Config(levels, mask, callbacks), st, v, map n | n in periods.Keys + {HEAD} :: n);
  }

  lemma FreshValid(levels: nat, mask: nat, callbacks: Callbacks, periods: map<Node, (bool, nat)>)
    requires levels >= 1 && (mask == 1 || mask == 3) && periods.Keys == callbacks.Keys && HEAD !in periods
    requires (forall t :: t in periods ==> periods[t].1 < HALF) && Tame(callbacks, FreshRecs(periods))
    ensures var st, v := FreshState(levels, periods), FreshView(levels, periods);
      && Ok(Config(levels, mask, callbacks), st, v)
      && Abs(st, v) == TimerSpec.Sys(0, [], FreshRecs(periods), []) && Between(Abs(st, v), callbacks, 0)
  {
    FreshOk(levels, mask, callbacks, periods);
    assert Recs(FreshState(levels, periods).objs) == FreshRecs(periods);
  }

  /** Advancing the tick keeps every pending deadline at most one tick late. */
  lemma TickedOk(c: Config, st: State, v: View)
    requires Ok(c, st, v) && forall e :: e in Abs(st, v).pending ==> e.deadline >= v.now
    ensures Ok(c, st.(tick := (st.tick + 1) % TICKS), v.(now := v.now + 1))
  {
    var s := v.rows[c.levels - 1];
    var p := Abs(st, v).pending;
    forall i | 0 <= i < |s| ensures v.keys.deadline[s[i]] >= v.now {
      assert p[i] in p;
    }
  }
}
