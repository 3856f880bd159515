/** The event object of src/ipc.c: 32 flags, and threads waiting for all or any
    of some of them. */
module EventFlags {
  import opened RtList
  import opened IpcList

  /** A 32-bit event set, as the set of its one bits. */
  type Bits = set<nat>

  /** The bits RT_EVENT_FLAG_AND, RT_EVENT_FLAG_OR and RT_EVENT_FLAG_CLEAR of an option. */
  datatype Info = Info(all: bool, any: bool, clear: bool)

  /** event_set and event_info of a thread. */
  datatype Want = Want(bits: Bits, info: Info)

  datatype State = State(flags: Bits, wait: seq<Tid>, wants: map<Tid, Want>)

  /** What a receive that finds its flags does to them. */
  datatype Poll = Poll(ok: bool, received: Bits, left: Bits)

  /** The condition of a receive, as both rt_event_recv and rt_event_send test it. */
  predicate Satisfied(flags: Bits, want: Bits, info: Info) {
    if info.all then want <= flags
    else if info.any then want * flags != {}
    else false
  }

  /** A polling rt_event_recv. */
  function PollStep(flags: Bits, want: Bits, info: Info): Poll {
    if Satisfied(flags, want, info)
    then Poll(true, want * flags, if info.clear then flags - want else flags)
    else Poll(false, {}, flags)
  }

  // ------------------------------------------------------------------ the walk

  datatype Walk = Walk(left: Bits, stay: seq<Tid>, woken: seq<(Tid, Bits)>)

  /** Let the waiters poll one after another, in queue order. */
  function PollAll(flags: Bits, wait: seq<Tid>, wants: map<Tid, Want>): Walk
    requires forall i :: 0 <= i < |wait| ==> wait[i] in wants
    decreases |wait|
  {
    if wait == [] then Walk(flags, [], [])
    else
      var t := wait[0];
      var p := PollStep(flags, wants[t].bits, wants[t].info);
      var rest := PollAll(p.left, wait[1..], wants);
      if p.ok then rest.(woken := [(t, p.received)] + rest.woken) else rest.(stay := [t] + rest.stay)
  }

  lemma PollShrinks(flags: Bits, want: Bits, info: Info)
    ensures PollStep(flags, want, info).left <= flags
  {
  }

  /** Fewer flags satisfy fewer receivers. */
  lemma SatisfiedMono(a: Bits, b: Bits, want: Bits, info: Info)
    requires a <= b && Satisfied(a, want, info)
    ensures Satisfied(b, want, info)
  {
    assert want * a <= want * b;
  }

  /** Waiters that stay are unsatisfied by what is left at the end, although
      others cleared flags after they were looked at. */
  lemma {:induction false} PollAllLeaves(flags: Bits, wait: seq<Tid>, wants: map<Tid, Want>)
    requires Covered(wait, wants)
    ensures var w := PollAll(flags, wait, wants);
      && w.left <= flags
      && Covered(w.stay, wants)
      && (forall i :: 0 <= i < |w.stay| ==> !Satisfied(w.left, wants[w.stay[i]].bits, wants[w.stay[i]].info))
    decreases |wait|
  {
    if wait != [] {
      var t := wait[0];
      var p := PollStep(flags, wants[t].bits, wants[t].info);
      var rest := PollAll(p.left, wait[1..], wants);
      PollAllLeaves(p.left, wait[1..], wants);
      PollShrinks(flags, wants[t].bits, wants[t].info);
      if !p.ok && Satisfied(rest.left, wants[t].bits, wants[t].info) {
        SatisfiedMono(rest.left, flags, wants[t].bits, wants[t].info);
      }
    }
  }

  ghost predicate Covered(wait: seq<Tid>, wants: map<Tid, Want>) {
    forall i :: 0 <= i < |wait| ==> wait[i] in wants
  }

  // ------------------------------------------------------ the machine and its runs

  datatype Event =
    | Send(more: Bits)
    | Recv(t: Tid, want: Bits, info: Info, block: bool, prio: map<Tid, int>)
    | Expire(t: Tid)
    | Reset

  ghost predicate Enabled(s: State, e: Event) {
    match e
    case Recv(t, w, info, b, prio) => t !in s.wait && (info.all || info.any) && t in prio && Known(s.wait, prio)
    case Expire(t) => t in s.wait
    case _ => true
  }

  ghost function RecvStep(s: State, t: Tid, want: Bits, info: Info, block: bool, flag: Flag, prio: map<Tid, int>): State
    requires t in prio && Known(s.wait, prio)
  {
    var p := PollStep(s.flags, want, info);
    if want == {} then s
    else if p.ok then s.(flags := p.left)
    else if !block then s
    else State(s.flags, Suspended(s.wait, t, flag, prio), s.wants[t := Want(want, info)])
  }

  function SendStep(s: State, more: Bits): State
    requires forall i :: 0 <= i < |s.wait| ==> s.wait[i] in s.wants
  {
    if more == {} then s
    else
      var w := PollAll(s.flags + more, s.wait, s.wants);
      State(w.left, w.stay, s.wants)
  }

  ghost function Next(s: State, e: Event, flag: Flag): State
    requires Enabled(s, e) && Covered(s.wait, s.wants)
  {
    match e
    case Send(more) => SendStep(s, more)
    case Recv(t, want, info, block, prio) => RecvStep(s, t, want, info, block, flag, prio)
    case Expire(t) => s.(wait := Without(s.wait, t))
    case Reset => s.(flags := {}, wait := [])
  }

  /** No waiter's condition holds of the current flags. */
  ghost predicate Unmet(s: State)
    requires Covered(s.wait, s.wants)
  {
    forall i :: 0 <= i < |s.wait| ==> !Satisfied(s.flags, s.wants[s.wait[i]].bits, s.wants[s.wait[i]].info)
  }

  ghost predicate Inv(s: State) {
    Covered(s.wait, s.wants) && Distinct(s.wait) && Unmet(s)
  }

  lemma SendInv(s: State, more: Bits)
    requires Inv(s)
    ensures Inv(SendStep(s, more))
  {
    PollAllLeaves(s.flags + more, s.wait, s.wants);
    PollAllStays(s.flags + more, s.wait, s.wants);
  }

  lemma {:induction false} PollAllStays(flags: Bits, wait: seq<Tid>, wants: map<Tid, Want>)
    requires Covered(wait, wants) && Distinct(wait)
    ensures var w := PollAll(flags, wait, wants); Distinct(w.stay) && forall t :: t in w.stay ==> t in wait
    decreases |wait|
  {
    if wait != [] {
      var t := wait[0];
      assert Distinct(wait[1..]) && t !in wait[1..];
      PollAllStays(PollStep(flags, wants[t].bits, wants[t].info).left, wait[1..], wants);
    }
  }

  lemma StillUnmet(s: State, left: Bits)
    requires Covered(s.wait, s.wants) && Unmet(s) && left <= s.flags
    ensures Unmet(s.(flags := left))
  {
    forall i | 0 <= i < |s.wait| ensures !Satisfied(left, s.wants[s.wait[i]].bits, s.wants[s.wait[i]].info) {
      var w := s.wants[s.wait[i]];
      assert !Satisfied(s.flags, w.bits, w.info);
      if Satisfied(left, w.bits, w.info) {
        SatisfiedMono(left, s.flags, w.bits, w.info);
      }
    }
  }

  lemma RecvInv(s: State, t: Tid, want: Bits, info: Info, block: bool, flag: Flag, prio: map<Tid, int>)
    requires Inv(s) && t !in s.wait && t in prio && Known(s.wait, prio)
    ensures Inv(RecvStep(s, t, want, info, block, flag, prio))
  {
    var p, r := PollStep(s.flags, want, info), RecvStep(s, t, want, info, block, flag, prio);
    if want != {} && p.ok {
      PollShrinks(s.flags, want, info);
      StillUnmet(s, p.left);
    } else if want != {} && block {
      SuspendedIn(s.wait, t, flag, prio);
      SuspendedDistinct(s.wait, t, flag, prio);
      forall i | 0 <= i < |r.wait|
        ensures r.wait[i] in r.wants && !Satisfied(r.flags, r.wants[r.wait[i]].bits, r.wants[r.wait[i]].info)
      {
        var x := r.wait[i];
        assert x in r.wait;
        if x != t {
          InUnmet(s, x);
        }
      }
    }
  }

  lemma InUnmet(s: State, x: Tid)
    requires Covered(s.wait, s.wants) && Unmet(s) && x in s.wait
    ensures x in s.wants && !Satisfied(s.flags, s.wants[x].bits, s.wants[x].info)
  {
    var k :| 0 <= k < |s.wait| && s.wait[k] == x;
  }

  lemma ExpireInv(s: State, t: Tid)
    requires Inv(s)
    ensures Inv(s.(wait := Without(s.wait, t)))
  {
    WithoutIn(s.wait, t);
    var w := Without(s.wait, t);
    forall i | 0 <= i < |w| ensures w[i] in s.wants && !Satisfied(s.flags, s.wants[w[i]].bits, s.wants[w[i]].info) {
      var x := w[i];
      assert x in w;
      InUnmet(s, x);
    }
  }

  /** After every send, receive, timeout and reset no remaining waiter's
      condition is satisfied by the flags. */
  lemma StepInv(s: State, e: Event, flag: Flag)
    requires Inv(s) && Enabled(s, e)
    ensures Inv(Next(s, e, flag))
  {
    match e
    case Send(more) => SendInv(s, more);
    case Recv(t, want, info, block, prio) => RecvInv(s, t, want, info, block, flag, prio);
    case Expire(t) => ExpireInv(s, t);
    case Reset =>
  }

  ghost predicate Runnable(s: State, es: seq<Event>, flag: Flag)
    decreases |es|
  {
    es == [] || (Enabled(s, es[0]) && Covered(s.wait, s.wants) && Runnable(Next(s, es[0], flag), es[1..], flag))
  }

  ghost function Run(s: State, es: seq<Event>, flag: Flag): State
    requires Runnable(s, es, flag)
    decreases |es|
  {
    if es == [] then s else Run(Next(s, es[0], flag), es[1..], flag)
  }

  lemma {:induction false} RunInv(s: State, es: seq<Event>, flag: Flag)
    requires Inv(s) && Runnable(s, es, flag)
    ensures Inv(Run(s, es, flag))
    decreases |es|
  {
    if es != [] {
      StepInv(s, es[0], flag);
      RunInv(Next(s, es[0], flag), es[1..], flag);
    }
  }

  // ---------------------------------------------------------------- the object

  datatype Served = Served(ok: bool, want: Want, left: Bits)

  /** What rt_event_send does for one waiter, with the flags it delivers left in event_set. */
  function Serve(flags: Bits, w: Want): Served {
    if w.info.all then
      if w.bits <= flags then Served(true, w, Cleared(flags, w)) else Served(false, w, flags)
    else if w.info.any && w.bits * flags != {} then
      var v := w.(bits := w.bits * flags);
      Served(true, v, Cleared(flags, v))
    else Served(false, w, flags)
  }

  function Cleared(flags: Bits, w: Want): Bits {
    if w.info.clear then flags - w.bits else flags
  }

  /** A blocked receiver is delivered the same flags, and clears the same flags,
      as a polling receive at the moment it is woken. */
  lemma ServeIsPoll(flags: Bits, w: Want)
    ensures var p, r := PollStep(flags, w.bits, w.info), Serve(flags, w);
      r.ok == p.ok && r.left == p.left && (r.ok ==> r.want.bits == p.received)
  {
    assert w.bits <= flags ==> w.bits * flags == w.bits;
    assert flags - (w.bits * flags) == flags - w.bits;
  }
}
