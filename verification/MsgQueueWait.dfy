/** The receivers that wait for a message of src/ipc.c: no wakeup is lost. */
module MsgQueueWait {
  import opened RtList
  import opened IpcList
  import opened MsgQueueSpec

  /** `wait` are the suspended receivers; `woken` those that a link resumed and
      that have not tried again yet. */
  datatype Desk = Desk(queue: State, wait: seq<Tid>, woken: set<Tid>)

  /** An attempt by a woken receiver is its retry; `block` says its timeout is not
      zero by then. */
  datatype Act = Inner(e: Event) | Recv(t: Tid, block: bool, prio: map<Tid, int>) | Expire(t: Tid)

  datatype Outcome = Got | Timeout | Blocked | Quiet

  ghost predicate Open(d: Desk, a: Act) {
    match a
    case Inner(e) => !e.Pop? && Enabled(d.queue, e)
    case Recv(t, block, prio) =>
      t !in d.wait && t in prio && Known(d.wait, prio) && (d.queue.queue != [] ==> Enabled(d.queue, Pop))
    case Expire(t) => t in d.wait
  }

  /** rt_ipc_list_resume at the end of a link. */
  ghost function Wake(d: Desk): Desk {
    if d.wait == [] then d else d.(wait := d.wait[1..], woken := d.woken + {d.wait[0]})
  }

  /** The section of rt_mq_recv from a test of `entry` to the unlink or the suspension. */
  ghost function RecvStep(d: Desk, t: Tid, block: bool, flag: Flag, prio: map<Tid, int>): (Desk, Outcome)
    requires Open(d, Recv(t, block, prio))
  {
    var c := d.(woken := d.woken - {t});
    if d.queue.queue != [] then (c.(queue := MsgQueueSpec.Next(d.queue, Pop)), Got)
    else if !block then (c, Timeout)
    else (c.(wait := Suspended(d.wait, t, flag, prio)), Blocked)
  }

  ghost function Next(d: Desk, a: Act, flag: Flag): (Desk, Outcome)
    requires Open(d, a)
  {
    match a
    case Inner(e) =>
      var c := d.(queue := MsgQueueSpec.Next(d.queue, e));
      (if e.Link? then Wake(c) else if e.Reset? then c.(wait := []) else c, Quiet)
    case Recv(t, block, prio) => RecvStep(d, t, block, flag, prio)
    case Expire(t) => (d.(wait := Without(d.wait, t)), Quiet)
  }

  // -------------------------------------------------------------- the invariant

  ghost predicate Apart(d: Desk) {
    Distinct(d.wait) && forall t :: t in d.wait ==> t !in d.woken
  }

  /** While somebody waits, every queued message is spoken for by a receiver that
      was woken and has yet to try again. */
  ghost predicate NoLost(d: Desk) {
    d.wait != [] ==> |d.queue.queue| <= |d.woken|
  }

  ghost predicate DeskOk(d: Desk, max: nat) {
    Inv(d.queue, max) && Apart(d) && NoLost(d)
  }

  lemma Woken(w: set<Tid>, t: Tid)
    ensures |w - {t}| >= |w| - 1 && (t !in w ==> |w + {t}| == |w| + 1 && w - {t} == w)
  {
    if t !in w {
      assert w - {t} == w;
    }
  }

  lemma WakeKeeps(d: Desk)
    requires Apart(d) && (d.wait != [] ==> |d.queue.queue| - 1 <= |d.woken|)
    ensures Apart(Wake(d)) && NoLost(Wake(d))
  {
    if d.wait != [] {
      assert d.wait[0] in d.wait && d.wait[0] !in d.wait[1..];
      Woken(d.woken, d.wait[0]);
      assert forall t :: t in d.wait[1..] ==> t in d.wait;
    }
  }

  lemma InnerKeeps(d: Desk, e: Event, flag: Flag, max: nat)
    requires DeskOk(d, max) && Open(d, Inner(e))
    ensures DeskOk(Next(d, Inner(e), flag).0, max)
  {
    StepInv(d.queue, e, max);
    if e.Link? {
      WakeKeeps(d.(queue := MsgQueueSpec.Next(d.queue, e)));
    }
  }

  lemma RecvKeeps(d: Desk, t: Tid, block: bool, prio: map<Tid, int>, flag: Flag, max: nat)
    requires DeskOk(d, max) && Open(d, Recv(t, block, prio))
    ensures DeskOk(RecvStep(d, t, block, flag, prio).0, max)
  {
    Woken(d.woken, t);
    if d.queue.queue != [] {
      StepInv(d.queue, Pop, max);
    } else if block {
      SuspendedIn(d.wait, t, flag, prio);
      SuspendedDistinct(d.wait, t, flag, prio);
    }
  }

  /** Every send, receive, retry, timeout and reset keeps it. */
  lemma ActKeeps(d: Desk, a: Act, flag: Flag, max: nat)
    requires DeskOk(d, max) && Open(d, a)
    ensures DeskOk(Next(d, a, flag).0, max)
  {
    match a
    case Inner(e) => InnerKeeps(d, e, flag, max);
    case Recv(t, block, prio) => RecvKeeps(d, t, block, prio, flag, max);
    case Expire(t) => WithoutIn(d.wait, t);
  }

  ghost predicate Playable(d: Desk, acts: seq<Act>, flag: Flag)
    decreases |acts|
  {
    acts == [] || (Open(d, acts[0]) && Playable(Next(d, acts[0], flag).0, acts[1..], flag))
  }

  ghost function Play(d: Desk, acts: seq<Act>, flag: Flag): Desk
    requires Playable(d, acts, flag)
    decreases |acts|
  {
    if acts == [] then d else Play(Next(d, acts[0], flag).0, acts[1..], flag)
  }

  /** After any run, with no woken receiver under way, a receiver waits only for
      an empty queue. */
  lemma {:induction false} RunNoLost(d: Desk, acts: seq<Act>, flag: Flag, max: nat)
    requires DeskOk(d, max) && Playable(d, acts, flag)
    ensures var r := Play(d, acts, flag); DeskOk(r, max) && (r.wait != [] && r.woken == {} ==> r.queue.queue == [])
    decreases |acts|
  {
    if acts != [] {
      ActKeeps(d, acts[0], flag, max);
      RunNoLost(Next(d, acts[0], flag).0, acts[1..], flag, max);
    }
  }

  // ---------------------------------------------------------------- what is seen

  /** The test of rt_mq_recv: the first message is unlinked exactly when there is one;
      -RT_ETIMEOUT exactly when there is none and the caller does not wait; else it waits. */
  lemma RecvAnswers(d: Desk, t: Tid, block: bool, prio: map<Tid, int>, flag: Flag)
    requires Apart(d) && Open(d, Recv(t, block, prio))
    ensures var (r, o) := Next(d, Recv(t, block, prio), flag);
      && (o == Got <==> d.queue.queue != []) && r.woken == d.woken - {t}
      && (o == Got ==> r.queue.queue == d.queue.queue[1..] && r.wait == d.wait)
      && (o == Timeout <==> d.queue.queue == [] && !block)
      && (o == Blocked <==> d.queue.queue == [] && block) && (o == Blocked <==> t in r.wait)
      && (o != Got ==> r.queue == d.queue)
      && (if o == Blocked then Joined(d.wait, r.wait, t, flag, prio) else r.wait == d.wait)
  {
    SuspendedJoins(d.wait, t, flag, prio);
  }

  /** A link wakes the first waiting receiver, a reset all of them. */
  lemma LinkWakes(d: Desk, e: Event, flag: Flag)
    requires Apart(d) && Open(d, Inner(e))
    ensures var r := Next(d, Inner(e), flag).0;
      && r.queue == MsgQueueSpec.Next(d.queue, e)
      && (e.Link? && d.wait != [] ==> [d.wait[0]] + r.wait == d.wait && r.woken == d.woken + {d.wait[0]})
      && (e.Reset? ==> r.wait == [])
      && (!e.Reset? && (!e.Link? || d.wait == []) ==> r.wait == d.wait && r.woken == d.woken)
  {
  }

  /** A timeout takes one waiter off, and nothing else. */
  lemma ExpireLeaves(d: Desk, t: Tid, flag: Flag)
    requires Apart(d) && t in d.wait
    ensures var r := Next(d, Expire(t), flag).0;
      && r.queue == d.queue && r.woken == d.woken && t !in r.wait
      && (exists i :: 0 <= i < |d.wait| && d.wait[i] == t && r.wait == Dropped(d.wait, i))
  {
    var i :| 0 <= i < |d.wait| && d.wait[i] == t;
    WithoutIsDropped(d.wait, i);
    WithoutIn(d.wait, t);
  }
}
