/** The mailbox of src/ipc.c as a machine over its interrupts-off sections:
    attempts to send and receive, retries of woken threads, timeouts, resets. */
module MailboxSpec {
  import opened RtList
  import opened IpcList

  type Value = int

  /** `recvWait` and `sendWait` are the suspended threads; the woken sets hold
      the threads that were resumed by the other side and have not retried yet. */
  datatype Box = Box(size: nat, queue: seq<Value>, recvWait: seq<Tid>, sendWait: seq<Tid>,
                     recvWoken: set<Tid>, sendWoken: set<Tid>)

  /** An attempt by a woken thread is its retry; `wait` says its timeout is not
      zero by then; `prio` gives the priorities at that moment. */
  datatype Event =
    | Send(t: Tid, value: Value, wait: bool, prio: map<Tid, int>)
    | Recv(t: Tid, wait: bool, prio: map<Tid, int>)
    | Expire(t: Tid)
    | Reset

  datatype Outcome = Sent | Got(value: Value) | Full | Timeout | Blocked | Quiet

  ghost predicate Free(b: Box, t: Tid) {
    t !in b.recvWait && t !in b.sendWait
  }

  ghost predicate Enabled(b: Box, e: Event) {
    match e
    case Send(t, v, w, prio) => Free(b, t) && t !in b.recvWoken && t in prio && Known(b.sendWait, prio)
    case Recv(t, w, prio) => Free(b, t) && t !in b.sendWoken && t in prio && Known(b.recvWait, prio)
    case Expire(t) => t in b.recvWait || t in b.sendWait
    case Reset => true
  }

  ghost function WakeReceiver(b: Box): Box {
    if b.recvWait == [] then b
    else b.(recvWait := b.recvWait[1..], recvWoken := b.recvWoken + {b.recvWait[0]})
  }

  ghost function WakeSender(b: Box): Box {
    if b.sendWait == [] then b
    else b.(sendWait := b.sendWait[1..], sendWoken := b.sendWoken + {b.sendWait[0]})
  }

  ghost function SendStep(b: Box, t: Tid, v: Value, wait: bool, flag: Flag, prio: map<Tid, int>): (Box, Outcome)
    requires t in prio && Known(b.sendWait, prio)
  {
    var c := b.(sendWoken := b.sendWoken - {t});
    if |b.queue| == b.size then
      if wait then (c.(sendWait := Suspended(b.sendWait, t, flag, prio)), Blocked) else (c, Full)
    else (WakeReceiver(c.(queue := b.queue + [v])), Sent)
  }

  ghost function RecvStep(b: Box, t: Tid, wait: bool, flag: Flag, prio: map<Tid, int>): (Box, Outcome)
    requires t in prio && Known(b.recvWait, prio)
  {
    var c := b.(recvWoken := b.recvWoken - {t});
    if b.queue == [] then
      if wait then (c.(recvWait := Suspended(b.recvWait, t, flag, prio)), Blocked) else (c, Timeout)
    else (WakeSender(c.(queue := b.queue[1..])), Got(b.queue[0]))
  }

  ghost function Next(b: Box, e: Event, flag: Flag): (Box, Outcome)
    requires Enabled(b, e)
  {
    match e
    case Send(t, v, wait, prio) => SendStep(b, t, v, wait, flag, prio)
    case Recv(t, wait, prio) => RecvStep(b, t, wait, flag, prio)
    case Expire(t) => (b.(recvWait := Without(b.recvWait, t), sendWait := Without(b.sendWait, t)), Quiet)
    case Reset => (b.(queue := [], recvWait := [], sendWait := []), Quiet)
  }

  // -------------------------------------------------------------- the invariant

  /** A thread is in at most one place. */
  ghost predicate Apart(b: Box) {
    && Distinct(b.recvWait) && Distinct(b.sendWait)
    && (forall t :: t in b.recvWait ==> t !in b.sendWait && t !in b.recvWoken && t !in b.sendWoken)
    && (forall t :: t in b.sendWait ==> t !in b.recvWoken && t !in b.sendWoken)
  }

  /** No wakeup is lost: what a waiter could use is spoken for by threads that
      were woken and have yet to retry. */
  ghost predicate NoLost(b: Box) {
    && (b.recvWait != [] ==> |b.queue| <= |b.recvWoken|)
    && (b.sendWait != [] ==> b.size - |b.queue| <= |b.sendWoken|)
  }

  ghost predicate Inv(b: Box) {
    |b.queue| <= b.size && Apart(b) && NoLost(b)
  }

  lemma Woken(w: set<Tid>, t: Tid)
    ensures t in w ==> |w - {t}| == |w| - 1
    ensures t !in w ==> w - {t} == w && |w + {t}| == |w| + 1
    ensures |w - {t}| >= |w| - 1
  {
    if t !in w {
      assert w - {t} == w;
    }
  }

  lemma WakeReceiverInv(b: Box)
    requires Apart(b) && |b.queue| <= b.size
    requires b.recvWait != [] ==> |b.queue| - 1 <= |b.recvWoken|
    requires b.sendWait != [] ==> b.size - |b.queue| <= |b.sendWoken|
    ensures Inv(WakeReceiver(b))
  {
    if b.recvWait != [] {
      assert b.recvWait[0] in b.recvWait;
      Woken(b.recvWoken, b.recvWait[0]);
      assert forall t :: t in b.recvWait[1..] ==> t in b.recvWait;
      assert b.recvWait[0] !in b.recvWait[1..];
    }
  }

  lemma WakeSenderInv(b: Box)
    requires Apart(b) && |b.queue| <= b.size
    requires b.recvWait != [] ==> |b.queue| <= |b.recvWoken|
    requires b.sendWait != [] ==> b.size - |b.queue| - 1 <= |b.sendWoken|
    ensures Inv(WakeSender(b))
  {
    if b.sendWait != [] {
      assert b.sendWait[0] in b.sendWait;
      Woken(b.sendWoken, b.sendWait[0]);
      assert forall t :: t in b.sendWait[1..] ==> t in b.sendWait;
      assert b.sendWait[0] !in b.sendWait[1..];
    }
  }

  lemma SendInv(b: Box, t: Tid, v: Value, wait: bool, flag: Flag, prio: map<Tid, int>)
    requires Inv(b) && Enabled(b, Send(t, v, wait, prio))
    ensures Inv(SendStep(b, t, v, wait, flag, prio).0)
  {
    Woken(b.sendWoken, t);
    var c := b.(sendWoken := b.sendWoken - {t});
    if |b.queue| == b.size {
      if wait {
        SuspendedIn(b.sendWait, t, flag, prio);
        SuspendedDistinct(b.sendWait, t, flag, prio);
      }
    } else {
      WakeReceiverInv(c.(queue := b.queue + [v]));
    }
  }

  lemma RecvInv(b: Box, t: Tid, wait: bool, flag: Flag, prio: map<Tid, int>)
    requires Inv(b) && Enabled(b, Recv(t, wait, prio))
    ensures Inv(RecvStep(b, t, wait, flag, prio).0)
  {
    Woken(b.recvWoken, t);
    var c := b.(recvWoken := b.recvWoken - {t});
    if b.queue == [] {
      if wait {
        SuspendedIn(b.recvWait, t, flag, prio);
        SuspendedDistinct(b.recvWait, t, flag, prio);
      }
    } else {
      WakeSenderInv(c.(queue := b.queue[1..]));
    }
  }

  /** Every send, receive, retry, timeout and reset keeps the invariant. */
  lemma StepInv(b: Box, e: Event, flag: Flag)
    requires Inv(b) && Enabled(b, e)
    ensures Inv(Next(b, e, flag).0)
  {
    match e
    case Send(t, v, wait, prio) => SendInv(b, t, v, wait, flag, prio);
    case Recv(t, wait, prio) => RecvInv(b, t, wait, flag, prio);
    case Expire(t) =>
      WithoutIn(b.recvWait, t);
      WithoutIn(b.sendWait, t);
    case Reset =>
  }

  // --------------------------------------------------------------- whole runs

  ghost predicate Runnable(b: Box, es: seq<Event>, flag: Flag)
    decreases |es|
  {
    es == [] || (Enabled(b, es[0]) && Runnable(Next(b, es[0], flag).0, es[1..], flag))
  }

  ghost function Run(b: Box, es: seq<Event>, flag: Flag): Box
    requires Runnable(b, es, flag)
    decreases |es|
  {
    if es == [] then b else Run(Next(b, es[0], flag).0, es[1..], flag)
  }

  lemma {:induction false} RunInv(b: Box, es: seq<Event>, flag: Flag)
    requires Inv(b) && Runnable(b, es, flag)
    ensures Inv(Run(b, es, flag))
    decreases |es|
  {
    if es != [] {
      StepInv(b, es[0], flag);
      RunInv(Next(b, es[0], flag).0, es[1..], flag);
    }
  }

  /** In a reachable state with nobody on the way, a receiver waits only for an
      empty mailbox and a sender only for a full one. */
  lemma WaitsForCause(b: Box)
    requires Inv(b)
    ensures b.recvWait != [] && b.recvWoken == {} ==> b.queue == []
    ensures b.sendWait != [] && b.sendWoken == {} ==> |b.queue| == b.size
  {
  }

  /** The values accepted and delivered along a run. */
  ghost function Accepted(b: Box, es: seq<Event>, flag: Flag): seq<Value>
    requires Runnable(b, es, flag)
    decreases |es|
  {
    if es == [] then []
    else (if Next(b, es[0], flag).1.Sent? then [es[0].value] else []) + Accepted(Next(b, es[0], flag).0, es[1..], flag)
  }

  ghost function Delivered(b: Box, es: seq<Event>, flag: Flag): seq<Value>
    requires Runnable(b, es, flag)
    decreases |es|
  {
    if es == [] then []
    else (if Next(b, es[0], flag).1.Got? then [Next(b, es[0], flag).1.value]
      else []) + Delivered(Next(b, es[0], flag).0, es[1..], flag)
  }

  lemma StepFifo(b: Box, e: Event, flag: Flag)
    requires Enabled(b, e) && !e.Reset?
    ensures var (c, o) := Next(b, e, flag);
      b.queue + (if o.Sent? then [e.value] else []) == (if o.Got? then [o.value] else []) + c.queue
  {
    var c := Next(b, e, flag).0;
    assert b.queue + [] == b.queue && [] + c.queue == c.queue;
  }

  lemma FifoJoin(q0: seq<Value>, i: seq<Value>, o: seq<Value>, q1: seq<Value>, acc: seq<Value>, del: seq<Value>,
                 q: seq<Value>)
    requires q0 + i == o + q1 && q1 + acc == del + q
    ensures q0 + (i + acc) == (o + del) + q
  {
    assert q0 + (i + acc) == (q0 + i) + acc;
    assert (o + q1) + acc == o + (q1 + acc);
    assert (o + del) + q == o + (del + q);
  }

  /** Between resets values come out in the order they went in, none lost or made up. */
  lemma {:induction false} RunFifo(b: Box, es: seq<Event>, flag: Flag)
    requires Runnable(b, es, flag) && forall i :: 0 <= i < |es| ==> !es[i].Reset?
    ensures b.queue + Accepted(b, es, flag) == Delivered(b, es, flag) + Run(b, es, flag).queue
    decreases |es|
  {
    if es != [] {
      var n := Next(b, es[0], flag);
      RunFifo(n.0, es[1..], flag);
      StepFifo(b, es[0], flag);
      FifoJoin(b.queue, if n.1.Sent? then [es[0].value] else [], if n.1.Got? then [n.1.value] else [], n.0.queue,
               Accepted(n.0, es[1..], flag), Delivered(n.0, es[1..], flag), Run(n.0, es[1..], flag).queue);
    }
  }

  // ---------------------------------------------------------------- what is seen

  /** rt_mb_send_wait: sent exactly when there is room, and then the value is the last of
      the queue; refused exactly when it is full and the caller does not wait; else the
      caller waits. */
  lemma SendAnswers(b: Box, t: Tid, v: Value, wait: bool, prio: map<Tid, int>, flag: Flag)
    requires Inv(b) && Enabled(b, Send(t, v, wait, prio))
    ensures var (r, o) := Next(b, Send(t, v, wait, prio), flag);
      && (o == Sent <==> |b.queue| < b.size) && (o == Full <==> |b.queue| == b.size && !wait)
      && (o == Blocked <==> |b.queue| == b.size && wait) && (o == Blocked <==> t in r.sendWait)
      && r.queue == (if o == Sent then b.queue + [v] else b.queue) && r.size == b.size
      && (if o == Blocked then Joined(b.sendWait, r.sendWait, t, flag, prio) else r.sendWait == b.sendWait)
  {
    SuspendedJoins(b.sendWait, t, flag, prio);
  }

  /** A value sent wakes the first waiting receiver, and nothing else does; a woken sender
      that tries again is under way no longer. */
  lemma SendWakes(b: Box, t: Tid, v: Value, wait: bool, prio: map<Tid, int>, flag: Flag)
    requires Inv(b) && Enabled(b, Send(t, v, wait, prio))
    ensures Next(b, Send(t, v, wait, prio), flag).0.sendWoken == b.sendWoken - {t}
    ensures var (r, o) := Next(b, Send(t, v, wait, prio), flag);
      if o == Sent && b.recvWait != []
      then [b.recvWait[0]] + r.recvWait == b.recvWait && r.recvWoken == b.recvWoken + {b.recvWait[0]}
      else r.recvWait == b.recvWait && r.recvWoken == b.recvWoken
  {
  }

  /** rt_mb_recv: the first value exactly when there is one; -RT_ETIMEOUT exactly when it is
      empty and the caller does not wait; else the caller waits. */
  lemma RecvAnswers(b: Box, t: Tid, wait: bool, prio: map<Tid, int>, flag: Flag)
    requires Inv(b) && Enabled(b, Recv(t, wait, prio))
    ensures var (r, o) := Next(b, Recv(t, wait, prio), flag);
      && (o.Got? <==> b.queue != []) && (o == Timeout <==> b.queue == [] && !wait)
      && (o == Blocked <==> b.queue == [] && wait) && (o == Blocked <==> t in r.recvWait)
      && (if o.Got? then [o.value] + r.queue == b.queue else r.queue == b.queue) && r.size == b.size
      && (if o == Blocked then Joined(b.recvWait, r.recvWait, t, flag, prio) else r.recvWait == b.recvWait)
  {
    SuspendedJoins(b.recvWait, t, flag, prio);
  }

  /** A value taken wakes the first waiting sender, and nothing else does; a woken receiver
      that tries again is under way no longer. */
  lemma RecvWakes(b: Box, t: Tid, wait: bool, prio: map<Tid, int>, flag: Flag)
    requires Inv(b) && Enabled(b, Recv(t, wait, prio))
    ensures Next(b, Recv(t, wait, prio), flag).0.recvWoken == b.recvWoken - {t}
    ensures var (r, o) := Next(b, Recv(t, wait, prio), flag);
      if o.Got? && b.sendWait != []
      then [b.sendWait[0]] + r.sendWait == b.sendWait && r.sendWoken == b.sendWoken + {b.sendWait[0]}
      else r.sendWait == b.sendWait && r.sendWoken == b.sendWoken
  {
  }

  /** A reset empties the box and leaves nobody waiting; a timeout takes one thread off the
      list it is on. */
  lemma ResetEmpties(b: Box, flag: Flag)
    requires Inv(b)
    ensures var r := Next(b, Reset, flag).0; r.queue == [] && r.recvWait == [] && r.sendWait == [] && r.size == b.size
  {
  }

  ghost predicate Left(q: seq<Tid>, r: seq<Tid>, t: Tid) {
    if t in q then exists i :: 0 <= i < |q| && q[i] == t && r == Dropped(q, i) else r == q
  }

  lemma WithoutLeft(q: seq<Tid>, t: Tid)
    requires Distinct(q)
    ensures Left(q, Without(q, t), t)
  {
    if t in q {
      var i :| 0 <= i < |q| && q[i] == t;
      WithoutIsDropped(q, i);
    } else {
      WithoutAbsent(q, t);
    }
  }

  lemma ExpireLeaves(b: Box, t: Tid, flag: Flag)
    requires Inv(b) && (t in b.recvWait || t in b.sendWait)
    ensures var r := Next(b, Expire(t), flag).0;
      && r.queue == b.queue && r.recvWoken == b.recvWoken && r.sendWoken == b.sendWoken
      && Left(b.recvWait, r.recvWait, t) && Left(b.sendWait, r.sendWait, t)
  {
    WithoutLeft(b.recvWait, t);
    WithoutLeft(b.sendWait, t);
  }
}
