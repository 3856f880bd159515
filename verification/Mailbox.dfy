/** The mailbox object of src/ipc.c: a ring of words with two lists of waiters. */
module Mailbox {
  import opened RtList
  import opened IpcList
  import opened MailboxSpec

  /** The ring index i places after `out`. */
  function Slot(out: nat, i: nat, size: nat): int {
    if out + i < size then out + i else out + i - size
  }

  lemma SlotIsMod(out: nat, i: nat, size: nat)
    requires out < size && i <= size
    ensures Slot(out, i, size) == (out + i) % size
  {
    if out + i >= size {
      assert (out + i) == (out + i - size) + size;
      assert (out + i - size) < size;
    }
  }

  /** Cells out, out + 1, ... around the ring hold the queue, oldest first. */
  ghost predicate RingHolds(cells: seq<Value>, inOffset: int, out: int, entry: int, queue: seq<Value>) {
    var size := |cells|;
    && entry == |queue| <= size
    && 0 <= out && (size > 0 ==> out < size)
    && inOffset == (if size == 0 then 0 else Slot(out, entry, size))
    && (forall i :: 0 <= i < entry ==> 0 <= Slot(out, i, size) < size && cells[Slot(out, i, size)] == queue[i])
  }

  function Step1(offset: int, size: nat): int {
    if offset + 1 >= size then 0 else offset + 1
  }

  lemma PutHolds(cells: seq<Value>, inOffset: int, out: int, entry: int, queue: seq<Value>, v: Value)
    requires RingHolds(cells, inOffset, out, entry, queue) && entry < |cells|
    ensures 0 <= inOffset < |cells|
    ensures RingHolds(cells[inOffset := v], Step1(inOffset, |cells|), out, entry + 1, queue + [v])
  {
    var size := |cells|;
    forall i | 0 <= i < entry + 1 ensures cells[inOffset := v][Slot(out, i, size)] == (queue + [v])[i] {
      assert i < entry ==> Slot(out, i, size) != inOffset;
    }
  }

  lemma GetHolds(cells: seq<Value>, inOffset: int, out: int, entry: int, queue: seq<Value>)
    requires RingHolds(cells, inOffset, out, entry, queue) && entry > 0
    ensures 0 <= out < |cells| && cells[out] == queue[0]
    ensures RingHolds(cells, inOffset, Step1(out, |cells|), entry - 1, queue[1..])
  {
    var size := |cells|;
    assert Slot(out, 0, size) == out;
    forall i | 0 <= i < entry - 1 ensures cells[Slot(Step1(out, size), i, size)] == queue[1..][i] {
      assert Slot(Step1(out, size), i, size) == Slot(out, i + 1, size);
    }
  }

  /** The second list head: the threads suspended on a full mailbox. */
  const SENDERS: Node := -2

  /** The two lists of waiters, whose nodes share one pair of link maps. */
  ghost predicate TwoRings(l: Links, receivers: seq<Tid>, senders: seq<Tid>) {
    && Ring(l, [LIST] + receivers) && Ring(l, [SENDERS] + senders)
    && LIST !in senders && SENDERS !in receivers
    && (forall t :: t in receivers ==> t !in senders)
  }

  /** The receivers' ring changes and the senders' ring is spared. */
  lemma SendersStay(l: Links, m: Links, receivers: seq<Tid>, senders: seq<Tid>, touched: seq<Node>, after: seq<Tid>)
    requires TwoRings(l, receivers, senders) && Ring(m, [LIST] + after) && Spares(l, m, touched)
    requires forall x :: x in touched ==> x != SENDERS && x !in senders
    requires forall x :: x in after ==> x in touched
    ensures TwoRings(m, after, senders)
  {
    SparedRing(l, m, touched, [SENDERS] + senders);
  }

  lemma ReceiversStay(l: Links, m: Links, receivers: seq<Tid>, senders: seq<Tid>, touched: seq<Node>, after: seq<Tid>)
    requires TwoRings(l, receivers, senders) && Ring(m, [SENDERS] + after) && Spares(l, m, touched)
    requires forall x :: x in touched ==> x != LIST && x !in receivers
    requires forall x :: x in after ==> x in touched
    ensures TwoRings(m, receivers, after)
  {
    SparedRing(l, m, touched, [LIST] + receivers);
  }

  method AddReceiver(l: Links, t: Tid, flag: Flag, prio: map<Tid, int>, ghost receivers: seq<Tid>,
                     ghost senders: seq<Tid>) returns (m: Links)
    requires TwoRings(l, receivers, senders) && t !in receivers && t !in senders && t != LIST && t != SENDERS
    requires t in prio && Known(receivers, prio)
    ensures TwoRings(m, Suspended(receivers, t, flag, prio), senders)
  {
    m := Suspend(l, LIST, t, flag, prio, receivers);
    SuspendedIn(receivers, t, flag, prio);
    SendersStay(l, m, receivers, senders, [LIST] + receivers + [t], Suspended(receivers, t, flag, prio));
  }

  method AddSender(l: Links, t: Tid, flag: Flag, prio: map<Tid, int>, ghost receivers: seq<Tid>,
                   ghost senders: seq<Tid>) returns (m: Links)
    requires TwoRings(l, receivers, senders) && t !in receivers && t !in senders && t != LIST && t != SENDERS
    requires t in prio && Known(senders, prio)
    ensures TwoRings(m, receivers, Suspended(senders, t, flag, prio))
  {
    m := Suspend(l, SENDERS, t, flag, prio, senders);
    SuspendedIn(senders, t, flag, prio);
    ReceiversStay(l, m, receivers, senders, [SENDERS] + senders + [t], Suspended(senders, t, flag, prio));
  }

  /** Wake the first receiver, if there is one. */
  method ResumeReceiver(l: Links, ghost receivers: seq<Tid>, ghost senders: seq<Tid>) returns (m: Links)
    requires TwoRings(l, receivers, senders)
    ensures TwoRings(m, if receivers == [] then [] else receivers[1..], senders)
  {
    m := l;
    EmptyIff(l, LIST, receivers);
    if l.next[LIST] != LIST {
      var t;
      m, t := Resume(l, LIST, receivers);
      SendersStay(l, m, receivers, senders, [LIST] + receivers, receivers[1..]);
    }
  }

  /** Wake the first sender, if there is one. */
  method ResumeSender(l: Links, ghost receivers: seq<Tid>, ghost senders: seq<Tid>) returns (m: Links)
    requires TwoRings(l, receivers, senders)
    ensures TwoRings(m, receivers, if senders == [] then [] else senders[1..])
  {
    m := l;
    EmptyIff(l, SENDERS, senders);
    if l.next[SENDERS] != SENDERS {
      var t;
      m, t := Resume(l, SENDERS, senders);
      ReceiversStay(l, m, receivers, senders, [SENDERS] + senders, senders[1..]);
    }
  }

  /** rt_list_remove of a waiter on either list. */
  lemma LeftBoth(l: Links, t: Tid, receivers: seq<Tid>, senders: seq<Tid>)
    requires TwoRings(l, receivers, senders) && (t in receivers || t in senders)
    ensures t in l.next && t in l.prev && TwoRings(Remove(l, t), Without(receivers, t), Without(senders, t))
  {
    EmptyIff(l, LIST, receivers);
    EmptyIff(l, SENDERS, senders);
    WithoutIn(receivers, t);
    WithoutIn(senders, t);
    if t in receivers {
      LeftRing(l, LIST, receivers, t);
      NotIn(senders, t);
      SendersStay(l, Remove(l, t), receivers, senders, [LIST] + receivers, Without(receivers, t));
    } else {
      LeftRing(l, SENDERS, senders, t);
      NotIn(receivers, t);
      ReceiversStay(l, Remove(l, t), receivers, senders, [SENDERS] + senders, Without(senders, t));
    }
  }

  lemma {:induction false} NotIn(q: seq<Tid>, t: Tid)
    requires t !in q
    ensures Without(q, t) == q
  {
    if q != [] {
      NotIn(q[1..], t);
    }
  }

  /** Both lists are emptied, receivers first. */
  method WakeAll(l: Links, error: map<Tid, int>, ghost receivers: seq<Tid>, ghost senders: seq<Tid>)
    returns (m: Links, codes: map<Tid, int>)
    requires TwoRings(l, receivers, senders)
    ensures TwoRings(m, [], []) && codes == Failed(Failed(error, receivers), senders)
  {
    m, codes := ResumeAll(l, LIST, error, receivers);
    assert [LIST] + [] == [LIST] && [SENDERS] + [] == [SENDERS];
    SendersStay(l, m, receivers, senders, [LIST] + receivers, []);
    ghost var before := m;
    m, codes := ResumeAll(m, SENDERS, codes, senders);
    ReceiversStay(before, m, [], senders, [SENDERS] + senders, []);
  }

  class Mailbox {
    const size: nat
    const flag: Flag
    const pool: array<Value>
    var inOffset: int
    var outOffset: int
    var entry: int
    var links: Links
    var error: map<Tid, int>
    ghost var view: Box

    ghost predicate Valid()
      reads this, pool
    {
      && pool.Length == size == view.size && Inv(view)
      && RingHolds(pool[..], inOffset, outOffset, entry, view.queue)
      && TwoRings(links, view.recvWait, view.sendWait)
    }

    /** rt_mb_init. */
    constructor (size: nat, flag: Flag)
      ensures Valid() && fresh(pool) && this.size == size && this.flag == flag && view == Box(size, [], [], [], {}, {})
      ensures error == map[]
    {
      this.size, this.flag := size, flag;
      pool := new Value[size];
      inOffset, outOffset, entry, error := 0, 0, 0, map[];
      var self := map[LIST := LIST, SENDERS := SENDERS];
      links := Links(self, self);
      view := Box(size, [], [], [], {}, {});
      assert NodeAt(Links(self, self), [LIST], 0) && NodeAt(Links(self, self), [SENDERS], 0);
      assert [LIST] + [] == [LIST] && [SENDERS] + [] == [SENDERS];
    }

    /** Write the next cell of the ring. */
    method PutCell(value: Value)
      requires pool.Length == size && RingHolds(pool[..], inOffset, outOffset, entry, view.queue) && entry < size
      modifies this`inOffset, this`entry, pool
      ensures RingHolds(pool[..], inOffset, outOffset, entry, view.queue + [value])
    {
      PutHolds(pool[..], inOffset, outOffset, entry, view.queue, value);
      ghost var cells := pool[..][inOffset := value];
      pool[inOffset] := value;
      assert pool[..] == cells;
      inOffset := inOffset + 1;
      if inOffset >= size {
        inOffset := 0;
      }
      entry := entry + 1;
    }

    /** Read the oldest cell of the ring. */
    method TakeCell() returns (value: Value)
      requires pool.Length == size && RingHolds(pool[..], inOffset, outOffset, entry, view.queue) && entry > 0
      modifies this`outOffset, this`entry
      ensures value == view.queue[0] && RingHolds(pool[..], inOffset, outOffset, entry, view.queue[1..])
    {
      GetHolds(pool[..], inOffset, outOffset, entry, view.queue);
      value := pool[outOffset];
      outOffset := outOffset + 1;
      if outOffset >= size {
        outOffset := 0;
      }
      entry := entry - 1;
    }

    /** One pass of rt_mb_send_wait from a section start to its end; `again` says that the
        thread was woken and tries again. */
    method TrySend(t: Tid, value: Value, wait: bool, again: bool, prio: map<Tid, int>) returns (o: Outcome)
      requires Valid() && Enabled(view, Event.Send(t, value, wait, prio)) && t != LIST && t != SENDERS
      modifies this, pool
      ensures Valid() && (view, o) == Next(old(view), Event.Send(t, value, wait, prio), flag)
      ensures error == if o == Blocked || (o == Full && again) then old(error)[t := EOK] else old(error)
    {
      SendInv(view, t, value, wait, flag, prio);
      ghost var next := SendStep(view, t, value, wait, flag, prio).0;
      if entry == size {
        if !wait {
          if again {
            error := error[t := EOK];
          }
          o := Full;
        } else {
          error := error[t := EOK];
          links := AddSender(links, t, flag, prio, view.recvWait, view.sendWait);
          o := Blocked;
        }
      } else {
        PutCell(value);
        links := ResumeReceiver(links, view.recvWait, view.sendWait);
        o := Sent;
      }
      view := next;
    }

    /** One pass of rt_mb_recv from a section start to its end. */
    method TryRecv(t: Tid, wait: bool, again: bool, prio: map<Tid, int>) returns (o: Outcome)
      requires Valid() && Enabled(view, Event.Recv(t, wait, prio)) && t != LIST && t != SENDERS
      modifies this
      ensures Valid() && (view, o) == Next(old(view), Event.Recv(t, wait, prio), flag)
      ensures error == if o == Blocked then old(error)[t := EOK]
                       else if o == Timeout && again then old(error)[t := ETIMEOUT] else old(error)
    {
      RecvInv(view, t, wait, flag, prio);
      ghost var next := RecvStep(view, t, wait, flag, prio).0;
      if entry == 0 {
        if !wait {
          if again {
            error := error[t := ETIMEOUT];
          }
          o := Timeout;
        } else {
          error := error[t := EOK];
          links := AddReceiver(links, t, flag, prio, view.recvWait, view.sendWait);
          o := Blocked;
        }
      } else {
        var value := TakeCell();
        o := Got(value);
        links := ResumeSender(links, view.recvWait, view.sendWait);
      }
      view := next;
    }

    /** rt_thread_timeout of a thread suspended on the mailbox. */
    method ExpireWait(t: Tid)
      requires Valid() && Enabled(view, Event.Expire(t))
      modifies this
      ensures Valid() && view == Next(old(view), Event.Expire(t), flag).0 && error == old(error)[t := ETIMEOUT]
    {
      StepInv(view, Event.Expire(t), flag);
      error := error[t := ETIMEOUT];
      LeftBoth(links, t, view.recvWait, view.sendWait);
      links := Remove(links, t);
      view := Next(view, Event.Expire(t), flag).0;
    }

    /** rt_mb_control with RT_IPC_CMD_RESET: every waiter leaves with -RT_ERROR. */
    method ResetBox()
      requires Valid()
      modifies this
      ensures Valid() && view == Next(old(view), Event.Reset, flag).0
      ensures error == Failed(Failed(old(error), old(view).recvWait), old(view).sendWait)
    {
      StepInv(view, Event.Reset, flag);
      links, error := WakeAll(links, error, view.recvWait, view.sendWait);
      entry, inOffset, outOffset := 0, 0, 0;
      view := Next(view, Event.Reset, flag).0;
    }
  }
}
