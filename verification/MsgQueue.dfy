/** The linked lists of struct rt_messagequeue and the operations of src/ipc.c
    on them, one method per interrupts-off section or copy. */
module MsgQueue {
  import opened RtList
  import opened Chains
  import opened MsgQueueSpec

  const NIL: Node := -1

  /** The pointers of a message queue. */
  datatype Wires = Wires(next: map<Node, Node>, head: Node, tail: Node, free: Node, entry: int)

  function Last(s: seq<Node>): Node {
    if s == [] then NIL else s[|s| - 1]
  }

  /** A sender about to link at the tail has cleared its own `next`. */
  ghost predicate Ended(next: map<Node, Node>, f: Flight) {
    f.role.Filled? && !f.role.urgent ==> f.node in next && next[f.node] == NIL
  }

  ghost predicate Wired(w: Wires, s: State) {
    && Segment(w.next, w.free, s.free, NIL)
    && Segment(w.next, w.head, s.queue, NIL)
    && w.tail == Last(s.queue)
    && w.entry == |s.queue|
    && (forall j :: 0 <= j < |s.air| ==> Ended(w.next, s.air[j]))
  }

  // ------------------------------------------------------------- who is where

  lemma AirNotIn(s: State, max: nat, j: nat)
    requires Places(s) == Pool(max) && j < |s.air|
    ensures s.air[j].node !in s.free && s.air[j].node !in s.queue && s.air[j].node != NIL
  {
    var n := s.air[j].node;
    InPool(s, max, j);
    OnePlace(s, max, n);
    NodesIn(s.air, j);
    assert n in s.free ==> n in multiset(s.free);
    assert n in s.queue ==> n in multiset(s.queue);
  }

  lemma QueueDistinct(s: State, max: nat)
    requires Places(s) == Pool(max)
    ensures Distinct(s.queue) && (forall i :: 0 <= i < |s.queue| ==> s.queue[i] !in s.free && s.queue[i] != NIL)
  {
    forall i, j | 0 <= i < j < |s.queue| ensures s.queue[i] != s.queue[j] {
      var n := s.queue[i];
      OnePlace(s, max, n);
      TwiceIn(s.queue, i, j);
    }
    forall i | 0 <= i < |s.queue| ensures s.queue[i] !in s.free && s.queue[i] != NIL {
      var n := s.queue[i];
      OnePlace(s, max, n);
      assert n in multiset(s.queue);
      assert n in s.free ==> n in multiset(s.free);
    }
  }

  lemma TwiceIn(q: seq<Node>, i: nat, j: nat)
    requires i < j < |q|
    ensures q[i] == q[j] ==> multiset(q)[q[i]] >= 2
  {
    assert q == q[..j] + [q[j]] + q[j + 1..];
    assert q[i] in q[..j];
    assert multiset(q) == multiset(q[..j]) + multiset{q[j]} + multiset(q[j + 1..]);
  }

  // ------------------------------------------------------------ steps on wires

  lemma TakeWired(w: Wires, s: State, u: bool)
    requires Wired(w, s) && s.free != []
    ensures w.free == s.free[0] && w.free in w.next && Wired(w.(free := w.next[w.free]), Next(s, Take(u)))
  {
    var r := Next(s, Take(u));
    forall j | 0 <= j < |r.air| ensures Ended(w.next, r.air[j]) {
      assert j < |s.air| ==> Ended(w.next, s.air[j]);
    }
  }

  lemma FillWired(w: Wires, s: State, max: nat, j: nat, m: Message)
    requires Wired(w, s) && Places(s) == Pool(max) && Enabled(s, Fill(j, m))
    ensures var n := s.air[j].node;
      Wired(if s.air[j].role.urgent then w else w.(next := w.next[n := NIL]), Next(s, Fill(j, m)))
  {
    var n, r := s.air[j].node, Next(s, Fill(j, m));
    var v := if s.air[j].role.urgent then w.next else w.next[n := NIL];
    AirNotIn(s, max, j);
    StoreFrame(w.next, w.free, s.free, NIL, n, NIL);
    StoreFrame(w.next, w.head, s.queue, NIL, n, NIL);
    forall k | 0 <= k < |r.air| ensures Ended(v, r.air[k]) {
      assert Ended(w.next, s.air[k]);
      if k != j {
        AirApart(s, max, j, k);
      }
    }
  }

  /** The stores of rt_mq_send that link a node at the tail. */
  function LinkedTail(w: Wires, n: Node): Wires {
    Wires(if w.tail != NIL then w.next[w.tail := n] else w.next, if w.head == NIL then n
      else w.head, n, w.free, w.entry + 1)
  }

  /** The stores of rt_mq_urgent that link a node at the head. */
  function LinkedHead(w: Wires, n: Node): Wires {
    Wires(w.next[n := w.head], n, if w.tail == NIL then n else w.tail, w.free, w.entry + 1)
  }

  lemma StillEnded(s: State, max: nat, j: nat, next: map<Node, Node>, n: Node, v: Node)
    requires Places(s) == Pool(max) && j < |s.air| && (n == s.air[j].node || n in s.queue)
    requires forall k :: 0 <= k < |s.air| ==> Ended(next, s.air[k])
    ensures forall k :: 0 <= k < |s.air| - 1 ==> Ended(next[n := v], Dropped(s.air, j)[k])
  {
    forall k | 0 <= k < |s.air| - 1 ensures Ended(next[n := v], Dropped(s.air, j)[k]) {
      DroppedAt(s.air, j, k);
      var p := if k < j then k else k + 1;
      assert Ended(next, s.air[p]);
      AirNotIn(s, max, p);
      AirApart(s, max, j, p);
    }
  }

  lemma TailWired(w: Wires, s: State, max: nat, j: nat)
    requires Wired(w, s) && Places(s) == Pool(max) && Enabled(s, Link(j)) && !s.air[j].role.urgent
    ensures Wired(LinkedTail(w, s.air[j].node), Next(s, Link(j)))
  {
    QueueDistinct(s, max);
    assert Ended(w.next, s.air[j]);
    if s.queue == [] {
      TailFirst(w, s, max, j);
    } else {
      TailNext(w, s, max, j);
    }
  }

  lemma TailFirst(w: Wires, s: State, max: nat, j: nat)
    requires Wired(w, s) && Places(s) == Pool(max) && Enabled(s, Link(j)) && !s.air[j].role.urgent && s.queue == []
    ensures Wired(LinkedTail(w, s.air[j].node), Next(s, Link(j)))
  {
    var n := s.air[j].node;
    assert Ended(w.next, s.air[j]);
    assert [] + [n] == [n] && [n][1..] == [];
    StillEnded(s, max, j, w.next, n, NIL);
    assert w.next[n := NIL] == w.next;
  }

  lemma TailNext(w: Wires, s: State, max: nat, j: nat)
    requires Wired(w, s) && Places(s) == Pool(max) && Enabled(s, Link(j)) && !s.air[j].role.urgent && s.queue != []
    ensures Wired(LinkedTail(w, s.air[j].node), Next(s, Link(j)))
  {
    var n, t := s.air[j].node, s.queue[|s.queue| - 1];
    assert Ended(w.next, s.air[j]);
    AirNotIn(s, max, j);
    assert Distinct(s.queue) && t !in s.free && t != NIL && s.queue[0] != NIL by { QueueDistinct(s, max); }
    SegmentSnoc(w.next, w.head, s.queue, NIL, n);
    StoreFrame(w.next, w.free, s.free, NIL, t, n);
    StillEnded(s, max, j, w.next, t, n);
  }

  lemma HeadWired(w: Wires, s: State, max: nat, j: nat)
    requires Wired(w, s) && Places(s) == Pool(max) && Enabled(s, Link(j)) && s.air[j].role.urgent
    ensures Wired(LinkedHead(w, s.air[j].node), Next(s, Link(j)))
  {
    var n, v := s.air[j].node, w.next[s.air[j].node := w.head];
    AirNotIn(s, max, j);
    assert s.queue != [] ==> Last(s.queue) != NIL by { QueueDistinct(s, max); }
    assert Segment(v, w.free, s.free, NIL) by { StoreFrame(w.next, w.free, s.free, NIL, n, w.head); }
    assert Segment(v, n, [n] + s.queue, NIL) by {
      StoreFrame(w.next, w.head, s.queue, NIL, n, w.head);
      assert ([n] + s.queue)[1..] == s.queue;
    }
    StillEnded(s, max, j, w.next, n, w.head);
  }

  /** The stores that unlink the first queued node. */
  function Unlinked(w: Wires): Wires
    requires w.head in w.next
  {
    w.(head := w.next[w.head], tail := if w.tail == w.head then NIL else w.tail, entry := w.entry - 1)
  }

  lemma PopWired(w: Wires, s: State, max: nat)
    requires Wired(w, s) && Places(s) == Pool(max) && Enabled(s, Pop)
    ensures w.head == s.queue[0] && w.head in w.next && Wired(Unlinked(w), Next(s, Pop))
  {
    var r := Next(s, Pop);
    QueueDistinct(s, max);
    forall j | 0 <= j < |r.air| ensures Ended(w.next, r.air[j]) {
      assert j < |s.air| ==> Ended(w.next, s.air[j]);
    }
  }

  lemma PutWired(w: Wires, s: State, max: nat, j: nat)
    requires Wired(w, s) && Places(s) == Pool(max) && Enabled(s, Put(j))
    ensures var n := s.air[j].node; Wired(w.(next := w.next[n := w.free], free := n), Next(s, Put(j)))
  {
    var n := s.air[j].node;
    AirNotIn(s, max, j);
    StoreFrame(w.next, w.head, s.queue, NIL, n, w.free);
    StoreFrame(w.next, w.free, s.free, NIL, n, w.free);
    StillEnded(s, max, j, w.next, n, w.free);
    assert ([n] + s.free)[1..] == s.free;
  }

  lemma CopyWired(w: Wires, s: State, j: nat, n: nat)
    requires Wired(w, s) && Enabled(s, Copy(j, n))
    ensures Wired(w, Next(s, Copy(j, n)))
  {
    var r := Next(s, Copy(j, n));
    forall k | 0 <= k < |r.air| ensures Ended(w.next, r.air[k]) {
      assert Ended(w.next, s.air[k]);
    }
  }

  // ----------------------------------------------------------------- the reset

  /** The first queued node moved to the free list. */
  function Drained(s: State): State
    requires s.queue != [] && s.due != []
  {
    s.(free := [s.queue[0]] + s.free, queue := s.queue[1..], due := s.due[1..])
  }

  /** One round of the reset loop is a receive that keeps its node to itself. */
  lemma DrainIs(s: State, max: nat)
    requires Inv(s, max) && s.queue != []
    ensures Inv(Drained(s), max) && Enabled(s, Pop) && Enabled(Next(s, Pop), Copy(|s.air|, 0))
    ensures var t := Next(Next(s, Pop), Copy(|s.air|, 0));
      Enabled(t, Put(|s.air|)) && Next(t, Put(|s.air|)) == Drained(s).(pops := s.pops + 1)
  {
    var p, j := Next(s, Pop), |s.air|;
    assert Inv(p, max) by { StepInv(s, Pop, max); }
    InPool(p, max, j);
    var t := Next(p, Copy(j, 0));
    assert Inv(t, max) by { StepInv(p, Copy(j, 0), max); }
    DrainShape(s);
    assert Inv(Next(t, Put(j)), max) by { StepInv(t, Put(j), max); }
    PopsAside(Drained(s), s.pops + 1, max);
  }

  lemma PopsAside(s: State, pops: nat, max: nat)
    requires Inv(s.(pops := pops), max)
    ensures Inv(s, max)
  {
  }

  lemma DrainShape(s: State)
    requires Enabled(s, Pop) && Enabled(Next(s, Pop), Copy(|s.air|, 0))
    ensures var t := Next(Next(s, Pop), Copy(|s.air|, 0));
      Enabled(t, Put(|s.air|)) && Next(t, Put(|s.air|)) == Drained(s).(pops := s.pops + 1)
  {
    var t := Next(Next(s, Pop), Copy(|s.air|, 0));
    assert Dropped(t.air, |s.air|) == s.air;
  }

  function DrainedWires(w: Wires): Wires
    requires w.head in w.next
  {
    var v := Unlinked(w);
    v.(next := v.next[w.head := v.free], free := w.head)
  }

  lemma DrainWired(w: Wires, s: State, max: nat)
    requires Wired(w, s) && Inv(s, max) && s.queue != []
    ensures w.head in w.next && w.head == s.queue[0] && Wired(DrainedWires(w), Drained(s)) && Inv(Drained(s), max)
  {
    DrainIs(s, max);
    PopWired(w, s, max);
    var p := Next(s, Pop);
    StepInv(s, Pop, max);
    CopyWired(Unlinked(w), p, |s.air|, 0);
    var t := Next(p, Copy(|s.air|, 0));
    StepInv(p, Copy(|s.air|, 0), max);
    PutWired(Unlinked(w), t, max, |s.air|);
  }

  lemma ReverseStep(q: seq<Node>, free: seq<Node>)
    requires q != []
    ensures Reverse(q) + free == Reverse(q[1..]) + ([q[0]] + free)
  {
  }

  /** Head and tail are null together, exactly when entry is zero, and entry
      never exceeds max_msgs. */
  lemma HeadNil(w: Wires, s: State, max: nat)
    requires Wired(w, s) && Places(s) == Pool(max)
    ensures (w.head == NIL <==> s.queue == []) && (w.tail == NIL <==> s.queue == []) &&
            (w.entry == 0 <==> s.queue == [])
    ensures 0 <= w.entry <= max
  {
    QueueDistinct(s, max);
    OnePlace(s, max, 0);
  }

  /** The body of the reset loop; `entry` is not kept up to date there. */
  method DrainOne(w: Wires, ghost s: State, ghost max: nat) returns (v: Wires)
    requires Wired(w.(entry := |s.queue|), s) && Inv(s, max) && s.queue != []
    ensures Wired(v.(entry := |s.queue| - 1), Drained(s)) && Inv(Drained(s), max) && v.entry == w.entry
  {
    ghost var x := w.(entry := |s.queue|);
    DrainWired(x, s, max);
    var msg := w.head;
    v := w.(head := w.next[msg]);
    if v.tail == msg {
      v := v.(tail := NIL);
    }
    v := v.(next := v.next[msg := v.free], free := msg);
    assert v.(entry := |s.queue| - 1) == DrainedWires(x);
  }

  /** The loop of rt_mq_control under RT_IPC_CMD_RESET. */
  method ResetWires(w: Wires, ghost s: State, ghost max: nat) returns (v: Wires)
    requires Wired(w, s) && Inv(s, max)
    ensures Wired(v, Next(s, Reset))
  {
    v := w;
    ghost var r := s;
    HeadNil(w, s, max);
    while v.head != NIL
      invariant Wired(v.(entry := |r.queue|), r) && Inv(r, max) && (v.head == NIL <==> r.queue == [])
      invariant Reverse(r.queue) + r.free == Reverse(s.queue) + s.free
      invariant r == s.(free := r.free, queue := r.queue, due := r.due)
      decreases |r.queue|
    {
      v := DrainOne(v, r, max);
      ReverseStep(r.queue, r.free);
      r := Drained(r);
      HeadNil(v.(entry := |r.queue|), r, max);
    }
    v := v.(entry := 0);
    ResetIs(s, r);
  }

  lemma ResetIs(s: State, r: State)
    requires r == s.(free := r.free, queue := r.queue, due := r.due) && r.queue == [] && |r.due| == 0
    requires Reverse(r.queue) + r.free == Reverse(s.queue) + s.free
    ensures r == Next(s, Reset)
  {
    assert Reverse(r.queue) + r.free == r.free;
  }

  // ---------------------------------------------------------------- the object

  /** The state after rt_mq_init has threaded the first k cells. */
  ghost function Threaded(size: nat, k: nat, cells: map<Node, Message>): State {
    State(size, Downto(k), [], [], [], cells, 0)
  }

  ghost function Downto(k: nat): seq<Node> {
    if k == 0 then [] else [k - 1] + Downto(k - 1)
  }

  lemma {:induction false} DowntoPool(k: nat)
    ensures multiset(Downto(k)) == Pool(k)
  {
    if k > 0 {
      DowntoPool(k - 1);
      ConsPool(k - 1, Downto(k - 1));
    }
  }

  lemma {:induction false} DowntoBelow(k: nat)
    ensures |Downto(k)| == k && forall n :: n in Downto(k) ==> 0 <= n < k
  {
    if k > 0 {
      DowntoBelow(k - 1);
    }
  }

  lemma ConsPool(n: Node, s: seq<Node>)
    ensures multiset([n] + s) == multiset(s) + multiset{n}
  {
  }

  lemma ThreadedOk(size: nat, max: nat, pool: map<Node, Message>, links: map<Node, Node>, first: Node)
    requires Segment(links, first, Downto(max), NIL) && forall n :: 0 <= n < max ==> n in pool && |pool[n]| == size
    ensures Inv(Threaded(size, max, pool), max) && Wired(Wires(links, NIL, NIL, first, 0), Threaded(size, max, pool))
  {
    DowntoPool(max);
    DowntoBelow(max);
  }

  lemma DeliveredIs(s: State, max: nat, j: nat, n: nat)
    requires CellsOk(s, max) && Places(s) == Pool(max) && j < |s.air| && s.air[j].role.Popped?
    ensures Enabled(s, Copy(j, n)) && |s.cells[s.air[j].node]| == s.size
    ensures Delivered(s, j, n) == s.cells[s.air[j].node][..if n > s.size then s.size else n]
  {
    InPool(s, max, j);
  }

  lemma FillEnabled(s: State, max: nat, j: nat, m: Message)
    requires CellsOk(s, max) && Places(s) == Pool(max) && j < |s.air| && s.air[j].role.Taken? && |m| <= s.size
    ensures Enabled(s, Fill(j, m))
  {
    InPool(s, max, j);
  }

  /** The loop of rt_mq_init: push the cells of the pool on the free list one by one. */
  method Thread(max: nat) returns (links: map<Node, Node>, first: Node)
    ensures Segment(links, first, Downto(max), NIL)
  {
    links, first := map[], NIL;
    for k := 0 to max
      invariant Segment(links, first, Downto(k), NIL)
    {
      DowntoBelow(k);
      StoreFrame(links, first, Downto(k), NIL, k, first);
      links, first := links[k := first], k;
      assert Downto(k + 1)[1..] == Downto(k);
    }
  }

  class MessageQueue {
    const size: nat
    const max: nat
    var next: map<Node, Node>
    var head: Node
    var tail: Node
    var free: Node
    var entry: int
    var cells: map<Node, Message>
    ghost var view: State

    function W(): Wires
      reads this
    {
      Wires(next, head, tail, free, entry)
    }

    ghost predicate Valid()
      reads this
    {
      Inv(view, max) && Wired(W(), view) && cells == view.cells && size == view.size
    }

    /** rt_mq_init; the cells of the pool hold arbitrary bytes. */
    constructor (msgSize: nat, maxMsgs: nat, pool: map<Node, Message>)
      requires forall n :: 0 <= n < maxMsgs ==> n in pool && |pool[n]| == msgSize
      ensures Valid() && max == maxMsgs && view == Threaded(msgSize, maxMsgs, pool)
    {
      var links, first := Thread(maxMsgs);
      size, max, cells := msgSize, maxMsgs, pool;
      next, head, tail, free, entry := links, NIL, NIL, first, 0;
      view := Threaded(msgSize, maxMsgs, pool);
      new;
      ThreadedOk(msgSize, maxMsgs, pool, links, first);
    }

    method Rewire(w: Wires, ghost s: State)
      requires Inv(s, max) && Wired(w, s) && s.cells == cells && s.size == size
      modifies `next, `head, `tail, `free, `entry, `view
      ensures Valid() && view == s
    {
      next, head, tail, free, entry := w.next, w.head, w.tail, w.free, w.entry;
      view := s;
    }

    /** The first section of rt_mq_send and rt_mq_urgent: -RT_EFULL is a null pointer. */
    method TakeFree(urgent: bool) returns (msg: Node)
      requires Valid()
      modifies this
      ensures Valid() && (msg == NIL <==> old(view.free) == [])
      ensures msg == NIL ==> view == old(view)
      ensures msg != NIL ==> msg == old(view.free)[0] && view == Next(old(view), Take(urgent))
    {
      msg := free;
      FreeNil(W(), view, max);
      if msg != NIL {
        TakeWired(W(), view, urgent);
        StepInv(view, Take(urgent), max);
        Rewire(W().(free := next[msg]), Next(view, Take(urgent)));
      }
    }

    /** The copy of a sender into the node it took; rt_mq_send also clears the link. */
    method FillNode(msg: Node, urgent: bool, buffer: Message, ghost j: nat)
      requires Valid() && |buffer| <= size && j < |view.air| && view.air[j] == Flight(msg, Taken(urgent))
      modifies this
      ensures Valid() && Enabled(old(view), Fill(j, buffer)) && view == Next(old(view), Fill(j, buffer))
    {
      FillEnabled(view, max, j, buffer);
      FillWired(W(), view, max, j, buffer);
      StepInv(view, Fill(j, buffer), max);
      ghost var s := Next(view, Fill(j, buffer));
      cells := cells[msg := Overwrite(cells[msg], buffer)];
      Rewire(if urgent then W() else W().(next := next[msg := NIL]), s);
    }

    /** The second section of rt_mq_send. */
    method LinkTail(msg: Node, ghost j: nat)
      requires Valid() && j < |view.air| && view.air[j].node == msg && view.air[j].role.Filled? &&
               !view.air[j].role.urgent
      modifies this
      ensures Valid() && view == Next(old(view), Link(j))
    {
      TailWired(W(), view, max, j);
      StepInv(view, Link(j), max);
      Rewire(LinkedTail(W(), msg), Next(view, Link(j)));
    }

    /** The second section of rt_mq_urgent. */
    method LinkHead(msg: Node, ghost j: nat)
      requires Valid() && j < |view.air| && view.air[j].node == msg && view.air[j].role.Filled? &&
               view.air[j].role.urgent
      modifies this
      ensures Valid() && view == Next(old(view), Link(j))
    {
      HeadWired(W(), view, max, j);
      StepInv(view, Link(j), max);
      Rewire(LinkedHead(W(), msg), Next(view, Link(j)));
    }

    /** The section of rt_mq_recv that unlinks a message once entry is not zero. */
    method Unlink() returns (msg: Node)
      requires Valid() && entry != 0
      modifies this
      ensures Valid() && Enabled(old(view), Pop) && msg == old(view.queue)[0] && view == Next(old(view), Pop)
    {
      PopWired(W(), view, max);
      StepInv(view, Pop, max);
      msg := head;
      Rewire(Unlinked(W()), Next(view, Pop));
    }

    /** The copy of a receiver out of its node. */
    method CopyOut(msg: Node, limit: nat, ghost j: nat) returns (buffer: Message)
      requires Valid() && j < |view.air| && view.air[j].node == msg && view.air[j].role.Popped?
      modifies this
      ensures Valid() && Enabled(old(view), Copy(j, limit)) && view == Next(old(view), Copy(j, limit))
      ensures buffer == Delivered(old(view), j, limit)
    {
      DeliveredIs(view, max, j, limit);
      buffer := cells[msg][..if limit > size then size else limit];
      CopyWired(W(), view, j, limit);
      StepInv(view, Copy(j, limit), max);
      Rewire(W(), Next(view, Copy(j, limit)));
    }

    /** The last section of rt_mq_recv. */
    method PutFree(msg: Node, ghost j: nat)
      requires Valid() && j < |view.air| && view.air[j] == Flight(msg, Emptied)
      modifies this
      ensures Valid() && view == Next(old(view), Put(j))
    {
      PutWired(W(), view, max, j);
      StepInv(view, Put(j), max);
      Rewire(W().(next := next[msg := free], free := msg), Next(view, Put(j)));
    }

    /** rt_mq_control with RT_IPC_CMD_RESET. */
    method ResetQueue()
      requires Valid()
      modifies this
      ensures Valid() && view == Next(old(view), Reset)
    {
      StepInv(view, Reset, max);
      var w := ResetWires(W(), view, max);
      Rewire(w, Next(view, Reset));
    }
  }

  lemma FreeNil(w: Wires, s: State, max: nat)
    requires Wired(w, s) && Places(s) == Pool(max)
    ensures w.free == NIL <==> s.free == []
  {
    if s.free != [] {
      OnePlace(s, max, s.free[0]);
      assert s.free[0] in multiset(s.free);
    }
  }
}
