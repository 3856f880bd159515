/** The message queue of src/ipc.c as a machine whose steps are its separate
    interrupts-off sections and the copies between them, in any interleaving. */
module MsgQueueSpec {
  import opened RtList

  type Byte = int
  type Message = seq<Byte>

  /** How far one send, urgent send or receive has come with its node. */
  datatype Role =
    | Taken(urgent: bool)                 // a sender owns an empty node
    | Filled(urgent: bool, sent: Message) // ... and has copied its message in
    | Popped(due: Message, ticket: nat)   // a receiver unlinked a node, as the ticket-th to do so
    | Emptied                             // ... and has copied the message out

  datatype Flight = Flight(node: Node, role: Role)

  /** `due` lists the messages of the queued nodes as they were sent; `air`
      the operations in progress, in no particular order; `pops` counts the
      messages unlinked so far. */
  datatype State = State(size: nat, free: seq<Node>, queue: seq<Node>, due: seq<Message>,
                         air: seq<Flight>, cells: map<Node, Message>, pops: nat)

  datatype Event =
    | Take(urgent: bool)
    | Fill(who: nat, message: Message)
    | Link(who: nat)
    | Pop
    | Copy(who: nat, limit: nat)
    | Put(who: nat)
    | Reset

  // ------------------------------------------------------------------ the steps

  predicate Enabled(s: State, e: Event) {
    match e
    case Take(u) => s.free != []
    case Fill(j, m) => j < |s.air| && s.air[j].role.Taken? && |m| <= s.size && s.air[j].node in s.cells
                       && |m| <= |s.cells[s.air[j].node]|
    case Link(j) => j < |s.air| && s.air[j].role.Filled?
    case Pop => s.queue != [] && s.due != []
    case Copy(j, n) => j < |s.air| && s.air[j].role.Popped? && s.air[j].node in s.cells
    case Put(j) => j < |s.air| && s.air[j].role.Emptied?
    case Reset => true
  }

  /** rt_memcpy of a message over the start of a cell. */
  function Overwrite(cell: Message, m: Message): Message
    requires |m| <= |cell|
  {
    m + cell[|m|..]
  }

  function Reverse(s: seq<Node>): (r: seq<Node>)
    ensures |r| == |s|
  {
    if s == [] then [] else Reverse(s[1..]) + [s[0]]
  }

  function Next(s: State, e: Event): State
    requires Enabled(s, e)
  {
    match e
    case Take(u) => s.(free := s.free[1..], air := s.air + [Flight(s.free[0], Taken(u))])
    case Fill(j, m) =>
      var f := s.air[j];
      s.(air := s.air[j := Flight(f.node, Filled(f.role.urgent, m))],
        cells := s.cells[f.node := Overwrite(s.cells[f.node], m)])
    case Link(j) =>
      var f := s.air[j];
      if f.role.urgent
      then s.(queue := [f.node] + s.queue, due := [f.role.sent] + s.due, air := Dropped(s.air, j))
      else s.(queue := s.queue + [f.node], due := s.due + [f.role.sent], air := Dropped(s.air, j))
    case Pop => s.(queue := s.queue[1..], due := s.due[1..], pops := s.pops + 1,
                   air := s.air + [Flight(s.queue[0], Popped(s.due[0], s.pops))])
    case Copy(j, n) => s.(air := s.air[j := s.air[j].(role := Emptied)])
    case Put(j) => s.(free := [s.air[j].node] + s.free, air := Dropped(s.air, j))
    case Reset => s.(free := Reverse(s.queue) + s.free, queue := [], due := [])
  }

  /** The bytes a receiver with room for n of them copies out. */
  function Delivered(s: State, j: nat, n: nat): Message
    requires Enabled(s, Copy(j, n))
  {
    var cell := s.cells[s.air[j].node];
    if n < |cell| then cell[..n] else cell
  }

  // -------------------------------------------------------------- the invariant

  ghost function Nodes(air: seq<Flight>): seq<Node> {
    if air == [] then [] else [air[0].node] + Nodes(air[1..])
  }

  /** How often each node is on the free list, in the queue or in flight. */
  ghost function Places(s: State): multiset<Node> {
    multiset(s.free) + multiset(s.queue) + multiset(Nodes(s.air))
  }

  ghost function Pool(max: nat): multiset<Node> {
    if max == 0 then multiset{} else Pool(max - 1) + multiset{max - 1}
  }

  /** The cell starts with the message. */
  ghost predicate Holds(s: State, n: Node, m: Message) {
    n in s.cells && |m| <= |s.cells[n]| && s.cells[n][..|m|] == m
  }

  ghost predicate RoleOk(s: State, f: Flight) {
    match f.role
    case Filled(u, m) => Holds(s, f.node, m)
    case Popped(m, _) => Holds(s, f.node, m)
    case _ => true
  }

  ghost predicate Contents(s: State) {
    && |s.due| == |s.queue|
    && (forall i :: 0 <= i < |s.queue| ==> Holds(s, s.queue[i], s.due[i]))
    && (forall j :: 0 <= j < |s.air| ==> RoleOk(s, s.air[j]))
  }

  ghost predicate CellsOk(s: State, max: nat) {
    forall n :: 0 <= n < max ==> n in s.cells && |s.cells[n]| == s.size
  }

  ghost predicate Inv(s: State, max: nat) {
    Places(s) == Pool(max) && CellsOk(s, max) && Contents(s)
  }

  // ---------------------------------------------------------- moving nodes about

  lemma {:induction false} NodesAppend(air: seq<Flight>, f: Flight)
    ensures multiset(Nodes(air + [f])) == multiset(Nodes(air)) + multiset{f.node}
  {
    if air == [] {
      assert Nodes([f]) == [f.node];
    } else {
      assert (air + [f])[1..] == air[1..] + [f];
      NodesAppend(air[1..], f);
    }
  }

  lemma {:induction false} NodesDrop(air: seq<Flight>, j: nat)
    requires j < |air|
    ensures multiset(Nodes(Dropped(air, j))) + multiset{air[j].node} == multiset(Nodes(air))
  {
    if j == 0 {
      assert Dropped(air, 0) == air[1..];
    } else {
      assert Dropped(air, j)[1..] == Dropped(air[1..], j - 1) && Dropped(air, j)[0] == air[0];
      NodesDrop(air[1..], j - 1);
    }
  }

  lemma {:induction false} NodesSame(a: seq<Flight>, b: seq<Flight>)
    requires |a| == |b| && forall i :: 0 <= i < |a| ==> a[i].node == b[i].node
    ensures Nodes(a) == Nodes(b)
  {
    if a != [] {
      NodesSame(a[1..], b[1..]);
    }
  }

  lemma {:induction false} ReverseSame(s: seq<Node>)
    ensures multiset(Reverse(s)) == multiset(s)
  {
    if s != [] {
      assert s == [s[0]] + s[1..];
      ReverseSame(s[1..]);
    }
  }

  lemma Uncons(s: seq<Node>)
    requires s != []
    ensures multiset(s) == multiset{s[0]} + multiset(s[1..])
  {
    assert s == [s[0]] + s[1..];
  }

  lemma TakePlaces(s: State, u: bool)
    requires Enabled(s, Take(u))
    ensures Places(Next(s, Take(u))) == Places(s)
  {
    Uncons(s.free);
    NodesAppend(s.air, Flight(s.free[0], Taken(u)));
  }

  lemma PopPlaces(s: State)
    requires Enabled(s, Pop)
    ensures Places(Next(s, Pop)) == Places(s)
  {
    Uncons(s.queue);
    NodesAppend(s.air, Flight(s.queue[0], Popped(s.due[0], s.pops)));
  }

  lemma LinkPlaces(s: State, j: nat)
    requires Enabled(s, Link(j))
    ensures Places(Next(s, Link(j))) == Places(s)
  {
    NodesDrop(s.air, j);
    Moved(multiset(s.free), s.queue, multiset(Nodes(s.air)), multiset(Nodes(Dropped(s.air, j))), s.air[j].node);
  }

  lemma Moved(f: multiset<Node>, q: seq<Node>, a: multiset<Node>, b: multiset<Node>, n: Node)
    requires b + multiset{n} == a
    ensures f + multiset([n] + q) + b == f + multiset(q) + a && f + multiset(q + [n]) + b == f + multiset(q) + a
  {
    assert multiset([n] + q) == multiset{n} + multiset(q);
    assert multiset(q + [n]) == multiset(q) + multiset{n};
    assert f + multiset(q) + a == (f + multiset(q)) + (b + multiset{n});
  }

  lemma PutPlaces(s: State, j: nat)
    requires Enabled(s, Put(j))
    ensures Places(Next(s, Put(j))) == Places(s)
  {
    NodesDrop(s.air, j);
  }

  lemma StepPlaces(s: State, e: Event)
    requires Enabled(s, e)
    ensures Places(Next(s, e)) == Places(s)
  {
    match e
    case Take(u) => TakePlaces(s, u);
    case Fill(j, m) => NodesSame(s.air, Next(s, e).air);
    case Link(j) => LinkPlaces(s, j);
    case Pop => PopPlaces(s);
    case Copy(j, n) => NodesSame(s.air, Next(s, e).air);
    case Put(j) => PutPlaces(s, j);
    case Reset => ReverseSame(s.queue);
  }

  // ---------------------------------------------------------- one place per node

  lemma {:induction false} PoolOnce(max: nat, n: Node)
    ensures Pool(max)[n] == if 0 <= n < max then 1 else 0
  {
    if max > 0 {
      PoolOnce(max - 1, n);
    }
  }

  lemma {:induction false} PoolSize(max: nat)
    ensures |Pool(max)| == max
  {
    if max > 0 {
      PoolSize(max - 1);
    }
  }

  lemma {:induction false} NodesLength(air: seq<Flight>)
    ensures |Nodes(air)| == |air|
  {
    if air != [] {
      NodesLength(air[1..]);
    }
  }

  /** Every pool node is in exactly one of free list, queue and flight, and the
      three counts sum to max_msgs. */
  lemma OnePlace(s: State, max: nat, n: Node)
    requires Places(s) == Pool(max)
    ensures multiset(s.free)[n] + multiset(s.queue)[n] + multiset(Nodes(s.air))[n] == if 0 <= n < max then 1 else 0
    ensures |s.free| + |s.queue| + |s.air| == max
  {
    PoolOnce(max, n);
    PoolSize(max);
    NodesLength(s.air);
    assert |Places(s)| == |s.free| + |s.queue| + |Nodes(s.air)|;
    assert Places(s)[n] == multiset(s.free)[n] + multiset(s.queue)[n] + multiset(Nodes(s.air))[n];
  }

  lemma {:induction false} NodesIn(air: seq<Flight>, k: nat)
    requires k < |air|
    ensures air[k].node in multiset(Nodes(air))
  {
    if k > 0 {
      NodesIn(air[1..], k - 1);
    }
  }

  lemma QueueApart(s: State, max: nat, i: nat, j: nat)
    requires Places(s) == Pool(max) && i < |s.queue| && j < |s.air|
    ensures s.queue[i] != s.air[j].node
  {
    var n := s.air[j].node;
    OnePlace(s, max, n);
    NodesIn(s.air, j);
    assert s.queue[i] in multiset(s.queue);
  }

  lemma AirApart(s: State, max: nat, j: nat, k: nat)
    requires Places(s) == Pool(max) && j < |s.air| && k < |s.air| && j != k
    ensures s.air[j].node != s.air[k].node
  {
    var n := s.air[j].node;
    OnePlace(s, max, n);
    NodesDrop(s.air, j);
    var p := if k < j then k else k - 1;
    DroppedAt(s.air, j, p);
    NodesIn(Dropped(s.air, j), p);
  }

  lemma InPool(s: State, max: nat, j: nat)
    requires Places(s) == Pool(max) && j < |s.air|
    ensures 0 <= s.air[j].node < max
  {
    OnePlace(s, max, s.air[j].node);
    NodesIn(s.air, j);
  }

  // ------------------------------------------------------------ every step keeps

  lemma FillContents(s: State, j: nat, m: Message, max: nat)
    requires Inv(s, max) && Enabled(s, Fill(j, m))
    ensures Contents(Next(s, Fill(j, m))) && CellsOk(Next(s, Fill(j, m)), max)
  {
    var r := Next(s, Fill(j, m));
    var n := s.air[j].node;
    InPool(s, max, j);
    forall i | 0 <= i < |r.queue| ensures Holds(r, r.queue[i], r.due[i]) {
      QueueApart(s, max, i, j);
      assert Holds(s, s.queue[i], s.due[i]);
    }
    forall k | 0 <= k < |r.air| ensures RoleOk(r, r.air[k]) {
      if k != j {
        AirApart(s, max, j, k);
        assert RoleOk(s, s.air[k]);
      }
    }
  }

  lemma LinkContents(s: State, j: nat)
    requires Contents(s) && Enabled(s, Link(j))
    ensures Contents(Next(s, Link(j)))
  {
    var r := Next(s, Link(j));
    assert RoleOk(s, s.air[j]);
    forall i | 0 <= i < |r.queue| ensures Holds(r, r.queue[i], r.due[i]) {
      var p := if s.air[j].role.urgent then i - 1 else i;
      assert 0 <= p < |s.queue| ==> Holds(s, s.queue[p], s.due[p]);
    }
    forall k | 0 <= k < |r.air| ensures RoleOk(r, r.air[k]) {
      DroppedAt(s.air, j, k);
      assert RoleOk(s, s.air[if k < j then k else k + 1]);
    }
  }

  lemma PutContents(s: State, j: nat)
    requires Contents(s) && Enabled(s, Put(j))
    ensures Contents(Next(s, Put(j)))
  {
    var r := Next(s, Put(j));
    forall i | 0 <= i < |r.queue| ensures Holds(r, r.queue[i], r.due[i]) {
      assert Holds(s, s.queue[i], s.due[i]);
    }
    forall k | 0 <= k < |r.air| ensures RoleOk(r, r.air[k]) {
      DroppedAt(s.air, j, k);
      assert RoleOk(s, s.air[if k < j then k else k + 1]);
    }
  }

  lemma PopContents(s: State)
    requires Contents(s) && Enabled(s, Pop)
    ensures Contents(Next(s, Pop))
  {
    var r := Next(s, Pop);
    assert Holds(s, s.queue[0], s.due[0]);
    forall i | 0 <= i < |r.queue| ensures Holds(r, r.queue[i], r.due[i]) {
      assert Holds(s, s.queue[i + 1], s.due[i + 1]);
    }
    forall k | 0 <= k < |r.air| ensures RoleOk(r, r.air[k]) {
      assert k < |s.air| ==> RoleOk(s, s.air[k]);
    }
  }

  /** Steps that leave queue and cells alone. */
  lemma QuietContents(s: State, r: State)
    requires Contents(s) && r.cells == s.cells
    requires (r.queue == s.queue && r.due == s.due) || (r.queue == [] && r.due == [])
    requires forall k :: 0 <= k < |r.air| ==>
        r.air[k].role.Taken? || r.air[k].role.Emptied? || (k < |s.air| && r.air[k] == s.air[k])
    ensures Contents(r)
  {
    forall i | 0 <= i < |r.queue| ensures Holds(r, r.queue[i], r.due[i]) {
      assert Holds(s, s.queue[i], s.due[i]);
    }
    forall k | 0 <= k < |r.air| ensures RoleOk(r, r.air[k]) {
      assert k < |s.air| ==> RoleOk(s, s.air[k]);
    }
  }

  lemma StepContents(s: State, e: Event, max: nat)
    requires Inv(s, max) && Enabled(s, e)
    ensures Contents(Next(s, e))
  {
    match e
    case Fill(j, m) => FillContents(s, j, m, max);
    case Link(j) => LinkContents(s, j);
    case Pop => PopContents(s);
    case Put(j) => PutContents(s, j);
    case Take(u) => QuietContents(s, Next(s, Take(u)));
    case Copy(j, n) => QuietContents(s, Next(s, Copy(j, n)));
    case Reset => QuietContents(s, Next(s, Reset));
  }

  lemma StepInv(s: State, e: Event, max: nat)
    requires Inv(s, max) && Enabled(s, e)
    ensures Inv(Next(s, e), max)
  {
    StepPlaces(s, e);
    StepContents(s, e, max);
    if e.Fill? {
      FillContents(s, e.who, e.message, max);
    }
  }

  // --------------------------------------------------------------- whole runs

  ghost predicate Runnable(s: State, es: seq<Event>)
    decreases |es|
  {
    es == [] || (Enabled(s, es[0]) && Runnable(Next(s, es[0]), es[1..]))
  }

  ghost function Run(s: State, es: seq<Event>): State
    requires Runnable(s, es)
    decreases |es|
  {
    if es == [] then s else Run(Next(s, es[0]), es[1..])
  }

  /** Over any interleaving every node stays in exactly one place and every
      queued or travelling message stays intact. */
  lemma {:induction false} RunInv(s: State, es: seq<Event>, max: nat)
    requires Inv(s, max) && Runnable(s, es)
    ensures Inv(Run(s, es), max)
    decreases |es|
  {
    if es != [] {
      StepInv(s, es[0], max);
      RunInv(Next(s, es[0]), es[1..], max);
    }
  }

  /** A receiver gets the message it unlinked, cut to the shorter of its buffer
      and the message, however many steps of others came in between. */
  lemma DeliversDue(s: State, max: nat, j: nat, n: nat)
    requires Inv(s, max) && Enabled(s, Copy(j, n))
    ensures var out, m := Delivered(s, j, n), s.air[j].role.due;
      |out| == (if n < s.size then n else s.size) && |m| <= s.size && if n < |m| then out == m[..n] else out[..|m|] == m
  {
    InPool(s, max, j);
    assert RoleOk(s, s.air[j]);
    var cell, m := s.cells[s.air[j].node], s.air[j].role.due;
    assert cell[..|m|] == m;
    if n < |m| {
      assert cell[..n] == cell[..|m|][..n];
    } else if n < |cell| {
      assert cell[..n][..|m|] == cell[..|m|];
    }
  }

  // ---------------------------------------------------------- the deque it is

  /** What the outside sees of a run: messages join at either end, leave at the
      front, or are all dropped. */
  datatype Move = Append(message: Message) | Prepend(message: Message) | Front | Clear

  function MoveOf(s: State, e: Event): seq<Move>
    requires Enabled(s, e)
  {
    match e
    case Link(j) => if s.air[j].role.urgent then [Prepend(s.air[j].role.sent)] else [Append(s.air[j].role.sent)]
    case Pop => [Front]
    case Reset => [Clear]
    case _ => []
  }

  ghost function History(s: State, es: seq<Event>): seq<Move>
    requires Runnable(s, es)
    decreases |es|
  {
    if es == [] then [] else MoveOf(s, es[0]) + History(Next(s, es[0]), es[1..])
  }

  /** The messages handed to receivers, in the order they were unlinked. */
  ghost function Received(s: State, es: seq<Event>): seq<Message>
    requires Runnable(s, es)
    decreases |es|
  {
    if es == [] then []
    else (if es[0].Pop? then [Next(s, es[0]).air[|s.air|].role.due] else []) + Received(Next(s, es[0]), es[1..])
  }

  function DequeAfter(d: seq<Message>, ms: seq<Move>): seq<Message>
    decreases |ms|
  {
    if ms == [] then d
    else DequeAfter(match ms[0]
                    case Append(m) => d + [m]
                    case Prepend(m) => [m] + d
                    case Front => if d == [] then d else d[1..]
                    case Clear => [],
                    ms[1..])
  }

  function DequeOut(d: seq<Message>, ms: seq<Move>): seq<Message>
    decreases |ms|
  {
    if ms == [] then []
    else if ms[0].Front? && d != [] then [d[0]] + DequeOut(d[1..], ms[1..])
    else DequeOut(DequeAfter(d, [ms[0]]), ms[1..])
  }

  lemma OneMove(d: seq<Message>, m: Move, ms: seq<Move>)
    ensures DequeAfter(d, [m] + ms) == DequeAfter(DequeAfter(d, [m]), ms)
    ensures DequeOut(d, [m] + ms) == (if m.Front? && d != [] then [d[0]] else []) + DequeOut(DequeAfter(d, [m]), ms)
  {
    assert ([m] + ms)[1..] == ms && [m][1..] == [];
  }

  /** The queue is a deque: sends append and urgent sends prepend when they link,
      and receivers get exactly what a deque would give them. */
  lemma {:induction false} RunIsDeque(s: State, es: seq<Event>)
    requires Runnable(s, es)
    ensures Run(s, es).due == DequeAfter(s.due, History(s, es))
    ensures Received(s, es) == DequeOut(s.due, History(s, es))
    decreases |es|
  {
    if es != [] {
      var r := Next(s, es[0]);
      RunIsDeque(r, es[1..]);
      var h := History(r, es[1..]);
      if MoveOf(s, es[0]) == [] {
        assert [] + h == h;
      } else {
        var m := MoveOf(s, es[0])[0];
        OneMove(s.due, m, h);
        assert [m][1..] == [];
        assert r.due == DequeAfter(s.due, [m]);
      }
    }
  }

  // ------------------------------------------------------- down to the bytes

  /** Whoever holds ticket k is owed message m. */
  ghost predicate Owed(s: State, k: nat, m: Message) {
    forall j :: 0 <= j < |s.air| && s.air[j].role.Popped? && s.air[j].role.ticket == k ==> s.air[j].role.due == m
  }

  ghost predicate TicketsOk(s: State) {
    forall j :: 0 <= j < |s.air| && s.air[j].role.Popped? ==> s.air[j].role.ticket < s.pops
  }

  /** A step hands out new tickets only. */
  lemma StepTickets(s: State, e: Event, j: nat)
    requires Enabled(s, e) && j < |Next(s, e).air| && Next(s, e).air[j].role.Popped?
    ensures var f := Next(s, e).air[j].role;
      (exists i :: 0 <= i < |s.air| && s.air[i].role == f) || (e.Pop? && f == Popped(s.due[0], s.pops))
  {
    match e
    case Link(k) => DroppedAt(s.air, k, j);
    case Put(k) => DroppedAt(s.air, k, j);
    case Take(_) => assert j < |s.air| ==> s.air[j].role == Next(s, e).air[j].role;
    case Pop => assert j < |s.air| ==> s.air[j].role == Next(s, e).air[j].role;
    case Fill(_, _) => assert s.air[j].role == Next(s, e).air[j].role;
    case Copy(_, _) => assert s.air[j].role == Next(s, e).air[j].role;
    case Reset => assert s.air[j].role == Next(s, e).air[j].role;
  }

  lemma StepOwed(s: State, e: Event, k: nat, m: Message)
    requires Enabled(s, e) && TicketsOk(s)
    ensures TicketsOk(Next(s, e))
    ensures k < s.pops && Owed(s, k, m) ==> Owed(Next(s, e), k, m)
    ensures e.Pop? && k == s.pops && m == s.due[0] ==> Owed(Next(s, e), k, m)
  {
    var r := Next(s, e);
    forall j | 0 <= j < |r.air| && r.air[j].role.Popped? ensures r.air[j].role.ticket < r.pops
      ensures k < s.pops && Owed(s, k, m) && r.air[j].role.ticket == k ==> r.air[j].role.due == m
      ensures e.Pop? && k == s.pops && m == s.due[0] && r.air[j].role.ticket == k ==> r.air[j].role.due == m
    {
      StepTickets(s, e, j);
    }
  }

  lemma {:induction false} RunOwed(s: State, es: seq<Event>, k: nat, m: Message)
    requires Runnable(s, es) && TicketsOk(s) && k < s.pops && Owed(s, k, m)
    ensures Owed(Run(s, es), k, m)
    decreases |es|
  {
    if es != [] {
      StepOwed(s, es[0], k, m);
      RunOwed(Next(s, es[0]), es[1..], k, m);
    }
  }

  /** A ticket drawn during a run stands for the message at its place among
      those the run unlinked. */
  lemma {:induction false} RunTickets(s: State, es: seq<Event>, j: nat)
    requires Runnable(s, es) && TicketsOk(s)
    requires j < |Run(s, es).air| && Run(s, es).air[j].role.Popped? && Run(s, es).air[j].role.ticket >= s.pops
    ensures var f := Run(s, es).air[j].role;
      f.ticket - s.pops < |Received(s, es)| && f.due == Received(s, es)[f.ticket - s.pops]
    decreases |es|
  {
    if es != [] {
      var r, f := Next(s, es[0]), Run(s, es).air[j].role;
      StepOwed(s, es[0], 0, []);
      if f.ticket >= r.pops {
        RunTickets(r, es[1..], j);
      } else {
        StepOwed(s, es[0], s.pops, s.due[0]);
        RunOwed(r, es[1..], s.pops, s.due[0]);
      }
    }
  }

  /** The bytes a receiver copies out, at any later time and whatever the others
      did meanwhile, are those of the message a deque would have given it: cut to
      its buffer, or followed by what the cell held behind the message. */
  lemma RunDelivers(s: State, es: seq<Event>, max: nat, j: nat, n: nat)
    requires Inv(s, max) && TicketsOk(s) && Runnable(s, es) && Enabled(Run(s, es), Copy(j, n))
    requires Run(s, es).air[j].role.ticket >= s.pops
    ensures var out, k := Delivered(Run(s, es), j, n), Run(s, es).air[j].role.ticket - s.pops;
      var given := DequeOut(s.due, History(s, es));
      k < |given| && if n < |given[k]| then out == given[k][..n]
        else |given[k]| <= |out| && out[..|given[k]|] == given[k]
  {
    RunInv(s, es, max);
    RunTickets(s, es, j);
    RunIsDeque(s, es);
    DeliversDue(Run(s, es), max, j, n);
  }
}
