/** What the phases of the message queue of src/ipc.c do between them: how a message goes
    from a sender into the queue and from the queue to a receiver. */
module MsgQueueCalls {
  import opened RtList
  import opened MsgQueueSpec

  /** A sender is refused with -RT_EFULL exactly when every cell of the pool is queued or
      in flight. */
  lemma FullIff(s: State, urgent: bool, max: nat)
    requires Inv(s, max)
    ensures !Enabled(s, Take(urgent)) <==> |s.queue| + |s.air| == max
  {
    OnePlace(s, max, 0);
  }

  /** How each phase changes the number of cells that are free, queued and in flight. */
  lemma StepCounts(s: State, e: Event)
    requires Enabled(s, e)
    ensures var r := Next(s, e);
      && |r.queue| - |s.queue| == (if e.Link? then 1 else if e.Pop? then -1 else if e.Reset? then -|s.queue| else 0)
      && |r.air| - |s.air| == (if e.Take? || e.Pop? then 1 else if e.Link? || e.Put? then -1 else 0)
      && |r.free| - |s.free| == (if e.Put? then 1 else if e.Take? then -1 else if e.Reset? then |s.queue| else 0)
      && |r.due| - |s.due| == (if e.Link? then 1 else if e.Pop? then -1 else if e.Reset? then -|s.due| else 0)
  {
  }

  /** The phases of a send by itself. */
  function Sent(s: State, urgent: bool, m: Message): State
    requires Enabled(s, Take(urgent)) && s.free[0] in s.cells && |m| <= s.size <= |s.cells[s.free[0]]|
  {
    var k := |s.air|;
    Next(Next(Next(s, Take(urgent)), Fill(k, m)), Link(k))
  }

  /** A whole rt_mq_send or rt_mq_urgent: the message is last, or first, in the queue; its
      cell came off the free list; every other cell keeps its bytes, and every flight is
      as before. */
  lemma SendArrives(s: State, urgent: bool, m: Message, max: nat)
    requires Inv(s, max) && s.free != [] && |m| <= s.size
    ensures s.free[0] in s.cells && |s.cells[s.free[0]]| == s.size
    ensures var r, n := Sent(s, urgent, m), s.free[0];
      && r.due == (if urgent then [m] + s.due else s.due + [m])
      && r.queue == (if urgent then [n] + s.queue else s.queue + [n])
      && [n] + r.free == s.free && r.air == s.air && Holds(r, n, m) && |r.cells[n]| == s.size
      && (forall c :: c in s.cells && c != n ==> c in r.cells && r.cells[c] == s.cells[c])
  {
    FreeInPool(s, max);
    var k, n := |s.air|, s.free[0];
    var a := Next(s, Take(urgent));
    var b := Next(a, Fill(k, m));
    assert b.cells[n] == Overwrite(s.cells[n], m) && b.air[k] == Flight(n, Filled(urgent, m));
    assert Dropped(b.air, k) == s.air;
  }

  lemma FreeInPool(s: State, max: nat)
    requires Inv(s, max) && s.free != []
    ensures s.free[0] in s.cells && |s.cells[s.free[0]]| == s.size
  {
    var n := s.free[0];
    OnePlace(s, max, n);
    assert n in multiset(s.free);
  }

  /** The phases of a receive by itself. */
  function Taken(s: State, limit: nat): State
    requires Enabled(s, Pop) && s.queue[0] in s.cells
  {
    var k := |s.air|;
    Next(Next(Next(s, Pop), Copy(k, limit)), Put(k))
  }

  /** A whole rt_mq_recv: the first message leaves the queue, its cell is the first to be
      used again, and nothing else changes. */
  lemma RecvTakes(s: State, limit: nat, max: nat)
    requires Inv(s, max) && s.queue != []
    ensures s.due != [] && s.queue[0] in s.cells
    ensures var r := Taken(s, limit);
      && [s.due[0]] + r.due == s.due && [s.queue[0]] + r.queue == s.queue
      && r.free == [s.queue[0]] + s.free && r.air == s.air && r.cells == s.cells
  {
    QueuedInPool(s, max);
    var k := |s.air|;
    assert Dropped(Next(Next(s, Pop), Copy(k, limit)).air, k) == s.air;
  }

  /** The buffer gets the bytes of that message as far as it has room. */
  lemma RecvCopies(s: State, limit: nat, max: nat)
    requires Inv(s, max) && s.queue != []
    ensures s.due != [] && Enabled(Next(s, Pop), Copy(|s.air|, limit))
    ensures var got, m := Delivered(Next(s, Pop), |s.air|, limit), s.due[0];
      && |got| == (if limit < s.size then limit else s.size)
      && (forall i :: 0 <= i < |m| && i < limit ==> i < |got| && got[i] == m[i])
  {
    assert Holds(s, s.queue[0], s.due[0]);
    QueuedInPool(s, max);
    CopiedOut(s.cells[s.queue[0]], s.due[0], limit);
  }

  lemma CopiedOut(cell: Message, m: Message, limit: nat)
    requires |m| <= |cell| && cell[..|m|] == m
    ensures var got := if limit < |cell| then cell[..limit] else cell;
      forall i :: 0 <= i < |m| && i < limit ==> i < |got| && got[i] == m[i]
  {
    forall i | 0 <= i < |m| && i < limit ensures cell[i] == m[i] {
      assert cell[..|m|][i] == m[i];
    }
  }

  lemma QueuedInPool(s: State, max: nat)
    requires Inv(s, max) && s.queue != []
    ensures s.queue[0] in s.cells && |s.cells[s.queue[0]]| == s.size
  {
    var n := s.queue[0];
    OnePlace(s, max, n);
    assert n in multiset(s.queue);
  }
}
