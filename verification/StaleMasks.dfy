/** A thread of src/thread.c that is detached before it was started: its masks were
    never computed, and rt_schedule_remove_thread uses them all the same. */
module StaleMasks {
  import opened Bits
  import opened IpcList
  import opened ReadyIndex
  import opened Scheduler

  ghost predicate InGroup(ready: set<nat>, n: nat) {
    exists p :: p in ready && p / 8 == n
  }

  /** The masks name no priority that has a ready thread, nor its group where the
      group would be cleared. */
  ghost predicate Harmless(layout: Layout, ready: set<nat>, m: Masks) {
    match layout
    case OneWord => forall p :: p in ready ==> !Bit(m.numberMask, p)
    case TwoLevel =>
      && (forall p :: p in ready && p / 8 == m.number ==> !Bit(m.highMask, p % 8))
      && (InGroup(ready, m.number) || forall p :: p in ready ==> !Bit(m.numberMask, p / 8))
  }

  lemma StaleOne(ix: Index, ready: set<nat>, m: Masks)
    requires IndexOk(OneWord, ix, ready)
    ensures IndexOk(OneWord, ClearBits(OneWord, ix, m), ready) <==> Harmless(OneWord, ready, m)
  {
    var r := ClearBits(OneWord, ix, m);
    AndNotLess(ix.group, m.numberMask);
    forall p | 0 <= p < 32 ensures BitOk(OneWord, r, p, ready) <==> (p in ready ==> !Bit(m.numberMask, p)) {
      assert BitOk(OneWord, ix, p, ready);
      AndNotBit(ix.group, m.numberMask, p);
    }
    if Harmless(OneWord, ready, m) {
      assert IndexOk(OneWord, r, ready);
    } else {
      var p :| p in ready && Bit(m.numberMask, p);
      assert !BitOk(OneWord, r, p, ready);
    }
  }

  /** A byte of the table is not zero exactly when one of its priorities is ready. */
  lemma GroupIs(ix: Index, ready: set<nat>, n: nat)
    requires IndexOk(TwoLevel, ix, ready) && n < 32
    ensures ix.table[n] != 0 <==> InGroup(ready, n)
  {
    assert ByteOk(ix, n);
    if ix.table[n] != 0 {
      var c := SomeBit(ix.table[n]);
      if c >= 8 {
        Powers();
        Width(ix.table[n], 8, c);
      }
      BitAt(ix, ready, n, c);
      assert (n * 8 + c) / 8 == n;
    } else {
      forall p | p in ready ensures p / 8 != n {
        assert BitOk(TwoLevel, ix, p, ready);
        ZeroBit(p % 8);
      }
    }
  }

  /** The table afterwards agrees with the ready priorities exactly when the high
      mask spares them. */
  lemma ByteStale(ix: Index, ready: set<nat>, m: Masks, p: nat)
    requires IndexOk(TwoLevel, ix, ready) && m.number < 32 && p < 256
    ensures var r := ClearBits(TwoLevel, ix, m);
      |r.table| == 32 &&
      (BitOk(TwoLevel, r, p, ready) <==> (p in ready && p / 8 == m.number ==> !Bit(m.highMask, p % 8)))
  {
    assert BitOk(TwoLevel, ix, p, ready);
    AndNotBit(ix.table[m.number], m.highMask, p % 8);
  }

  /** With the high mask harmless, so are the group bits, or not. */
  lemma GroupStale(ix: Index, ready: set<nat>, m: Masks, n: nat)
    requires IndexOk(TwoLevel, ix, ready) && m.number < 32 && n < 32
    requires forall p :: p in ready && p / 8 == m.number ==> !Bit(m.highMask, p % 8)
    ensures var r := ClearBits(TwoLevel, ix, m);
      |r.table| == 32 &&
      (ByteOk(r, n) <==> (InGroup(ready, n) && !InGroup(ready, m.number) ==> !Bit(m.numberMask, n)))
  {
    var k := m.number;
    assert ByteOk(ix, n) && ByteOk(ix, k);
    GroupIs(ix, ready, n);
    GroupIs(ix, ready, k);
    AndNotLess(ix.table[k], m.highMask);
    AndNotBit(ix.group, m.numberMask, n);
    if InGroup(ready, k) {
      var p :| p in ready && p / 8 == k;
      assert BitOk(TwoLevel, ix, p, ready);
      AndNotBit(ix.table[k], m.highMask, p % 8);
      ZeroBit(p % 8);
    }
  }

  lemma StaleTwo(ix: Index, ready: set<nat>, m: Masks)
    requires IndexOk(TwoLevel, ix, ready) && m.number < 32
    ensures IndexOk(TwoLevel, ClearBits(TwoLevel, ix, m), ready) <==> Harmless(TwoLevel, ready, m)
  {
    var r := ClearBits(TwoLevel, ix, m);
    AndNotLess(ix.group, m.numberMask);
    forall p | 0 <= p < 256
      ensures BitOk(TwoLevel, r, p, ready) <==> (p in ready && p / 8 == m.number ==> !Bit(m.highMask, p % 8))
    {
      ByteStale(ix, ready, m, p);
    }
    if forall p :: p in ready && p / 8 == m.number ==> !Bit(m.highMask, p % 8) {
      forall n | 0 <= n < 32
        ensures ByteOk(r, n) <==> (InGroup(ready, n) && !InGroup(ready, m.number) ==> !Bit(m.numberMask, n))
      {
        GroupStale(ix, ready, m, n);
      }
      if !Harmless(TwoLevel, ready, m) {
        var p :| p in ready && Bit(m.numberMask, p / 8);
        assert InGroup(ready, p / 8) && !ByteOk(r, p / 8);
      }
    } else {
      var p :| p in ready && p / 8 == m.number && Bit(m.highMask, p % 8);
      assert !BitOk(TwoLevel, r, p, ready);
    }
  }

  /** Detaching a thread that was never started keeps the index exact if and only if
      its queue is not empty or its masks are harmless. */
  lemma DetachEarlyIff(s: Sys, t: Tid, layout: Layout)
    requires Inv(s, layout) && t in s.threads && s.threads[t].stat.Init? && Fits(layout, s.index, s.threads[t].masks)
    ensures s.threads[t].prio < |s.queues|
    ensures var r := RemoveThread(s, t, layout);
      IndexOk(layout, r.index, Busy(r.queues)) <==>
      s.queues[s.threads[t].prio] != [] || Harmless(layout, Busy(s.queues), s.threads[t].masks)
  {
    assert ThreadOk(s, t, layout) && Placed(s, t);
    var p, m := s.threads[t].prio, s.threads[t].masks;
    NotThere(s.queues[p], t);
    assert RemoveThread(s, t, layout).queues == s.queues;
    if s.queues[p] == [] {
      match layout
      case OneWord => StaleOne(s.index, Busy(s.queues), m);
      case TwoLevel => StaleTwo(s.index, Busy(s.queues), m);
    }
  }

  lemma {:induction false} NotThere(q: seq<Tid>, t: Tid)
    requires t !in q
    ensures Without(q, t) == q
  {
    if q != [] {
      NotThere(q[1..], t);
    }
  }

  /** Masks of zero, as in memory that was cleared, are always harmless. */
  lemma ZeroHarmless(layout: Layout, ready: set<nat>)
    ensures Harmless(layout, ready, Masks(0, 0, 0))
  {
    forall i: nat ensures !Bit(0, i) {
      ZeroBit(i);
    }
  }

  /** Thread 7 is ready at priority 3; thread 8, of priority 5, was never started and
      lies in memory that still holds the masks of priority 3. */
  ghost function Reused(): Sys {
    Sys([[], [], [], [7], [], []], Index(One(3), seq(32, i => 0)),
        map[7 := Thread(Ready, 3, 3, MasksOf(OneWord, 3), 10, 10),
            8 := Thread(Init, 5, 5, MasksOf(OneWord, 3), 10, 10)],
        7, 0)
  }

  lemma ReusedBusy()
    ensures Busy(Reused().queues) == {3}
  {
    var q := Reused().queues;
    forall p: nat ensures p in Busy(q) <==> p == 3 {
    }
  }

  lemma ReusedInv()
    ensures Inv(Reused(), OneWord)
  {
    ReusedBusy();
    ReusedIndex();
    ReusedQueues();
    ReusedThreads();
  }

  lemma ReusedIndex()
    ensures IndexOk(OneWord, Reused().index, {3})
  {
    OneLess(3, 32);
    forall p | 0 <= p < 32 ensures BitOk(OneWord, Reused().index, p, {3}) {
      OneBit(3, p);
    }
  }

  lemma ReusedQueues()
    ensures forall p :: 0 <= p < |Reused().queues| ==> QueueOk(Reused(), p)
  {
  }

  lemma ReusedThreads()
    ensures forall t :: t in Reused().threads ==> Placed(Reused(), t) && ThreadOk(Reused(), t, OneWord)
  {
  }

  /** Detaching it clears the bit of the thread that is ready. */
  lemma StaleDetach()
    ensures Inv(Reused(), OneWord)
    ensures var r := RemoveThread(Reused(), 8, OneWord); !IndexOk(OneWord, r.index, Busy(r.queues))
  {
    var s := Reused();
    ReusedInv();
    ReusedBusy();
    OneBit(3, 3);
    DetachEarlyIff(s, 8, OneWord);
  }
}
