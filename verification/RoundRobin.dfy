/** Time slices: the threads of the most urgent priority take turns. */
module RoundRobin {
  import opened RtList
  import opened IpcList
  import opened ReadyIndex
  import opened Scheduler
  import opened Dispatch

  ghost function OneTick(s: Sys, layout: Layout): Sys {
    if Settled(s, layout) then Ticked(s, layout) else s
  }

  ghost function Clock(layout: Layout): Sys -> Sys {
    (s: Sys) => OneTick(s, layout)
  }

  /** n clock ticks with nothing else going on. */
  ghost function Ticks(s: Sys, n: nat, clock: Sys -> Sys): Sys {
    if n == 0 then s else clock(Ticks(s, n - 1, clock))
  }

  lemma {:induction false} TicksAdd(s: Sys, a: nat, b: nat, clock: Sys -> Sys)
    ensures Ticks(s, a + b, clock) == Ticks(Ticks(s, a, clock), b, clock)
  {
    if b > 0 {
      TicksAdd(s, a, b - 1, clock);
    }
  }

  /** The queue the current thread runs from. */
  ghost function Line(s: Sys): seq<Tid>
    requires AtHead(s)
  {
    s.queues[s.threads[s.current].prio]
  }

  /** s with the current thread's remaining ticks set. */
  ghost function WithLeft(s: Sys, left: nat): Sys
    requires s.current in s.threads
  {
    s.(threads := s.threads[s.current := s.threads[s.current].(left := left)])
  }

  // ----------------------------------------------------------------- one slice

  lemma ClockIs(s: Sys, layout: Layout)
    requires Settled(s, layout)
    ensures Clock(layout)(s) == Ticked(s, layout)
  {
  }

  lemma TickCounts(s: Sys, layout: Layout)
    requires Settled(s, layout) && 1 != s.threads[s.current].left < TICKS
    ensures Clock(layout)(s) == WithLeft(s, (s.threads[s.current].left - 1) % TICKS)
  {
    ClockIs(s, layout);
    TickedIs(s, layout);
  }

  /** s with k ticks before the current thread; 0 in remaining_tick is a full turn. */
  ghost function Before(s: Sys, k: nat): Sys
    requires s.current in s.threads
  {
    WithLeft(s, k % TICKS)
  }

  lemma CountsDown(s: Sys, k: nat, layout: Layout)
    requires Settled(s, layout) && 1 < k <= TICKS
    ensures Clock(layout)(Before(s, k)) == Before(s, k - 1)
  {
    var left := k % TICKS;
    OneLess(k);
    AccountSettles(s, left, layout);
    TickCounts(WithLeft(s, left), layout);
    assert WithLeft(WithLeft(s, left), (left - 1) % TICKS) == WithLeft(s, k - 1);
  }

  lemma OneLess(k: nat)
    requires 1 < k <= TICKS
    ensures 1 != k % TICKS < TICKS && (k % TICKS - 1) % TICKS == k - 1 == (k - 1) % TICKS
  {
  }

  ghost predicate Counts(s: Sys, left: nat, clock: Sys -> Sys)
    requires s.current in s.threads
  {
    forall k: nat :: 1 < k <= left ==> clock(Before(s, k)) == Before(s, k - 1)
  }

  /** Inside a slice nothing happens but the counting. */
  lemma {:induction false} Counting(s: Sys, left: nat, n: nat, clock: Sys -> Sys)
    requires s.current in s.threads && n < left
    requires Counts(s, left, clock)
    ensures Ticks(Before(s, left), n, clock) == Before(s, left - n)
    decreases n
  {
    if n > 0 {
      Counting(s, left, n - 1, clock);
    }
  }

  lemma SliceCounts(s: Sys, left: nat, layout: Layout)
    requires Settled(s, layout) && left <= TICKS
    ensures Counts(s, left, Clock(layout))
  {
    forall k: nat | 1 < k <= left ensures Clock(layout)(Before(s, k)) == Before(s, k - 1) {
      CountsDown(s, k, layout);
    }
  }

  lemma SliceRuns(s: Sys, left: nat, n: nat, layout: Layout)
    requires Settled(s, layout) && n < left <= TICKS
    ensures Ticks(Before(s, left), n, Clock(layout)) == Before(s, left - n)
  {
    SliceCounts(s, left, layout);
    Counting(s, left, n, Clock(layout));
  }

  /** The first thread goes behind the others. */
  function Turned(q: seq<Tid>): seq<Tid>
    requires q != []
  {
    q[1..] + [q[0]]
  }

  lemma WithoutHead(q: seq<Tid>)
    requires q != []
    ensures Without(q, q[0]) == q[1..]
  {
  }

  lemma YieldTurns(s: Sys, layout: Layout)
    requires Settled(s, layout) && s.lock == 0
    ensures Yielded(s, layout) == MadeWay(s)
  {
    var p, q := s.threads[s.current].prio, Line(s);
    HeadIff(s, layout);
    WithoutHead(q);
    var r := Scheduler.Next(s, Yield, layout);
    StepInv(s, Yield, layout);
    if |q| >= 2 {
      assert QueueOk(s, p) && q[0] != q[1];
      assert r.queues[p] == Turned(q) && r.queues[p][0] == q[1];
      StillHighest(s, r, layout);
    } else {
      assert Turned(q) == q;
      assert s.queues[p := q] == s.queues;
    }
  }

  /** The look-up finds the same priority as long as the index does not change. */
  lemma StillHighest(s: Sys, r: Sys, layout: Layout)
    requires Inv(s, layout) && AtHead(s) && r.index == s.index
    ensures Highest(layout, r.index) == s.threads[s.current].prio
  {
    var p := s.threads[s.current].prio;
    assert p in Busy(s.queues);
    HighestIs(layout, s.index, Busy(s.queues), p);
  }

  /** s with the head of the line gone behind the others. */
  ghost function MadeWay(s: Sys): Sys
    requires AtHead(s)
  {
    s.(queues := s.queues[s.threads[s.current].prio := Turned(Line(s))], current := Turned(Line(s))[0])
  }

  lemma YieldMakesWay(s: Sys, slice: nat, layout: Layout)
    requires Settled(s, layout) && s.lock == 0
    ensures Settled(WithLeft(s, slice), layout) && Yielded(WithLeft(s, slice), layout) == MadeWay(WithLeft(s, slice))
  {
    AccountSettles(s, slice, layout);
    YieldTurns(WithLeft(s, slice), layout);
  }

  lemma LastTickYields(s: Sys, layout: Layout)
    requires Settled(s, layout) && s.threads[s.current].left == 1
    requires Settled(WithLeft(s, s.threads[s.current].slice), layout)
    ensures Clock(layout)(s) == Yielded(WithLeft(s, s.threads[s.current].slice), layout)
  {
    ClockIs(s, layout);
    TickedIs(s, layout);
    SetLeft(s, s.threads[s.current].slice, layout);
  }

  lemma SetLeft(s: Sys, left: nat, layout: Layout)
    requires Inv(s, layout) && s.current in s.threads
    ensures Scheduler.Next(s, Account(left), layout) == WithLeft(s, left)
  {
  }

  lemma LastTick(s: Sys, layout: Layout)
    requires Settled(s, layout) && s.lock == 0
    ensures Clock(layout)(WithLeft(s, 1)) == MadeWay(WithLeft(s, s.threads[s.current].slice))
  {
    var m, slice := WithLeft(s, 1), s.threads[s.current].slice;
    AccountSettles(s, 1, layout);
    assert WithLeft(m, slice) == WithLeft(s, slice);
    YieldMakesWay(s, slice, layout);
    LastTickYields(m, layout);
  }

  /** The ticks that a thread has left. */
  ghost function TicksOf(s: Sys, t: Tid): nat {
    if t !in s.threads then 0 else if s.threads[t].left == 0 then TICKS else s.threads[t].left
  }

  lemma SameLeft(s: Sys)
    requires s.current in s.threads && s.threads[s.current].left < TICKS
    ensures Before(s, TicksOf(s, s.current)) == s && 0 < TicksOf(s, s.current) <= TICKS
  {
    assert s.threads[s.current := s.threads[s.current]] == s.threads;
  }

  /** A slice: the current thread runs for the ticks it has left, gets a new slice and
      makes way. */
  lemma SliceEnds(s: Sys, layout: Layout)
    requires Settled(s, layout) && s.lock == 0 && s.threads[s.current].left < TICKS
    ensures Ticks(s, TicksOf(s, s.current), Clock(layout)) == MadeWay(WithLeft(s, s.threads[s.current].slice))
  {
    var n := TicksOf(s, s.current);
    assert n <= TICKS by { SameLeft(s); }
    SliceCounts(s, n, layout);
    LastTick(s, layout);
    SliceIs(s, Clock(layout));
  }

  lemma SliceIs(s: Sys, clock: Sys -> Sys)
    requires AtHead(s) && s.threads[s.current].left < TICKS
    requires Counts(s, TicksOf(s, s.current), clock)
    requires clock(WithLeft(s, 1)) == MadeWay(WithLeft(s, s.threads[s.current].slice))
    ensures Ticks(s, TicksOf(s, s.current), clock) == MadeWay(WithLeft(s, s.threads[s.current].slice))
  {
    var n := TicksOf(s, s.current);
    SameLeft(s);
    Counting(s, n, n - 1, clock);
    assert Before(s, 1) == WithLeft(s, 1);
  }

  // ----------------------------------------------------------------- one round

  ghost function Slices(s: Sys, q: seq<Tid>): nat {
    if q == [] then 0 else Slices(s, q[..|q| - 1]) + TicksOf(s, q[|q| - 1])
  }

  /** The threads of q have got a new slice. */
  ghost function Renewed(threads: map<Tid, Thread>, q: seq<Tid>): map<Tid, Thread> {
    map t | t in threads :: if t in q then threads[t].(left := threads[t].slice) else threads[t]
  }

  /** s after the first i threads of the line have had their turn. */
  ghost function After(s: Sys, i: nat): Sys
    requires AtHead(s) && i <= |Line(s)|
  {
    var q := Line(s);
    s.(queues := s.queues[s.threads[s.current].prio := q[i..] + q[..i]], current := if i < |q| then q[i] else q[0],
       threads := Renewed(s.threads, q[..i]))
  }

  lemma TurnedAfter(q: seq<Tid>, i: nat)
    requires i < |q|
    ensures q[i..] + q[..i] != []
    ensures Turned(q[i..] + q[..i]) == q[i + 1..] + q[..i + 1]
    ensures Turned(q[i..] + q[..i])[0] == if i + 1 < |q| then q[i + 1] else q[0]
  {
    var r := q[i..] + q[..i];
    assert r[1..] == q[i + 1..] + q[..i];
    assert q[..i + 1] == q[..i] + [q[i]];
  }

  lemma LinePlaced(s: Sys, i: nat, layout: Layout)
    requires Inv(s, layout) && AtHead(s) && i < |Line(s)|
    ensures Line(s)[i] in s.threads && s.threads[Line(s)[i]].prio == s.threads[s.current].prio
  {
    var p := s.threads[s.current].prio;
    var t := Line(s)[i];
    assert t in s.queues[p] && QueueOk(s, p);
    assert Placed(s, t);
  }

  /** The thread whose turn it is is the head of the most urgent queue. */
  lemma AfterSettled(s: Sys, i: nat, layout: Layout)
    requires Settled(s, layout) && s.lock == 0 && i < |Line(s)|
    ensures Settled(After(s, i), layout) && Line(After(s, i)) == Line(s)[i..] + Line(s)[..i]
  {
    var q, p, r := Line(s), s.threads[s.current].prio, After(s, i);
    LinePlaced(s, i, layout);
    RotatedIn(q, i);
    assert r.queues[p] != [];
    BusyUpdate(s.queues, p, r.queues[p]);
    assert Busy(s.queues) + {p} == Busy(s.queues);
    forall k | 0 <= k < |r.queues| ensures QueueOk(r, k) {
      assert QueueOk(s, k);
    }
    forall x | x in r.threads ensures Placed(r, x) && ThreadOk(r, x, layout) {
      assert Placed(s, x) && ThreadOk(s, x, layout);
    }
  }

  lemma RotatedIn(q: seq<Tid>, i: nat)
    requires i < |q|
    ensures forall x :: x in q[i..] + q[..i] <==> x in q
    ensures Distinct(q) ==> Distinct(q[i..] + q[..i])
  {
    assert q == q[..i] + q[i..];
    var r := q[i..] + q[..i];
    forall a, b | 0 <= a < b < |r| && Distinct(q) ensures r[a] != r[b] {
      assert r[a] == q[if a < |q| - i then a + i else a - (|q| - i)];
      assert r[b] == q[if b < |q| - i then b + i else b - (|q| - i)];
    }
  }

  /** From the moment it is its turn, thread i of the line runs for the ticks it has
      left. */
  ghost predicate Turn(s: Sys, i: nat, clock: Sys -> Sys)
    requires AtHead(s) && i < |Line(s)|
  {
    Ticks(After(s, i), TicksOf(s, Line(s)[i]), clock) == After(s, i + 1)
  }

  /** remaining_tick of the threads of the line is a 32-bit number. */
  ghost predicate Words(s: Sys) {
    forall t :: t in s.threads ==> s.threads[t].left < TICKS
  }

  lemma NextRenewed(s: Sys, i: nat, layout: Layout)
    requires Inv(s, layout) && AtHead(s) && i < |Line(s)|
    ensures var q, r := Line(s), After(s, i);
      && q[i] in s.threads && r.threads[q[i]] == s.threads[q[i]]
      && r.threads[q[i] := r.threads[q[i]].(left := r.threads[q[i]].slice)] == Renewed(s.threads, q[..i + 1])
  {
    LinePlaced(s, i, layout);
    var q := Line(s);
    assert QueueOk(s, s.threads[s.current].prio);
    assert q[..i + 1] == q[..i] + [q[i]];
    assert q[i] !in q[..i];
  }

  lemma TurnTaken(s: Sys, i: nat, layout: Layout)
    requires Settled(s, layout) && s.lock == 0 && i < |Line(s)| && Words(s)
    ensures Turn(s, i, Clock(layout))
  {
    var r := After(s, i);
    NextRenewed(s, i, layout);
    AfterSettled(s, i, layout);
    SliceEnds(r, layout);
    TurnedAfter(Line(s), i);
    TurnIs(s, i, r, Clock(layout));
  }

  lemma TurnIs(s: Sys, i: nat, r: Sys, clock: Sys -> Sys)
    requires AtHead(s) && i < |Line(s)| && r == After(s, i) && AtHead(r) && Line(s)[i] in s.threads
    requires Line(r) == Line(s)[i..] + Line(s)[..i] && r.threads[r.current] == s.threads[r.current]
    requires r.threads[r.current := r.threads[r.current].(left := r.threads[r.current].slice)] ==
             Renewed(s.threads, Line(s)[..i + 1])
    requires Turned(Line(r)) == Line(s)[i + 1..] + Line(s)[..i + 1]
    requires Turned(Line(r))[0] == if i + 1 < |Line(s)| then Line(s)[i + 1] else Line(s)[0]
    requires r.threads[r.current].prio == s.threads[s.current].prio
    requires Ticks(r, TicksOf(r, r.current), clock) == MadeWay(WithLeft(r, r.threads[r.current].slice))
    ensures Turn(s, i, clock)
  {
    assert MadeWay(WithLeft(r, r.threads[r.current].slice)) == After(s, i + 1);
  }

  /** After the slices of the first i threads it is the turn of the next. */
  lemma {:induction false} RoundSoFar(s: Sys, i: nat, clock: Sys -> Sys)
    requires AtHead(s) && i <= |Line(s)|
    requires forall k :: 0 <= k < |Line(s)| ==> Turn(s, k, clock)
    ensures Ticks(s, Slices(s, Line(s)[..i]), clock) == After(s, i)
    decreases i
  {
    if i == 0 {
      NothingYet(s);
    } else {
      RoundSoFar(s, i - 1, clock);
      assert Turn(s, i - 1, clock);
      SlicesStep(s, Line(s), i);
      TicksAdd(s, Slices(s, Line(s)[..i - 1]), TicksOf(s, Line(s)[i - 1]), clock);
    }
  }

  lemma NothingYet(s: Sys)
    requires AtHead(s)
    ensures After(s, 0) == s && Slices(s, Line(s)[..0]) == 0
    ensures After(s, |Line(s)|) == s.(threads := Renewed(s.threads, Line(s)))
  {
    var q, p := Line(s), s.threads[s.current].prio;
    assert q[0..] + q[..0] == q == q[|q|..] + q[..|q|];
    assert q[..|q|] == q;
    assert s.queues[p := q] == s.queues;
    assert Renewed(s.threads, q[..0]) == s.threads;
  }

  lemma SlicesStep(s: Sys, q: seq<Tid>, i: nat)
    requires 0 < i <= |q|
    ensures Slices(s, q[..i]) == Slices(s, q[..i - 1]) + TicksOf(s, q[i - 1])
  {
    assert q[..i][..i - 1] == q[..i - 1];
  }

  lemma AllTurns(s: Sys, layout: Layout)
    requires Settled(s, layout) && s.lock == 0 && Words(s)
    ensures forall k :: 0 <= k < |Line(s)| ==> Turn(s, k, Clock(layout))
  {
    forall k | 0 <= k < |Line(s)| ensures Turn(s, k, Clock(layout)) {
      TurnTaken(s, k, layout);
    }
  }

  /** With no other event, the threads at the most urgent priority run once each, in
      queue order, each for the ticks it had left; then the queue and the current
      thread are as they were, and each of them has a whole slice before it. */
  lemma Round(s: Sys, layout: Layout)
    requires Settled(s, layout) && s.lock == 0 && Words(s)
    ensures Ticks(s, Slices(s, Line(s)), Clock(layout)) == s.(threads := Renewed(s.threads, Line(s)))
  {
    AllTurns(s, layout);
    RoundIs(s, Clock(layout));
  }

  lemma RoundIs(s: Sys, clock: Sys -> Sys)
    requires AtHead(s)
    requires forall k :: 0 <= k < |Line(s)| ==> Turn(s, k, clock)
    ensures Ticks(s, Slices(s, Line(s)), clock) == s.(threads := Renewed(s.threads, Line(s)))
  {
    RoundSoFar(s, |Line(s)|, clock);
    NothingYet(s);
    assert Line(s)[..|Line(s)|] == Line(s);
  }

  lemma TurnBegins(s: Sys, i: nat, layout: Layout)
    requires Settled(s, layout) && s.lock == 0 && Words(s) && i < |Line(s)|
    ensures Ticks(s, Slices(s, Line(s)[..i]), Clock(layout)) == After(s, i)
  {
    AllTurns(s, layout);
    RoundSoFar(s, i, Clock(layout));
  }

  lemma TurnLasts(s: Sys, i: nat, n: nat, layout: Layout)
    requires Settled(s, layout) && s.lock == 0 && i < |Line(s)| && Words(s)
    requires n < TicksOf(s, Line(s)[i])
    ensures Ticks(After(s, i), n, Clock(layout)).current == Line(s)[i]
  {
    NextRenewed(s, i, layout);
    AfterSettled(s, i, layout);
    SameLeft(After(s, i));
    SliceRuns(After(s, i), TicksOf(s, Line(s)[i]), n, layout);
  }

  lemma Joined(s: Sys, a: nat, m: Sys, b: nat, t: Tid, clock: Sys -> Sys)
    requires Ticks(s, a, clock) == m && Ticks(m, b, clock).current == t
    ensures Ticks(s, a + b, clock).current == t
  {
    TicksAdd(s, a, b, clock);
  }

  /** Who runs at each tick of the round: the i-th thread of the line, through all the
      ticks it has left. */
  lemma WhoRuns(s: Sys, i: nat, n: nat, layout: Layout)
    requires Settled(s, layout) && s.lock == 0 && Words(s) && i < |Line(s)|
    requires n < TicksOf(s, Line(s)[i])
    ensures Ticks(s, Slices(s, Line(s)[..i]) + n, Clock(layout)).current == Line(s)[i]
  {
    TurnBegins(s, i, layout);
    TurnLasts(s, i, n, layout);
    Joined(s, Slices(s, Line(s)[..i]), After(s, i), n, Line(s)[i], Clock(layout));
  }
}
