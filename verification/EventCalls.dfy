/** What a call on an event object does to its flags and its waiters, told bit by bit. */
module EventCalls {
  import opened RtList
  import opened IpcList
  import opened EventFlags

  /** RT_EVENT_FLAG_AND asks for every bit, RT_EVENT_FLAG_OR for some bit. */
  lemma SatisfiedIs(flags: Bits, want: Bits, info: Info)
    ensures info.all ==> (Satisfied(flags, want, info) <==> forall b :: b in want ==> b in flags)
    ensures !info.all && info.any ==> (Satisfied(flags, want, info) <==> exists b :: b in want && b in flags)
    ensures !info.all && !info.any ==> !Satisfied(flags, want, info)
  {
    if !info.all && info.any {
      if Satisfied(flags, want, info) {
        var b :| b in want * flags;
        assert b in want && b in flags;
      } else {
        forall b | b in want ensures b !in flags {
          assert b !in want * flags;
        }
      }
    }
  }

  // --------------------------------------------------------------------- a send

  ghost predicate Meets(flags: Bits, w: Want) {
    Satisfied(flags, w.bits, w.info)
  }

  /** The flags when the i-th waiter has its turn: those before it that found their flags
      and asked for CLEAR have taken them away. */
  ghost function Turn(flags: Bits, wait: seq<Tid>, wants: map<Tid, Want>, i: nat): Bits
    requires Covered(wait, wants) && i <= |wait|
  {
    if i == 0 then flags
    else
      var f, w := Turn(flags, wait, wants, i - 1), wants[wait[i - 1]];
      if Meets(f, w) && w.info.clear then f - w.bits else f
  }

  lemma {:induction false} TurnShift(flags: Bits, wait: seq<Tid>, wants: map<Tid, Want>, i: nat)
    requires Covered(wait, wants) && wait != [] && i < |wait|
    ensures Covered(wait[1..], wants)
    ensures Turn(flags, wait, wants, i + 1) == Turn(Turn(flags, wait, wants, 1), wait[1..], wants, i)
  {
    if i > 0 {
      TurnShift(flags, wait, wants, i - 1);
      assert wait[1..][i - 1] == wait[i];
    }
  }

  /** Waiter i is woken. */
  ghost predicate Wakes(flags: Bits, wait: seq<Tid>, wants: map<Tid, Want>, i: nat)
    requires Covered(wait, wants) && i < |wait|
  {
    Meets(Turn(flags, wait, wants, i), wants[wait[i]])
  }

  lemma FirstTurn(flags: Bits, wait: seq<Tid>, wants: map<Tid, Want>)
    requires Covered(wait, wants) && wait != []
    ensures var w := wants[wait[0]];
      Turn(flags, wait, wants, 1) == PollStep(flags, w.bits, w.info).left
  {
    assert Turn(flags, wait, wants, 0) == flags;
  }

  lemma WakesShift(flags: Bits, wait: seq<Tid>, wants: map<Tid, Want>, i: nat)
    requires Covered(wait, wants) && 0 < i < |wait|
    ensures Covered(wait[1..], wants)
    ensures Wakes(flags, wait, wants, i) == Wakes(Turn(flags, wait, wants, 1), wait[1..], wants, i - 1)
  {
    TurnShift(flags, wait, wants, i - 1);
  }

  /** The walk stops with the flags of the last turn, and its waiter i stays exactly if it
      was not woken. */
  lemma {:induction false} WalkTurns(flags: Bits, wait: seq<Tid>, wants: map<Tid, Want>)
    requires Covered(wait, wants) && Distinct(wait)
    ensures var w := PollAll(flags, wait, wants);
      && w.left == Turn(flags, wait, wants, |wait|)
      && (forall i :: 0 <= i < |wait| ==> (wait[i] in w.stay <==> !Wakes(flags, wait, wants, i)))
    decreases |wait|
  {
    if wait != [] {
      var t, rest, f := wait[0], wait[1..], Turn(flags, wait, wants, 1);
      FirstTurn(flags, wait, wants);
      TurnShift(flags, wait, wants, |wait| - 1);
      assert Distinct(rest) && t !in rest;
      WalkTurns(f, rest, wants);
      PollAllStays(f, rest, wants);
      forall i | 0 <= i < |wait|
        ensures wait[i] in PollAll(flags, wait, wants).stay <==> !Wakes(flags, wait, wants, i)
      {
        if i > 0 {
          WakesShift(flags, wait, wants, i);
          assert wait[i] == rest[i - 1] && wait[i] in rest;
        }
      }
    }
  }

  /** Bit b was taken by waiter i. */
  ghost predicate TakenBy(flags: Bits, wait: seq<Tid>, wants: map<Tid, Want>, i: nat, b: nat)
    requires Covered(wait, wants) && i < |wait|
  {
    Wakes(flags, wait, wants, i) && Clears(wants[wait[i]], b)
  }

  predicate Clears(w: Want, b: nat) {
    w.info.clear && b in w.bits
  }

  /** Bit b was taken by one of the first n waiters. */
  ghost predicate Taken(flags: Bits, wait: seq<Tid>, wants: map<Tid, Want>, n: nat, b: nat)
    requires Covered(wait, wants) && n <= |wait|
  {
    exists i :: 0 <= i < n && TakenBy(flags, wait, wants, i, b)
  }

  lemma {:induction false} TurnBits(flags: Bits, wait: seq<Tid>, wants: map<Tid, Want>, n: nat, b: nat)
    requires Covered(wait, wants) && n <= |wait|
    ensures b in Turn(flags, wait, wants, n) <==> b in flags && !Taken(flags, wait, wants, n, b)
  {
    if n > 0 {
      TurnBits(flags, wait, wants, n - 1, b);
      if TakenBy(flags, wait, wants, n - 1, b) {
        assert Taken(flags, wait, wants, n, b);
      } else {
        assert Taken(flags, wait, wants, n, b) <==> Taken(flags, wait, wants, n - 1, b);
      }
    }
  }

  /** The threads of q that are in keep, in their order. */
  function Only(q: seq<Tid>, keep: seq<Tid>): seq<Tid> {
    if q == [] then [] else (if q[0] in keep then [q[0]] else []) + Only(q[1..], keep)
  }

  lemma {:induction false} OnlySame(q: seq<Tid>, a: seq<Tid>, b: seq<Tid>)
    requires forall t :: t in q ==> (t in a <==> t in b)
    ensures Only(q, a) == Only(q, b)
  {
    if q != [] {
      var t := q[0];
      assert t in q && (t in a <==> t in b);
      OnlySame(q[1..], a, b);
    }
  }

  lemma {:induction false} WalkOrder(flags: Bits, wait: seq<Tid>, wants: map<Tid, Want>)
    requires Covered(wait, wants) && Distinct(wait)
    ensures var w := PollAll(flags, wait, wants); w.stay == Only(wait, w.stay)
    decreases |wait|
  {
    if wait != [] {
      var t, rest := wait[0], wait[1..];
      var f := PollStep(flags, wants[t].bits, wants[t].info).left;
      var w, v := PollAll(flags, wait, wants), PollAll(f, rest, wants);
      assert Distinct(rest) && t !in rest;
      WalkOrder(f, rest, wants);
      PollAllStays(f, rest, wants);
      OnlySame(rest, w.stay, v.stay);
    }
  }

  /** Bit b is taken by a receiver that the call woke and that asked for CLEAR. */
  ghost predicate ClearedBy(s: State, r: State, b: nat) {
    exists t :: t in s.wait && t !in r.wait && t in s.wants && Clears(s.wants[t], b)
  }

  /** rt_event_send: the new flags are set, a receiver is woken exactly if its condition
      holds of the flags at its turn, those that stay keep their order, and the flags left
      are the old and the new ones without what the woken receivers clear. */
  lemma SendSets(s: State, more: Bits, flag: Flag)
    requires Inv(s) && more != {}
    ensures var r := Next(s, Send(more), flag);
      && r.wants == s.wants && r.wait == Only(s.wait, r.wait)
      && (forall i :: 0 <= i < |s.wait| ==> (s.wait[i] in r.wait <==> !Wakes(s.flags + more, s.wait, s.wants, i)))
      && (forall b: nat :: b in r.flags <==> b in s.flags + more && !ClearedBy(s, r, b))
  {
    var f, r := s.flags + more, Next(s, Send(more), flag);
    WalkTurns(f, s.wait, s.wants);
    WalkOrder(f, s.wait, s.wants);
    forall b: nat ensures b in r.flags <==> b in f && !ClearedBy(s, r, b) {
      TurnBits(f, s.wait, s.wants, |s.wait|, b);
      TakenIs(s, r, f, b);
    }
  }

  lemma TakenIs(s: State, r: State, f: Bits, b: nat)
    requires Covered(s.wait, s.wants)
    requires forall i :: 0 <= i < |s.wait| ==> (s.wait[i] in r.wait <==> !Wakes(f, s.wait, s.wants, i))
    ensures Taken(f, s.wait, s.wants, |s.wait|, b) <==> ClearedBy(s, r, b)
  {
    if Taken(f, s.wait, s.wants, |s.wait|, b) {
      var i :| 0 <= i < |s.wait| && TakenBy(f, s.wait, s.wants, i, b);
      var t := s.wait[i];
      assert t in s.wait && t !in r.wait && t in s.wants && Clears(s.wants[t], b);
    }
    if ClearedBy(s, r, b) {
      var t :| t in s.wait && t !in r.wait && t in s.wants && Clears(s.wants[t], b);
      var i :| 0 <= i < |s.wait| && s.wait[i] == t;
      assert TakenBy(f, s.wait, s.wants, i, b);
    }
  }

  /** With nobody woken that clears, a send leaves every flag it sets. */
  lemma SendKeeps(s: State, more: Bits, flag: Flag)
    requires Inv(s) && more != {}
    requires forall t :: t in s.wait && t in s.wants ==> !s.wants[t].info.clear
    ensures Next(s, Send(more), flag).flags == s.flags + more
  {
    SendSets(s, more, flag);
  }

  /** A send of no flags is refused and changes nothing. */
  lemma SendNothing(s: State, flag: Flag)
    requires Inv(s)
    ensures Next(s, Send({}), flag) == s
  {
  }

  /** What a woken receiver is delivered: its bits among the flags of its turn. */
  lemma {:induction false} Delivered(flags: Bits, wait: seq<Tid>, wants: map<Tid, Want>, i: nat)
    requires Covered(wait, wants) && i < |wait| && Wakes(flags, wait, wants, i)
    ensures (wait[i], wants[wait[i]].bits * Turn(flags, wait, wants, i)) in PollAll(flags, wait, wants).woken
    decreases |wait|
  {
    var f, w := Turn(flags, wait, wants, 1), PollAll(flags, wait, wants);
    FirstTurn(flags, wait, wants);
    if i == 0 {
      assert w.woken[0] == (wait[0], wants[wait[0]].bits * flags);
    } else {
      WakesShift(flags, wait, wants, i);
      TurnShift(flags, wait, wants, i - 1);
      Delivered(f, wait[1..], wants, i - 1);
    }
  }

  // ------------------------------------------------------------------ a receive

  /** rt_event_recv: where the condition holds exactly the wanted flags go if CLEAR was
      asked for, and none otherwise; where it does not, a caller with time to wait joins the
      waiters with its wish on record, and any other caller changes nothing. */
  lemma RecvTakes(s: State, t: Tid, want: Bits, info: Info, block: bool, prio: map<Tid, int>, flag: Flag)
    requires Inv(s) && Enabled(s, Recv(t, want, info, block, prio))
    ensures var r, ok := Next(s, Recv(t, want, info, block, prio), flag), want != {} && Satisfied(s.flags, want, info);
      && (ok ==> r.wait == s.wait && r.wants == s.wants)
      && (ok ==> forall b: nat :: b in r.flags <==> b in s.flags && !(info.clear && b in want))
      && (!ok && want != {} && block ==>
           && r.flags == s.flags && Joined(s.wait, r.wait, t, flag, prio)
           && r.wants == s.wants[t := Want(want, info)])
      && (!ok && (want == {} || !block) ==> r == s)
  {
    if want != {} && !Satisfied(s.flags, want, info) && block {
      SuspendedJoins(s.wait, t, flag, prio);
    }
  }

  /** A reset clears every flag and leaves nobody waiting. */
  lemma ResetClears(s: State, flag: Flag)
    requires Inv(s)
    ensures Next(s, Reset, flag).flags == {} && Next(s, Reset, flag).wait == []
  {
  }

  /** A timeout takes one waiter off, and nothing else. */
  lemma ExpireLeaves(s: State, t: Tid, flag: Flag)
    requires Inv(s) && t in s.wait
    ensures var r := Next(s, Expire(t), flag);
      && r.flags == s.flags && r.wants == s.wants && r.wait == Only(s.wait, r.wait)
      && (forall x :: x in r.wait <==> x in s.wait && x != t)
  {
    WithoutIn(s.wait, t);
    WithoutOnly(s.wait, t);
  }

  lemma {:induction false} WithoutOnly(q: seq<Tid>, t: Tid)
    requires Distinct(q)
    ensures Without(q, t) == Only(q, Without(q, t))
  {
    if q != [] {
      assert Distinct(q[1..]) && q[0] !in q[1..];
      WithoutOnly(q[1..], t);
      WithoutIn(q[1..], t);
      WithoutIn(q, t);
      if q[0] == t {
        OnlyAll(q[1..]);
      } else {
        OnlySame(q[1..], Without(q, t), Without(q[1..], t));
      }
    }
  }

  lemma {:induction false} OnlyAll(q: seq<Tid>)
    ensures Only(q, q) == q
  {
    if q != [] {
      OnlyAll(q[1..]);
      OnlyIn(q[1..], q[1..], q);
    }
  }

  lemma OnlyIn(p: seq<Tid>, a: seq<Tid>, b: seq<Tid>)
    requires forall t :: t in p ==> t in a && t in b
    ensures Only(p, a) == Only(p, b)
  {
    OnlySame(p, a, b);
  }
}
