/** rt_event_send, rt_event_recv and rt_event_control of src/ipc.c. */
module EventObject {
  import opened RtList
  import opened IpcList
  import opened EventFlags

  ghost predicate Agree(a: map<Tid, Want>, b: map<Tid, Want>, ts: seq<Tid>) {
    forall i :: 0 <= i < |ts| ==> ts[i] in a && ts[i] in b && a[ts[i]] == b[ts[i]]
  }

  /** event_set of each woken thread holds what it was delivered. */
  ghost predicate Holds(wants: map<Tid, Want>, woken: seq<(Tid, Bits)>) {
    forall k :: 0 <= k < |woken| ==> woken[k].0 in wants && wants[woken[k].0].bits == woken[k].1
  }

  /** Serving t leaves the others alone. */
  lemma ServedOther(wants: map<Tid, Want>, served: map<Tid, Want>, ts: seq<Tid>, t: Tid, w: Want)
    requires Agree(wants, served, ts) && t !in ts
    ensures Agree(wants, served[t := w], ts)
  {
    forall i | 0 <= i < |ts| ensures ts[i] != t {
      assert ts[i] in ts;
    }
  }

  lemma ServedOne(served: map<Tid, Want>, woken: seq<(Tid, Bits)>, t: Tid, w: Want)
    requires Holds(served, woken) && forall k :: 0 <= k < |woken| ==> woken[k].0 != t
    ensures Holds(served[t := w], woken + [(t, w.bits)])
  {
  }

  /** Where the walk of rt_event_send stands: `stay` are the waiters it left on the list,
      `rest` those it has yet to look at. */
  ghost predicate Along(l: Links, n: Node, stay: seq<Tid>, rest: seq<Tid>) {
    Ring(l, [LIST] + (stay + rest)) && n == if rest == [] then LIST else rest[0]
  }

  lemma NextOne(l: Links, n: Node, stay: seq<Tid>, rest: seq<Tid>)
    requires Along(l, n, stay, rest) && rest != []
    ensures n in l.next && n in l.prev
    ensures Along(Remove(l, n), l.next[n], stay, rest[1..]) && Along(l, l.next[n], stay + [n], rest[1..])
  {
    var s, k := [LIST] + (stay + rest), |stay| + 1;
    assert s[k] == n && NodeAt(l, s, k);
    assert |rest| > 1 ==> s[k + 1] == rest[1] && rest[1..] != [];
    RemoveRing(l, s, k);
    assert Dropped(s, k) == [LIST] + (stay + rest[1..]);
    assert s == [LIST] + ((stay + [n]) + rest[1..]);
  }

  /** What the walk has done and what it has still to do make up the whole of it. */
  ghost predicate Midway(total: Walk, left: Bits, wants: map<Tid, Want>, served: map<Tid, Want>, stay: seq<Tid>,
                         rest: seq<Tid>, woken: seq<(Tid, Bits)>) {
    && Covered(rest, wants) && Distinct(rest) && LIST !in rest
    && (var w := PollAll(left, rest, wants); total == Walk(w.left, stay + w.stay, woken + w.woken))
    && Agree(wants, served, rest) && Agree(wants, served, stay) && Holds(served, woken)
    && (forall x :: x in rest ==> x !in stay)
    && (forall x, k :: x in rest && 0 <= k < |woken| ==> woken[k].0 != x)
  }

  lemma MidwayStart(flags: Bits, wait: seq<Tid>, wants: map<Tid, Want>)
    requires Covered(wait, wants) && Distinct(wait) && LIST !in wait
    ensures Midway(PollAll(flags, wait, wants), flags, wants, wants, [], wait, [])
  {
    var total := PollAll(flags, wait, wants);
    assert [] + total.stay == total.stay && [] + total.woken == total.woken;
  }

  lemma MidwayNext(total: Walk, left: Bits, wants: map<Tid, Want>, served: map<Tid, Want>, stay: seq<Tid>,
                   rest: seq<Tid>, woken: seq<(Tid, Bits)>)
    requires Midway(total, left, wants, served, stay, rest, woken) && rest != []
    ensures var t := rest[0];
      && t in served
      && var r := Serve(left, served[t]);
         if r.ok then Midway(total, r.left, wants, served[t := r.want], stay, rest[1..], woken + [(t, r.want.bits)])
         else Midway(total, left, wants, served, stay + [t], rest[1..], woken)
  {
    var t := rest[0];
    assert t in rest;
    ServeIsPoll(left, served[t]);
    var r := Serve(left, served[t]);
    var after := PollAll(r.left, rest[1..], wants);
    forall x | x in rest[1..] ensures x in rest && x != t {
    }
    if r.ok {
      ServedOther(wants, served, stay, t, r.want);
      ServedOther(wants, served, rest[1..], t, r.want);
      ServedOne(served, woken, t, r.want);
      assert woken + ([(t, r.want.bits)] + after.woken) == (woken + [(t, r.want.bits)]) + after.woken;
    } else {
      assert stay + ([t] + after.stay) == (stay + [t]) + after.stay;
    }
  }

  /** The loop of rt_event_send along the list, which takes waiters off as it goes. */
  method WalkList(l: Links, flags: Bits, wants: map<Tid, Want>, ghost wait: seq<Tid>)
    returns (m: Links, left: Bits, served: map<Tid, Want>)
    requires Ring(l, [LIST] + wait) && Covered(wait, wants)
    ensures var w := PollAll(flags, wait, wants);
      left == w.left && Ring(m, [LIST] + w.stay) && Holds(served, w.woken) && Agree(wants, served, w.stay)
  {
    EmptyIff(l, LIST, wait);
    m, left, served := l, flags, wants;
    ghost var stay: seq<Tid>, rest, woken: seq<(Tid, Bits)>, total := [], wait, [], PollAll(flags, wait, wants);
    MidwayStart(flags, wait, wants);
    assert [] + wait == wait;
    var n := m.next[LIST];
    while n != LIST
      invariant Along(m, n, stay, rest) && Midway(total, left, wants, served, stay, rest, woken)
      decreases |rest|
    {
      NextOne(m, n, stay, rest);
      MidwayNext(total, left, wants, served, stay, rest, woken);
      var t := n;
      var r := Serve(left, served[t]);
      n := m.next[n];
      if r.ok {
        served := served[t := r.want];
        left := r.left;
        m := Remove(m, t);
        woken := woken + [(t, r.want.bits)];
      } else {
        stay := stay + [t];
      }
      rest := rest[1..];
    }
    Finished(total, left, wants, served, stay, rest, woken);
  }

  lemma Finished(total: Walk, left: Bits, wants: map<Tid, Want>, served: map<Tid, Want>, stay: seq<Tid>,
                 rest: seq<Tid>, woken: seq<(Tid, Bits)>)
    requires Midway(total, left, wants, served, stay, rest, woken) && (rest != [] ==> rest[0] == LIST)
    ensures rest == [] && total == Walk(left, stay, woken) && stay + rest == stay
  {
    if rest != [] {
      FirstIn(rest);
    }
  }

  lemma FirstIn(rest: seq<Tid>)
    requires rest != []
    ensures rest[0] in rest
  {
  }

  datatype Status = Ok(received: Bits) | Timeout | Error | Blocked

  lemma AgreeInv(s: State, wants: map<Tid, Want>)
    requires Inv(s) && Agree(s.wants, wants, s.wait)
    ensures Inv(s.(wants := wants))
  {
  }

  class EventFlagsObject {
    const flag: Flag
    var flags: Bits
    var links: Links
    var wants: map<Tid, Want>
    var error: map<Tid, int>
    ghost var wait: seq<Tid>

    ghost function View(): State
      reads this
    {
      State(flags, wait, wants)
    }

    ghost predicate Valid()
      reads this
    {
      Inv(View()) && Ring(links, [LIST] + wait)
    }

    /** rt_event_init. */
    constructor (flag: Flag)
      ensures Valid() && this.flag == flag && View() == State({}, [], map[]) && error == map[]
    {
      this.flag := flag;
      flags, wait, wants, error := {}, [], map[], map[];
      links := Links(map[LIST := LIST], map[LIST := LIST]);
      assert NodeAt(Links(map[LIST := LIST], map[LIST := LIST]), [LIST], 0);
      assert [LIST] + [] == [LIST];
    }

    /** rt_event_send: the waiters it wakes find what they were delivered in event_set. */
    method SendFlags(more: Bits) returns (ok: bool)
      requires Valid()
      modifies this
      ensures Valid() && ok == (more != {})
      ensures var s := SendStep(old(View()), more); flags == s.flags && wait == s.wait && Agree(old(wants), wants, wait)
      ensures ok ==> Holds(wants, PollAll(old(flags) + more, old(wait), old(wants)).woken)
      ensures error == old(error)
    {
      ghost var s := View();
      ok := more != {};
      if ok {
        SendInv(s, more);
        flags := flags + more;
        links, flags, wants := WalkList(links, flags, wants, wait);
        wait := SendStep(s, more).wait;
        AgreeInv(SendStep(s, more), wants);
      }
    }

    /** rt_event_recv up to the suspension of a thread that has to wait. */
    method RecvFlags(t: Tid, want: Bits, info: Info, block: bool, prio: map<Tid, int>) returns (r: Status)
      requires Valid() && Enabled(View(), Event.Recv(t, want, info, block, prio)) && t != LIST
      modifies this
      ensures Valid() && View() == RecvStep(old(View()), t, want, info, block, flag, prio)
      ensures r == (if want == {} then Error
                    else if Satisfied(old(flags), want, info) then Ok(want * old(flags))
                    else if block then Blocked else Timeout)
      ensures error == if r == Error then old(error) else old(error)[t := if r == Timeout then ETIMEOUT else EOK]
    {
      RecvInv(View(), t, want, info, block, flag, prio);
      if want == {} {
        return Error;
      }
      error := error[t := EOK];
      var met := false;
      if info.all {
        met := want <= flags;
      } else if info.any {
        met := want * flags != {};
      }
      if met {
        r := Ok(want * flags);
        if info.clear {
          flags := flags - want;
        }
      } else if !block {
        r := Timeout;
        error := error[t := ETIMEOUT];
      } else {
        wants := wants[t := Want(want, info)];
        links := Suspend(links, LIST, t, flag, prio, wait);
        wait := Suspended(wait, t, flag, prio);
        r := Blocked;
      }
    }

    /** rt_thread_timeout of a thread suspended on the event. */
    method ExpireWait(t: Tid)
      requires Valid() && t in wait
      modifies this
      ensures Valid() && View() == Next(old(View()), Event.Expire(t), flag) && error == old(error)[t := ETIMEOUT]
    {
      ExpireInv(View(), t);
      error := error[t := ETIMEOUT];
      LeftRing(links, LIST, wait, t);
      links := Remove(links, t);
      wait := Without(wait, t);
    }

    /** rt_event_control with RT_IPC_CMD_RESET: every waiter leaves with -RT_ERROR. */
    method ResetFlags()
      requires Valid()
      modifies this
      ensures Valid() && View() == Next(old(View()), Event.Reset, flag) && error == Failed(old(error), old(wait))
    {
      links, error := ResumeAll(links, LIST, error, wait);
      wait, flags := [], {};
      assert [LIST] + [] == [LIST];
    }
  }
}
