/** rt_malloc and rt_free of src/slab.c as they run on memory, and the heap object
    they update. */
module SlabHeap {
  import opened MachineWord
  import opened Options
  import opened Chains
  import opened PageList
  import PageRuns
  import PageHeap
  import opened ZoneSizes
  import opened SlabZone
  import opened SlabSpec
  import opened SlabPlace
  import opened SlabChunks
  import opened SlabPages
  import opened SlabOps
  import opened SlabMemory
  import opened SlabRuns

  ghost function Pointer(p: Option<Addr>): Addr {
    if p.Some? then p.value else 0
  }

  /** A request of whole pages. */
  method MallocLarge(m: Memory, n: nat, ghost s: Slab, ghost c: Config) returns (r: Memory, a: Addr)
    requires Repr(m, s) && Core(s, c)
    ensures Repr(r, TakeLarge(s, n).0) && a == Pointer(TakeLarge(s, n).1)
  {
    var f, p := PageHeap.Alloc(m.heads, n, s.pages.free, c.lo);
    TakenIs(s.pages.free, n, c.lo);
    if p == 0 {
      return m.(heads := f), 0;
    }
    a := p * PAGE;
    r := Count(m.(heads := f, usage := m.usage[p as int := Usage(Large, n)]), n * PAGE);
    ghost var t := TakeLarge(s, n).0;
    forall z | z in t.zones ensures HeaderOk(r, z, t.zones[z]) {
      assert HeaderOk(m, z, s.zones[z]);
    }
  }

  /** A new zone, from zone_free or from the page allocator. */
  method MallocNew(m: Memory, i: nat, zone: nat, ghost s: Slab, ghost c: Config) returns (r: Memory, a: Addr)
    requires Repr(m, s) && Core(s, c) && i < NZONES && Served(c.zone, SizeOf(i)) && zone == c.zone && s.lists[i] == []
    ensures Repr(r, FromZone(s, i, c).0) && a == Pointer(FromZone(s, i, c).1)
  {
    if m.spare != 0 {
      ChainPop(m.next, m.spare, s.spare);
      ghost var t := s.(spare := s.spare[1..]);
      var b := m.(spare := m.next[m.spare], count := m.count - 1);
      assert Repr(b, t) by { SameHeaders(m, b, s, t); }
      r, a := FreshZone(b, m.spare, i, zone, s, c);
    } else {
      assert s.spare == [];
      r, a := MallocGrab(m, i, zone, s, c);
    }
  }

  lemma SameHeaders(m: Memory, b: Memory, s: Slab, t: Slab)
    requires HeadersOk(m, s) && b.headers == m.headers && b.chunkNext == m.chunkNext && t.zones == s.zones
    ensures HeadersOk(b, t)
  {
    forall z | z in t.zones ensures HeaderOk(b, z, t.zones[z]) {
      assert HeaderOk(m, z, s.zones[z]);
    }
  }

  /** The pages of a new zone and their entries in the page map. */
  method GrabPages(m: Memory, zone: nat, ghost s: Slab, ghost c: Config) returns (b: Memory, z: nat)
    requires Repr(m, s) && Core(s, c) && zone == c.zone
    ensures z == 0 ==> GrabZone(s, c).None? && Repr(b, s)
    ensures z != 0 ==> GrabZone(s, c).Some? && var g := GrabZone(s, c).value;
      Core(g, c) && g.spare != [] && g.spare[0] == z && Repr(b, g.(spare := g.spare[1..]))
  {
    var f;
    f, z := PageHeap.Alloc(m.heads, zone / PAGE, s.pages.free, c.lo);
    TakenIs(s.pages.free, zone / PAGE, c.lo);
    if z == 0 {
      b := m.(heads := f);
      SameHeaders(m, b, s, s);
    } else {
      TakenOff(s, zone / PAGE, c);
      var u := MarkPages(m.usage, z, zone / PAGE, Small);
      b := m.(heads := f, usage := u);
      GrabKeeps(s, c);
      Grabbed(m, b, s, GrabZone(s, c).value, c);
    }
  }

  method MallocGrab(m: Memory, i: nat, zone: nat, ghost s: Slab, ghost c: Config) returns (r: Memory, a: Addr)
    requires Repr(m, s) && Core(s, c) && i < NZONES && Served(c.zone, SizeOf(i)) && zone == c.zone
    requires s.lists[i] == [] && s.spare == []
    ensures Repr(r, FromZone(s, i, c).0) && a == Pointer(FromZone(s, i, c).1)
  {
    var b, z := GrabPages(m, zone, s, c);
    if z == 0 {
      return b, 0;
    }
    r, a := FreshZone(b, z, i, zone, GrabZone(s, c).value, c);
  }

  lemma Grabbed(m: Memory, b: Memory, s: Slab, g: Slab, c: Config)
    requires Repr(m, s) && GrabZone(s, c) == Some(g) && PageHeap.Repr(b.heads, g.pages.free)
    requires b == m.(heads := b.heads, usage := g.usage)
    ensures g.spare != [] && Repr(b, g.(spare := g.spare[1..]))
  {
    assert g.spare[1..] == s.spare;
    SameHeaders(m, b, s, g);
  }

  /** rt_malloc. */
  method DoMalloc(m: Memory, n: nat, zone: nat, ghost s: Slab, ghost c: Config) returns (r: Memory, a: Addr)
    requires Repr(m, s) && Core(s, c) && zone == c.zone
    ensures Repr(r, Malloc(s, n, c).0) && a == Pointer(Malloc(s, n, c).1)
  {
    if n == 0 {
      return m, 0;
    }
    if n >= Limit(zone) {
      r, a := MallocLarge(m, (n + PAGE - 1) % WORD / PAGE, s, c);
      return;
    }
    RequestServed(c.zone, n);
    var i := ZoneIndex(n).0;
    if m.lists[i] != 0 {
      ChainPop(m.next, m.lists[i], s.lists[i]);
      CarveKeeps(s, i, c);
      r, a := CarveChunk(m, i, s, c);
    } else {
      assert s.lists[i] == [];
      r, a := MallocNew(m, i, zone, s, c);
    }
  }

  // ------------------------------------------------------------------------- free

  method FreeLarge(m: Memory, a: Addr, ghost s: Slab, ghost c: Config) returns (r: Memory)
    requires Repr(m, s) && Core(s, c) && a in s.live && a / PAGE in s.usage && s.usage[a / PAGE].kind == Large
    ensures a / PAGE in s.pages.held && Repr(r, GiveLarge(s, a))
  {
    var p := a / PAGE;
    LargeIs(s, a, c);
    assert PageRuns.HeldOk(s.pages, p, c.lo, c.hi);
    var size := m.usage[p].size;
    var f := PageHeap.Free(m.heads, p, size, s.pages.free, c.lo);
    r := m.(usage := m.usage[p := m.usage[p].(size := 0)], used := (m.used - size * PAGE) % WORD, heads := f);
    SameHeaders(m, r, s, GiveLarge(s, a));
  }

  /** A zone that is all free again moves to zone_free, unless it is the only zone on
      its list; a third one goes back to the page allocator. */
  method Settle(m: Memory, z: int, zone: nat, ghost s: Slab, ghost c: Config) returns (r: Memory)
    requires Repr(m, s) && Core(s, c) && CanPut(s, z) && z in s.lists[s.zones[z].index] && z != 0 && zone == c.zone
    requires |s.spare| <= THRESH
    ensures var x := s.zones[z];
      var q := Retire(s, z);
      && q.spare[0] >= 0
      && Repr(r, if x.nfree == x.nmax && s.lists[x.index] != [z] then
                   if |q.spare| > THRESH then DropZone(q, c) else q
                 else s)
  {
    assert HeaderOk(m, z, s.zones[z]);
    var h := m.headers[z];
    ghost var l := s.lists[h.index];
    assert z >= 0 by { ZoneIsPage(s, z, c); }
    OnlyOne(m.next, m.lists[h.index], l, z);
    if h.nfree == h.nmax && (m.next[z] != 0 || m.lists[h.index] != z) {
      r := RetireZone(m, z, s, c);
      ghost var q := Retire(s, z);
      if r.count > THRESH {
        assert Core(q, c) by { RetireKeeps(s, z, c); }
        r := DropSpare(r, zone / PAGE, q, c);
      }
    } else {
      r := m;
    }
  }

  lemma ZoneIsPage(s: Slab, z: int, c: Config)
    requires Core(s, c) && z in s.zones
    ensures z > 0
  {
    assert InZones(s, z, c);
    assert PageRuns.HeldOk(s.pages, z, c.lo, c.hi);
  }

  /** z is the only node exactly when it is the first and has no successor. */
  lemma OnlyOne(next: map<int, int>, head: int, l: seq<int>, z: int)
    requires Chain(next, head, l) && z in l
    ensures z in next && (next[z] != 0 || head != z <==> l != [z])
  {
    InChain(next, head, l, z);
    ChainPop(next, head, l);
    if head == z {
      assert l == [z] + l[1..];
      if l[1..] == [] {
        assert l == [z];
      }
    }
  }

  lemma {:induction false} InChain(next: map<int, int>, from: int, l: seq<int>, z: int)
    requires Chain(next, from, l) && z in l
    ensures z in next
    decreases |l|
  {
    if l[0] != z {
      InChain(next, next[from], l[1..], z);
    }
  }

  /** rt_free. */
  method DoFree(m: Memory, a: Addr, zone: nat, ghost s: Slab, ghost c: Config) returns (r: Memory)
    requires Repr(m, s) && Core(s, c) && (a == 0 || a in s.live) && zone == c.zone && |s.spare| <= THRESH
    ensures Repr(r, Free(s, a, c))
  {
    if a == 0 {
      return m;
    }
    HasHome(s, a, c);
    assert LiveAt(s, a, c);
    if m.usage[a / PAGE].kind == Large {
      r := FreeLarge(m, a, s, c);
    } else {
      r := DoFreeChunk(m, a, zone, s, c);
    }
  }

  method DoFreeChunk(m: Memory, a: Addr, zone: nat, ghost s: Slab, ghost c: Config) returns (r: Memory)
    requires Repr(m, s) && Core(s, c) && a in s.live && a != 0 && zone == c.zone && |s.spare| <= THRESH
    requires a / PAGE in s.usage && s.usage[a / PAGE].kind == Small
    ensures Repr(r, FreeChunk(s, a, c))
  {
    var z := a / PAGE - m.usage[a / PAGE].size;
    ChunkZone(s, a, c);
    ZoneIsPage(s, z, c);
    r := PutChunk(m, z, a, s, c);
    ghost var p := Put(s, z, a);
    assert Core(p, c) by { PutKeeps(s, a, c); }
    assert z in p.lists[p.zones[z].index] by { assert ListOk(p, p.zones[z].index) && Listed(p, z, p.zones[z].index); }
    r := Settle(r, z, zone, p, c);
  }

  // ---------------------------------------------------------------------- the heap

  /** The page list after rt_system_heap_init, which takes the memusage table first. */
  method InitPages(lo: nat, n: nat, table: nat) returns (f: PageHeap.Heads)
    requires 0 < lo && 0 < table <= n
    ensures PageHeap.Repr(f, Taken(Given([], lo, n), table).0)
  {
    f := PageHeap.Free(PageHeap.Heads(0, map[], map[]), lo, n, [], lo);
    GivenIs([], lo, n, lo);
    var p;
    f, p := PageHeap.Alloc(f, table, Given([], lo, n), lo);
  }

  class SlabAllocator {
    var memory: Memory
    const lo: nat
    const hi: nat
    const zone: nat
    ghost var state: Slab

    ghost function Cfg(): Config {
      Config(lo, hi, zone, lo)
    }

    ghost predicate Valid()
      reads this
    {
      Repr(memory, state) && Inv(state, Cfg())
    }

    /** rt_system_heap_init over the pages start to end; the table is not cleared. */
    constructor (start: nat, end: nat, garbage: map<int, Usage>, zone: nat)
      requires 0 < start < end && end * PAGE < WORD && ZoneBytes(zone)
      requires forall p :: start <= p < end ==> p in garbage
      ensures Valid() && Cfg() == Config(start, end, zone, start) && state == Fresh(garbage, Cfg())
    {
      lo, hi, this.zone := start, end, zone;
      var f := InitPages(start, end - start, TablePages(end - start));
      memory := Memory(f, seq(NZONES, _ => 0), 0, 0, map[], map[], map[], garbage, 0, 0);
      state := Fresh(garbage, Config(start, end, zone, start));
      FreshInv(garbage, Config(start, end, zone, start));
    }

    method Malloc(n: nat) returns (a: Addr)
      requires Valid() && n < WORD
      modifies this
      ensures Valid() && state == SlabOps.Malloc(old(state), n, Cfg()).0
      ensures a == 0 <==> SlabOps.Malloc(old(state), n, Cfg()).1.None?
      ensures a != 0 ==> a !in old(state.live) && state.live == old(state.live)[a := Reserved(n, Cfg())]
      ensures a != 0 ==> n <= Reserved(n, Cfg()) && Clean(state, old(state.live), a, Reserved(n, Cfg()), Cfg())
    {
      memory, a := DoMalloc(memory, n, zone, state, Cfg());
      MallocReturns(state, n, Cfg());
      state := SlabOps.Malloc(state, n, Cfg()).0;
    }

    method Free(a: Addr)
      requires Valid() && (a == 0 || a in state.live)
      modifies this
      ensures Valid() && state == SlabOps.Free(old(state), a, Cfg())
      ensures state.live == old(state.live) - {a}
    {
      memory := DoFree(memory, a, zone, state, Cfg());
      FreeReturns(state, a, Cfg());
      state := SlabOps.Free(state, a, Cfg());
    }
  }
}
