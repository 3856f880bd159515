/** The allocator of src/slab.c in memory: zone headers, chunks and page heads hold
    the links, and each operation stores through them. */
module SlabMemory {
  import opened MachineWord
  import opened IpcList
  import opened Chains
  import opened PageList
  import PageRuns
  import PageHeap
  import opened ZoneSizes
  import opened SlabZone
  import opened SlabSpec
  import opened SlabPlace
  import opened SlabChunks

  const MAGIC: int := 0x51ab51ab

  /** slab_zone without z_next; `chunk` is z_freechunk. */
  datatype Header = Header(magic: int, index: nat, size: nat, base: Addr, nmax: nat, uindex: int, nfree: nat,
    chunk: Addr)

  /** `lists` and `spare` are the heads zone_array and zone_free, `count` is
      zone_free_cnt, `next` the z_next words and `chunkNext` the c_next words. */
  datatype Memory = Memory(heads: PageHeap.Heads, lists: seq<int>, spare: int, count: int, next: map<int, int>,
                           headers: map<int, Header>, chunkNext: map<int, int>, usage: map<int, Usage>,
                           used: int, peak: int)

  ghost predicate HeaderOk(m: Memory, z: int, x: Zone) {
    && z in m.headers
    && var h := m.headers[z];
       && h.magic == MAGIC && h.index == x.index && h.size == x.size && h.base == x.base && h.nmax == x.nmax
       && h.uindex == x.uindex && h.nfree == x.nfree && Chain(m.chunkNext, h.chunk, x.free)
  }

  ghost predicate Chained(next: map<int, int>, heads: seq<int>, lists: seq<seq<int>>) {
    |heads| == |lists| && forall i :: 0 <= i < |lists| ==> Chain(next, heads[i], lists[i])
  }

  ghost predicate ListsOk(m: Memory, s: Slab) {
    Chained(m.next, m.lists, s.lists)
  }

  ghost predicate SpareOk(m: Memory, s: Slab) {
    Chain(m.next, m.spare, s.spare) && m.count == |s.spare|
  }

  ghost predicate HeadersOk(m: Memory, s: Slab) {
    forall z :: z in s.zones ==> HeaderOk(m, z, s.zones[z])
  }

  ghost predicate Repr(m: Memory, s: Slab) {
    && PageHeap.Repr(m.heads, s.pages.free) && ListsOk(m, s) && SpareOk(m, s) && HeadersOk(m, s)
    && m.usage == s.usage && m.used == s.used && m.peak == s.peak
  }

  // ----------------------------------------------------------- which list a zone is on

  lemma OneList(s: Slab, z: int, i: nat, c: Config)
    requires ZonesOk(s, c) && i < |s.lists| && z in s.lists[i]
    ensures z in s.zones && s.zones[z].index == i && s.zones[z].nfree > 0 && z !in s.spare
    ensures forall k :: 0 <= k < |s.lists| && k != i ==> z !in s.lists[k]
  {
    assert ListOk(s, i) && Listed(s, z, i) && InZones(s, z, c);
    forall k | 0 <= k < |s.lists| && k != i ensures z !in s.lists[k] {
      assert ListOk(s, k);
      assert z in s.lists[k] <==> Listed(s, z, k);
    }
  }

  lemma NoList(s: Slab, z: int, c: Config)
    requires ZonesOk(s, c) && (z !in s.zones || s.zones[z].nfree == 0)
    ensures forall k :: 0 <= k < |s.lists| ==> z !in s.lists[k]
  {
    forall k | 0 <= k < |s.lists| ensures z !in s.lists[k] {
      assert ListOk(s, k);
      assert z in s.lists[k] <==> Listed(s, z, k);
    }
  }

  /** A store to z_next of a zone that is on at most list i. */
  lemma OtherLists(m: Memory, s: Slab, z: int, v: int, i: nat)
    requires ListsOk(m, s) && forall k :: 0 <= k < |s.lists| && k != i ==> z !in s.lists[k]
    ensures forall k :: 0 <= k < |s.lists| && k != i ==> Chain(m.next[z := v], m.lists[k], s.lists[k])
  {
    forall k | 0 <= k < |s.lists| && k != i ensures Chain(m.next[z := v], m.lists[k], s.lists[k]) {
      ChainFrame(m.next, m.lists[k], s.lists[k], z, v);
    }
  }

  // -------------------------------------------------------------------- page map

  /** The loops over the page map entries of a zone. */
  method MarkPages(usage: map<int, Usage>, z: int, n: nat, kind: Kind) returns (u: map<int, Usage>)
    requires forall p :: z <= p < z + n ==> p in usage
    ensures u == Mark(usage, z, n, kind)
  {
    u := usage;
    var off := 0;
    assert Mark(usage, z, 0, kind) == usage;
    while off < n
      invariant 0 <= off <= n && u == Mark(usage, z, off, kind)
    {
      u := u[z + off := Usage(kind, if kind.Small? then off else 0)];
      off := off + 1;
      assert u == Mark(usage, z, off, kind);
    }
  }

  function Count(m: Memory, n: nat): Memory {
    var u := (m.used + n) % WORD;
    m.(used := u, peak := if u > m.peak then u else m.peak)
  }

  // --------------------------------------------------------------------- chunks

  /** A chunk of the first zone on list i. */
  method CarveChunk(m: Memory, i: nat, ghost s: Slab, ghost c: Config) returns (r: Memory, a: Addr)
    requires Repr(m, s) && ZonesOk(s, c) && i < NZONES && CanCarve(s, i)
    ensures Repr(r, Carve(s, i).0) && a == Carve(s, i).1
  {
    var z := m.lists[i];
    ChainPop(m.next, z, s.lists[i]);
    assert z in s.zones && HeaderOk(m, z, s.zones[z]);
    var h;
    h, a := CarveHeader(m, z, s.zones[z]);
    var next, lists := LeaveList(m, z, i, h.nfree == 0, s, c);
    r := Count(m.(next := next, lists := lists, headers := m.headers[z := h]), h.size);
    NewHeader(m, r, z, s, Carve(s, i).0);
  }

  /** A zone without free chunks leaves its list. */
  method LeaveList(m: Memory, z: int, i: nat, full: bool, ghost s: Slab, ghost c: Config)
    returns (next: map<int, int>, lists: seq<int>)
    requires ListsOk(m, s) && SpareOk(m, s) && ZonesOk(s, c) && i < NZONES && s.lists[i] != [] && z == s.lists[i][0]
    requires z in m.next
    ensures Chained(next, lists, if full then s.lists[i := s.lists[i][1..]] else s.lists)
    ensures Chain(next, m.spare, s.spare)
  {
    next, lists := m.next, m.lists;
    if full {
      lists, next := lists[i := next[z]], next[z := 0];
    }
    PopList(m, s, z, i, c, full);
  }

  /** The next chunk of a zone: one never used before, or the first free one. */
  method CarveHeader(m: Memory, z: int, ghost x: Zone) returns (h: Header, a: Addr)
    requires HeaderOk(m, z, x) && x.nfree > 0 && (x.uindex + 1 == x.nmax ==> x.free != [])
    ensures HeaderOk(m.(headers := m.headers[z := h]), z, Carved(x).0) && a == Carved(x).1
  {
    h := m.headers[z].(nfree := m.headers[z].nfree - 1);
    if h.uindex + 1 != h.nmax {
      h := h.(uindex := h.uindex + 1);
      a := h.base + h.uindex * h.size;
    } else {
      ChainPop(m.chunkNext, h.chunk, x.free);
      a := h.chunk;
      h := h.(chunk := m.chunkNext[a]);
    }
  }

  /** The first zone of list i leaves it, or nothing changes. */
  lemma PopList(m: Memory, s: Slab, z: int, i: nat, c: Config, pop: bool)
    requires ListsOk(m, s) && SpareOk(m, s) && ZonesOk(s, c) && i < NZONES && s.lists[i] != [] && z == s.lists[i][0]
    requires z in m.next
    ensures var next := if pop then m.next[z := 0] else m.next;
      var lists := if pop then m.lists[i := m.next[z]] else m.lists;
      var abs := if pop then s.lists[i := s.lists[i][1..]] else s.lists;
      Chained(next, lists, abs) && Chain(next, m.spare, s.spare)
  {
    if pop {
      assert z in s.lists[i] && ListOk(s, i);
      OneList(s, z, i, c);
      OtherLists(m, s, z, 0, i);
      ChainPop(m.next, z, s.lists[i]);
      assert z !in s.lists[i][1..];
      ChainFrame(m.next, m.next[z], s.lists[i][1..], z, 0);
      ChainFrame(m.next, m.spare, s.spare, z, 0);
    }
  }

  /** A zone that is on no list goes to the front of list i. */
  lemma PushList(m: Memory, s: Slab, z: int, i: nat)
    requires ListsOk(m, s) && i < |s.lists| && z != 0 && forall k :: 0 <= k < |s.lists| ==> z !in s.lists[k]
    ensures Chained(m.next[z := m.lists[i]], m.lists[i := z], s.lists[i := [z] + s.lists[i]])
  {
    OtherLists(m, s, z, m.lists[i], i);
    ChainPush(m.next, m.lists[i], s.lists[i], z);
  }

  /** A chunk in use in zone z is on the free list of no zone. */
  lemma NotOnFreeLists(s: Slab, z: int, a: Addr, c: Config)
    requires Core(s, c) && z in s.zones && InUse(s.zones[z], a)
    ensures forall w :: w in s.zones ==> a !in s.zones[w].free
  {
    assert InZones(s, z, c);
    ChunkInside(z, s.zones[z], c, a);
    MapLeadsBack(s, z, c, a);
    forall w | w in s.zones && w != z ensures a !in s.zones[w].free {
      assert InZones(s, w, c);
      forall b | b in s.zones[w].free ensures b / PAGE in s.usage && ZoneOf(s, b) == w {
        ChunkInside(w, s.zones[w], c, b);
        MapLeadsBack(s, w, c, b);
      }
    }
  }

  /** The chunk at a goes to the front of the free list of its zone. */
  method PutChunk(m: Memory, z: int, a: Addr, ghost s: Slab, ghost c: Config) returns (r: Memory)
    requires Repr(m, s) && Core(s, c) && CanPut(s, z) && InUse(s.zones[z], a) && a != 0 && z != 0
    ensures Repr(r, Put(s, z, a))
  {
    assert HeaderOk(m, z, s.zones[z]);
    var h := m.headers[z];
    var next, lists := JoinList(m, z, h.index, h.nfree == 0, s, c);
    r := m.(chunkNext := m.chunkNext[a := h.chunk], headers := m.headers[z := h.(chunk := a, nfree := h.nfree + 1)],
            next := next, lists := lists, used := (m.used - h.size) % WORD);
    PutHeaders(m, r, z, a, s, c);
  }

  /** A zone that had no free chunk joins its list again. */
  method JoinList(m: Memory, z: int, i: nat, was: bool, ghost s: Slab, ghost c: Config)
    returns (next: map<int, int>, lists: seq<int>)
    requires ListsOk(m, s) && SpareOk(m, s) && ZonesOk(s, c) && z in s.zones && z != 0
    requires i == s.zones[z].index < |s.lists| && was == (s.zones[z].nfree == 0)
    ensures Chained(next, lists, if was then s.lists[i := [z] + s.lists[i]] else s.lists)
    ensures Chain(next, m.spare, s.spare)
  {
    next, lists := m.next, m.lists;
    if was {
      NoList(s, z, c);
      PushList(m, s, z, i);
      assert z !in s.spare by { assert InZones(s, z, c); }
      ChainFrame(m.next, m.spare, s.spare, z, lists[i]);
      next, lists := next[z := lists[i]], lists[i := z];
    }
  }

  lemma PutHeaders(m: Memory, r: Memory, z: int, a: Addr, s: Slab, c: Config)
    requires HeadersOk(m, s) && Core(s, c) && CanPut(s, z) && InUse(s.zones[z], a) && a != 0 && z in m.headers
    requires r.chunkNext == m.chunkNext[a := m.headers[z].chunk]
    requires r.headers == m.headers[z := m.headers[z].(chunk := a, nfree := m.headers[z].nfree + 1)]
    ensures HeadersOk(r, Put(s, z, a))
  {
    NotOnFreeLists(s, z, a, c);
    var t := Put(s, z, a);
    forall w | w in t.zones ensures HeaderOk(r, w, t.zones[w]) {
      assert HeaderOk(m, w, s.zones[w]);
      if w == z {
        ChainPush(m.chunkNext, m.headers[z].chunk, s.zones[z].free, a);
      } else {
        ChainFrame(m.chunkNext, m.headers[w].chunk, s.zones[w].free, a, m.headers[z].chunk);
      }
    }
  }

  // ---------------------------------------------------------------------- zones

  /** Laying out a zone and carving its first chunk, in one step. */
  lemma OpenCarved(s: Slab, i: nat, c: Config)
    requires |s.lists| == NZONES && s.spare != [] && i < NZONES && Served(c.zone, SizeOf(i))
    ensures Offset(SizeOf(i)) <= c.zone && CanCarve(OpenZone(s, i, c), i)
    ensures var z, size := s.spare[0], SizeOf(i);
      var n, at := Chunks(c.zone, size), z * PAGE + Offset(size);
      n >= 1 && Carve(OpenZone(s, i, c), i) ==
        (Counted(s.(spare := s.spare[1..], lists := s.lists[i := [z] + s.lists[i]],
                    zones := s.zones[z := Zone(i, size, at, n, 0, n - 1, [])], live := s.live[at := size]), size), at)
  {
    ChunksFit(c.zone, SizeOf(i));
    var z, x := s.spare[0], NewZone(s.spare[0], i, c);
    assert Carved(x).0.uindex == 0 && Carved(x).1 == x.base;
    assert s.zones[z := x][z := Carved(x).0] == s.zones[z := Carved(x).0];
  }

  /** A run of pages becomes a zone of index i, with its first chunk handed out.
      Before, s has the run at the front of its spare zones and m no longer does. */
  method FreshZone(m: Memory, z: int, i: nat, zone: nat, ghost s: Slab, ghost c: Config) returns (r: Memory, a: Addr)
    requires ZonesOk(s, c) && s.spare != [] && z == s.spare[0] && z != 0 && Repr(m, s.(spare := s.spare[1..]))
    requires i < NZONES && Served(c.zone, SizeOf(i)) && zone == c.zone
    ensures Offset(SizeOf(i)) <= c.zone && CanCarve(OpenZone(s, i, c), i)
    ensures Repr(r, Carve(OpenZone(s, i, c), i).0) && a == Carve(OpenZone(s, i, c), i).1
  {
    OpenCarved(s, i, c);
    ghost var t, u := s.(spare := s.spare[1..]), Carve(OpenZone(s, i, c), i).0;
    var size := SizeOf(i);
    var n := Chunks(zone, size);
    var h := Header(MAGIC, i, size, z * PAGE + Offset(size), n, 0, n - 1, 0);
    a := h.base + h.uindex * size;
    r := Count(m.(headers := m.headers[z := h], next := m.next[z := m.lists[i]], lists := m.lists[i := z]), size);
    FreshChains(m, z, i, s, c);
    NewHeader(m, r, z, t, u);
  }

  lemma FreshChains(m: Memory, z: int, i: nat, s: Slab, c: Config)
    requires ZonesOk(s, c) && s.spare != [] && z == s.spare[0] && z != 0 && i < NZONES
    requires Chained(m.next, m.lists, s.lists) && Chain(m.next, m.spare, s.spare[1..])
    ensures Chained(m.next[z := m.lists[i]], m.lists[i := z], s.lists[i := [z] + s.lists[i]])
    ensures Chain(m.next[z := m.lists[i]], m.spare, s.spare[1..])
  {
    assert z in s.spare && z !in s.spare[1..];
    NoList(s, z, c);
    PushList(m, s, z, i);
    ChainFrame(m.next, m.spare, s.spare[1..], z, m.lists[i]);
  }

  lemma NewHeader(m: Memory, r: Memory, z: int, s: Slab, u: Slab)
    requires HeadersOk(m, s) && r.chunkNext == m.chunkNext && z in u.zones && HeaderOk(r, z, u.zones[z])
    requires u.zones == s.zones[z := u.zones[z]] && forall w :: w in m.headers && w != z ==> w in r.headers
    requires forall w :: w in m.headers && w != z ==> r.headers[w] == m.headers[w]
    ensures HeadersOk(r, u)
  {
    forall w | w in u.zones ensures HeaderOk(r, w, u.zones[w]) {
      if w != z {
        assert HeaderOk(m, w, s.zones[w]);
      }
    }
  }

  /** A zone leaves its list for zone_free. */
  method RetireZone(m: Memory, z: int, ghost s: Slab, ghost c: Config) returns (r: Memory)
    requires Repr(m, s) && ZonesOk(s, c) && CanPut(s, z) && z in s.lists[s.zones[z].index] && z != 0
    ensures Repr(r, Retire(s, z))
  {
    assert HeaderOk(m, z, s.zones[z]);
    var i := m.headers[z].index;
    ghost var t := Retire(s, z);
    OneList(s, z, i, c);
    assert ListOk(s, i);
    var h, next := Unlink(m.next, m.lists[i], z, s.lists[i]);
    r := m.(lists := m.lists[i := h], next := next[z := m.spare], spare := z, count := m.count + 1,
            headers := m.headers[z := m.headers[z].(magic := -1)]);
    RetireChains(m, next, h, z, i, s, c);
    forall w | w in t.zones ensures HeaderOk(r, w, t.zones[w]) {
      assert HeaderOk(m, w, s.zones[w]);
    }
  }

  lemma RetireChains(m: Memory, next: map<int, int>, h: int, z: int, i: nat, s: Slab, c: Config)
    requires ListsOk(m, s) && SpareOk(m, s) && ZonesOk(s, c) && i < NZONES && z in s.lists[i] && z != 0
    requires Chain(next, h, Without(s.lists[i], z))
    requires forall y :: y !in s.lists[i] ==> (y in m.next <==> y in next) && (y in m.next ==> next[y] == m.next[y])
    ensures Chained(next[z := m.spare], m.lists[i := h], s.lists[i := Without(s.lists[i], z)])
    ensures Chain(next[z := m.spare], z, [z] + s.spare)
  {
    assert ListOk(s, i);
    WithoutIn(s.lists[i], z);
    ChainFrame(next, h, Without(s.lists[i], z), z, m.spare);
    forall k | 0 <= k < |s.lists| && k != i ensures Chain(next[z := m.spare], m.lists[k], s.lists[k]) {
      ListsDiffer(s, i, k, c);
      SegmentFrame(m.next, next, m.lists[k], s.lists[k], 0);
      ChainFrame(next, m.lists[k], s.lists[k], z, m.spare);
    }
    forall x | x in s.spare ensures x !in s.lists[i] {
      assert x in s.lists[i] <==> Listed(s, x, i);
    }
    SegmentFrame(m.next, next, m.spare, s.spare, 0);
    ChainPush(next, m.spare, s.spare, z);
  }

  lemma ListsDiffer(s: Slab, i: nat, k: nat, c: Config)
    requires ZonesOk(s, c) && i < NZONES && k < NZONES && i != k
    ensures forall x :: x in s.lists[k] ==> x !in s.lists[i]
  {
    forall x | x in s.lists[k] ensures x !in s.lists[i] {
      OneList(s, x, k, c);
    }
  }

  /** The spare zone that was put there last goes back to the page allocator. */
  method DropSpare(m: Memory, pages: nat, ghost s: Slab, ghost c: Config) returns (r: Memory)
    requires Repr(m, s) && Core(s, c) && s.spare != [] && pages == ZonePages(c)
    ensures s.spare[0] >= 0 && Repr(r, DropZone(s, c))
  {
    var z := m.spare;
    ChainPop(m.next, z, s.spare);
    assert z in s.spare && SpanOk(s, z, c);
    SpareRun(s, z, c);
    var u := MarkPages(m.usage, z, pages, Unused);
    var f := PageHeap.Free(m.heads, z, pages, s.pages.free, c.lo);
    r := m.(spare := m.next[z], count := m.count - 1, usage := u, heads := f);
    ghost var t := DropZone(s, c);
    forall w | w in t.zones ensures HeaderOk(r, w, t.zones[w]) {
      assert HeaderOk(m, w, s.zones[w]);
    }
  }

  lemma SpareRun(s: Slab, z: int, c: Config)
    requires Core(s, c) && z in s.spare
    ensures c.lo <= z && 0 < ZonePages(c) && Span(z, ZonePages(c)) !! Pages(s.pages.free)
    ensures forall p :: z <= p < z + ZonePages(c) ==> p in s.usage
    ensures Above(s.pages.free, c.lo) && 0 < c.lo
  {
    assert SpanOk(s, z, c);
    assert PageRuns.HeldOk(s.pages, z, c.lo, c.hi);
  }
}
