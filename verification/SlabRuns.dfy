/** Every run of rt_malloc and rt_free of src/slab.c from a fresh heap. */
module SlabRuns {
  import opened MachineWord
  import opened Options
  import opened PageList
  import PageRuns
  import opened Sums
  import opened ZoneSizes
  import opened SlabZone
  import opened SlabSpec
  import opened SlabPlace
  import opened SlabChunks
  import opened SlabPages
  import opened SlabOps

  datatype Event = Ask(n: nat) | Release(a: Addr)

  /** Sizes are 32-bit, and only live pointers or RT_NULL are freed. */
  predicate Legal(s: Slab, e: Event) {
    match e
    case Ask(n) => n < WORD
    case Release(a) => a == 0 || a in s.live
  }

  ghost function Next(s: Slab, e: Event, c: Config): Slab
    requires Core(s, c) && Legal(s, e)
  {
    match e
    case Ask(n) => Malloc(s, n, c).0
    case Release(a) => Free(s, a, c)
  }

  lemma StepInv(s: Slab, e: Event, c: Config)
    requires Inv(s, c) && Legal(s, e)
    ensures Inv(Next(s, e, c), c)
  {
    match e
    case Ask(n) => MallocReturns(s, n, c);
    case Release(a) => FreeReturns(s, a, c);
  }

  /** max_mem follows the highest use. */
  lemma StepPeak(s: Slab, e: Event, c: Config)
    requires Inv(s, c) && Legal(s, e)
    ensures var r := Next(s, e, c); r.peak == if r.used > s.peak then r.used else s.peak
  {
    StepInv(s, e, c);
    match e
    case Ask(n) => MallocHands(s, n, c);
    case Release(a) =>
      FreeReturns(s, a, c);
  }

  ghost predicate Runnable(s: Slab, es: seq<Event>, c: Config)
    requires Inv(s, c)
    decreases |es|
  {
    es == [] || (Legal(s, es[0]) && (StepInv(s, es[0], c); Runnable(Next(s, es[0], c), es[1..], c)))
  }

  ghost function Run(s: Slab, es: seq<Event>, c: Config): Slab
    requires Inv(s, c) && Runnable(s, es, c)
    decreases |es|
  {
    if es == [] then s else (StepInv(s, es[0], c); Run(Next(s, es[0], c), es[1..], c))
  }

  lemma {:induction false} RunInv(s: Slab, es: seq<Event>, c: Config)
    requires Inv(s, c) && Runnable(s, es, c)
    ensures Inv(Run(s, es, c), c)
    decreases |es|
  {
    if es != [] {
      StepInv(s, es[0], c);
      RunInv(Next(s, es[0], c), es[1..], c);
    }
  }

  // --------------------------------------------------------------- what Inv means

  /** After every run the page map leads rt_free from a live pointer to its large block
      or zone. */
  lemma RunMapFinds(s: Slab, es: seq<Event>, a: Addr, c: Config)
    requires Inv(s, c) && Runnable(s, es, c) && a in Run(s, es, c).live
    ensures var r, p := Run(s, es, c), a / PAGE;
      && p in r.usage && (r.usage[p].kind == Large || r.usage[p].kind == Small)
      && (r.usage[p].kind == Large ==> a % PAGE == 0 && p in r.pages.held && r.pages.held[p] == r.usage[p].size)
      && (r.usage[p].kind == Small ==> ZoneOf(r, a) in r.zones && InUse(r.zones[ZoneOf(r, a)], a))
  {
    RunInv(s, es, c);
    assert LiveAt(Run(s, es, c), a, c);
  }

  /** z_nfree, and the list a zone is on. */
  lemma ZoneCounts(s: Slab, z: int, c: Config)
    requires Inv(s, c) && z in s.zones
    ensures var x := s.zones[z];
      && x.nfree == (x.nmax - 1 - x.uindex) + |x.free| <= x.nmax
      && forall i, w :: 0 <= i < NZONES ==>
           (w in s.lists[i] <==> w in s.zones && s.zones[w].index == i && s.zones[w].nfree > 0)
  {
    assert InZones(s, z, c);
    FreeBound(s.zones[z]);
    forall i, w | 0 <= i < NZONES
      ensures w in s.lists[i] <==> w in s.zones && s.zones[w].index == i && s.zones[w].nfree > 0
    {
      assert ListOk(s, i);
      assert w in s.lists[i] <==> Listed(s, w, i);
    }
  }

  ghost predicate Covers(s: Slab, o: int, p: Page, c: Config) {
    o in s.pages.held && o <= p < o + s.pages.held[o] &&
    (o in s.zones || o in s.spare || o == c.table || o * PAGE in s.live)
  }

  /** No page is lost: each is free, or in one zone, spare zone, large block or the
      memusage table. */
  lemma PageAccounted(s: Slab, p: Page, c: Config)
    requires Inv(s, c) && c.lo <= p < c.hi
    ensures p in Pages(s.pages.free) || exists o :: Covers(s, o, p, c)
    ensures forall o, q :: Covers(s, o, p, c) && Covers(s, q, p, c) ==> o == q
    ensures p in Pages(s.pages.free) ==> forall o :: !Covers(s, o, p, c)
  {
    assert p in Span(c.lo, c.hi - c.lo);
    assert PageRuns.Accounted(s.pages, p);
    if p !in Pages(s.pages.free) {
      var o :| o in s.pages.held && Within(p, o, s.pages.held[o]);
      assert Claimed(s, o, c);
      assert Covers(s, o, p, c);
    }
    forall o, q | Covers(s, o, p, c) && Covers(s, q, p, c) ensures o == q {
      if o != q {
        RunsApart(s, o, q, c);
      }
    }
    forall o | Covers(s, o, p, c) ensures p !in Pages(s.pages.free) {
      assert PageRuns.HeldOk(s.pages, o, c.lo, c.hi);
      assert p in Span(o, s.pages.held[o]);
    }
  }

  /** A live block stays where it is, at its size, until it is freed. */
  lemma {:induction false} RunKeeps(s: Slab, es: seq<Event>, a: Addr, c: Config)
    requires Inv(s, c) && Runnable(s, es, c) && a in s.live && Release(a) !in es
    ensures a in Run(s, es, c).live && Run(s, es, c).live[a] == s.live[a]
    decreases |es|
  {
    if es != [] {
      var r := Next(s, es[0], c);
      assert Inv(r, c) by { StepInv(s, es[0], c); }
      assert a in r.live && r.live[a] == s.live[a] by { StepKeeps(s, es[0], a, c); }
      RunKeeps(r, es[1..], a, c);
    }
  }

  lemma StepKeeps(s: Slab, e: Event, a: Addr, c: Config)
    requires Inv(s, c) && Legal(s, e) && a in s.live && e != Release(a)
    ensures a in Next(s, e, c).live && Next(s, e, c).live[a] == s.live[a]
  {
    match e
    case Ask(n) => MallocReturns(s, n, c);
    case Release(b) => FreeReturns(s, b, c);
  }

  // ------------------------------------------------------------------ round trips

  lemma LargeBack(s: Slab, m: nat, c: Config)
    requires PagesOk(s, c) && TakeLarge(s, m).1.Some?
    ensures var (r, p) := TakeLarge(s, m);
      && p.value in r.live && p.value / PAGE in r.usage && r.usage[p.value / PAGE].kind == Large
      && p.value / PAGE in r.pages.held
      && GiveLarge(r, p.value).pages == s.pages && GiveLarge(r, p.value).zones == s.zones
  {
    var (r, p) := TakeLarge(s, m);
    var q: int := Taken(s.pages.free, m).1.value;
    TakeGive(s.pages.free, m, c.lo);
    TakenOff(s, m, c);
    assert p.value / PAGE == q;
    assert r.pages.held - {q} == s.pages.held;
  }

  /** Freeing a large block right away gives back the page list as it was. */
  lemma LargeRoundTrip(s: Slab, n: nat, c: Config)
    requires Inv(s, c) && Limit(c.zone) <= n < WORD && Malloc(s, n, c).1.Some?
    ensures var (r, p) := Malloc(s, n, c);
      && Core(r, c) && p.value in r.live
      && Free(r, p.value, c).pages == s.pages && Free(r, p.value, c).zones == s.zones
  {
    var (r, p) := Malloc(s, n, c);
    assert Inv(r, c) && p.value in r.live && p.value != 0 by {
      MallocReturns(s, n, c);
      ZeroNotLive(r, c);
    }
    LargeBack(s, LargePages(n), c);
  }

  /** Freeing any block right away leaves the same blocks live and the same total. */
  lemma RoundTrip(s: Slab, n: nat, c: Config)
    requires Inv(s, c) && n < WORD && Malloc(s, n, c).1.Some?
    ensures var (r, p) := Malloc(s, n, c);
      && Core(r, c) && p.value in r.live
      && var t := Free(r, p.value, c); t.live == s.live && t.used == s.used
  {
    var (r, p) := Malloc(s, n, c);
    assert Inv(r, c) && r.live == s.live[p.value := Reserved(n, c)] && p.value !in s.live by { MallocReturns(s, n, c); }
    TripBack(s, r, p.value, Reserved(n, c), c);
  }

  lemma TripBack(s: Slab, r: Slab, a: Addr, b: nat, c: Config)
    requires Inv(s, c) && Inv(r, c) && r.live == s.live[a := b] && a !in s.live
    ensures var t := Free(r, a, c); t.live == s.live && t.used == s.used
  {
    var t := Free(r, a, c);
    assert Inv(t, c) && t.live == r.live - {a} by { FreeReturns(r, a, c); }
    assert r.live - {a} == s.live;
    SameBytes(s, t, c);
  }

  lemma SameBytes(s: Slab, t: Slab, c: Config)
    requires Inv(s, c) && Inv(t, c) && s.live == t.live
    ensures s.used == t.used
  {
  }

  // ------------------------------------------------------------------ whole zones

  /** With the chunk back, the zone is the only one on its list. */
  ghost predicate Alone(s: Slab, z: int)
    requires CanPut(s, z)
  {
    var i := s.zones[z].index;
    s.lists[i] == if s.zones[z].nfree == 0 then [] else [z]
  }

  /** rt_free gives a zone up exactly when its last chunk came back and it is not the only
      zone on its list; then it is kept as a spare one, or, with two of those already, its
      pages go back to the page list. */
  lemma FreeRetires(s: Slab, a: Addr, c: Config)
    requires Inv(s, c) && a in s.live && a / PAGE in s.usage && s.usage[a / PAGE].kind == Small
    ensures CanPut(s, ZoneOf(s, a))
    ensures var z, r := ZoneOf(s, a), Free(s, a, c);
      var retires := s.zones[z].nfree + 1 == s.zones[z].nmax && !Alone(s, z);
      && r.zones.Keys == (if retires then s.zones.Keys - {z} else s.zones.Keys)
      && r.spare == (if retires && |s.spare| < THRESH then [z] + s.spare else s.spare)
      && r.pages.held == (if retires && |s.spare| == THRESH then s.pages.held - {z} else s.pages.held)
  {
    ChunkZone(s, a, c);
    ZeroNotLive(s, c);
    FreeIsChunk(s, a, c);
    ChunkRetires(s, ZoneOf(s, a), a, c);
  }

  lemma FreeIsChunk(s: Slab, a: Addr, c: Config)
    requires Core(s, c) && a in s.live && a != 0 && a / PAGE in s.usage && s.usage[a / PAGE].kind == Small
    ensures Free(s, a, c) == FreeChunk(s, a, c)
  {
  }

  lemma ChunkRetires(s: Slab, z: int, a: Addr, c: Config)
    requires Core(s, c) && |s.spare| <= THRESH
    requires a in s.live && a / PAGE in s.usage && s.usage[a / PAGE].kind == Small
    requires CanPut(s, z) && z == ZoneOf(s, a)
    ensures var r := FreeChunk(s, a, c);
      var retires := s.zones[z].nfree + 1 == s.zones[z].nmax && !Alone(s, z);
      && r.zones.Keys == (if retires then s.zones.Keys - {z} else s.zones.Keys)
      && r.spare == (if retires && |s.spare| < THRESH then [z] + s.spare else s.spare)
      && r.pages.held == (if retires && |s.spare| == THRESH then s.pages.held - {z} else s.pages.held)
  {
    PutAlone(s, z, a);
    assert ([z] + s.spare)[1..] == s.spare;
  }

  lemma PutAlone(s: Slab, z: int, a: Addr)
    requires CanPut(s, z)
    ensures var p := Put(s, z, a);
      && p.zones[z].nfree == s.zones[z].nfree + 1 && p.zones[z].nmax == s.zones[z].nmax
      && p.zones.Keys == s.zones.Keys && p.spare == s.spare && p.pages == s.pages
      && (p.lists[p.zones[z].index] == [z] <==> Alone(s, z))
  {
    var i := s.zones[z].index;
    if s.zones[z].nfree == 0 {
      assert [z] + s.lists[i] == [z] <==> s.lists[i] == [];
    }
  }

  // -------------------------------------------------------------------- alignment

  lemma SameResidue(a: int, b: int, k: int, size: nat)
    requires size > 0 && a == b + k * size
    ensures a % size == b % size
  {
    var q, r := b / size, b % size;
    assert b == q * size + r;
    assert a == (q + k) * size + r;
    Residue(q + k, r, size);
  }

  lemma Residue(q: int, r: nat, size: nat)
    requires r < size
    ensures (q * size + r) % size == r
  {
    var a := q * size + r;
    var p, s := a / size, a % size;
    assert a == p * size + s;
    if p < q {
      AtLeast(p + 1, q, size);
    } else if q < p {
      AtLeast(q + 1, p, size);
    }
  }

  lemma Shifted(start: int, off: nat, k: int, size: nat)
    requires size > 0 && off % size == 0
    ensures (start + off + k * size) % size == start % size
  {
    var q := off / size;
    assert off == q * size;
    assert start + off + k * size == start + (q + k) * size;
    SameResidue(start + off + k * size, start, q + k, size);
  }

  /** The offset of a chunk in its zone is a multiple of its size, where the size is a
      power of two. */
  lemma ChunkResidue(z: int, x: Zone, a: Addr, c: Config)
    requires ZoneOk(z, x, c) && InUse(x, a) && IsPow2(x.size)
    ensures a % x.size == (z * PAGE) % x.size
  {
    assert Offset(x.size) % x.size == 0 by { OffsetIs(x.size); }
    Shifted(z * PAGE, Offset(x.size), Rank(x, a), x.size);
  }

  /** The first page of the run that a request will be served from, read off the lists
      before the call; 0 where there is none. */
  ghost function From(s: Slab, n: nat, c: Config): int
    requires Core(s, c) && 0 < n
  {
    if n >= Limit(c.zone) then PageOf(Taken(s.pages.free, LargePages(n)).1)
    else
      RequestServed(c.zone, n);
      FromList(s, ZoneIndex(n).0, c)
  }

  ghost function FromList(s: Slab, i: nat, c: Config): int
    requires i < |s.lists|
  {
    if s.lists[i] != [] then s.lists[i][0]
    else if s.spare != [] then s.spare[0]
    else PageOf(Taken(s.pages.free, ZonePages(c)).1)
  }

  ghost function PageOf(p: Option<Page>): int {
    if p.Some? then p.value else 0
  }

  /** A chunk is carved from the zone at the head of its list. */
  lemma CarvedFrom(s: Slab, i: nat, c: Config)
    requires ZonesOk(s, c) && i < NZONES && s.lists[i] != [] && IsPow2(SizeOf(i))
    ensures CanCarve(s, i) && Carve(s, i).1 % SizeOf(i) == (s.lists[i][0] * PAGE) % SizeOf(i)
  {
    HeadServes(s, i, c);
    var z := s.lists[i][0];
    CarvedPlace(z, s.zones[z], c);
    ChunkResidue(z, Carved(s.zones[z]).0, Carved(s.zones[z]).1, c);
  }

  lemma OpenedFrom(s: Slab, i: nat, c: Config)
    requires Core(s, c) && i < NZONES && Served(c.zone, SizeOf(i)) && s.spare != [] && IsPow2(SizeOf(i))
    ensures Offset(SizeOf(i)) <= c.zone && CanCarve(OpenZone(s, i, c), i)
    ensures Carve(OpenZone(s, i, c), i).1 % SizeOf(i) == (s.spare[0] * PAGE) % SizeOf(i)
  {
    OpenKeeps(s, i, c);
    CarvedFrom(OpenZone(s, i, c), i, c);
  }

  lemma ZoneResidue(s: Slab, i: nat, c: Config)
    requires Core(s, c) && i < NZONES && Served(c.zone, SizeOf(i)) && IsPow2(SizeOf(i))
    ensures var p := FromZone(s, i, c).1;
      p.Some? ==> p.value % SizeOf(i) == (FromList(s, i, c) * PAGE) % SizeOf(i)
  {
    if s.lists[i] != [] {
      CarvedFrom(s, i, c);
    } else if s.spare != [] {
      OpenedFrom(s, i, c);
    } else if GrabZone(s, c).Some? {
      assert Core(GrabZone(s, c).value, c) by { GrabKeeps(s, c); }
      OpenedFrom(GrabZone(s, c).value, i, c);
    }
  }

  /** A block whose size is a power of two is aligned to it exactly when the run it will
      be served from is: the lowest run of free pages that is long enough, or the first
      zone of its list, or the first spare one. */
  lemma AlignedIff(s: Slab, n: nat, c: Config)
    requires Core(s, c) && 0 < n < WORD && Malloc(s, n, c).1.Some? && IsPow2(Reserved(n, c))
    ensures Malloc(s, n, c).1.value % Reserved(n, c) == 0 <==> (From(s, n, c) * PAGE) % Reserved(n, c) == 0
  {
    if n < Limit(c.zone) {
      RequestServed(c.zone, n);
      ZoneResidue(s, ZoneIndex(n).0, c);
    }
  }

  /** The free pages a request needs, where it needs any. */
  ghost function Wanted(s: Slab, n: nat, c: Config): nat
    requires Core(s, c) && 0 < n
  {
    if n >= Limit(c.zone) then LargePages(n)
    else
      RequestServed(c.zone, n);
      if s.lists[ZoneIndex(n).0] == [] && s.spare == [] then ZonePages(c) else 0
  }

  /** And then the run is the lowest one that is free and long enough. */
  lemma FromLowest(s: Slab, n: nat, c: Config, p: Page)
    requires Core(s, c) && 0 < n < WORD && Malloc(s, n, c).1.Some? && Wanted(s, n, c) > 0
    ensures From(s, n, c) >= 0 && Vacant(s.pages.free, From(s, n, c), Wanted(s, n, c))
    ensures Vacant(s.pages.free, p, Wanted(s, n, c)) ==> From(s, n, c) <= p
  {
    var m := Wanted(s, n, c);
    TakenIs(s.pages.free, m, c.lo);
    if Vacant(s.pages.free, p, m) {
      TakenLowest(s.pages.free, m, c.lo, p);
    }
  }

  /** Up to one page that is always so. */
  lemma SmallAligned(s: Slab, n: nat, c: Config)
    requires Core(s, c) && 0 < n < WORD && Malloc(s, n, c).1.Some? && IsPow2(Reserved(n, c)) && Reserved(n, c) <= PAGE
    ensures Malloc(s, n, c).1.value % Reserved(n, c) == 0
  {
    AlignedIff(s, n, c);
    PageMultiple(From(s, n, c), Reserved(n, c));
  }

  lemma PageMultiple(o: int, n: nat)
    requires IsPow2(n) && n <= PAGE
    ensures (o * PAGE) % n == 0
  {
    PagePower();
    PowerDivides(n, PAGE);
    var q := PAGE / n;
    assert PAGE == q * n;
    assert o * PAGE == o * q * n;
    SameResidue(o * PAGE, 0, o * q, n);
  }

  lemma PagePower()
    ensures IsPow2(PAGE)
  {
    var k, m := 64, 1024;
    assert IsPow2(k);
    assert IsPow2(m);
  }

  // ------------------------------------------------------------------- the start

  /** The pages of the memusage table: four bytes for each page of the heap. */
  function TablePages(n: nat): nat {
    (4 * n + PAGE - 1) / PAGE
  }

  /** After rt_system_heap_init, whatever the table held before. */
  ghost function Fresh(usage: map<int, Usage>, c: Config): Slab
    requires c.lo < c.hi
  {
    var n := c.hi - c.lo;
    var t := TablePages(n);
    Slab(PageRuns.Holding(Taken(Given([], c.lo, n), t).0, map[c.lo := t]), map[], seq(NZONES, _ => []), [],
         usage, map[], 0, 0)
  }

  lemma FreshPages(lo: nat, hi: nat, t: nat)
    requires 0 < lo < hi && 0 < t <= hi - lo
    ensures PageRuns.Inv(PageRuns.Holding(Taken(Given([], lo, hi - lo), t).0, map[lo := t]), lo, hi)
  {
    var h := PageRuns.Holding(Given([], lo, hi - lo), map[]);
    PageRuns.FreshInv(lo, hi);
    PageRuns.TakeInv(h, t, lo, hi);
    assert h.held[lo := t] == map[lo := t];
  }

  lemma {:induction false} NothingLive(lo: int, hi: int)
    ensures Sum(map[], lo, hi) == 0
    decreases hi - lo
  {
    if lo < hi {
      NothingLive(lo + 1, hi);
    }
  }

  lemma FreshInv(usage: map<int, Usage>, c: Config)
    requires ConfigOk(c) && c.lo < c.hi && c.table == c.lo && forall p :: c.lo <= p < c.hi ==> p in usage
    ensures Inv(Fresh(usage, c), c)
  {
    var s := Fresh(usage, c);
    FreshPages(c.lo, c.hi, TablePages(c.hi - c.lo));
    NothingLive(c.lo * PAGE, c.hi * PAGE);
    forall i | 0 <= i < |s.lists| ensures ListOk(s, i) {
      forall z ensures z in s.lists[i] <==> Listed(s, z, i) {
      }
    }
  }

  /** Above one page the promise of src/slab.c fails: on a heap that starts at an even
      page, the first block of 8192 bytes is not aligned to 8192. */
  lemma Misaligned(usage: map<int, Usage>, c: Config)
    requires c == Config(2, 1000, MIN_ZONE, 2) && forall p :: c.lo <= p < c.hi ==> p in usage
    ensures Inv(Fresh(usage, c), c)
    ensures var p := Malloc(Fresh(usage, c), 8192, c).1; p.Some? && p.value % 8192 == 4096
  {
    FreshInv(usage, c);
  }
}
