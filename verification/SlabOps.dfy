/** rt_malloc and rt_free of src/slab.c: what each returns, when each fails, and
    what every run of them keeps. */
module SlabOps {
  import opened MachineWord
  import opened Options
  import opened PageList
  import PageRuns
  import opened Sums
  import opened ZoneSizes
  import opened SlabZone
  import opened SlabSpec
  import opened SlabPlace
  import opened SlabChunks
  import opened SlabPages

  // ------------------------------------------------------------------ operations

  ghost function FromZone(s: Slab, i: nat, c: Config): (r: (Slab, Option<Addr>))
    requires Core(s, c) && i < NZONES && Served(c.zone, SizeOf(i))
  {
    if s.lists[i] != [] then
      CarveKeeps(s, i, c);
      var (r, a) := Carve(s, i); (r, Some(a))
    else if s.spare != [] then
      OpenKeeps(s, i, c);
      CarveKeeps(OpenZone(s, i, c), i, c);
      var (r, a) := Carve(OpenZone(s, i, c), i); (r, Some(a))
    else
      match GrabZone(s, c)
      case None => (s, None)
      case Some(g) =>
        GrabKeeps(s, c);
        OpenKeeps(g, i, c);
        CarveKeeps(OpenZone(g, i, c), i, c);
        var (r, a) := Carve(OpenZone(g, i, c), i); (r, Some(a))
  }

  /** The pages of a large request: RT_ALIGN wraps. */
  function LargePages(n: nat): nat {
    (n + PAGE - 1) % WORD / PAGE
  }

  /** rt_malloc. */
  ghost function Malloc(s: Slab, n: nat, c: Config): (Slab, Option<Addr>)
    requires Core(s, c)
  {
    if n == 0 then (s, None)
    else if n >= Limit(c.zone) then TakeLarge(s, LargePages(n))
    else
      RequestServed(c.zone, n);
      FromZone(s, ZoneIndex(n).0, c)
  }

  /** rt_free of a chunk: its zone may retire, and a third spare zone is dropped. */
  ghost function FreeChunk(s: Slab, a: Addr, c: Config): Slab
    requires Core(s, c) && a in s.live && a / PAGE in s.usage && s.usage[a / PAGE].kind == Small
  {
    var z := ZoneOf(s, a);
    PutKeeps(s, a, c);
    var p := Put(s, z, a);
    var x := p.zones[z];
    if x.nfree == x.nmax && p.lists[x.index] != [z] then
      var q := Retire(p, z);
      if |q.spare| > THRESH then DropZone(q, c) else q
    else p
  }

  /** rt_free of a pointer that rt_malloc returned, or of RT_NULL. */
  ghost function Free(s: Slab, a: Addr, c: Config): Slab
    requires Core(s, c) && (a == 0 || a in s.live)
  {
    if a == 0 then s
    else
      HasHome(s, a, c);
      if s.usage[a / PAGE].kind == Large then GiveLargeKeeps(s, a, c); GiveLarge(s, a)
      else (assert LiveAt(s, a, c); FreeChunk(s, a, c))
  }

  // ----------------------------------------------------------------- one request

  /** r is s with one more live block, of b bytes at a. */
  ghost predicate HandsOut(s: Slab, r: Slab, a: Addr, b: nat, c: Config) {
    Core(r, c) && a !in s.live && Counts(s, r, a, b)
  }

  ghost predicate Counts(s: Slab, r: Slab, a: Addr, b: nat) {
    && r.live == s.live[a := b] && |r.spare| <= |s.spare|
    && r.used == (s.used + b) % WORD && r.peak == if r.used > s.peak then r.used else s.peak
  }

  lemma CarveCounts(s: Slab, i: nat)
    requires CanCarve(s, i)
    ensures Counts(s, Carve(s, i).0, Carve(s, i).1, s.zones[s.lists[i][0]].size)
  {
  }

  lemma CarveHands(s: Slab, i: nat, c: Config)
    requires Core(s, c) && i < NZONES && s.lists[i] != []
    ensures CanCarve(s, i) && HandsOut(s, Carve(s, i).0, Carve(s, i).1, SizeOf(i), c)
  {
    CarveKeeps(s, i, c);
    CarveCounts(s, i);
    HeadServes(s, i, c);
  }

  lemma OpenHands(s: Slab, i: nat, c: Config)
    requires Core(s, c) && i < NZONES && Served(c.zone, SizeOf(i)) && s.spare != []
    ensures Offset(SizeOf(i)) <= c.zone && CanCarve(OpenZone(s, i, c), i)
    ensures var (r, a) := Carve(OpenZone(s, i, c), i);
      HandsOut(s, r, a, SizeOf(i), c) && |r.spare| == |s.spare| - 1
  {
    OpenKeeps(s, i, c);
    var g := OpenZone(s, i, c);
    OpenCounts(s, i, c);
    CarveHands(g, i, c);
    CarveSpare(g, i);
    HandsFrom(s, g, Carve(g, i).0, Carve(g, i).1, SizeOf(i), c);
  }

  lemma OpenCounts(s: Slab, i: nat, c: Config)
    requires i < NZONES == |s.lists| && SizeOf(i) > 0 && s.spare != [] && Offset(SizeOf(i)) <= c.zone
    ensures var g := OpenZone(s, i, c);
      && g.live == s.live && g.used == s.used && g.peak == s.peak && |g.spare| == |s.spare| - 1
      && g.lists[i] != []
  {
  }

  lemma CarveSpare(s: Slab, i: nat)
    requires CanCarve(s, i)
    ensures Carve(s, i).0.spare == s.spare
  {
  }

  lemma GrabHands(s: Slab, i: nat, c: Config)
    requires Core(s, c) && i < NZONES && Served(c.zone, SizeOf(i)) && GrabZone(s, c).Some?
    ensures var g := GrabZone(s, c).value;
      && Core(g, c) && g.spare != [] && Offset(SizeOf(i)) <= c.zone && CanCarve(OpenZone(g, i, c), i)
      && HandsOut(s, Carve(OpenZone(g, i, c), i).0, Carve(OpenZone(g, i, c), i).1, SizeOf(i), c)
  {
    var g := GrabZone(s, c).value;
    assert Core(g, c) by { GrabKeeps(s, c); }
    OpenHands(g, i, c);
    HandsFrom(s, g, Carve(OpenZone(g, i, c), i).0, Carve(OpenZone(g, i, c), i).1, SizeOf(i), c);
  }

  lemma HandsFrom(s: Slab, g: Slab, r: Slab, a: Addr, b: nat, c: Config)
    requires HandsOut(g, r, a, b, c) && g.live == s.live && g.used == s.used && g.peak == s.peak
    requires |r.spare| <= |s.spare|
    ensures HandsOut(s, r, a, b, c)
  {
  }

  /** A small request fails exactly when its list and zone_free are empty and no run
      of zone_page_cnt free pages is left. */
  lemma FromZoneIs(s: Slab, i: nat, c: Config)
    requires Core(s, c) && i < NZONES && Served(c.zone, SizeOf(i))
    ensures var (r, p) := FromZone(s, i, c);
      && (p.None? ==> r == s)
      && (p.None? <==> s.lists[i] == [] && s.spare == [] && Taken(s.pages.free, ZonePages(c)).1.None?)
      && (p.Some? ==> HandsOut(s, r, p.value, SizeOf(i), c))
  {
    if s.lists[i] != [] {
      CarveHands(s, i, c);
    } else if s.spare != [] {
      OpenHands(s, i, c);
    } else if GrabZone(s, c).Some? {
      GrabHands(s, i, c);
    }
  }

  lemma LargeIsPages(n: nat)
    requires 0 < n < WORD
    ensures n + PAGE - 1 < WORD ==> n <= LargePages(n) * PAGE < n + PAGE
    ensures n + PAGE - 1 >= WORD ==> LargePages(n) == 0
  {
  }

  /** The bytes set aside for a request. */
  function Reserved(n: nat, c: Config): nat
    requires ZoneBytes(c.zone)
  {
    if n == 0 then 0 else if n >= Limit(c.zone) then LargePages(n) * PAGE else ZoneIndex(n).1
  }

  lemma TakeLargeHands(s: Slab, n: nat, c: Config)
    requires Core(s, c)
    ensures var (r, p) := TakeLarge(s, n);
      && (p.None? ==> r == s)
      && (p.Some? ==> HandsOut(s, r, p.value, n * PAGE, c))
  {
    if TakeLarge(s, n).1.Some? {
      TakeLargeKeeps(s, n, c);
      LargeCounts(s, n);
    }
  }

  lemma LargeCounts(s: Slab, n: nat)
    requires TakeLarge(s, n).1.Some?
    ensures Counts(s, TakeLarge(s, n).0, TakeLarge(s, n).1.value, n * PAGE)
  {
  }

  lemma MallocHands(s: Slab, n: nat, c: Config)
    requires Core(s, c)
    ensures var (r, p) := Malloc(s, n, c);
      && (p.None? ==> r == s)
      && (p.Some? ==> HandsOut(s, r, p.value, Reserved(n, c), c))
  {
    if n >= Limit(c.zone) {
      TakeLargeHands(s, LargePages(n), c);
    } else if n > 0 {
      RequestServed(c.zone, n);
      FromZoneIs(s, ZoneIndex(n).0, c);
    }
  }

  /** A run of n free pages exists. */
  ghost predicate HasRun(l: seq<Run>, n: nat) {
    n > 0 && exists p: nat :: Vacant(l, p, n)
  }

  lemma TakenIff(l: seq<Run>, n: nat, lo: nat)
    requires Above(l, lo)
    ensures Taken(l, n).1.Some? <==> HasRun(l, n)
  {
    TakenIs(l, n, lo);
    if HasRun(l, n) {
      var p: nat :| Vacant(l, p, n);
      TakenLowest(l, n, lo, p);
    }
  }

  /** rt_malloc returns RT_NULL exactly when the size is zero, when rounding a large
      size up to pages wraps, or when the pages it would need are not free. */
  lemma MallocFailsIff(s: Slab, n: nat, c: Config)
    requires Core(s, c) && n < WORD
    ensures Malloc(s, n, c).1.None? <==>
      if n == 0 then true
      else if n >= Limit(c.zone) then n + PAGE - 1 >= WORD || !HasRun(s.pages.free, LargePages(n))
      else
        var i := ZoneIndex(n).0;
        i < NZONES && s.lists[i] == [] && s.spare == [] && !HasRun(s.pages.free, ZonePages(c))
  {
    if n >= Limit(c.zone) {
      LargeIsPages(n);
      TakenIff(s.pages.free, LargePages(n), c.lo);
    } else if n > 0 {
      RequestServed(c.zone, n);
      FromZoneIs(s, ZoneIndex(n).0, c);
      TakenIff(s.pages.free, ZonePages(c), c.lo);
    }
  }

  lemma NewTotal(live: map<int, nat>, used: int, a: Addr, b: nat, lo: int, hi: int)
    requires a !in live && lo <= a < hi && used == Sum(live, lo, hi) && Sum(live[a := b], lo, hi) < WORD
    ensures (used + b) % WORD == Sum(live[a := b], lo, hi)
  {
    SumAdd(live, a, b, lo, hi);
  }

  lemma HandsTotal(s: Slab, r: Slab, a: Addr, b: nat, c: Config)
    requires HandsOut(s, r, a, b, c) && s.used == Bytes(s, c)
    ensures r.used == Bytes(r, c)
  {
    var lo, hi := c.lo * PAGE, c.hi * PAGE;
    assert lo <= a < hi by { LiveInHeap(r, a, c); }
    assert Bytes(r, c) < WORD by { BytesFit(r, c); }
    NewTotal(s.live, s.used, a, b, lo, hi);
  }

  lemma HandsInv(s: Slab, r: Slab, a: Addr, b: nat, c: Config)
    requires Inv(s, c) && HandsOut(s, r, a, b, c)
    ensures Inv(r, c)
  {
    HandsTotal(s, r, a, b, c);
  }

  /** A block of b bytes at a: in the heap, clear of the blocks of live and of every
      zone header. */
  ghost predicate Clean(r: Slab, live: map<int, nat>, a: Addr, b: nat, c: Config) {
    && c.lo * PAGE <= a && a + b <= c.hi * PAGE
    && (forall x :: x in live ==> x + live[x] <= a || a + b <= x)
    && (forall z :: z in r.zones ==> a + b <= z * PAGE || z * PAGE + HEADER <= a)
  }

  lemma HandsClean(s: Slab, r: Slab, a: Addr, b: nat, c: Config)
    requires HandsOut(s, r, a, b, c)
    ensures Clean(r, s.live, a, b, c)
  {
    LiveInHeap(r, a, c);
    forall x | x in s.live ensures x + s.live[x] <= a || a + b <= x {
      BothLive(r, x, a, c);
    }
    forall z | z in r.zones ensures a + b <= z * PAGE || z * PAGE + HEADER <= a {
      HeadersApart(r, a, z, c);
    }
  }

  lemma BothLive(s: Slab, a: Addr, b: Addr, c: Config)
    requires Core(s, c) && a in s.live && b in s.live && a != b
    ensures a + s.live[a] <= b || b + s.live[b] <= a
  {
    if a < b {
      LivesApart(s, a, b, c);
    } else {
      LivesApart(s, b, a, c);
    }
  }

  /** What rt_malloc returns: room for the request, in the heap, clear of every live
      block and of every zone header; or nothing, and then nothing has changed. */
  lemma MallocReturns(s: Slab, n: nat, c: Config)
    requires Inv(s, c) && n < WORD
    ensures var (r, p) := Malloc(s, n, c);
      && Inv(r, c)
      && (p.None? ==> r == s)
      && (p.Some? ==>
            var b := Reserved(n, c);
            n <= b && r.live == s.live[p.value := b] && p.value !in s.live && Clean(r, s.live, p.value, b, c))
  {
    MallocHands(s, n, c);
    var (r, p) := Malloc(s, n, c);
    if p.Some? {
      Delivered(s, r, p.value, n, c);
    }
  }

  lemma Delivered(s: Slab, r: Slab, a: Addr, n: nat, c: Config)
    requires Inv(s, c) && n < WORD && HandsOut(s, r, a, Reserved(n, c), c)
    ensures Inv(r, c) && n <= Reserved(n, c) && Clean(r, s.live, a, Reserved(n, c), c)
  {
    HandsInv(s, r, a, Reserved(n, c), c);
    HandsClean(s, r, a, Reserved(n, c), c);
    LiveInHeap(r, a, c);
    ReservedHolds(n, c);
  }

  lemma ReservedHolds(n: nat, c: Config)
    requires ZoneBytes(c.zone) && n < WORD
    ensures Reserved(n, c) > 0 ==> n <= Reserved(n, c)
  {
    if n >= Limit(c.zone) {
      LargeIsPages(n);
    } else if n > 0 {
      RequestServed(c.zone, n);
    }
  }

  // -------------------------------------------------------------------- one return

  /** r is s without the live block at a. */
  ghost predicate TakesBack(s: Slab, r: Slab, a: Addr, c: Config)
    requires a in s.live
  {
    && Core(r, c) && r.live == s.live - {a} && (|s.spare| <= THRESH ==> |r.spare| <= THRESH)
    && r.used == (s.used - s.live[a]) % WORD && r.peak == s.peak
  }

  lemma PutBack(s: Slab, a: Addr, c: Config)
    requires Core(s, c) && a in s.live && a / PAGE in s.usage && s.usage[a / PAGE].kind == Small
    ensures CanPut(s, ZoneOf(s, a)) && TakesBack(s, Put(s, ZoneOf(s, a), a), a, c)
  {
    PutKeeps(s, a, c);
    ChunkZone(s, a, c);
  }

  lemma RetireBack(s: Slab, p: Slab, z: int, a: Addr, c: Config)
    requires a in s.live && TakesBack(s, p, a, c) && CanPut(p, z) && p.zones[z].nfree == p.zones[z].nmax
    requires p.spare == s.spare
    ensures var q := Retire(p, z);
      && q.spare != [] && q.spare[0] >= 0
      && TakesBack(s, if |q.spare| > THRESH then DropZone(q, c) else q, a, c)
  {
    RetireKeeps(p, z, c);
    DropKeeps(Retire(p, z), c);
  }

  lemma FreeChunkIs(s: Slab, a: Addr, c: Config)
    requires Core(s, c) && a in s.live && a / PAGE in s.usage && s.usage[a / PAGE].kind == Small
    ensures TakesBack(s, FreeChunk(s, a, c), a, c)
  {
    PutBack(s, a, c);
    var z := ZoneOf(s, a);
    var p := Put(s, z, a);
    if p.zones[z].nfree == p.zones[z].nmax && p.lists[p.zones[z].index] != [z] {
      RetireBack(s, p, z, a, c);
    }
  }

  lemma GiveBack(s: Slab, a: Addr, c: Config)
    requires Core(s, c) && a in s.live && a / PAGE in s.usage && s.usage[a / PAGE].kind == Large
    ensures a / PAGE in s.pages.held && TakesBack(s, GiveLarge(s, a), a, c)
  {
    GiveLargeKeeps(s, a, c);
    LargeIs(s, a, c);
  }

  lemma FreeIs(s: Slab, a: Addr, c: Config)
    requires Core(s, c) && a in s.live && a != 0
    ensures TakesBack(s, Free(s, a, c), a, c)
  {
    HasHome(s, a, c);
    assert LiveAt(s, a, c);
    if s.usage[a / PAGE].kind == Large {
      GiveBack(s, a, c);
    } else {
      FreeChunkIs(s, a, c);
    }
  }

  lemma BackTotal(s: Slab, r: Slab, a: Addr, c: Config)
    requires Core(s, c) && a in s.live && TakesBack(s, r, a, c) && s.used == Bytes(s, c)
    ensures r.used == Bytes(r, c) <= s.used
  {
    assert c.lo * PAGE <= a < c.hi * PAGE by { LiveInHeap(s, a, c); }
    assert Bytes(s, c) < WORD by { BytesFit(s, c); }
    OldTotal(s.live, s.used, a, c.lo * PAGE, c.hi * PAGE);
  }

  lemma OldTotal(live: map<int, nat>, used: int, a: Addr, lo: int, hi: int)
    requires a in live && lo <= a < hi && used == Sum(live, lo, hi) < WORD
    ensures (used - live[a]) % WORD == Sum(live - {a}, lo, hi) <= used
  {
    SumRemove(live, a, lo, hi);
  }

  /** rt_free takes back exactly the block at a. */
  lemma FreeReturns(s: Slab, a: Addr, c: Config)
    requires Inv(s, c) && (a == 0 || a in s.live)
    ensures Inv(Free(s, a, c), c)
    ensures Free(s, a, c).live == s.live - {a} && Free(s, a, c).peak == s.peak
  {
    if a == 0 {
      ZeroNotLive(s, c);
      assert s.live - {a} == s.live;
    } else {
      FreeIs(s, a, c);
      BackTotal(s, Free(s, a, c), a, c);
    }
  }

  lemma ZeroNotLive(s: Slab, c: Config)
    requires Core(s, c)
    ensures 0 !in s.live
  {
    forall a | a in s.live ensures a > 0 {
      LiveInHeap(s, a, c);
    }
  }
}
