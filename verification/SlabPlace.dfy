/** Where the live blocks of src/slab.c lie: each inside its own run of pages,
    found again through the page map, clear of every other and of the headers. */
module SlabPlace {
  import opened MachineWord
  import opened PageList
  import opened PageRuns
  import opened Sums
  import opened ZoneSizes
  import opened SlabZone
  import opened SlabSpec

  lemma ZonePagesIs(c: Config)
    requires ConfigOk(c)
    ensures 0 < ZonePages(c) && ZonePages(c) * PAGE == c.zone
  {
  }

  lemma Row(k: int, n: nat, size: nat)
    requires 0 <= k < n
    ensures 0 <= k * size && k * size + size <= n * size
  {
    AtLeast(0, k, size);
    AtLeast(k + 1, n, size);
    assert (k + 1) * size == k * size + size;
  }

  /** Chunk k of a zone lies behind the header and inside the zone. */
  lemma ChunkInside(z: int, x: Zone, c: Config, a: Addr)
    requires ZoneOk(z, x, c) && Slot(x, a)
    ensures z * PAGE + HEADER <= a && a + x.size <= z * PAGE + c.zone
  {
    assert HEADER <= Offset(x.size) && Offset(x.size) + x.nmax * x.size <= c.zone by { ChunksFit(c.zone, x.size); }
    Row(Rank(x, a), x.nmax, x.size);
  }

  lemma PageIn(z: int, n: nat, a: Addr)
    requires z * PAGE <= a < (z + n) * PAGE
    ensures z <= a / PAGE < z + n
  {
  }

  /** Any address inside a zone leads to the zone. */
  lemma MapLeadsBack(s: Slab, z: int, c: Config, a: Addr)
    requires ConfigOk(c) && SpanOk(s, z, c) && z * PAGE <= a < z * PAGE + c.zone
    ensures a / PAGE in s.usage && s.usage[a / PAGE].kind == Small && ZoneOf(s, a) == z
  {
    ZonePagesIs(c);
    PageIn(z, ZonePages(c), a);
    assert Marked(s, z, a / PAGE - z);
  }

  /** The first page of the run a block lies in. */
  ghost function Owner(s: Slab, a: Addr): int
    requires a / PAGE in s.usage
  {
    if s.usage[a / PAGE].kind == Small then ZoneOf(s, a) else a / PAGE
  }

  ghost predicate Home(s: Slab, a: Addr, o: int)
    requires a in s.live
  {
    && o in s.pages.held && 0 < s.live[a]
    && o * PAGE <= a && a + s.live[a] <= (o + s.pages.held[o]) * PAGE
  }

  lemma HasHome(s: Slab, a: Addr, c: Config)
    requires Core(s, c) && a in s.live
    ensures a / PAGE in s.usage && Home(s, a, Owner(s, a))
  {
    assert LiveAt(s, a, c);
    var o := Owner(s, a);
    if s.usage[a / PAGE].kind == Small {
      assert InZones(s, o, c);
      ChunkInside(o, s.zones[o], c, a);
      ZonePagesIs(c);
    } else {
      assert HeldOk(s.pages, o, c.lo, c.hi);
    }
  }

  lemma SpansApart(a: Page, n: nat, b: Page, m: nat)
    requires n > 0 && m > 0 && Span(a, n) !! Span(b, m)
    ensures a + n <= b || b + m <= a
  {
    assert a in Span(a, n) && b in Span(b, m);
    assert b < a + n && a <= b ==> b in Span(a, n);
    assert a < b + m && b <= a ==> a in Span(b, m);
  }

  lemma RunsApart(s: Slab, o: int, p: int, c: Config)
    requires PagesOk(s, c) && o in s.pages.held && p in s.pages.held && o != p
    ensures o + s.pages.held[o] <= p || p + s.pages.held[p] <= o
  {
    assert HeldOk(s.pages, o, c.lo, c.hi) && HeldOk(s.pages, p, c.lo, c.hi) && ApartOk(s.pages, o, p);
    SpansApart(o, s.pages.held[o], p, s.pages.held[p]);
  }

  lemma RanksApart(x: Zone, a: Addr, b: Addr)
    requires x.size > 0 && Slot(x, a) && Slot(x, b) && a < b
    ensures a + x.size <= b
  {
    var j, k := Rank(x, a), Rank(x, b);
    if j >= k {
      AtLeast(k, j, x.size);
    } else {
      AtLeast(j + 1, k, x.size);
      assert (j + 1) * x.size == j * x.size + x.size;
    }
  }

  /** Blocks in the same run are chunks of one zone. */
  lemma SameOwner(s: Slab, a: Addr, b: Addr, c: Config)
    requires Core(s, c) && a in s.live && b in s.live && a < b
    requires a / PAGE in s.usage && b / PAGE in s.usage && Owner(s, a) == Owner(s, b)
    ensures a + s.live[a] <= b
  {
    assert LiveAt(s, a, c) && LiveAt(s, b, c);
    if s.usage[a / PAGE].kind == Small && s.usage[b / PAGE].kind == Small {
      RanksApart(s.zones[Owner(s, a)], a, b);
    }
  }

  /** No live block overlaps another. */
  lemma LivesApart(s: Slab, a: Addr, b: Addr, c: Config)
    requires Core(s, c) && a in s.live && b in s.live && a < b
    ensures a + s.live[a] <= b
  {
    HasHome(s, a, c);
    HasHome(s, b, c);
    var o, p := Owner(s, a), Owner(s, b);
    if o == p {
      SameOwner(s, a, b, c);
    } else {
      RunsApart(s, o, p, c);
      Ordered(o, s.pages.held[o], p, s.pages.held[p], a, s.live[a], b, s.live[b]);
    }
  }

  lemma Ordered(o: int, n: nat, p: int, m: nat, a: int, x: nat, b: int, y: nat)
    requires o * PAGE <= a && a + x <= (o + n) * PAGE && p * PAGE <= b && b + y <= (p + m) * PAGE
    requires a < b && y > 0 && (o + n <= p || p + m <= o)
    ensures a + x <= b
  {
  }

  /** No live block overlaps the header of a zone in use. */
  lemma HeadersApart(s: Slab, a: Addr, z: int, c: Config)
    requires Core(s, c) && a in s.live && z in s.zones
    ensures a + s.live[a] <= z * PAGE || z * PAGE + HEADER <= a
  {
    HasHome(s, a, c);
    assert LiveAt(s, a, c) && InZones(s, z, c);
    var o := Owner(s, a);
    ZonePagesIs(c);
    if o == z {
      assert s.usage[a / PAGE].kind == Small;
      ChunkInside(z, s.zones[z], c, a);
    } else {
      RunsApart(s, o, z, c);
    }
  }

  /** The blocks in use never add up to more than the heap. */
  lemma BytesFit(s: Slab, c: Config)
    requires Core(s, c)
    ensures Bytes(s, c) <= (c.hi - c.lo) * PAGE < WORD
  {
    var lo, hi := c.lo * PAGE, c.hi * PAGE;
    forall a | lo <= a < hi ensures Clear(s.live, a, hi) {
      if a in s.live {
        LiveInHeap(s, a, c);
        forall b | b in s.live && a < b ensures a + s.live[a] <= b {
          LivesApart(s, a, b, c);
        }
      }
    }
    SumFits(s.live, lo, hi);
  }

  lemma LiveInHeap(s: Slab, a: Addr, c: Config)
    requires Core(s, c) && a in s.live
    ensures c.lo * PAGE <= a && 0 < s.live[a] && a + s.live[a] <= c.hi * PAGE
  {
    HasHome(s, a, c);
    assert HeldOk(s.pages, Owner(s, a), c.lo, c.hi);
  }
}
