/** A run of pages moves between the page list and the allocator of src/slab.c,
    as a large block or as a zone: each step keeps the invariant. */
module SlabPages {
  import opened Options
  import opened RtList
  import opened PageList
  import opened PageRuns
  import opened ZoneSizes
  import opened SlabZone
  import opened SlabSpec
  import opened SlabPlace

  ghost predicate Off(o: int, m: nat, p: int, n: nat) {
    o + m <= p || p + n <= o
  }

  ghost predicate SameAt(s: Slab, r: Slab, o: int, p: int, n: nat) {
    o in s.pages.held && o in r.pages.held && r.pages.held[o] == s.pages.held[o] && Off(o, s.pages.held[o], p, n)
  }

  /** Only the run of n pages at p, its entries in the page map, and its place among
      the spare zones differ between s and r. */
  ghost predicate Elsewhere(s: Slab, r: Slab, p: int, n: nat) {
    && r.zones == s.zones && r.lists == s.lists && p !in s.zones
    && (forall o :: o in s.pages.held && o != p ==> SameAt(s, r, o, p, n))
    && (forall o :: o in r.pages.held && o != p ==> o in s.pages.held)
    && r.usage.Keys == s.usage.Keys
    && (forall q :: q in s.usage && !(p <= q < p + n) ==> r.usage[q] == s.usage[q])
    && (forall w :: w != p ==> (w in r.spare <==> w in s.spare))
  }

  lemma OtherSpan(s: Slab, r: Slab, z: int, p: int, n: nat, c: Config)
    requires Elsewhere(s, r, p, n) && SpanOk(s, z, c) && z != p
    ensures SpanOk(r, z, c)
  {
    assert SameAt(s, r, z, p, n);
    forall j: nat | j < ZonePages(c) ensures Marked(r, z, j) {
      assert Marked(s, z, j);
    }
  }

  lemma OtherLive(s: Slab, r: Slab, a: Addr, p: int, n: nat, c: Config)
    requires Core(s, c) && Elsewhere(s, r, p, n) && a in s.live && a / PAGE in s.usage && Owner(s, a) != p
    requires a in r.live && r.live[a] == s.live[a]
    ensures LiveAt(r, a, c)
  {
    HasHome(s, a, c);
    PageIn(Owner(s, a), s.pages.held[Owner(s, a)], a);
    assert LiveAt(s, a, c);
    SameLive(s, r, a, p, n, c);
  }

  lemma SameLive(s: Slab, r: Slab, a: Addr, p: int, n: nat, c: Config)
    requires Elsewhere(s, r, p, n) && a in s.live && LiveAt(s, a, c) && Owner(s, a) != p && Owner(s, a) in s.pages.held
    requires Owner(s, a) <= a / PAGE < Owner(s, a) + s.pages.held[Owner(s, a)]
    requires a in r.live && r.live[a] == s.live[a]
    ensures LiveAt(r, a, c)
  {
    assert SameAt(s, r, Owner(s, a), p, n);
    assert r.usage[a / PAGE] == s.usage[a / PAGE];
  }

  lemma OtherZones(s: Slab, r: Slab, p: int, n: nat, c: Config)
    requires ZonesOk(s, c) && Elsewhere(s, r, p, n) && Distinct(r.spare) && (p in r.spare ==> SpanOk(r, p, c))
    ensures ZonesOk(r, c)
  {
    forall z | z in r.zones ensures InZones(r, z, c) {
      assert InZones(s, z, c);
      OtherSpan(s, r, z, p, n, c);
    }
    forall z | z in r.spare ensures SpanOk(r, z, c) && z !in r.zones {
      if z != p {
        OtherSpan(s, r, z, p, n, c);
      }
    }
    forall i | 0 <= i < |r.lists| ensures ListOk(r, i) {
      assert ListOk(s, i);
      forall z ensures z in r.lists[i] <==> Listed(r, z, i) {
        assert z in s.lists[i] <==> Listed(s, z, i);
      }
    }
  }

  lemma OtherPages(s: Slab, r: Slab, p: int, n: nat, c: Config)
    requires PagesOk(s, c) && Elsewhere(s, r, p, n) && PageRuns.Inv(r.pages, c.lo, c.hi) && c.table in r.pages.held
    requires forall q :: q != p && q * PAGE in s.live ==> q * PAGE in r.live
    requires p in r.pages.held ==> Claimed(r, p, c)
    ensures PagesOk(r, c)
  {
    forall q | q in r.pages.held ensures Claimed(r, q, c) {
      if q != p {
        assert Claimed(s, q, c) && SameAt(s, r, q, p, n);
        assert HeldOk(s.pages, q, c.lo, c.hi);
      }
    }
  }

  lemma OtherChunks(s: Slab, r: Slab, c: Config)
    requires (forall z :: z in s.zones ==> ZoneLive(s, z)) && r.zones == s.zones
    requires forall z, a :: z in s.zones && InUse(s.zones[z], a) && a in s.live ==> a in r.live
    ensures forall z :: z in r.zones ==> ZoneLive(r, z)
  {
    forall z | z in r.zones ensures ZoneLive(r, z) {
      assert ZoneLive(s, z);
    }
  }

  // --------------------------------------------------------------- pages handed out

  /** What rt_page_alloc hands out touches no run that is held. */
  lemma TakenOff(s: Slab, n: nat, c: Config)
    requires PagesOk(s, c) && Taken(s.pages.free, n).1.Some?
    ensures var p := Taken(s.pages.free, n).1.value;
      && n > 0 && p !in s.pages.held && c.lo <= p && p + n <= c.hi
      && PageRuns.Inv(PageRuns.Next(s.pages, Take(n)), c.lo, c.hi)
      && forall o :: o in s.pages.held ==> Off(o, s.pages.held[o], p, n)
  {
    var h, p := PageRuns.Next(s.pages, Take(n)), Taken(s.pages.free, n).1.value;
    TakenIs(s.pages.free, n, c.lo);
    Handed(s.pages, h, p, n, c.lo, c.hi);
    assert HeldOk(h, p, c.lo, c.hi);
    forall o | o in s.pages.held ensures Off(o, s.pages.held[o], p, n) {
      assert HeldOk(h, o, c.lo, c.hi) && ApartOk(h, o, p);
      SpansApart(o, h.held[o], p, n);
    }
  }

  lemma NotInZones(s: Slab, p: int, c: Config)
    requires ZonesOk(s, c) && p !in s.pages.held
    ensures p !in s.zones && p !in s.spare
  {
    assert p in s.zones ==> InZones(s, p, c);
  }

  /** No live block lies in pages that are not held. */
  lemma NotLive(s: Slab, p: int, n: nat, a: Addr, c: Config)
    requires Core(s, c) && p * PAGE <= a < (p + n) * PAGE
    requires forall o :: o in s.pages.held ==> Off(o, s.pages.held[o], p, n)
    ensures a !in s.live
  {
    forall b | b in s.live ensures b < p * PAGE || (p + n) * PAGE <= b {
      HasHome(s, b, c);
      var o := Owner(s, b);
      assert Off(o, s.pages.held[o], p, n);
    }
  }

  lemma TakenElsewhere(s: Slab, r: Slab, p: int, n: nat)
    requires p !in s.pages.held && p !in s.zones && r.zones == s.zones && r.lists == s.lists
    requires forall o :: o in s.pages.held ==> Off(o, s.pages.held[o], p, n)
    requires r.pages.held.Keys == s.pages.held.Keys + {p}
    requires forall o :: o in s.pages.held ==> r.pages.held[o] == s.pages.held[o]
    requires r.usage.Keys == s.usage.Keys && forall q :: q in s.usage && !(p <= q < p + n) ==> r.usage[q] == s.usage[q]
    requires forall w :: w != p ==> (w in r.spare <==> w in s.spare)
    ensures Elsewhere(s, r, p, n)
  {
  }

  lemma TakeLargeKeeps(s: Slab, n: nat, c: Config)
    requires Core(s, c) && TakeLarge(s, n).1.Some?
    ensures Core(TakeLarge(s, n).0, c) && TakeLarge(s, n).1.value !in s.live
  {
    TakenOff(s, n, c);
    var p: int, r := Taken(s.pages.free, n).1.value, TakeLarge(s, n).0;
    var a := p * PAGE;
    assert a / PAGE == p;
    NotInZones(s, p, c);
    NotLive(s, p, n, a, c);
    TakenElsewhere(s, r, p, n);
    OtherZones(s, r, p, n, c);
    OtherPages(s, r, p, n, c);
    OtherChunks(s, r, c);
    LargeLives(s, r, a, p, n, c);
  }

  lemma LargeLives(s: Slab, r: Slab, a: Addr, p: int, n: nat, c: Config)
    requires Core(s, c) && Elsewhere(s, r, p, n) && a == p * PAGE && a / PAGE == p
    requires p in r.usage && r.usage[p] == Usage(Large, n) && p in r.pages.held && r.pages.held[p] == n
    requires p !in r.spare && p != c.table && p !in s.pages.held && r.live == s.live[a := n * PAGE]
    ensures forall b :: b in r.live ==> LiveAt(r, b, c)
  {
    forall b | b in r.live ensures LiveAt(r, b, c) {
      if b != a {
        HasHome(s, b, c);
        OtherLive(s, r, b, p, n, c);
      }
    }
  }

  lemma MarkIs(s: Slab, r: Slab, z: int, c: Config)
    requires ConfigOk(c) && r.usage == Mark(s.usage, z, ZonePages(c), Small)
    requires forall p :: z <= p < z + ZonePages(c) ==> p in s.usage
    requires z in r.pages.held && r.pages.held[z] == ZonePages(c) && z != c.table
    ensures SpanOk(r, z, c)
  {
    forall j: nat | j < ZonePages(c) ensures Marked(r, z, j) {
      assert z + j in s.usage;
    }
  }

  lemma GrabKeeps(s: Slab, c: Config)
    requires Core(s, c) && GrabZone(s, c).Some?
    ensures Core(GrabZone(s, c).value, c)
  {
    var n := ZonePages(c);
    TakenOff(s, n, c);
    var p: int, r := Taken(s.pages.free, n).1.value, GrabZone(s, c).value;
    NotInZones(s, p, c);
    TakenElsewhere(s, r, p, n);
    MarkIs(s, r, p, c);
    OtherZones(s, r, p, n, c);
    OtherPages(s, r, p, n, c);
    StayingLives(s, r, p, n, c);
  }

  /** Where no live block is touched, all of them stay what they were. */
  lemma StayingLives(s: Slab, r: Slab, p: int, n: nat, c: Config)
    requires Core(s, c) && Elsewhere(s, r, p, n) && r.live == s.live && (p !in s.pages.held || p in s.spare)
    ensures LivesOk(r, c)
  {
    OtherChunks(s, r, c);
    forall a | a in r.live ensures LiveAt(r, a, c) {
      HasHome(s, a, c);
      assert LiveAt(s, a, c);
      OtherLive(s, r, a, p, n, c);
    }
  }

  // --------------------------------------------------------------- pages given back

  lemma GivenElsewhere(s: Slab, r: Slab, p: int, c: Config)
    requires PagesOk(s, c) && p in s.pages.held && p !in s.zones && r.zones == s.zones && r.lists == s.lists
    requires r.pages.held == s.pages.held - {p}
    requires r.usage.Keys == s.usage.Keys
    requires forall q :: q in s.usage && !(p <= q < p + s.pages.held[p]) ==> r.usage[q] == s.usage[q]
    requires forall w :: w != p ==> (w in r.spare <==> w in s.spare)
    ensures Elsewhere(s, r, p, s.pages.held[p])
  {
    forall o | o in s.pages.held && o != p ensures SameAt(s, r, o, p, s.pages.held[p]) {
      RunsApart(s, o, p, c);
    }
  }

  lemma LargeIs(s: Slab, a: Addr, c: Config)
    requires Core(s, c) && a in s.live && a / PAGE in s.usage && s.usage[a / PAGE].kind == Large
    ensures var p := a / PAGE;
      && a == p * PAGE && p in s.pages.held && p !in s.zones && p !in s.spare && p != c.table
      && s.usage[p].size == s.pages.held[p] && s.live[a] == s.pages.held[p] * PAGE
  {
    assert LiveAt(s, a, c);
  }

  /** Freeing a large block leaves every other block where it was. */
  lemma GiveLives(s: Slab, r: Slab, a: Addr, c: Config)
    requires Core(s, c) && a in s.live && a / PAGE in s.usage && s.usage[a / PAGE].kind == Large
    requires a / PAGE in s.pages.held && Elsewhere(s, r, a / PAGE, s.pages.held[a / PAGE]) && r.live == s.live - {a}
    ensures LivesOk(r, c)
  {
    LargeIs(s, a, c);
    forall b | b in r.live ensures LiveAt(r, b, c) {
      HasHome(s, b, c);
      assert LiveAt(s, b, c);
      OtherLive(s, r, b, a / PAGE, s.pages.held[a / PAGE], c);
    }
    forall z, b | z in s.zones && InUse(s.zones[z], b) && b in s.live ensures b in r.live {
      if b == a {
        NotChunk(s, z, a, c);
      }
    }
    OtherChunks(s, r, c);
  }

  lemma GiveLargeKeeps(s: Slab, a: Addr, c: Config)
    requires Core(s, c) && a in s.live && a / PAGE in s.usage && s.usage[a / PAGE].kind == Large
    ensures a / PAGE in s.pages.held && Core(GiveLarge(s, a), c)
  {
    LargeIs(s, a, c);
    var p, r := a / PAGE, GiveLarge(s, a);
    var n := s.pages.held[p];
    GiveInv(s.pages, p, c.lo, c.hi);
    assert HeldOk(s.pages, p, c.lo, c.hi);
    GivenElsewhere(s, r, p, c);
    OtherZones(s, r, p, n, c);
    OtherPages(s, r, p, n, c);
    GiveLives(s, r, a, c);
  }

  /** A large block is not a chunk of any zone. */
  lemma NotChunk(s: Slab, z: int, a: Addr, c: Config)
    requires Core(s, c) && z in s.zones && InUse(s.zones[z], a)
    ensures a / PAGE in s.usage && s.usage[a / PAGE].kind == Small
  {
    assert InZones(s, z, c);
    ChunkInside(z, s.zones[z], c, a);
    MapLeadsBack(s, z, c, a);
  }

  lemma DropKeeps(s: Slab, c: Config)
    requires Core(s, c) && s.spare != []
    ensures s.spare[0] >= 0 && Core(DropZone(s, c), c)
  {
    var z, n := s.spare[0], ZonePages(c);
    assert z in s.spare && s.spare == [z] + s.spare[1..];
    assert SpanOk(s, z, c);
    var r := DropZone(s, c);
    assert forall k :: 0 <= k < |r.spare| ==> r.spare[k] == s.spare[k + 1];
    GiveInv(s.pages, z, c.lo, c.hi);
    GivenElsewhere(s, r, z, c);
    OtherZones(s, r, z, n, c);
    OtherPages(s, r, z, n, c);
    StayingLives(s, r, z, n, c);
  }
}
