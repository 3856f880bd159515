/** A chunk of src/slab.c leaves a zone or comes back, and a zone enters or leaves
    use: each step keeps the invariant. */
module SlabChunks {
  import opened RtList
  import opened IpcList
  import opened ZoneSizes
  import opened SlabZone
  import opened SlabSpec
  import opened SlabPlace

  // ------------------------------------------------------------ a chunk handed out

  /** The zone at the head of a list can serve a chunk. */
  lemma HeadServes(s: Slab, i: nat, c: Config)
    requires ZonesOk(s, c) && i < NZONES && s.lists[i] != []
    ensures CanCarve(s, i) && InZones(s, s.lists[i][0], c) && s.zones[s.lists[i][0]].index == i
  {
    var z := s.lists[i][0];
    assert ListOk(s, i) && z in s.lists[i];
    assert Listed(s, z, i) && InZones(s, z, c);
    CarvedIs(s.zones[z]);
  }

  /** A chunk that is about to be handed out is not live. */
  lemma NotYetLive(s: Slab, z: int, a: Addr, c: Config)
    requires Core(s, c) && z in s.zones && z * PAGE <= a < z * PAGE + c.zone && !InUse(s.zones[z], a)
    ensures a !in s.live
  {
    assert InZones(s, z, c);
    MapLeadsBack(s, z, c, a);
    assert a in s.live ==> LiveAt(s, a, c);
  }

  lemma CarvedPlace(z: int, x: Zone, c: Config)
    requires ZoneOk(z, x, c) && x.nfree > 0 && (x.uindex + 1 == x.nmax ==> x.free != [])
    ensures ZoneOk(z, Carved(x).0, c) && InUse(Carved(x).0, Carved(x).1) && !InUse(x, Carved(x).1)
    ensures z * PAGE <= Carved(x).1 < z * PAGE + c.zone
    ensures forall b :: b != Carved(x).1 ==> (InUse(Carved(x).0, b) <==> InUse(x, b))
  {
    CarvedIs(x);
    ChunkInside(z, Carved(x).0, c, Carved(x).1);
  }

  /** r differs from s only in one zone, in the lists and in what is live. */
  ghost predicate SamePages(s: Slab, r: Slab) {
    r.pages == s.pages && r.usage == s.usage && r.spare == s.spare && r.zones.Keys == s.zones.Keys
  }

  lemma SamePagesOk(s: Slab, r: Slab, c: Config)
    requires PagesOk(s, c) && SamePages(s, r)
    requires forall p :: p in s.usage && s.usage[p].kind == Large && p * PAGE in s.live ==> p * PAGE in r.live
    ensures PagesOk(r, c)
  {
    forall p | p in r.pages.held ensures Claimed(r, p, c) {
      assert Claimed(s, p, c);
    }
  }

  lemma SameSpan(s: Slab, r: Slab, z: int, c: Config)
    requires SpanOk(s, z, c) && r.pages == s.pages && r.usage == s.usage
    ensures SpanOk(r, z, c)
  {
    forall j: nat | j < ZonePages(c) ensures Marked(r, z, j) {
      assert Marked(s, z, j);
    }
  }

  /** One zone gets new contents, and the list of its index follows. */
  lemma ZonesUpdated(s: Slab, r: Slab, z: int, y: Zone, l: seq<int>, c: Config)
    requires ZonesOk(s, c) && SamePages(s, r) && z in s.zones && r.zones == s.zones[z := y]
    requires ZoneOk(z, y, c) && y.index == s.zones[z].index && r.lists == s.lists[y.index := l]
    requires Distinct(l) && forall w :: w in l <==> Listed(r, w, y.index)
    ensures ZonesOk(r, c)
  {
    forall w | w in r.zones ensures InZones(r, w, c) {
      assert InZones(s, w, c);
      SameSpan(s, r, w, c);
    }
    forall w | w in r.spare ensures SpanOk(r, w, c) && w !in r.zones {
      SameSpan(s, r, w, c);
    }
    forall i | 0 <= i < |r.lists| ensures ListOk(r, i) {
      if i != y.index {
        assert ListOk(s, i);
        forall w ensures w in r.lists[i] <==> Listed(r, w, i) {
          assert w in s.lists[i] <==> Listed(s, w, i);
        }
      }
    }
  }

  lemma CarveZones(s: Slab, i: nat, c: Config)
    requires ZonesOk(s, c) && i < NZONES && CanCarve(s, i)
    ensures ZonesOk(Carve(s, i).0, c)
  {
    HeadServes(s, i, c);
    var z, r := s.lists[i][0], Carve(s, i).0;
    var x, y := s.zones[z], r.zones[z];
    CarvedPlace(z, x, c);
    assert ListOk(s, i);
    var l := if y.nfree == 0 then s.lists[i][1..] else s.lists[i];
    assert s.lists[i] == [z] + s.lists[i][1..];
    forall w ensures w in l <==> Listed(r, w, i) {
      assert w in s.lists[i] <==> Listed(s, w, i);
    }
    assert r.lists == s.lists[i := l];
    ZonesUpdated(s, r, z, y, l, c);
  }

  /** A live block is unaffected when its zone, if any, still counts it in use. */
  lemma LiveStays(s: Slab, r: Slab, a: Addr, c: Config)
    requires a in s.live && LiveAt(s, a, c) && SamePages(s, r) && a in r.live && r.live[a] == s.live[a]
    requires forall z :: z in s.zones && InUse(s.zones[z], a) ==>
        InUse(r.zones[z], a) && r.zones[z].size == s.zones[z].size
    ensures LiveAt(r, a, c)
  {
  }

  lemma CarvedLive(s: Slab, i: nat, c: Config)
    requires Core(s, c) && i < NZONES && CanCarve(s, i)
    ensures LiveAt(Carve(s, i).0, Carve(s, i).1, c) && Carve(s, i).1 !in s.live
  {
    HeadServes(s, i, c);
    var z, a := s.lists[i][0], Carve(s, i).1;
    CarvedPlace(z, s.zones[z], c);
    NotYetLive(s, z, a, c);
    MapLeadsBack(s, z, c, a);
  }

  lemma CarveStays(s: Slab, i: nat, c: Config, b: Addr)
    requires Core(s, c) && i < NZONES && CanCarve(s, i) && b in s.live && b != Carve(s, i).1
    ensures LiveAt(Carve(s, i).0, b, c)
  {
    HeadServes(s, i, c);
    CarvedPlace(s.lists[i][0], s.zones[s.lists[i][0]], c);
    assert LiveAt(s, b, c);
    LiveStays(s, Carve(s, i).0, b, c);
  }

  lemma CarveLives(s: Slab, i: nat, c: Config)
    requires Core(s, c) && i < NZONES && CanCarve(s, i)
    ensures LivesOk(Carve(s, i).0, c) && Carve(s, i).1 !in s.live
  {
    var (r, a) := Carve(s, i);
    CarvedLive(s, i, c);
    forall b | b in r.live ensures LiveAt(r, b, c) {
      if b != a {
        CarveStays(s, i, c, b);
      }
    }
    CarveChunks(s, i, c);
  }

  lemma CarveChunks(s: Slab, i: nat, c: Config)
    requires Core(s, c) && i < NZONES && CanCarve(s, i)
    ensures var r := Carve(s, i).0; forall w :: w in r.zones ==> ZoneLive(r, w)
  {
    HeadServes(s, i, c);
    var z, r := s.lists[i][0], Carve(s, i).0;
    CarvedPlace(z, s.zones[z], c);
    forall w | w in r.zones ensures ZoneLive(r, w) {
      assert ZoneLive(s, w);
    }
  }

  lemma CarveKeeps(s: Slab, i: nat, c: Config)
    requires Core(s, c) && i < NZONES && s.lists[i] != []
    ensures CanCarve(s, i) && Core(Carve(s, i).0, c) && Carve(s, i).1 !in s.live
  {
    HeadServes(s, i, c);
    CarveZones(s, i, c);
    CarveLives(s, i, c);
    SamePagesOk(s, Carve(s, i).0, c);
  }

  // ------------------------------------------------------------- a chunk returned

  /** The page map leads from a live chunk to the zone that counts it in use. */
  lemma ChunkZone(s: Slab, a: Addr, c: Config)
    requires Core(s, c) && a in s.live && a / PAGE in s.usage && s.usage[a / PAGE].kind == Small
    ensures var z := ZoneOf(s, a);
      CanPut(s, z) && InZones(s, z, c) && InUse(s.zones[z], a) && s.live[a] == s.zones[z].size
  {
    assert LiveAt(s, a, c);
    assert InZones(s, ZoneOf(s, a), c);
  }

  lemma ReturnedOk(z: int, x: Zone, a: Addr, c: Config)
    requires ZoneOk(z, x, c) && InUse(x, a)
    ensures ZoneOk(z, Returned(x, a), c)
    ensures forall b :: InUse(Returned(x, a), b) <==> InUse(x, b) && b != a
  {
    ReturnedIs(x, a);
  }

  lemma PutZones(s: Slab, z: int, a: Addr, c: Config)
    requires ZonesOk(s, c) && CanPut(s, z) && InUse(s.zones[z], a)
    ensures ZonesOk(Put(s, z, a), c)
  {
    var r, x := Put(s, z, a), s.zones[z];
    var i, y := x.index, r.zones[z];
    assert InZones(s, z, c);
    ReturnedOk(z, x, a, c);
    assert ListOk(s, i);
    var l := if x.nfree == 0 then [z] + s.lists[i] else s.lists[i];
    assert x.nfree == 0 ==> z !in s.lists[i] by { assert z in s.lists[i] <==> Listed(s, z, i); }
    forall w ensures w in l <==> Listed(r, w, i) {
      assert w in s.lists[i] <==> Listed(s, w, i);
    }
    assert r.lists == s.lists[i := l];
    ZonesUpdated(s, r, z, y, l, c);
  }

  lemma PutLives(s: Slab, a: Addr, c: Config)
    requires Core(s, c) && a in s.live && a / PAGE in s.usage && s.usage[a / PAGE].kind == Small
    ensures CanPut(s, ZoneOf(s, a)) && LivesOk(Put(s, ZoneOf(s, a), a), c)
  {
    ChunkZone(s, a, c);
    var z := ZoneOf(s, a);
    var r := Put(s, z, a);
    ReturnedOk(z, s.zones[z], a, c);
    forall b | b in r.live ensures LiveAt(r, b, c) {
      assert LiveAt(s, b, c);
      LiveStays(s, r, b, c);
    }
    forall w | w in r.zones ensures ZoneLive(r, w) {
      assert ZoneLive(s, w);
      forall b | InUse(r.zones[w], b) ensures b in r.live {
        if b == a {
          OneZone(s, w, z, a, c);
        }
      }
    }
  }

  /** A chunk is in use in one zone only. */
  lemma OneZone(s: Slab, w: int, z: int, a: Addr, c: Config)
    requires Core(s, c) && w in s.zones && z in s.zones && InUse(s.zones[w], a) && InUse(s.zones[z], a)
    ensures w == z
  {
    assert InZones(s, w, c) && InZones(s, z, c);
    ChunkInside(w, s.zones[w], c, a);
    ChunkInside(z, s.zones[z], c, a);
    MapLeadsBack(s, w, c, a);
    MapLeadsBack(s, z, c, a);
  }

  lemma PutKeeps(s: Slab, a: Addr, c: Config)
    requires Core(s, c) && a in s.live && a / PAGE in s.usage && s.usage[a / PAGE].kind == Small
    ensures CanPut(s, ZoneOf(s, a)) && Core(Put(s, ZoneOf(s, a), a), c)
  {
    ChunkZone(s, a, c);
    PutZones(s, ZoneOf(s, a), a, c);
    PutLives(s, a, c);
    SamePagesOk(s, Put(s, ZoneOf(s, a), a), c);
  }

  // -------------------------------------------------- a zone enters or leaves use

  /** The zones that are in use and the spare ones change places; nothing else does. */
  ghost predicate SameMap(s: Slab, r: Slab) {
    && r.pages == s.pages && r.usage == s.usage && r.live == s.live
    && forall z :: z in r.zones || z in r.spare <==> z in s.zones || z in s.spare
  }

  lemma SameMapPages(s: Slab, r: Slab, c: Config)
    requires PagesOk(s, c) && SameMap(s, r)
    ensures PagesOk(r, c)
  {
    forall p | p in r.pages.held ensures Claimed(r, p, c) {
      assert Claimed(s, p, c);
      assert p in r.zones || p in r.spare <==> p in s.zones || p in s.spare;
    }
  }

  lemma SameMapLives(s: Slab, r: Slab, c: Config)
    requires (forall a :: a in s.live ==> LiveAt(s, a, c)) && SameMap(s, r)
    requires forall z, a :: z in s.zones && InUse(s.zones[z], a) ==> z in r.zones && r.zones[z] == s.zones[z]
    ensures forall a :: a in r.live ==> LiveAt(r, a, c)
  {
    forall a | a in r.live ensures LiveAt(r, a, c) {
      assert LiveAt(s, a, c);
      var p := a / PAGE;
      assert p in r.zones || p in r.spare <==> p in s.zones || p in s.spare;
    }
  }

  lemma OpenZones(s: Slab, i: nat, c: Config)
    requires ConfigOk(c) && ZonesOk(s, c) && i < NZONES && Served(c.zone, SizeOf(i)) && s.spare != []
    ensures Offset(SizeOf(i)) <= c.zone && ZonesOk(OpenZone(s, i, c), c)
  {
    ChunksFit(c.zone, SizeOf(i));
    var z, r := s.spare[0], OpenZone(s, i, c);
    assert z in s.spare && s.spare == [z] + s.spare[1..];
    assert forall k :: 0 <= k < |r.spare| ==> r.spare[k] == s.spare[k + 1];
    assert FreeOk(r.zones[z]);
    forall w | w in r.zones ensures InZones(r, w, c) {
      assert w != z ==> InZones(s, w, c);
      SameSpan(s, r, w, c);
    }
    forall w | w in r.spare ensures SpanOk(r, w, c) && w !in r.zones {
      SameSpan(s, r, w, c);
    }
    OpenLists(s, r, z, i, c);
  }

  lemma OpenLists(s: Slab, r: Slab, z: int, i: nat, c: Config)
    requires ZonesOk(s, c) && i < NZONES && z !in s.zones && r.lists == s.lists[i := [z] + s.lists[i]]
    requires z in r.zones && r.zones == s.zones[z := r.zones[z]] && r.zones[z].index == i && r.zones[z].nfree > 0
    ensures forall k :: 0 <= k < |r.lists| ==> ListOk(r, k)
  {
    forall k | 0 <= k < |r.lists| ensures ListOk(r, k) {
      assert ListOk(s, k);
      assert z in s.lists[k] <==> Listed(s, z, k);
      forall w ensures w in r.lists[k] <==> Listed(r, w, k) {
        assert w in s.lists[k] <==> Listed(s, w, k);
      }
    }
  }

  lemma OpenKeeps(s: Slab, i: nat, c: Config)
    requires Core(s, c) && i < NZONES && Served(c.zone, SizeOf(i)) && s.spare != []
    ensures Offset(SizeOf(i)) <= c.zone && Core(OpenZone(s, i, c), c)
  {
    OpenZones(s, i, c);
    var z, r := s.spare[0], OpenZone(s, i, c);
    assert s.spare == [z] + s.spare[1..] && z in s.spare;
    SameMapPages(s, r, c);
    SameMapLives(s, r, c);
    forall w | w in r.zones ensures ZoneLive(r, w) {
      assert w != z ==> ZoneLive(s, w);
    }
  }

  lemma RetireZones(s: Slab, z: int, c: Config)
    requires ZonesOk(s, c) && CanPut(s, z)
    ensures ZonesOk(Retire(s, z), c)
  {
    var r, i := Retire(s, z), s.zones[z].index;
    assert InZones(s, z, c) && ListOk(s, i);
    WithoutIn(s.lists[i], z);
    forall w | w in r.zones ensures InZones(r, w, c) {
      assert InZones(s, w, c);
      SameSpan(s, r, w, c);
    }
    forall w | w in r.spare ensures SpanOk(r, w, c) && w !in r.zones {
      SameSpan(s, r, w, c);
    }
    forall k | 0 <= k < |r.lists| ensures ListOk(r, k) {
      assert ListOk(s, k);
      forall w ensures w in r.lists[k] <==> Listed(r, w, k) {
        assert w in s.lists[k] <==> Listed(s, w, k);
      }
    }
  }

  lemma RetireKeeps(s: Slab, z: int, c: Config)
    requires Core(s, c) && CanPut(s, z) && s.zones[z].nfree == s.zones[z].nmax
    ensures Core(Retire(s, z), c)
  {
    RetireZones(s, z, c);
    var r := Retire(s, z);
    assert InZones(s, z, c);
    forall a ensures !InUse(s.zones[z], a) {
      if InUse(s.zones[z], a) {
        FullIsFree(s.zones[z], a);
      }
    }
    SameMapPages(s, r, c);
    SameMapLives(s, r, c);
    forall w | w in r.zones ensures ZoneLive(r, w) {
      assert ZoneLive(s, w);
    }
  }
}
