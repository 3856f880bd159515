/** The allocator of src/slab.c on values: large blocks in pages, small ones in
    zones of equal chunks, and the page map that leads rt_free back. */
module SlabSpec {
  import opened MachineWord
  import opened Options
  import opened RtList
  import opened IpcList
  import opened PageList
  import opened PageRuns
  import opened Sums
  import opened ZoneSizes
  import opened SlabZone

  /** ZONE_RELEASE_THRESH. */
  const THRESH: nat := 2

  datatype Kind = Unused | Small | Large

  /** struct memusage of one page. */
  datatype Usage = Usage(kind: Kind, size: nat)

  /** The pages lo to hi, zone_size, and the first page of the memusage table. */
  datatype Config = Config(lo: nat, hi: nat, zone: nat, table: Page)

  /** `zones` are the zones in use, `lists` and `spare` the lists zone_array and
      zone_free.  `live` is what callers hold, with the bytes reserved for each. */
  datatype Slab = Slab(pages: Holding, zones: map<int, Zone>, lists: seq<seq<int>>, spare: seq<int>,
                       usage: map<int, Usage>, live: map<int, nat>, used: int, peak: int)

  /** zone_page_cnt. */
  function ZonePages(c: Config): nat {
    c.zone / PAGE
  }

  // -------------------------------------------------------------- the invariant

  ghost predicate ConfigOk(c: Config) {
    0 < c.lo <= c.hi && c.hi * PAGE < WORD && ZoneBytes(c.zone)
  }

  ghost predicate Marked(s: Slab, z: int, j: nat) {
    z + j in s.usage && s.usage[z + j] == Usage(Small, j)
  }

  /** A run of pages set aside for a zone: the page map leads back to its start. */
  ghost predicate SpanOk(s: Slab, z: int, c: Config) {
    && z in s.pages.held && s.pages.held[z] == ZonePages(c) && z != c.table
    && forall j: nat :: j < ZonePages(c) ==> Marked(s, z, j)
  }

  ghost predicate ZoneOk(z: int, x: Zone, c: Config) {
    && x.index < NZONES && x.size == SizeOf(x.index) && Served(c.zone, x.size) && Offset(x.size) <= c.zone
    && x.base == z * PAGE + Offset(x.size) && x.nmax == Chunks(c.zone, x.size)
    && FreeOk(x)
  }

  ghost predicate InZones(s: Slab, z: int, c: Config)
    requires z in s.zones
  {
    SpanOk(s, z, c) && ZoneOk(z, s.zones[z], c) && z !in s.spare
  }

  /** zone_array[i] holds exactly the zones of index i with a free chunk. */
  ghost predicate ListOk(s: Slab, i: nat)
    requires i < |s.lists|
  {
    Distinct(s.lists[i]) && forall z :: z in s.lists[i] <==> Listed(s, z, i)
  }

  ghost predicate Listed(s: Slab, z: int, i: nat) {
    z in s.zones && s.zones[z].index == i && s.zones[z].nfree > 0
  }

  /** The zone that the page map gives for an address. */
  function ZoneOf(s: Slab, a: Addr): int
    requires a / PAGE in s.usage
  {
    a / PAGE - s.usage[a / PAGE].size
  }

  ghost predicate InUse(x: Zone, a: Addr) {
    x.size > 0 && Slot(x, a) && a !in x.free
  }

  ghost predicate ChunkAt(s: Slab, a: Addr)
    requires a in s.live && a / PAGE in s.usage
  {
    var z := ZoneOf(s, a);
    z in s.zones && InUse(s.zones[z], a) && s.live[a] == s.zones[z].size
  }

  ghost predicate LargeAt(s: Slab, a: Addr, c: Config)
    requires a in s.live && a / PAGE in s.usage
  {
    var p := a / PAGE;
    && a == p * PAGE && p in s.pages.held && p !in s.zones && p !in s.spare && p != c.table
    && s.usage[p].size == s.pages.held[p] && s.live[a] == s.pages.held[p] * PAGE
  }

  ghost predicate LiveAt(s: Slab, a: Addr, c: Config)
    requires a in s.live
  {
    && a / PAGE in s.usage
    && match s.usage[a / PAGE].kind
       case Unused => false
       case Small => ChunkAt(s, a)
       case Large => LargeAt(s, a, c)
  }

  ghost predicate ZoneLive(s: Slab, z: int)
    requires z in s.zones
  {
    forall a :: InUse(s.zones[z], a) ==> a in s.live
  }

  /** Every run of pages is a zone, a spare zone, the table or a live large block. */
  ghost predicate Claimed(s: Slab, p: int, c: Config) {
    p in s.zones || p in s.spare || p == c.table || (p * PAGE in s.live && p in s.usage && s.usage[p].kind == Large)
  }

  ghost predicate PagesOk(s: Slab, c: Config) {
    && PageRuns.Inv(s.pages, c.lo, c.hi) && c.table in s.pages.held
    && (forall p :: c.lo <= p < c.hi ==> p in s.usage)
    && (forall p :: p in s.pages.held ==> Claimed(s, p, c))
  }

  ghost predicate ZonesOk(s: Slab, c: Config) {
    && (forall z :: z in s.zones ==> InZones(s, z, c))
    && Distinct(s.spare)
    && (forall z :: z in s.spare ==> SpanOk(s, z, c) && z !in s.zones)
    && |s.lists| == NZONES
    && (forall i :: 0 <= i < |s.lists| ==> ListOk(s, i))
  }

  ghost predicate LivesOk(s: Slab, c: Config) {
    && (forall a :: a in s.live ==> LiveAt(s, a, c))
    && (forall z :: z in s.zones ==> ZoneLive(s, z))
  }

  ghost predicate Core(s: Slab, c: Config) {
    ConfigOk(c) && PagesOk(s, c) && ZonesOk(s, c) && LivesOk(s, c)
  }

  ghost function Bytes(s: Slab, c: Config): nat {
    Sum(s.live, c.lo * PAGE, c.hi * PAGE)
  }

  ghost predicate Inv(s: Slab, c: Config) {
    Core(s, c) && |s.spare| <= THRESH && s.used == Bytes(s, c) <= s.peak
  }

  // ----------------------------------------------------------------- primitives

  function Counted(s: Slab, n: nat): Slab {
    var u := (s.used + n) % WORD;
    s.(used := u, peak := if u > s.peak then u else s.peak)
  }

  /** A large block: n pages, with their number in the map entry of the first. */
  ghost function TakeLarge(s: Slab, n: nat): (Slab, Option<Addr>) {
    var (f, p) := Taken(s.pages.free, n);
    if p.None? then (s, None)
    else
      var r := s.(pages := Holding(f, s.pages.held[p.value := n]),
                  usage := s.usage[p.value := Usage(Large, n)],
                  live := s.live[p.value * PAGE := n * PAGE]);
      (Counted(r, n * PAGE), Some(p.value * PAGE))
  }

  ghost function GiveLarge(s: Slab, a: Addr): Slab
    requires a in s.live && a / PAGE in s.usage && a / PAGE in s.pages.held
  {
    var p := a / PAGE;
    var n := s.usage[p].size;
    s.(pages := Holding(Given(s.pages.free, p, n), s.pages.held - {p}),
       usage := s.usage[p := Usage(s.usage[p].kind, 0)],
       live := s.live - {a},
       used := (s.used - n * PAGE) % WORD)
  }

  /** The loops that write the page map of a zone. */
  function Mark(usage: map<int, Usage>, z: int, n: nat, kind: Kind): map<int, Usage> {
    map p | p in usage :: if z <= p < z + n then Usage(kind, if kind.Small? then p - z else 0) else usage[p]
  }

  /** Pages for a new zone, on the way to zone_array. */
  ghost function GrabZone(s: Slab, c: Config): Option<Slab> {
    var (f, p) := Taken(s.pages.free, ZonePages(c));
    if p.None? then None
    else Some(s.(pages := Holding(f, s.pages.held[p.value := ZonePages(c)]),
                 usage := Mark(s.usage, p.value, ZonePages(c), Small),
                 spare := [p.value as int] + s.spare))
  }

  /** A zone goes back to the page allocator. */
  ghost function DropZone(s: Slab, c: Config): Slab
    requires s.spare != [] && s.spare[0] >= 0
  {
    var z := s.spare[0];
    s.(pages := Holding(Given(s.pages.free, z, ZonePages(c)), s.pages.held - {z}),
       usage := Mark(s.usage, z, ZonePages(c), Unused),
       spare := s.spare[1..])
  }

  function NewZone(z: int, i: nat, c: Config): Zone
    requires i < NZONES && SizeOf(i) > 0 && Offset(SizeOf(i)) <= c.zone
  {
    var n := Chunks(c.zone, SizeOf(i));
    Zone(i, SizeOf(i), z * PAGE + Offset(SizeOf(i)), n, -1, n, [])
  }

  /** The first spare zone is laid out for chunks of index i. */
  ghost function OpenZone(s: Slab, i: nat, c: Config): Slab
    requires i < NZONES == |s.lists| && SizeOf(i) > 0 && Offset(SizeOf(i)) <= c.zone && s.spare != []
  {
    var z := s.spare[0];
    s.(spare := s.spare[1..], zones := s.zones[z := NewZone(z, i, c)], lists := s.lists[i := [z] + s.lists[i]])
  }

  ghost predicate CanCarve(s: Slab, i: nat) {
    && i < |s.lists| && s.lists[i] != [] && s.lists[i][0] in s.zones
    && var x := s.zones[s.lists[i][0]]; x.nfree > 0 && (x.uindex + 1 == x.nmax ==> x.free != [])
  }

  /** A chunk of the first zone of the list; a zone with no more leaves the list. */
  ghost function Carve(s: Slab, i: nat): (Slab, Addr)
    requires CanCarve(s, i)
  {
    var z := s.lists[i][0];
    var (x, a) := Carved(s.zones[z]);
    var r := s.(zones := s.zones[z := x],
                lists := if x.nfree == 0 then s.lists[i := s.lists[i][1..]] else s.lists,
                live := s.live[a := x.size]);
    (Counted(r, x.size), a)
  }

  ghost predicate CanPut(s: Slab, z: int) {
    z in s.zones && s.zones[z].index < |s.lists|
  }

  /** A chunk comes back; a zone that had none goes to the front of its list. */
  ghost function Put(s: Slab, z: int, a: Addr): Slab
    requires CanPut(s, z)
  {
    var x := s.zones[z];
    s.(zones := s.zones[z := Returned(x, a)],
       lists := if x.nfree == 0 then s.lists[x.index := [z] + s.lists[x.index]] else s.lists,
       live := s.live - {a},
       used := (s.used - x.size) % WORD)
  }

  /** A zone with no chunk in use moves to zone_free. */
  ghost function Retire(s: Slab, z: int): Slab
    requires CanPut(s, z)
  {
    var i := s.zones[z].index;
    s.(zones := s.zones - {z}, lists := s.lists[i := Without(s.lists[i], z)], spare := [z] + s.spare)
  }
}
