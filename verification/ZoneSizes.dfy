/** The size classes of src/slab.c: which zone serves a request, how large its
    chunks are, and where in the zone they start. */
module ZoneSizes {
  import opened Bits

  const NZONES: nat := 72
  const PAGE: nat := 4096
  /** sizeof(slab_zone) with 32-bit words. */
  const HEADER: nat := 36
  const MIN_ZONE: nat := 0x8000
  const MAX_ZONE: nat := 0x20000
  const ZONE_LIMIT: nat := 0x4000

  // ------------------------------------------------------------- zone and chunk

  /** zoneindex: the index, and the chunk size that replaces the request. */
  function ZoneIndex(n: nat): (nat, nat)
    requires 0 < n < ZONE_LIMIT
  {
    if n < 128 then var u := (n + 7) / 8 * 8; (u / 8 - 1, u)
    else if n < 256 then var u := (n + 15) / 16 * 16; (u / 16 + 7, u)
    else if n < 512 then var u := (n + 31) / 32 * 32; (u / 32 + 15, u)
    else if n < 1024 then var u := (n + 63) / 64 * 64; (u / 64 + 23, u)
    else if n < 2048 then var u := (n + 127) / 128 * 128; (u / 128 + 31, u)
    else if n < 4096 then var u := (n + 255) / 256 * 256; (u / 256 + 39, u)
    else if n < 8192 then var u := (n + 511) / 512 * 512; (u / 512 + 47, u)
    else var u := (n + 1023) / 1024 * 1024; (u / 1024 + 55, u)
  }

  /** The chunk size of zone i: sixteen multiples of 8, then eight sizes to each
      doubling. */
  function SizeOf(i: nat): nat
    requires i < NZONES
  {
    if i < 16 then 8 * (i + 1)
    else if i < 24 then 16 * (i - 7)
    else if i < 32 then 32 * (i - 15)
    else if i < 40 then 64 * (i - 23)
    else if i < 48 then 128 * (i - 31)
    else if i < 56 then 256 * (i - 39)
    else if i < 64 then 512 * (i - 47)
    else 1024 * (i - 55)
  }

  /** The sizes rise strictly, by 8 or by at most an eighth. */
  lemma SizeStep(i: nat)
    requires i + 1 < NZONES
    ensures SizeOf(i) < SizeOf(i + 1) <= SizeOf(i) + (if i < 15 then 8 else SizeOf(i) / 8)
  {
  }

  lemma {:induction false} SizeRises(i: nat, j: nat)
    requires i < j < NZONES
    ensures SizeOf(i) < SizeOf(j)
  {
    SizeStep(j - 1);
    if i < j - 1 {
      SizeRises(i, j - 1);
    }
  }

  /** zoneindex is the best fit: the smallest chunk size that holds the request. */
  lemma BestFit(n: nat, i: nat)
    requires 0 < n < ZONE_LIMIT && i < NZONES
    ensures ZoneIndex(n).0 < NZONES && ZoneIndex(n).1 == SizeOf(ZoneIndex(n).0)
    ensures n <= SizeOf(i) <==> ZoneIndex(n).0 <= i
  {
    FitHolds(n);
    var z := ZoneIndex(n).0;
    if z < i {
      SizeRises(z, i);
    } else if i < z {
      FitTight(n);
      if i < z - 1 {
        SizeRises(i, z - 1);
      }
    }
  }

  /** Each row of sizes starts where the one before it ends. */
  lemma Rows(k: nat)
    requires 8 <= k <= 16
    ensures SizeOf(k + 7) == 16 * k && SizeOf(k + 15) == 32 * k && SizeOf(k + 23) == 64 * k
    ensures SizeOf(k + 31) == 128 * k && SizeOf(k + 39) == 256 * k && SizeOf(k + 47) == 512 * k
    ensures SizeOf(k + 55) == 1024 * k
  {
  }

  lemma AtLeast(a: int, b: int, unit: nat)
    requires a <= b
    ensures a * unit <= b * unit
  {
  }

  /** Division undoes multiplication. */
  lemma Quotient(k: nat, r: nat, unit: nat)
    requires r < unit
    ensures (k * unit + r) / unit == k
  {
    var q, s := (k * unit + r) / unit, (k * unit + r) % unit;
    assert k * unit + r == q * unit + s;
    if q < k {
      AtLeast(q + 1, k, unit);
    } else if k < q {
      AtLeast(k + 1, q, unit);
    }
  }

  lemma Round(n: nat, k: nat, unit: nat)
    requires 0 < unit && k == (n + unit - 1) / unit && 8 * unit <= n < 16 * unit
    ensures 8 <= k <= 16 && n <= k * unit && k * unit / unit == k
  {
    var m := n + unit - 1;
    var r := m % unit;
    assert m == k * unit + r && r < unit;
    if k < 8 {
      AtLeast(k, 7, unit);
    } else if k > 16 {
      AtLeast(17, k, unit);
    }
    Quotient(k, 0, unit);
  }

  /** One row of zoneindex: eight sizes that are multiples of unit. */
  lemma FitRow(n: nat, k: nat, unit: nat, off: nat)
    requires 0 < unit && k == (n + unit - 1) / unit && 8 * unit <= n < 16 * unit && n < ZONE_LIMIT
    requires (unit == 16 && off == 7) || (unit == 32 && off == 15) || (unit == 64 && off == 23) ||
             (unit == 128 && off == 31) || (unit == 256 && off == 39) || (unit == 512 && off == 47) ||
             (unit == 1024 && off == 55)
    ensures ZoneIndex(n) == (k + off, k * unit) && k + off < NZONES && n <= k * unit == SizeOf(k + off)
  {
    Round(n, k, unit);
    Rows(k);
  }

  lemma FitHolds(n: nat)
    requires 0 < n < ZONE_LIMIT
    ensures ZoneIndex(n).0 < NZONES && n <= ZoneIndex(n).1 == SizeOf(ZoneIndex(n).0)
  {
    if n < 128 {
      assert 1 <= (n + 7) / 8 <= 16;
    } else if n < 256 {
      FitRow(n, (n + 15) / 16, 16, 7);
    } else if n < 512 {
      FitRow(n, (n + 31) / 32, 32, 15);
    } else if n < 1024 {
      FitRow(n, (n + 63) / 64, 64, 23);
    } else if n < 2048 {
      FitRow(n, (n + 127) / 128, 128, 31);
    } else if n < 4096 {
      FitRow(n, (n + 255) / 256, 256, 39);
    } else if n < 8192 {
      FitRow(n, (n + 511) / 512, 512, 47);
    } else if n < 16384 {
      FitRow(n, (n + 1023) / 1024, 1024, 55);
    }
  }

  lemma FitTight(n: nat)
    requires 0 < n < ZONE_LIMIT
    ensures 0 < ZoneIndex(n).0 < NZONES ==> SizeOf(ZoneIndex(n).0 - 1) < n
  {
  }

  /** Fragmentation is bounded: at most 7 bytes, or less than an eighth. */
  lemma Waste(n: nat)
    requires 0 < n < ZONE_LIMIT
    ensures var w := ZoneIndex(n).1 - n; 0 <= w && (if n < 128 then w < 8 else 8 * w < n)
  {
  }

  // ---------------------------------------------------------------- powers of two

  predicate IsPow2(n: nat) {
    n == 1 || (n > 0 && n % 2 == 0 && IsPow2(n / 2))
  }

  lemma {:induction false} OrSelf(n: nat)
    ensures Or(n, n) == n
  {
    if n > 0 {
      OrSelf(n / 2);
    }
  }

  /** The bit test of rt_malloc finds exactly the powers of two. */
  lemma {:induction false} PowerTest(n: nat)
    requires n > 0
    ensures Or(n, n - 1) + 1 == 2 * n <==> IsPow2(n)
  {
    if n % 2 == 0 {
      assert (n - 1) / 2 == n / 2 - 1;
      PowerTest(n / 2);
    } else {
      assert (n - 1) / 2 == n / 2;
      OrSelf(n / 2);
    }
  }

  lemma {:induction false} NoMask(m: nat)
    ensures AndNot(m, 0) == m
  {
    if m > 0 {
      NoMask(m / 2);
    }
  }

  lemma HalfDiv(m: nat, half: nat)
    requires half > 0
    ensures m / 2 / half == m / (2 * half)
  {
    var q, r := m / 2 / half, m / 2 % half;
    assert m / 2 == q * half + r;
    var s := 2 * r + m % 2;
    assert m == q * (2 * half) + s;
    Quotient(q, s, 2 * half);
  }

  /** Clearing the bits below a power of two rounds down to a multiple of it. */
  lemma {:induction false} MaskIs(m: nat, size: nat)
    requires IsPow2(size)
    ensures AndNot(m, size - 1) == m / size * size
    decreases size
  {
    if size == 1 {
      NoMask(m);
    } else {
      var half := size / 2;
      assert (size - 1) / 2 == half - 1;
      MaskIs(m / 2, half);
      HalfDiv(m, half);
    }
  }

  lemma {:induction false} PowerDivides(a: nat, b: nat)
    requires IsPow2(a) && IsPow2(b) && a <= b
    ensures b % a == 0
    decreases b
  {
    if a > 1 {
      var x, y := a / 2, b / 2;
      PowerDivides(x, y);
      var q := y / x;
      assert y == q * x;
      assert b == q * a;
      Quotient(q, 0, a);
    }
  }

  // ------------------------------------------------------------------ zone layout

  /** zone_size: 32K, doubled while the heap is more than 2048 times as large. */
  ghost predicate ZoneBytes(zone: nat) {
    zone == MIN_ZONE || zone == 2 * MIN_ZONE || zone == MAX_ZONE
  }

  /** The loop of rt_system_heap_init that settles zone_size: the smallest of the
      three that is not below half of the heap size in units of 1024, or the largest. */
  method ZoneSize(limsize: nat) returns (zone: nat)
    ensures ZoneBytes(zone)
    ensures zone < MAX_ZONE ==> limsize / 1024 <= 2 * zone
    ensures zone > MIN_ZONE ==> zone < limsize / 1024
  {
    zone := MIN_ZONE;
    while zone < MAX_ZONE && 2 * zone < limsize / 1024
      invariant ZoneBytes(zone)
      invariant zone > MIN_ZONE ==> zone < limsize / 1024
      decreases MAX_ZONE - zone
    {
      zone := 2 * zone;
    }
  }

  /** zone_limit: requests from here on are served in pages. */
  function Limit(zone: nat): nat {
    if zone / 4 > ZONE_LIMIT then ZONE_LIMIT else zone / 4
  }

  /** Where the chunks start: behind the header, and aligned to their size where it
      is a power of two. */
  function Offset(size: nat): nat
    requires size > 0
  {
    if Or(size, size - 1) + 1 == 2 * size then AndNot(HEADER + size - 1, size - 1) else AndNot(HEADER + 7, 7)
  }

  function Chunks(zone: nat, size: nat): nat
    requires size > 0 && Offset(size) <= zone
  {
    (zone - Offset(size)) / size
  }

  ghost predicate Served(zone: nat, size: nat) {
    ZoneBytes(zone) && 8 <= size <= Limit(zone) && size % 8 == 0
  }

  lemma RoundedUp(n: nat, unit: nat)
    requires unit > 0
    ensures n <= (n + unit - 1) / unit * unit <= n + unit - 1
  {
    var m := n + unit - 1;
    assert m == m / unit * unit + m % unit;
  }

  lemma OffsetCases(size: nat)
    requires size > 0
    ensures Offset(size) == if IsPow2(size) then (HEADER + size - 1) / size * size else 40
  {
    PowerTest(size);
    if IsPow2(size) {
      MaskIs(HEADER + size - 1, size);
    } else {
      var eight := 8;
      assert IsPow2(eight);
      MaskIs(HEADER + 7, eight);
    }
  }

  lemma Multiple(q: nat, size: nat)
    requires size > 0
    ensures q * size % size == 0
  {
    Quotient(q, 0, size);
    assert q * size == q * size / size * size + q * size % size;
  }

  lemma MultipleOf8(q: nat, size: nat)
    requires size % 8 == 0
    ensures q * size % 8 == 0
  {
    var e := size / 8;
    assert q * size == q * e * 8;
    Multiple(q * e, 8);
  }

  lemma RoundedTo(n: nat, size: nat)
    requires size >= 8 && size % 8 == 0
    ensures var u := (n + size - 1) / size * size; n <= u <= n + size - 1 && u % size == 0 && u % 8 == 0
  {
    var q := (n + size - 1) / size;
    RoundedUp(n, size);
    Multiple(q, size);
    MultipleOf8(q, size);
  }

  lemma OffsetIs(size: nat)
    requires size >= 8 && size % 8 == 0
    ensures HEADER <= Offset(size) <= HEADER + size - 1
    ensures IsPow2(size) ==> Offset(size) % size == 0
    ensures Offset(size) % 8 == 0
  {
    OffsetCases(size);
    RoundedTo(HEADER, size);
  }

  lemma TwoFit(room: nat, size: nat)
    requires 0 < size && 2 * size <= room
    ensures room / size >= 2 && room / size * size <= room
  {
    var n := room / size;
    assert room == n * size + room % size;
    if n < 2 {
      AtLeast(n, 1, size);
    }
  }

  /** Every zone holds its header and at least two chunks, one behind the other. */
  lemma ChunksFit(zone: nat, size: nat)
    requires Served(zone, size)
    ensures HEADER <= Offset(size) <= zone && Chunks(zone, size) >= 2
    ensures Offset(size) + Chunks(zone, size) * size <= zone
  {
    OffsetIs(size);
    TwoFit(zone - Offset(size), size);
  }

  lemma SizeBounds(i: nat)
    requires i < NZONES
    ensures 8 <= SizeOf(i) <= 16384 && SizeOf(i) % 8 == 0 && (i <= 63 ==> SizeOf(i) <= 8192)
  {
  }

  lemma RequestServed(zone: nat, n: nat)
    requires ZoneBytes(zone) && 0 < n < Limit(zone)
    ensures n < ZONE_LIMIT && Served(zone, ZoneIndex(n).1) && ZoneIndex(n).0 < NZONES
    ensures n <= ZoneIndex(n).1 == SizeOf(ZoneIndex(n).0)
  {
    var top := 63;
    BestFit(n, top);
    SizeBounds(ZoneIndex(n).0);
    SizeBounds(top);
    assert SizeOf(top) == 8192;
    FitHolds(n);
  }
}
