/** The arithmetic of slab zones: chunk sizes, zone numbers and the layout of a zone. */
module SlabZones {
  import opened Bits

  const PAGE := 4096
  const NZONES := 72
  const ZONE_HEADER := 36
  const ZONE_LIMIT := 16384

  function RoundUp(n: nat, unit: nat): nat
    requires unit > 0
  {
    (n + unit - 1) / unit * unit
  }

  /** The size a request is rounded to. */
  function Chunk(n: nat): nat {
    if n < 128 then (n + 7) / 8 * 8 else if n < 256 then (n + 15) / 16 * 16 else if n < 512 then (n + 31) / 32 * 32
    else if n < 1024 then (n + 63) / 64 * 64 else if n < 2048 then (n + 127) / 128 * 128 else if n < 4096
       then (n + 255) / 256 * 256
    else if n < 8192 then (n + 511) / 512 * 512 else (n + 1023) / 1024 * 1024
  }

  /** The zone number of a request. */
  function ZoneIndex(n: nat): int {
    var c := Chunk(n);
    if n < 128 then c / 8 - 1 else if n < 256 then c / 16 + 7 else if n < 512 then c / 32 + 15 else if n < 1024
      then c / 64 + 23
    else if n < 2048 then c / 128 + 31 else if n < 4096 then c / 256 + 39 else if n < 8192 then c / 512 + 47
       else c / 1024 + 55
  }

  /** The chunk size of a zone number. */
  function ChunkOf(i: nat): nat {
    if i < 16 then 8 * (i + 1) else if i < 24 then 16 * (i - 7) else if i < 32 then 32 * (i - 15) else if i < 40
      then 64 * (i - 23)
    else if i < 48 then 128 * (i - 31) else if i < 56 then 256 * (i - 39) else if i < 64 then 512 * (i - 47)
       else if i < 72 then 1024 * (i - 55) else 0
  }

  lemma {:induction false} FitsBelow512(n: nat)
    requires 0 < n < 512
    ensures 0 <= ZoneIndex(n) < 32 && Chunk(n) == ChunkOf(ZoneIndex(n)) && n <= Chunk(n)
    ensures ZoneIndex(n) > 0 ==> ChunkOf(ZoneIndex(n) - 1) < n
  {
  }

  lemma {:induction false} FitsBelow2048(n: nat)
    requires 512 <= n < 2048
    ensures 31 <= ZoneIndex(n) < 48 && Chunk(n) == ChunkOf(ZoneIndex(n)) && n <= Chunk(n)
    ensures ChunkOf(ZoneIndex(n) - 1) < n
  {
  }

  lemma {:induction false} FitsFrom2048(n: nat)
    requires 2048 <= n < ZONE_LIMIT
    ensures 47 <= ZoneIndex(n) < NZONES && Chunk(n) == ChunkOf(ZoneIndex(n)) && n <= Chunk(n)
    ensures ChunkOf(ZoneIndex(n) - 1) < n
  {
  }

  /** The chunk size depends on the zone number alone, holds the request, and no smaller zone
      would do. */
  lemma {:induction false} ZoneIndexFits(n: nat)
    requires 0 < n < ZONE_LIMIT
    ensures 0 <= ZoneIndex(n) < NZONES && Chunk(n) == ChunkOf(ZoneIndex(n)) && n <= Chunk(n)
    ensures ZoneIndex(n) > 0 ==> ChunkOf(ZoneIndex(n) - 1) < n
  {
    if n < 512 { FitsBelow512(n); } else if n < 2048 { FitsBelow2048(n); } else { FitsFrom2048(n); }
  }

  lemma {:induction false} ChunksIncrease(i: nat, j: nat)
    requires i < j < NZONES
    ensures ChunkOf(i) < ChunkOf(j)
  {
  }

  /** The zone of a request is the one with the smallest chunks that hold it. */
  lemma {:induction false} ZoneIndexLeast(n: nat, j: nat)
    requires 0 < n < ZONE_LIMIT && j < NZONES
    ensures ZoneIndex(n) <= j <==> n <= ChunkOf(j)
  {
    ZoneIndexFits(n);
    var i := ZoneIndex(n);
    if i < j { ChunksIncrease(i, j); }
    if j < i - 1 { ChunksIncrease(j, i - 1); }
  }

  // --- power-of-two sizes

  /** The source's test of a size. */
  predicate PowerTest(n: nat) {
    n > 0 && Or(n, n - 1) + 1 == 2 * n
  }

  predicate IsPower(n: nat) {
    n == 1 || (n > 0 && n % 2 == 0 && IsPower(n / 2))
  }

  lemma {:induction false} OrSelf(n: nat)
    ensures Or(n, n) == n
  {
    if n > 0 { OrSelf(n / 2); }
  }

  lemma {:induction false} PowerTestIsPower(n: nat)
    ensures PowerTest(n) <==> IsPower(n)
  {
    if n > 0 {
      if n % 2 == 1 {
        OrSelf(n / 2);
        assert (n - 1) / 2 == n / 2;
      } else {
        PowerTestIsPower(n / 2);
        assert (n - 1) / 2 == n / 2 - 1;
      }
    }
  }

  // --- the layout of a zone

  /** Where the chunks begin: behind the header, at a multiple of a power-of-two size. */
  function Offset(chunk: nat): nat
    requires chunk > 0
  {
    if PowerTest(chunk) then RoundUp(ZONE_HEADER, chunk) else RoundUp(ZONE_HEADER, 8)
  }

  /** Zones have 8, 16 or 32 pages. */
  predicate Sizes(pages: int) { pages == 8 || pages == 16 || pages == 32 }

  /** Requests from here on get whole pages. */
  function Limit(pages: nat): nat { if pages * PAGE / 4 > ZONE_LIMIT then ZONE_LIMIT else pages * PAGE / 4 }

  function Capacity(pages: nat, chunk: nat): int
    requires chunk > 0
  {
    (pages * PAGE - Offset(chunk)) / chunk
  }

  lemma {:induction false} RoundUpBounds(n: nat, unit: nat)
    requires unit > 0
    ensures n <= RoundUp(n, unit) < n + unit && RoundUp(n, unit) % unit == 0
  {
    var q := (n + unit - 1) / unit;
    assert q * unit <= n + unit - 1 < q * unit + unit;
    MultipleMod(q, unit);
  }

  lemma {:induction false} MultipleMod(q: nat, unit: nat)
    requires unit > 0
    ensures q * unit % unit == 0 && q * unit / unit == q
  {
    var m, d: int := q * unit % unit, q * unit / unit;
    assert q * unit == d * unit + m;
    assert q >= d + 1 ==> q * unit >= (d + 1) * unit;
    assert q <= d - 1 ==> q * unit <= (d - 1) * unit;
  }

  /** The chunks fit behind the header, there are at least three, and one more would not fit. */
  lemma {:induction false} ZoneLayout(pages: nat, chunk: nat)
    requires Sizes(pages) && 0 < chunk <= Limit(pages)
    ensures ZONE_HEADER <= Offset(chunk) && Capacity(pages, chunk) >= 3
    ensures Offset(chunk) + Capacity(pages, chunk) * chunk <= pages * PAGE
    ensures pages * PAGE < Offset(chunk) + Capacity(pages, chunk) * chunk + chunk
  {
    OffsetBound(chunk);
    Room(pages * PAGE, Offset(chunk), chunk);
  }

  lemma {:induction false} OffsetBound(chunk: nat)
    requires chunk > 0
    ensures ZONE_HEADER <= Offset(chunk)
      && (Offset(chunk) <= chunk || (Offset(chunk) < 2 * ZONE_HEADER && chunk < ZONE_HEADER) || Offset(chunk) == 40)
  {
    RoundUpBounds(ZONE_HEADER, chunk);
    if chunk >= ZONE_HEADER { OneUnit(ZONE_HEADER, chunk); }
  }

  lemma {:induction false} Room(space: int, off: int, chunk: int)
    requires chunk > 0 && off + 3 * chunk <= space
    ensures var m := (space - off) / chunk; m >= 3 && off + m * chunk <= space < off + m * chunk + chunk
  {
    var m := (space - off) / chunk;
    assert m * chunk <= space - off < m * chunk + chunk;
    assert m <= 2 ==> m * chunk <= 2 * chunk;
  }

  lemma {:induction false} OneUnit(n: nat, unit: nat)
    requires 0 < n <= unit
    ensures (n + unit - 1) / unit == 1
  {
    var q := (n + unit - 1) / unit;
    assert q * unit <= n + unit - 1 < q * unit + unit;
    assert q >= 2 ==> q * unit >= 2 * unit;
    assert q <= 0 ==> q * unit <= 0;
  }
}
