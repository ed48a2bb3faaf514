/** One slab zone: chunks are handed out from the never used part first, then from the list of
    freed chunks. */
module SlabZone {
  import opened Lists
  import opened Powers
  import opened SlabZones

  datatype ZoneOf<F> = Zone(chunk: nat, index: nat, base: int, nmax: int, nfree: int, uindex: int, free: F)
  type Zone = ZoneOf<seq<int>>

  /** The address of a chunk that has been in use. */
  predicate IsChunk(z: Zone, a: int) {
    z.chunk > 0 && a >= z.base && (a - z.base) % z.chunk == 0 && (a - z.base) / z.chunk <= z.uindex
  }

  predicate LiveIn(z: Zone, a: int) {
    IsChunk(z, a) && a !in z.free
  }

  ghost predicate FreeOk(z: Zone) {
    && (forall a {:trigger IsChunk(z, a)} :: a in z.free ==> IsChunk(z, a))
    && Distinct(z.free)
  }

  /** The zone that starts at page `b`. */
  ghost predicate ZoneOk(z: Zone, b: int, pages: nat) {
    && Sizes(pages) && z.index < NZONES && z.chunk == ChunkOf(z.index) && 0 < z.chunk <= Limit(pages)
    && z.base == b * PAGE + Offset(z.chunk) && z.nmax == Capacity(pages, z.chunk)
    && 0 <= z.uindex < z.nmax && z.nfree == z.nmax - 1 - z.uindex + |z.free|
    && FreeOk(z)
  }

  function NewZone(b: int, pages: nat, n: nat): Zone
    requires 0 < n < ZONE_LIMIT
  {
    ZoneIndexFits(n);
    var m := Capacity(pages, Chunk(n));
    Zone(Chunk(n), ZoneIndex(n), b * PAGE + Offset(Chunk(n)), m, m - 1, 0, [])
  }

  function Taken(z: Zone): Zone
    requires z.uindex + 1 != z.nmax || z.free != []
  {
    if z.uindex + 1 != z.nmax then z.(nfree := z.nfree - 1, uindex := z.uindex + 1)
    else z.(nfree := z.nfree - 1, free := z.free[1..])
  }

  function Given(z: Zone): int
    requires z.uindex + 1 != z.nmax || z.free != []
  {
    if z.uindex + 1 != z.nmax then z.base + (z.uindex + 1) * z.chunk else z.free[0]
  }

  function Returned(z: Zone, a: int): Zone {
    z.(nfree := z.nfree + 1, free := [a] + z.free)
  }

  // --- chunk addresses

  lemma {:induction false} NumberOf(z: Zone, k: nat)
    requires z.chunk > 0
    ensures var a := z.base + k * z.chunk; (a - z.base) % z.chunk == 0 && (a - z.base) / z.chunk == k
  {
    MultipleMod(k, z.chunk);
  }

  lemma {:induction false} AddressOf(z: Zone, a: int)
    requires z.chunk > 0 && a >= z.base && (a - z.base) % z.chunk == 0
    ensures a == z.base + (a - z.base) / z.chunk * z.chunk
  {
  }

  /** Raising the index of the never used part adds one chunk. */
  lemma {:induction false} NextChunk(z: Zone, x: int)
    requires z.chunk > 0 && z.uindex >= 0
    ensures IsChunk(z.(uindex := z.uindex + 1), x) <==> IsChunk(z, x) || x == z.base + (z.uindex + 1) * z.chunk
    ensures !IsChunk(z, z.base + (z.uindex + 1) * z.chunk)
  {
    NumberOf(z, z.uindex + 1);
    assert (z.uindex + 1) * z.chunk >= 0;
    if IsChunk(z.(uindex := z.uindex + 1), x) { AddressOf(z, x); }
  }

  /** Chunks do not overlap. */
  lemma {:induction false} ChunksApart(z: Zone, a: int, b: int)
    requires IsChunk(z, a) && IsChunk(z, b) && a < b
    ensures a + z.chunk <= b
  {
    AddressOf(z, a);
    AddressOf(z, b);
    var i, j := (a - z.base) / z.chunk, (b - z.base) / z.chunk;
    assert i >= j ==> i * z.chunk >= j * z.chunk;
    assert i < j ==> (i + 1) * z.chunk <= j * z.chunk;
  }

  lemma {:induction false} LastFits(k: int, n: int, c: int)
    requires 0 <= k < n && c > 0
    ensures 0 <= k * c && k * c + c <= n * c
  {
    assert (k + 1) * c <= n * c;
  }

  lemma {:induction false} PageOf(a: int, b: int, n: int)
    requires b * PAGE <= a < (b + n) * PAGE
    ensures b <= a / PAGE < b + n
  {
  }

  /** Chunks lie behind the header, within the zone. */
  lemma {:induction false} ChunkInside(z: Zone, b: int, pages: nat, a: int)
    requires ZoneOk(z, b, pages) && IsChunk(z, a)
    ensures b * PAGE + ZONE_HEADER <= a && a + z.chunk <= (b + pages) * PAGE
    ensures b <= a / PAGE < b + pages
  {
    assert b * PAGE + ZONE_HEADER <= a && a + z.chunk <= b * PAGE + pages * PAGE by {
      ZoneLayout(pages, z.chunk);
      AddressOf(z, a);
      LastFits((a - z.base) / z.chunk, z.nmax, z.chunk);
    }
    PageOf(a, b, pages);
  }

  lemma {:induction false} MultiplesAdd(x: nat, y: nat, z: nat, c: nat)
    requires c > 0 && x % c == 0 && y % c == 0 && z % c == 0
    ensures (x + y + z) % c == 0
  {
    var i, j, k := x / c, y / c, z / c;
    assert x == i * c && y == j * c && z == k * c;
    assert (i + j + k) * c == x + y + z;
    MultipleMod(i + j + k, c);
  }

  lemma {:induction false} MultipleTimes(b: nat, x: nat, c: nat)
    requires c > 0 && x % c == 0
    ensures b * x % c == 0
  {
    var i := x / c;
    assert x == i * c;
    assert b * x == b * i * c;
    MultipleMod(b * i, c);
  }

  /** A power-of-two chunk of at most a page is aligned to its own size. */
  lemma {:induction false} ChunkAligned(z: Zone, b: nat, pages: nat, a: int)
    requires ZoneOk(z, b, pages) && IsChunk(z, a) && IsPower(z.chunk) && z.chunk <= PAGE
    ensures a % z.chunk == 0
  {
    var c := z.chunk;
    assert Offset(c) % c == 0 by {
      PowerTestIsPower(c);
      RoundUpBounds(ZONE_HEADER, c);
    }
    PowerDividesPage(c, 12);
    MultipleTimes(b, PAGE, c);
    MultiplesAdd(b * PAGE, Offset(c), a - z.base, c);
  }

  lemma {:induction false} MultipleShift(x: nat, m: nat, c: nat)
    requires c > 0 && m % c == 0
    ensures (x + m) % c == 0 <==> x % c == 0
  {
    var i, j := m / c, (x + m) / c;
    assert m == i * c;
    if x % c == 0 { MultiplesAdd(x, m, 0, c); }
    if (x + m) % c == 0 {
      assert x + m == j * c;
      assert x == (j - i) * c;
      assert j < i ==> (j - i) * c < 0;
      MultipleMod(j - i, c);
    }
  }

  /** For any power-of-two size a chunk is aligned to it exactly when the zone is. */
  lemma {:induction false} ChunkAlignedIff(z: Zone, b: nat, pages: nat, a: int)
    requires ZoneOk(z, b, pages) && IsChunk(z, a) && IsPower(z.chunk)
    ensures a % z.chunk == 0 <==> b * PAGE % z.chunk == 0
  {
    var c := z.chunk;
    assert Offset(c) % c == 0 by {
      PowerTestIsPower(c);
      RoundUpBounds(ZONE_HEADER, c);
    }
    MultiplesAdd(Offset(c), a - z.base, 0, c);
    MultipleShift(b * PAGE, Offset(c) + (a - z.base), c);
  }

  lemma {:induction false} Power8192()
    ensures IsPower(8192)
  {
    assert IsPower(16);
    assert IsPower(512);
  }

  /** Zones start at any page: no chunk of 8192 bytes is aligned in a zone at an odd page. */
  lemma {:induction false} LargeChunksNotAligned(z: Zone, b: nat, pages: nat, a: int)
    requires ZoneOk(z, b, pages) && z.chunk == 8192 && b % 2 == 1 && IsChunk(z, a)
    ensures IsPower(z.chunk) && a % z.chunk != 0
  {
    Power8192();
    ChunkAlignedIff(z, b, pages, a);
    assert b * PAGE == b / 2 * 8192 + PAGE;
  }

  /** A power of two up to another divides it. */
  lemma {:induction false} PowerDivides(c: nat, n: nat)
    requires IsPower(c) && c <= Power2(n)
    ensures Power2(n) % c == 0
  {
    if c > 1 {
      if n == 0 {
        assert false;
      } else {
        PowerDivides(c / 2, n - 1);
        var h := c / 2;
        var q := Power2(n - 1) / h;
        assert Power2(n - 1) == q * h;
        assert Power2(n) == q * c;
        MultipleMod(q, c);
      }
    }
  }

  lemma {:induction false} PowerDividesPage(c: nat, n: nat)
    requires IsPower(c) && c <= PAGE && n == 12
    ensures PAGE % c == 0
  {
    assert Power2(4) == 16;
    assert Power2(8) == 256;
    assert Power2(12) == PAGE;
    PowerDivides(c, n);
  }

  // --- taking and returning

  lemma {:induction false} TakeFresh(z: Zone, b: int, pages: nat)
    requires ZoneOk(z, b, pages) && z.uindex + 1 != z.nmax
    ensures ZoneOk(Taken(z), b, pages) && !IsChunk(z, Given(z))
    ensures forall x {:trigger LiveIn(Taken(z), x)} :: LiveIn(Taken(z), x) <==> LiveIn(z, x) || x == Given(z)
  {
    var r := Taken(z);
    forall x ensures IsChunk(r, x) <==> IsChunk(z, x) || x == Given(z) {
      NextChunk(z, x);
      assert IsChunk(r, x) <==> IsChunk(z.(uindex := z.uindex + 1), x);
    }
    NextChunk(z, 0);
    forall a | a in z.free ensures IsChunk(r, a) { assert IsChunk(z, a); }
  }

  lemma {:induction false} TakeFreed(z: Zone, b: int, pages: nat)
    requires ZoneOk(z, b, pages) && z.uindex + 1 == z.nmax && z.free != []
    ensures ZoneOk(Taken(z), b, pages) && !LiveIn(z, Given(z))
    ensures forall x {:trigger LiveIn(Taken(z), x)} :: LiveIn(Taken(z), x) <==> LiveIn(z, x) || x == Given(z)
  {
    var r, a := Taken(z), Given(z);
    assert a in z.free && IsChunk(z, a);
    forall i | 0 <= i < |r.free| ensures r.free[i] != a { assert Differ(z.free[0], z.free[i + 1]); }
    forall i, j | 0 <= i < j < |r.free| ensures Differ(r.free[i], r.free[j]) {
      assert Differ(z.free[i + 1], z.free[j + 1]);
    }
    forall x ensures x in r.free <==> x in z.free && x != a {
      if x in z.free && x != a { var i :| 0 <= i < |z.free| && z.free[i] == x; assert r.free[i - 1] == x; }
    }
    forall x ensures IsChunk(r, x) <==> IsChunk(z, x) {}
  }

  /** The chunk given was not in use; afterwards exactly it is in use besides the others. */
  lemma {:induction false} TakeOk(z: Zone, b: int, pages: nat)
    requires ZoneOk(z, b, pages) && z.nfree > 0
    ensures z.uindex + 1 != z.nmax || z.free != []
    ensures ZoneOk(Taken(z), b, pages) && !LiveIn(z, Given(z))
    ensures forall x {:trigger LiveIn(Taken(z), x)} :: LiveIn(Taken(z), x) <==> LiveIn(z, x) || x == Given(z)
  {
    if z.uindex + 1 != z.nmax { TakeFresh(z, b, pages); } else { TakeFreed(z, b, pages); }
  }

  lemma {:induction false} ReturnOk(z: Zone, b: int, pages: nat, a: int)
    requires ZoneOk(z, b, pages) && LiveIn(z, a)
    ensures ZoneOk(Returned(z, a), b, pages)
    ensures forall x {:trigger LiveIn(Returned(z, a), x)} :: LiveIn(Returned(z, a), x) <==> LiveIn(z, x) && x != a
  {
    var r := Returned(z, a);
    forall x ensures IsChunk(r, x) <==> IsChunk(z, x) {}
    forall x | x in r.free ensures IsChunk(r, x) { assert x != a ==> x in z.free && IsChunk(z, x); }
    forall i, j | 0 <= i < j < |r.free| ensures Differ(r.free[i], r.free[j]) {
      if i == 0 { var y := z.free[j - 1]; assert y in z.free; } else { assert Differ(z.free[i - 1], z.free[j - 1]); }
    }
  }

  lemma {:induction false} ChunkWithinLimit(pages: nat, n: nat)
    requires Sizes(pages) && 0 < n < Limit(pages)
    ensures n < ZONE_LIMIT && 0 < Chunk(n) <= Limit(pages)
  {
  }

  lemma {:induction false} OneChunk(z: Zone, x: int)
    requires z.chunk > 0 && z.uindex == 0 && z.free == []
    ensures LiveIn(z, x) <==> x == z.base
  {
    if IsChunk(z, x) { AddressOf(z, x); }
  }

  lemma {:induction false} NewZoneOk(b: int, pages: nat, n: nat)
    requires Sizes(pages) && 0 < n < Limit(pages)
    ensures n < ZONE_LIMIT
    ensures ZoneOk(NewZone(b, pages, n), b, pages) && NewZone(b, pages, n).nfree > 0 && n <= Chunk(n)
    ensures forall x {:trigger LiveIn(NewZone(b, pages, n), x)} :: LiveIn(NewZone(b, pages, n), x) <==>
      x == NewZone(b, pages, n).base
  {
    ChunkWithinLimit(pages, n);
    ZoneIndexFits(n);
    var z := NewZone(b, pages, n);
    forall x ensures LiveIn(z, x) <==> x == z.base { OneChunk(z, x); }
    ZoneLayout(pages, z.chunk);
  }

  // --- a zone with all chunks free

  function Numbers(z: Zone, list: seq<int>): set<int>
    requires z.chunk > 0
  {
    set a | a in list :: (a - z.base) / z.chunk
  }

  function UpTo(n: nat): (s: set<int>)
    ensures |s| == n && forall k :: k in s <==> 0 <= k < n
  {
    if n == 0 then {} else UpTo(n - 1) + {n - 1}
  }

  lemma {:induction false} CountNumbers(z: Zone, list: seq<int>)
    requires z.chunk > 0 && forall a {:trigger IsChunk(z, a)} :: a in list ==> IsChunk(z, a)
    requires Distinct(list)
    ensures |Numbers(z, list)| == |list|
  {
    if list != [] {
      var h, t := list[0], list[1..];
      forall a | a in t ensures IsChunk(z, a) { assert a in list; }
      forall i, j | 0 <= i < j < |t| ensures Differ(t[i], t[j]) { assert Differ(list[i + 1], list[j + 1]); }
      CountNumbers(z, t);
      var k := (h - z.base) / z.chunk;
      assert h in list && IsChunk(z, h);
      AddressOf(z, h);
      forall a | a in t ensures (a - z.base) / z.chunk != k {
        assert IsChunk(z, a);
        AddressOf(z, a);
        var i :| 0 <= i < |t| && t[i] == a;
        assert Differ(list[0], list[i + 1]);
      }
      assert Numbers(z, list) == Numbers(z, t) + {k} by { assert forall a :: a in list <==> a == h || a in t; }
    }
  }

  lemma {:induction false} AllNumbers(z: Zone, k: int)
    requires FreeOk(z) && z.chunk > 0 && z.uindex >= 0 && |z.free| == z.uindex + 1 && 0 <= k <= z.uindex
    ensures k in Numbers(z, z.free)
  {
    CountNumbers(z, z.free);
    var used, all := Numbers(z, z.free), UpTo(z.uindex + 1);
    forall j | j in used ensures j in all {
      var x :| x in z.free && (x - z.base) / z.chunk == j;
      assert IsChunk(z, x);
    }
    SubsetEqual(used, all);
  }

  /** When the count of free chunks is the capacity, no chunk is in use. */
  lemma {:induction false} AllFree(z: Zone, b: int, pages: nat, a: int)
    requires ZoneOk(z, b, pages) && z.nfree == z.nmax
    ensures !LiveIn(z, a)
  {
    if IsChunk(z, a) {
      var k := (a - z.base) / z.chunk;
      AllNumbers(z, k);
      var x :| x in z.free && (x - z.base) / z.chunk == k;
      assert IsChunk(z, x);
      AddressOf(z, x);
      AddressOf(z, a);
    }
  }

  lemma {:induction false} SubsetEqual<T>(s: set<T>, t: set<T>)
    requires s <= t && |s| == |t|
    ensures s == t
  {
    if !(t <= s) {
      var x :| x in t && x !in s;
      assert s <= t - {x};
      SubsetSize(s, t - {x});
    }
  }

  lemma {:induction false} SubsetSize<T>(s: set<T>, t: set<T>)
    requires s <= t
    ensures |s| <= |t|
  {
    if s != {} {
      var x :| x in s;
      SubsetSize(s - {x}, t - {x});
    }
  }
}
