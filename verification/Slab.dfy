/** The slab heap: rt_malloc and rt_free over the page allocator. */
module Slab {
  import opened Lists
  import opened SlabZones
  import opened SlabSpec
  import SlabZone
  import PageList

  /** A list without the only occurrence of an element. */
  lemma {:induction false} DropAt(list: seq<int>, k: nat)
    requires Distinct(list) && k < |list|
    ensures Drop(list, list[k]) == list[..k] + list[k + 1..]
  {
    var x := list[k];
    if k == 0 {
      TailWithout(list);
      DropAbsent(list[1..], x);
    } else {
      TailWithout(list);
      assert Differ(list[0], list[k]);
      DropAt(list[1..], k - 1);
      assert list[..k] + list[k + 1..] == [list[0]] + (list[1..][..k - 1] + list[1..][k..]);
    }
  }

  /** Four bytes of descriptor for each page. */
  function DescriptorPages(count: nat): nat { (count * 4 + PAGE - 1) / PAGE }

  lemma {:induction false} FirstPages(start: int, count: nat, k: nat)
    requires start > 0 && 1 <= k <= count
    ensures var list := [PageList.Run(start, count)]; PageList.Canonical(list) && PageList.Positive(list)
    ensures forall p :: PageList.Holds(PageList.AfterAlloc([PageList.Run(start, count)], k), p) <==>
      start + k <= p < start + count
  {
    var list := [PageList.Run(start, count)];
    PageList.AllocPages(list, k);
    PageList.FitIs(list, k, 0);
    forall p ensures PageList.Holds(list, p) <==> start <= p < start + count { PageList.HoldsOne(list[0], p); }
  }

  function AllUnowned(lo: int, hi: int): (m: map<int, int>)
    ensures forall p {:trigger p in m} {:trigger m[p]} :: (p in m <==> lo <= p < hi) && (p in m ==> m[p] == 0)
    decreases hi - lo
  {
    if lo >= hi then map[] else AllUnowned(lo, hi - 1)[hi - 1 := 0]
  }

  /** The heap without zones and allocations; the first pages hold the descriptors. */
  function Initial(start: int, count: nat): SlabSpec.Slab {
    SlabSpec.Slab(PageList.AfterAlloc([PageList.Run(start, count)], DescriptorPages(count)), map[],
      seq(NZONES, i => []), [], map[], map[],
                  AllUnowned(start + DescriptorPages(count), start + count))
  }

  lemma {:induction false} FirstState(start: int, count: nat, size: nat)
    requires start > 0 && count >= 1 && Sizes(size)
    ensures Inv(Initial(start, count), size) && forall a :: !Live(Initial(start, count), a)
  {
    FirstPages(start, count, DescriptorPages(count));
    PageList.AllocPages([PageList.Run(start, count)], DescriptorPages(count));
    var s := Initial(start, count);
    forall p ensures PageList.Holds(s.pages, p) <==> p in s.owner && s.owner[p] == 0 {}
  }

  /** The zone size doubles from 32 KB to 128 KB while twice its bytes are less than the
      kilobytes of the heap. */
  method ZoneSize(count: nat) returns (zoneSize: nat)
    ensures zoneSize == 8 * PAGE || zoneSize == 16 * PAGE || zoneSize == 32 * PAGE
    ensures zoneSize < 32 * PAGE ==> zoneSize * 2 >= count * PAGE / 1024
    ensures zoneSize > 8 * PAGE ==> zoneSize < count * PAGE / 1024
  {
    zoneSize := 8 * PAGE;
    while zoneSize < 32 * PAGE && zoneSize * 2 < count * PAGE / 1024
      invariant zoneSize == 8 * PAGE || zoneSize == 16 * PAGE || zoneSize == 32 * PAGE
      invariant zoneSize > 8 * PAGE ==> zoneSize < count * PAGE / 1024
      decreases 32 * PAGE - zoneSize
    {
      zoneSize := zoneSize * 2;
    }
  }

  /** A request that needs a zone of new pages, field by field. */
  lemma {:induction false} NewZoneState(s: SlabSpec.Slab, size: nat, n: nat)
    requires Core(s, size) && 0 < n < Limit(size) && 0 <= ZoneIndex(n) < NZONES && s.lists[ZoneIndex(n)] == []
      && s.spare == []
    ensures var b, i := PageList.Answer(s.pages, size), ZoneIndex(n);
      SlabSpec.Malloc(s, size, n) ==
        if b == 0 then (s, 0)
        else (SlabSpec.Slab(PageList.AfterAlloc(s.pages, size), s.zones[b := SlabZone.NewZone(b, size, n)],
           s.lists[i := [b] + s.lists[i]], [],
                            MarkZone(s.usage, b, size), s.hold[b := size], Claim(s.owner, b, size, b)),
              SlabZone.NewZone(b, size, n).base)
  {
    hide MarkZone, Claim, SlabZone.NewZone, PageList.Answer, PageList.AfterAlloc;
    var b := PageList.Answer(s.pages, size);
    assert ([b] + s.spare)[1..] == [];
  }

  /** A request served by the first zone on its list, field by field. */
  lemma {:induction false} ListedState(s: SlabSpec.Slab, size: nat, n: nat)
    requires Inv(s, size) && 0 < n < Limit(size) && 0 <= ZoneIndex(n) < NZONES && s.lists[ZoneIndex(n)] != []
    ensures s.lists[ZoneIndex(n)][0] in s.zones
    ensures var i, z := ZoneIndex(n), s.zones[s.lists[ZoneIndex(n)][0]];
      && (z.uindex + 1 != z.nmax || z.free != []) && z.chunk == Chunk(n)
      && SlabSpec.Malloc(s, size, n) == (ChunkTaken(s, i), SlabZone.Given(z)) && Inv(ChunkTaken(s, i), size)
  {
    ZoneIndexFits(n);
    var i := ZoneIndex(n);
    var b := s.lists[i][0];
    ChunkServes(s, size, n);
    assert Filed(s.lists, i, b) && Partial(s.zones, i, b) && ZoneAt(s.zones, s.hold, b, size);
  }

  /** The first zone of a heap starts behind the page descriptors. */
  lemma {:induction false} FirstChunk(start: int, count: nat, size: nat, n: nat)
    requires start > 0 && Sizes(size) && 0 < n < Limit(size) && DescriptorPages(count) + size <= count
    ensures Inv(Initial(start, count), size)
    ensures SlabSpec.Malloc(Initial(start, count), size, n).1 == (start + DescriptorPages(count)) * PAGE
      + Offset(Chunk(n))
  {
    var s, k, list := Initial(start, count), DescriptorPages(count), [PageList.Run(start, count)];
    FirstState(start, count, size);
    ZoneIndexFits(n);
    PageList.FitIs(list, k, 0);
    var rest := [PageList.Run(start + k, count - k)];
    assert list[..0] + rest + list[1..] == rest;
    assert PageList.AfterAlloc(list, k) == rest;
    PageList.FitIs(rest, size, 0);
    NewZoneState(s, size, n);
  }

  /** A request for a chunk of 8192 bytes gets it aligned to its size exactly when the page
      descriptors end at an even page. */
  lemma {:induction false} FirstLargeChunk(start: int, count: nat, size: nat, n: nat)
    requires start > 0 && Sizes(size) && 0 < n < Limit(size) && DescriptorPages(count) + size <= count
      && Chunk(n) == 8192
    ensures Inv(Initial(start, count), size)
    ensures SlabSpec.Malloc(Initial(start, count), size, n).1 % 8192 == 0 <==> (start + DescriptorPages(count)) % 2 == 0
  {
    hide *;
    FirstChunk(start, count, size, n);
    LargeOffset();
    EvenPage(start + DescriptorPages(count));
  }

  lemma {:induction false} LargeOffset()
    ensures Offset(8192) == 8192
  {
    SlabZone.Power8192();
    PowerTestIsPower(8192);
  }

  lemma {:induction false} EvenPage(b: int)
    ensures (b * PAGE + 8192) % 8192 == 0 <==> b % 2 == 0
  {
    var h := b / 2;
    assert b * PAGE == h * 8192 + b % 2 * PAGE;
  }

  /** An instance: a heap of twenty pages from page 2 on, and 8000 bytes. */
  lemma {:induction false} MisalignedRequest(start: int, count: nat, size: nat, n: nat)
    requires start == 2 && count == 20 && size == 8 && n == 8000
    ensures Inv(Initial(start, count), size) && SlabSpec.Malloc(Initial(start, count), size, n).1 % 8192 != 0
  {
    assert DescriptorPages(count) == 1 && Chunk(n) == 8192 && Limit(size) == 8192 && Sizes(size);
    hide *;
    FirstLargeChunk(start, count, size, n);
  }

  class SlabHeap {
    const size: nat
    const pageHeap: PageList.PageHeap
    var zones: map<int, Zone>
    var lists: seq<seq<int>>
    var spare: seq<int>
    var spareCount: int
    var usage: map<int, Usage>
    ghost var hold: map<int, int>
    ghost var owner: map<int, int>

    ghost function State(): SlabSpec.Slab
      reads this, pageHeap
    {
      SlabSpec.Slab(pageHeap.list, zones, lists, spare, usage, hold, owner)
    }

    ghost predicate Valid()
      reads this, pageHeap
    {
      Inv(State(), size) && pageHeap.Valid() && spareCount == |spare|
    }

    /** rt_system_heap_init: the zone size follows the size of the heap, and the first pages are
        kept for the page descriptors. */
    constructor (start: int, count: nat)
      requires start > 0 && count >= 1
      ensures Valid() && fresh(pageHeap) && pageHeap.sem == 1 && State() == Initial(start, count)
      ensures forall a :: !Live(State(), a)
      ensures forall p :: p in owner <==> start + DescriptorPages(count) <= p < start + count
    {
      var zoneSize := ZoneSize(count);
      size := zoneSize / PAGE;
      pageHeap := new PageList.PageHeap(start, count);
      zones, lists, spare, spareCount, usage := map[], seq(NZONES, i => []), [], 0, map[];
      hold, owner := map[], AllUnowned(start + DescriptorPages(count), start + count);
      new;
      FirstState(start, count, size);
      var descriptors := pageHeap.Alloc(DescriptorPages(count));
      assert State() == Initial(start, count);
    }

    /** Describes the pages of a new zone. */
    method Describe(b: int)
      modifies `usage
      ensures usage == MarkZone(old(usage), b, size)
    {
      var off := 0;
      while off < size
        invariant 0 <= off <= size && usage == MarkZone(old(usage), b, off)
      {
        usage := usage[b + off := Small(off)];
        off := off + 1;
      }
    }

    /** Describes the pages of a released zone. */
    method Undescribe(b: int)
      modifies `usage
      ensures usage == ClearZone(old(usage), b, size)
    {
      var i := 0;
      while i < size
        invariant 0 <= i <= size && usage == ClearZone(old(usage), b, i)
      {
        usage := usage[b + i := Unused];
        i := i + 1;
      }
    }

    /** A request for whole pages. */
    method MallocLarge(n: nat) returns (a: int)
      requires Valid() && n >= Limit(size) && n > 0 && pageHeap.sem >= 1
      modifies this, pageHeap
      ensures pageHeap.sem == old(pageHeap.sem)
      ensures Valid() && (State(), a) == SlabSpec.Malloc(old(State()), size, n)
    {
      MallocServes(State(), size, n);
      var b := pageHeap.Alloc(PagesFor(n));
      if b == 0 {
        PageList.AllocPages(old(pageHeap.list), PagesFor(n));
        return 0;
      }
      usage := usage[b := Large(PagesFor(n))];
      hold, owner := hold[b := PagesFor(n)], Claim(owner, b, PagesFor(n), b);
      pageHeap.Lock();
      a := b * PAGE;
      pageHeap.Unlock();
    }

    /** A chunk of the first zone on the list. */
    method MallocListed(n: nat) returns (a: int)
      requires Valid() && 0 < n < Limit(size) && 0 <= ZoneIndex(n) < NZONES && lists[ZoneIndex(n)] != []
      modifies this
      ensures Valid() && (State(), a) == SlabSpec.Malloc(old(State()), size, n)
    {
      ListedState(State(), size, n);
      hide Chunk, ChunkOf, Inv, SlabSpec.Malloc, ZoneIndex, Limit;
      var i := ZoneIndex(n);
      var b := lists[i][0];
      var z := zones[b];
      if z.nfree == 1 { lists := lists[i := lists[i][1..]]; }
      if z.uindex + 1 != z.nmax {
        zones := zones[b := z.(nfree := z.nfree - 1, uindex := z.uindex + 1)];
        a := z.base + (z.uindex + 1) * Chunk(n);
      } else {
        a := z.free[0];
        zones := zones[b := z.(nfree := z.nfree - 1, free := z.free[1..])];
      }
    }

    /** Sets a zone up at `b` and gives its first chunk. */
    method Open(b: int, n: nat) returns (a: int)
      requires 0 < n < Limit(size) <= ZONE_LIMIT && 0 <= ZoneIndex(n) < |lists|
      modifies `zones, `lists
      ensures zones == old(zones)[b := SlabZone.NewZone(b, size, n)] && a == zones[b].base
      ensures lists == old(lists)[ZoneIndex(n) := [b] + old(lists)[ZoneIndex(n)]]
    {
      hide Chunk, ChunkOf, ZoneIndex, RoundUp, PowerTest, Limit;
      ZoneIndexFits(n);
      var size0 := Chunk(n);
      var off := if PowerTest(size0) then RoundUp(ZONE_HEADER, size0) else RoundUp(ZONE_HEADER, 8);
      var nmax := (size * PAGE - off) / size0;
      zones := zones[b := SlabZone.Zone(size0, ZoneIndex(n), b * PAGE + off, nmax, nmax - 1, 0, [])];
      lists := lists[ZoneIndex(n) := [b] + lists[ZoneIndex(n)]];
      a := zones[b].base;
    }

    /** A chunk of a reserve zone set up for the request. */
    method MallocSpare(n: nat) returns (a: int)
      requires Valid() && 0 < n < Limit(size) && 0 <= ZoneIndex(n) < NZONES && lists[ZoneIndex(n)] == [] && spare != []
      modifies this
      ensures Valid() && (State(), a) == SlabSpec.Malloc(old(State()), size, n)
    {
      MallocServes(State(), size, n);
      var b := spare[0];
      spare := spare[1..];
      spareCount := spareCount - 1;
      a := Open(b, n);
    }

    /** A chunk of a zone made of new pages. The lock is released around the request for them, and
        not taken again if there are none. */
    method MallocNewZone(n: nat) returns (a: int)
      requires Valid() && 0 < n < Limit(size) && 0 <= ZoneIndex(n) < NZONES && lists[ZoneIndex(n)] == [] && spare == []
      requires pageHeap.sem >= 0
      modifies this, pageHeap
      ensures pageHeap.sem == old(pageHeap.sem) + if Leaks(old(State()), size, n) then 1 else 0
      ensures Valid() && (State(), a) == SlabSpec.Malloc(old(State()), size, n)
    {
      MallocServes(State(), size, n);
      NewZoneState(State(), size, n);
      hide SlabSpec.Malloc, Served, Core;
      pageHeap.Unlock();
      var b := pageHeap.Alloc(size);
      if b == 0 {
        PageList.AllocPages(old(pageHeap.list), size);
        return 0;
      }
      pageHeap.Lock();
      Describe(b);
      hold, owner := hold[b := size], Claim(owner, b, size, b);
      a := Open(b, n);
    }

    /** rt_malloc. The lock counts the same before and after exactly when the request is not one
        that finds neither a zone nor the pages for one. */
    method Malloc(n: nat) returns (a: int)
      requires Valid() && pageHeap.sem >= 1
      modifies this, pageHeap
      ensures pageHeap.sem == old(pageHeap.sem) + if Leaks(old(State()), size, n) then 1 else 0
      ensures Valid() && (State(), a) == SlabSpec.Malloc(old(State()), size, n)
      ensures Served(old(State()), size, n, State(), a)
    {
      MallocServes(State(), size, n);
      if n == 0 { return 0; }
      if n >= Limit(size) {
        a := MallocLarge(n);
        return;
      }
      ZoneIndexFits(n);
      pageHeap.Lock();
      if lists[ZoneIndex(n)] != [] {
        a := MallocListed(n);
      } else if spare != [] {
        a := MallocSpare(n);
      } else {
        a := MallocNewZone(n);
      }
      pageHeap.Unlock();
    }

    /** Releases whole pages. */
    method FreeLarge(a: int)
      requires Valid() && Live(State(), a) && owner[a / PAGE] !in zones && pageHeap.sem >= 1
      modifies this, pageHeap
      ensures pageHeap.sem == old(pageHeap.sem)
      ensures a != 0 && Valid() && State() == SlabSpec.Free(old(State()), size, a)
    {
      FreeTakesAway(State(), size, a);
      DescriptorOfLarge(State(), size, a);
      NotNull(State(), size, a);
      var b := a / PAGE;
      LargeFreedInv(State(), size, b);
      pageHeap.Lock();
      var n := usage[b].count;
      usage := usage[b := Large(0)];
      pageHeap.Unlock();
      pageHeap.Free(b, n);
      owner, hold := Claim(owner, b, n, 0), hold - {b};
    }

    /** Puts a chunk back on the free list of its zone, and the zone on its list. */
    method Return(b: int, a: int)
      requires Valid() && b in zones && SlabZone.LiveIn(zones[b], a)
      modifies this
      ensures Valid() && b in zones && zones[b].index < NZONES && b in old(zones) && old(zones)[b].index < |old(lists)|
      ensures State() == ChunkReturned(old(State()), b, a)
    {
      ChunkReturnedInv(State(), size, b, a);
      var z := zones[b];
      zones := zones[b := z.(nfree := z.nfree + 1, free := [a] + z.free)];
      if z.nfree == 0 { lists := lists[z.index := [b] + lists[z.index]]; }
    }

    /** Takes a zone off its list. */
    method Unlist(b: int, i: nat)
      requires i < |lists| && Distinct(lists[i]) && b in lists[i]
      modifies `lists
      ensures lists == old(lists)[i := Drop(old(lists)[i], b)]
    {
      var k := 0;
      while lists[i][k] != b
        invariant 0 <= k < |lists[i]| && b in lists[i][k..]
        decreases |lists[i]| - k
      {
        assert lists[i][k..] == [lists[i][k]] + lists[i][k + 1..];
        k := k + 1;
      }
      DropAt(lists[i], k);
      lists := lists[i := lists[i][..k] + lists[i][k + 1..]];
    }

    /** Gives the first reserve zone back to the pages, with the lock released first. */
    method ReleaseSpare()
      requires Core(State(), size) && pageHeap.Valid() && spareCount == |spare| > 0 && pageHeap.sem >= 0
      modifies this, pageHeap
      ensures pageHeap.Valid() && spareCount == |spare| && pageHeap.sem == old(pageHeap.sem) + 1
      ensures State() == SpareReleased(old(State()), size)
    {
      SpareReleasedInv(State(), size);
      var z := spare[0];
      spare := spare[1..];
      spareCount := spareCount - 1;
      Undescribe(z);
      pageHeap.Unlock();
      pageHeap.Free(z, size);
      owner, hold := Claim(owner, z, size, 0), hold - {z};
    }

    /** Moves a zone with all chunks free to the reserve, and a third reserve zone to the
        pages. The lock is released. */
    method Retire(b: int)
      requires Valid() && b in zones && zones[b].index < NZONES && zones[b].nfree == zones[b].nmax
        && |lists[zones[b].index]| > 1 && pageHeap.sem >= 0
      modifies this, pageHeap
      ensures pageHeap.sem == old(pageHeap.sem) + 1
      ensures Valid() && State() == Settle(old(State()), size, b)
    {
      SettleInv(State(), size, b);
      RetiredInv(State(), size, b);
      ghost var t := Retired(State(), b);
      var i := zones[b].index;
      assert Filed(lists, i, b) <==> Partial(zones, i, b);
      assert Distinct(lists[i]);
      Unlist(b, i);
      zones := zones - {b};
      spare := [b] + spare;
      spareCount := spareCount + 1;
      assert State() == t;
      if spareCount > THRESHOLD {
        ReleaseSpare();
        return;
      }
      pageHeap.Unlock();
    }

    /** rt_free */
    method Free(a: int)
      requires Valid() && (a == 0 || Live(State(), a)) && pageHeap.sem >= 1
      modifies this, pageHeap
      ensures pageHeap.sem == old(pageHeap.sem)
      ensures Valid() && State() == SlabSpec.Free(old(State()), size, a)
    {
      if a == 0 { return; }
      var p := a / PAGE;
      ghost var run := owner[p];
      if run !in zones { DescriptorOfLarge(State(), size, a); } else { DescriptorFindsZone(State(), size, a); }
      if usage[p].Large? {
        FreeLarge(a);
        return;
      }
      var b := p - usage[p].offset;
      assert b == run && b in zones;
      ChunkReturnedInv(State(), size, b, a);
      pageHeap.Lock();
      Return(b, a);
      var z := zones[b];
      if z.nfree == z.nmax && |lists[z.index]| > 1 { Retire(b); } else { pageHeap.Unlock(); }
    }
  }

  /** A heap whose only page holds the descriptors: one small request, and two threads may hold
      the lock at a time. */
  method LockLeaks() returns (h: SlabHeap)
    ensures fresh(h) && h.Valid() && h.State() == Initial(1, 1) && h.pageHeap.sem == 2
  {
    h := new SlabHeap(1, 1);
    NoPages(h.size);
    var _ := h.Malloc(8);
  }

  lemma {:induction false} NoPages(size: nat)
    requires Sizes(size)
    ensures |Initial(1, 1).lists| == NZONES && Leaks(Initial(1, 1), size, 8)
    ensures Inv(Initial(1, 1), size) && SlabSpec.Malloc(Initial(1, 1), size, 8) == (Initial(1, 1), 0)
  {
    FirstState(1, 1, size);
    FirstPages(1, 1, 1);
    ZoneIndexFits(8);
  }
}
