/** The slab allocator over the page allocator: whole pages for large requests, chunks of zones
    for small ones. Pages are numbers; a zone is named by its first page. */
module SlabSpec {
  import opened Lists
  import opened SlabZones
  import SlabZone
  import PageList

  type Zone = SlabZone.Zone

  /** A page descriptor. */
  datatype Usage = Unused | Small(offset: int) | Large(count: int)

  /** `lists` are the zones with free chunks by zone number, `spare` the zones kept although all
      their chunks are free. `hold` gives the length of every run of pages that is not free and
      `owner` the run a page is in, 0 for a free page. */
  datatype SlabOf<P, Z, A, S, U, M> = Slab(pages: P, zones: Z, lists: A, spare: S, usage: U, hold: M, owner: M)
  type Slab = SlabOf<seq<PageList.Run>, map<int, Zone>, seq<seq<int>>, seq<int>, map<int, Usage>, map<int, int>>

  const THRESHOLD := 2

  // --- pages

  ghost predicate FreeAgree(pages: seq<PageList.Run>, owner: map<int, int>) {
    && PageList.Canonical(pages) && PageList.Positive(pages)
    && forall p {:trigger PageList.Holds(pages, p)} :: PageList.Holds(pages, p) <==> p in owner && owner[p] == 0
  }

  ghost predicate Owns(owner: map<int, int>, b: int, n: int) {
    forall p {:trigger owner[p]} {:trigger p in owner} :: b <= p < b + n ==> p in owner && owner[p] == b
  }

  ghost predicate HoldOk(hold: map<int, int>, owner: map<int, int>) {
    && (forall b {:trigger hold[b]} {:trigger b in hold} :: b in hold ==>
       b > 0 && hold[b] >= 1 && Owns(owner, b, hold[b]))
    && (forall p {:trigger Covered(hold, owner, p)} :: p in owner && owner[p] != 0 ==> Covered(hold, owner, p))
  }

  predicate Covered(hold: map<int, int>, owner: map<int, int>, p: int) {
    p in owner && owner[p] in hold && owner[p] <= p < owner[p] + hold[owner[p]]
  }

  function Claim(owner: map<int, int>, b: int, n: int, v: int): map<int, int> {
    map p | p in owner :: if b <= p < b + n then v else owner[p]
  }

  ghost predicate AllFree(owner: map<int, int>, b: int, n: int) {
    forall p {:trigger owner[p]} {:trigger p in owner} :: b <= p < b + n ==> p in owner && owner[p] == 0
  }

  lemma {:induction false} ClaimOk(pages: seq<PageList.Run>, hold: map<int, int>, owner: map<int, int>, n: nat)
    requires FreeAgree(pages, owner) && HoldOk(hold, owner) && PageList.Answer(pages, n) != 0
    ensures var b := PageList.Answer(pages, n);
      && b !in hold && AllFree(owner, b, n)
      && FreeAgree(PageList.AfterAlloc(pages, n), Claim(owner, b, n, b)) && HoldOk(hold[b := n], Claim(owner, b, n, b))
  {
    var b := PageList.Answer(pages, n);
    PageList.AllocPages(pages, n);
    forall p | b <= p < b + n ensures p in owner && owner[p] == 0 { assert PageList.Holds(pages, p); }
    assert PageList.Holds(pages, b);
    assert b > 0 by { Positive(pages, b); }
    var owner2, hold2 := Claim(owner, b, n, b), hold[b := n];
    forall c | c in hold2 ensures c > 0 && hold2[c] >= 1 && Owns(owner2, c, hold2[c]) {
      if c != b {
        assert Owns(owner, c, hold[c]);
        forall p | c <= p < c + hold2[c] ensures p in owner2 && owner2[p] == c { assert owner[p] == c; }
      }
    }
    forall p | p in owner2 && owner2[p] != 0 ensures Covered(hold2, owner2, p) {
      if !(b <= p < b + n) {
        assert Covered(hold, owner, p);
        assert owner[p] == b ==> b in hold;
      }
    }
  }

  lemma {:induction false} Positive(pages: seq<PageList.Run>, p: int)
    requires PageList.Positive(pages) && PageList.Holds(pages, p)
    ensures p > 0
  {
    var i :| 0 <= i < |pages| && pages[i].start <= p < pages[i].start + pages[i].count;
  }

  lemma {:induction false} ReleaseOk(pages: seq<PageList.Run>, hold: map<int, int>, owner: map<int, int>, b: int)
    requires FreeAgree(pages, owner) && HoldOk(hold, owner) && b in hold
    ensures PageList.Disjoint(pages, b, hold[b])
    ensures FreeAgree(PageList.AfterFree(pages, b, hold[b]), Claim(owner, b, hold[b], 0))
      && HoldOk(hold - {b}, Claim(owner, b, hold[b], 0))
  {
    var n := hold[b];
    assert Owns(owner, b, n);
    PageList.FreePages(pages, b, n);
    var owner2, hold2 := Claim(owner, b, n, 0), hold - {b};
    forall c | c in hold2 ensures c > 0 && hold2[c] >= 1 && Owns(owner2, c, hold2[c]) {
      assert c in hold && Owns(owner, c, hold[c]);
      forall p | c <= p < c + hold2[c] ensures p in owner2 && owner2[p] == c { assert owner[p] == c; }
    }
    forall p | p in owner2 && owner2[p] != 0 ensures Covered(hold2, owner2, p) { assert Covered(hold, owner, p); }
  }

  // --- the state

  predicate IsZone(zones: map<int, Zone>, spare: seq<int>, b: int) { b in zones || b in spare }

  predicate LeadsTo(usage: map<int, Usage>, p: int, b: int) {
    p in usage && usage[p] == Small(p - b)
  }

  /** The page descriptors of a zone. */
  ghost predicate Marked(usage: map<int, Usage>, b: int, n: int) {
    forall p {:trigger LeadsTo(usage, p, b)} :: b <= p < b + n ==> LeadsTo(usage, p, b)
  }

  predicate Sized(usage: map<int, Usage>, b: int, n: int) {
    b in usage && usage[b] == Large(n)
  }

  /** The descriptors of the pages of a zone lead back to its start, that of a large run gives
      its length. */
  ghost predicate Described(zones: map<int, Zone>, spare: seq<int>, usage: map<int, Usage>, hold: map<int, int>,
      b: int) {
    b in hold && if IsZone(zones, spare, b) then Marked(usage, b, hold[b]) else Sized(usage, b, hold[b])
  }

  ghost predicate AllDescribed(zones: map<int, Zone>, spare: seq<int>, usage: map<int, Usage>, hold: map<int, int>) {
    forall b {:trigger Described(zones, spare, usage, hold, b)} :: b in hold ==> Described(zones, spare, usage, hold, b)
  }

  predicate Filed(lists: seq<seq<int>>, i: int, b: int) {
    0 <= i < |lists| && b in lists[i]
  }

  predicate Partial(zones: map<int, Zone>, i: int, b: int) {
    b in zones && zones[b].index == i && zones[b].nfree > 0
  }

  /** Zones with free chunks are on the list of their number, once, and no others are. */
  ghost predicate ListsOk(lists: seq<seq<int>>, zones: map<int, Zone>) {
    && |lists| == NZONES
    && (forall i, b {:trigger Filed(lists, i, b)} {:trigger Partial(zones, i, b)} :: 0 <= i < NZONES ==>
       (Filed(lists, i, b) <==> Partial(zones, i, b)))
    && (forall i {:trigger lists[i]} :: 0 <= i < NZONES ==> Distinct(lists[i]))
  }

  ghost predicate ZoneAt(zones: map<int, Zone>, hold: map<int, int>, b: int, size: nat) {
    b in zones && b in hold && hold[b] == size && SlabZone.ZoneOk(zones[b], b, size)
  }

  ghost predicate ZonesOk(zones: map<int, Zone>, hold: map<int, int>, size: nat) {
    forall b {:trigger ZoneAt(zones, hold, b, size)} :: b in zones ==> ZoneAt(zones, hold, b, size)
  }

  ghost predicate SpareOk(spare: seq<int>, zones: map<int, Zone>, hold: map<int, int>, size: nat) {
    && Distinct(spare)
    && forall b {:trigger b in spare} :: b in spare ==> b in hold && hold[b] == size && b !in zones
  }

  ghost predicate Core(s: Slab, size: nat) {
    && Sizes(size) && FreeAgree(s.pages, s.owner) && HoldOk(s.hold, s.owner)
    && ZonesOk(s.zones, s.hold, size) && SpareOk(s.spare, s.zones, s.hold, size)
    && ListsOk(s.lists, s.zones) && AllDescribed(s.zones, s.spare, s.usage, s.hold)
  }

  /** At most two zones are kept in reserve. */
  ghost predicate Inv(s: Slab, size: nat) {
    Core(s, size) && |s.spare| <= THRESHOLD
  }

  /** What callers own: chunks in use, and page runs that are not zones. */
  predicate Live(s: Slab, a: int) {
    var p := a / PAGE;
    p in s.owner &&
    var b := s.owner[p];
    if b in s.zones then SlabZone.LiveIn(s.zones[b], a) else b in s.hold && b !in s.spare && a == b * PAGE
  }

  /** The bytes at a live address. */
  function Extent(s: Slab, a: int): int
    requires Live(s, a)
  {
    var b := s.owner[a / PAGE];
    if b in s.zones then s.zones[b].chunk else s.hold[b] * PAGE
  }

  lemma {:induction false} RunsApart(hold: map<int, int>, owner: map<int, int>, b: int, d: int)
    requires HoldOk(hold, owner) && b in hold && d in hold && b != d
    ensures b + hold[b] <= d || d + hold[d] <= b
  {
    assert Owns(owner, b, hold[b]) && Owns(owner, d, hold[d]);
    var p := if b < d then d else b;
    assert b <= p < b + hold[b] ==> owner[p] == b;
    assert d <= p < d + hold[d] ==> owner[p] == d;
  }

  /** A live allocation lies within its run of pages. */
  lemma {:induction false} Inside(s: Slab, size: nat, a: int)
    requires Core(s, size) && Live(s, a)
    ensures var b := s.owner[a / PAGE]; b in s.hold && b * PAGE <= a && a + Extent(s, a) <= (b + s.hold[b]) * PAGE
  {
    var b := s.owner[a / PAGE];
    if b in s.zones {
      assert ZoneAt(s.zones, s.hold, b, size);
      SlabZone.ChunkInside(s.zones[b], b, size, a);
    }
  }

  /** Live allocations do not overlap. */
  lemma {:induction false} LiveApart(s: Slab, size: nat, a: int, c: int)
    requires Core(s, size) && Live(s, a) && Live(s, c) && a < c
    ensures a + Extent(s, a) <= c
  {
    var b, d := s.owner[a / PAGE], s.owner[c / PAGE];
    Inside(s, size, a);
    Inside(s, size, c);
    if b == d && b in s.zones {
      SlabZone.ChunksApart(s.zones[b], a, c);
    } else if b != d {
      RunsApart(s.hold, s.owner, b, d);
    }
  }

  /** The page descriptor of a live chunk leads to the header of its zone. */
  lemma {:induction false} DescriptorFindsZone(s: Slab, size: nat, a: int)
    requires Core(s, size) && Live(s, a) && s.owner[a / PAGE] in s.zones
    ensures LeadsTo(s.usage, a / PAGE, s.owner[a / PAGE])
  {
    var b := s.owner[a / PAGE];
    assert ZoneAt(s.zones, s.hold, b, size);
    SlabZone.ChunkInside(s.zones[b], b, size, a);
    assert Described(s.zones, s.spare, s.usage, s.hold, b);
  }

  /** The descriptor of a large allocation gives its length. */
  lemma {:induction false} DescriptorOfLarge(s: Slab, size: nat, a: int)
    requires Core(s, size) && Live(s, a) && s.owner[a / PAGE] !in s.zones
    ensures a / PAGE in s.hold && Sized(s.usage, a / PAGE, s.hold[a / PAGE]) && s.owner[a / PAGE] == a / PAGE
  {
    var b := s.owner[a / PAGE];
    assert a / PAGE == b;
    assert Described(s.zones, s.spare, s.usage, s.hold, b);
  }

  /** A chunk whose size is a power of two up to a page is aligned to it. */
  lemma {:induction false} LiveAligned(s: Slab, size: nat, a: int)
    requires Core(s, size) && Live(s, a) && s.owner[a / PAGE] in s.zones
    requires IsPower(s.zones[s.owner[a / PAGE]].chunk) && s.zones[s.owner[a / PAGE]].chunk <= PAGE
    ensures a % Extent(s, a) == 0
  {
    var b := s.owner[a / PAGE];
    assert ZoneAt(s.zones, s.hold, b, size);
    assert b in s.hold && b > 0;
    SlabZone.ChunkAligned(s.zones[b], b, size, a);
  }

  // --- what operations do to the live allocations

  ghost predicate SameExtents(s: Slab, r: Slab) {
    forall x {:trigger Live(r, x)} :: Live(s, x) && Live(r, x) ==> Extent(r, x) == Extent(s, x)
  }

  ghost predicate Kept(s: Slab, r: Slab) {
    (forall x {:trigger Live(r, x)} :: Live(r, x) <==> Live(s, x)) && SameExtents(s, r)
  }

  ghost predicate Gained(s: Slab, r: Slab, a: int) {
    !Live(s, a) && (forall x {:trigger Live(r, x)} :: Live(r, x) <==> Live(s, x) || x == a) && SameExtents(s, r)
  }

  ghost predicate Lost(s: Slab, r: Slab, a: int) {
    (forall x {:trigger Live(r, x)} :: Live(r, x) <==> Live(s, x) && x != a) && SameExtents(s, r)
  }

  // --- large allocations

  function LargeTaken(s: Slab, n: nat): Slab {
    var b := PageList.Answer(s.pages, n);
    s.(pages := PageList.AfterAlloc(s.pages, n), usage := s.usage[b := Large(n)], hold := s.hold[b := n],
      owner := Claim(s.owner, b, n, b))
  }

  lemma {:induction false} DescribedOthers(s: Slab, size: nat, b: int, usage: map<int, Usage>, hold: map<int, int>)
    requires Core(s, size) && b in s.owner && s.owner[b] == 0 && hold.Keys == s.hold.Keys + {b}
      && (forall c :: c in s.hold ==> hold[c] == s.hold[c])
    requires usage == s.usage[b := Large(hold[b])] && b !in s.hold
    ensures AllDescribed(s.zones, s.spare, usage, hold)
  {
    forall c | c in hold ensures Described(s.zones, s.spare, usage, hold, c) {
      if c == b {
        assert b in s.zones ==> ZoneAt(s.zones, s.hold, b, size);
      } else {
        assert Described(s.zones, s.spare, s.usage, s.hold, c);
        assert Owns(s.owner, c, s.hold[c]);
        if IsZone(s.zones, s.spare, c) {
          forall p | c <= p < c + hold[c] ensures LeadsTo(usage, p, c) {
            assert LeadsTo(s.usage, p, c);
            assert s.owner[p] == c;
          }
        }
      }
    }
  }

  lemma {:induction false} LargeTakenInv(s: Slab, size: nat, n: nat)
    requires Core(s, size) && PageList.Answer(s.pages, n) != 0
    ensures Core(LargeTaken(s, n), size)
    ensures Gained(s, LargeTaken(s, n), PageList.Answer(s.pages, n) * PAGE)
  {
    var b, r := PageList.Answer(s.pages, n), LargeTaken(s, n);
    ClaimOk(s.pages, s.hold, s.owner, n);
    PageList.AllocPages(s.pages, n);
    assert PageList.Holds(s.pages, b);
    DescribedOthers(s, size, b, r.usage, r.hold);
    forall c | c in r.zones ensures ZoneAt(r.zones, r.hold, c, size) { assert ZoneAt(s.zones, s.hold, c, size); }
    assert b !in s.zones by { assert b in s.zones ==> ZoneAt(s.zones, s.hold, b, size); }
    assert 0 !in s.zones by { assert 0 in s.zones ==> ZoneAt(s.zones, s.hold, 0, size); }
    forall x ensures (Live(r, x) <==> Live(s, x) || x == b * PAGE)
      && (Live(s, x) && Live(r, x) ==> Extent(r, x) == Extent(s, x)) {
      var p := x / PAGE;
      assert p in s.owner && s.owner[p] != 0 ==> Covered(s.hold, s.owner, p);
      assert x == b * PAGE ==> p == b;
    }
  }

  function LargeFreed(s: Slab, b: int): Slab
    requires b in s.hold
  {
    s.(pages := PageList.AfterFree(s.pages, b, s.hold[b]), usage := s.usage[b := Large(0)], hold := s.hold - {b},
      owner := Claim(s.owner, b, s.hold[b], 0))
  }

  /** Runs stay described when the descriptors of another run change. */
  lemma {:induction false} DescribedWithout(s: Slab, size: nat, b: int, spare: seq<int>, usage: map<int, Usage>)
    requires Core(s, size) && b in s.hold && b !in s.zones
    requires forall p {:trigger p in usage} :: p in s.usage && !(b <= p < b + s.hold[b]) ==>
      p in usage && usage[p] == s.usage[p]
    requires forall c {:trigger c in spare} :: c != b ==> (c in spare <==> c in s.spare)
    ensures AllDescribed(s.zones, spare, usage, s.hold - {b})
  {
    var hold := s.hold - {b};
    forall c | c in hold ensures Described(s.zones, spare, usage, hold, c) {
      assert Described(s.zones, s.spare, s.usage, s.hold, c);
      RunsApart(s.hold, s.owner, b, c);
      assert s.hold[c] >= 1;
      if IsZone(s.zones, spare, c) {
        forall p | c <= p < c + hold[c] ensures LeadsTo(usage, p, c) { assert LeadsTo(s.usage, p, c); }
      } else {
        assert Sized(s.usage, c, s.hold[c]);
      }
    }
  }

  lemma {:induction false} LargeFreedInv(s: Slab, size: nat, b: int)
    requires Core(s, size) && b in s.hold && !IsZone(s.zones, s.spare, b)
    ensures PageList.Disjoint(s.pages, b, s.hold[b]) && Core(LargeFreed(s, b), size)
    ensures Live(s, b * PAGE) && Lost(s, LargeFreed(s, b), b * PAGE)
  {
    var r := LargeFreed(s, b);
    ReleaseOk(s.pages, s.hold, s.owner, b);
    assert Owns(s.owner, b, s.hold[b]) && s.owner[b] == b;
    assert s.hold[b] >= 1;
    DescribedWithout(s, size, b, s.spare, r.usage);
    forall c | c in r.zones ensures ZoneAt(r.zones, r.hold, c, size) { assert ZoneAt(s.zones, s.hold, c, size); }
    assert b * PAGE / PAGE == b;
    forall x ensures (Live(r, x) <==> Live(s, x) && x != b * PAGE)
      && (Live(s, x) && Live(r, x) ==> Extent(r, x) == Extent(s, x)) {
      var p := x / PAGE;
      assert p in s.owner && s.owner[p] != 0 ==> Covered(s.hold, s.owner, p);
      assert 0 in s.zones ==> ZoneAt(s.zones, s.hold, 0, size);
    }
  }

  // --- chunks

  /** The chunk comes from the first zone of the list; a zone without free chunks leaves it. */
  function ChunkTaken(s: Slab, i: nat): Slab
    requires i < |s.lists| && s.lists[i] != [] && s.lists[i][0] in s.zones
    requires var z := s.zones[s.lists[i][0]]; z.uindex + 1 != z.nmax || z.free != []
  {
    var b := s.lists[i][0];
    var z := s.zones[b];
    s.(zones := s.zones[b := SlabZone.Taken(z)],
      lists := if z.nfree == 1 then s.lists[i := s.lists[i][1..]] else s.lists)
  }

  lemma {:induction false} ChangeZone(s: Slab, size: nat, b: int, z: Zone)
    requires Core(s, size) && b in s.zones && SlabZone.ZoneOk(z, b, size)
    ensures ZonesOk(s.zones[b := z], s.hold, size) && SpareOk(s.spare, s.zones[b := z], s.hold, size)
    ensures AllDescribed(s.zones[b := z], s.spare, s.usage, s.hold)
  {
    var zones := s.zones[b := z];
    assert ZoneAt(s.zones, s.hold, b, size);
    forall c | c in zones ensures ZoneAt(zones, s.hold, c, size) { assert ZoneAt(s.zones, s.hold, c, size); }
    forall c | c in s.hold ensures Described(zones, s.spare, s.usage, s.hold, c) {
      assert Described(s.zones, s.spare, s.usage, s.hold, c);
    }
  }

  /** The lists after a zone got another count of free chunks. */
  lemma {:induction false} ListsChange(lists: seq<seq<int>>, zones: map<int, Zone>, b: int, z: Zone,
      lists2: seq<seq<int>>)
    requires ListsOk(lists, zones) && b in zones && z.index == zones[b].index < NZONES && |lists2| == NZONES
    requires forall i {:trigger lists2[i]} :: 0 <= i < NZONES && i != z.index ==> lists2[i] == lists[i]
    requires Distinct(lists2[z.index])
    requires forall c {:trigger c in lists2[z.index]} :: c in lists2[z.index] <==>
      (if c == b then z.nfree > 0 else c in lists[z.index])
    ensures ListsOk(lists2, zones[b := z])
  {
    var zones2 := zones[b := z];
    forall i, c | 0 <= i < NZONES ensures Filed(lists2, i, c) <==> Partial(zones2, i, c) {
      assert Filed(lists, i, c) <==> Partial(zones, i, c);
    }
  }

  lemma {:induction false} ChunkTakenInv(s: Slab, size: nat, i: nat)
    requires Core(s, size) && i < NZONES && s.lists[i] != []
    ensures s.lists[i][0] in s.zones
    ensures var z := s.zones[s.lists[i][0]];
      ZoneAt(s.zones, s.hold, s.lists[i][0], size) && z.index == i && z.nfree > 0
      && (z.uindex + 1 != z.nmax || z.free != [])
    ensures Core(ChunkTaken(s, i), size)
  {
    var b := s.lists[i][0];
    assert b in s.lists[i] && Filed(s.lists, i, b) && Partial(s.zones, i, b);
    assert ZoneAt(s.zones, s.hold, b, size);
    var z := s.zones[b];
    SlabZone.TakeOk(z, b, size);
    var r := ChunkTaken(s, i);
    ChangeZone(s, size, b, SlabZone.Taken(z));
    TailWithout(s.lists[i]);
    ListsChange(s.lists, s.zones, b, SlabZone.Taken(z), r.lists);
  }

  /** Only the live chunks of one zone may differ. */
  ghost predicate OneZone(s: Slab, r: Slab, b: int) {
    && b in s.zones && b in r.zones && r.owner == s.owner && r.hold == s.hold && r.spare == s.spare
    && r.zones == s.zones[b := r.zones[b]]
    && r.zones[b].chunk == s.zones[b].chunk
  }

  lemma {:induction false} LiveOneZone(s: Slab, r: Slab, size: nat, b: int, x: int)
    requires Core(s, size) && Core(r, size) && b in r.zones && OneZone(s, r, b)
    ensures SlabZone.LiveIn(r.zones[b], x) ==> Live(r, x)
    ensures SlabZone.LiveIn(s.zones[b], x) ==> Live(s, x)
    ensures x / PAGE in s.owner && s.owner[x / PAGE] == b ==>
      (Live(s, x) <==> SlabZone.LiveIn(s.zones[b], x)) && (Live(r, x) <==> SlabZone.LiveIn(r.zones[b], x))
    ensures !(x / PAGE in s.owner && s.owner[x / PAGE] == b) ==> (Live(s, x) <==> Live(r, x))
    ensures Live(s, x) && Live(r, x) ==> Extent(r, x) == Extent(s, x)
  {
    assert ZoneAt(s.zones, s.hold, b, size) && ZoneAt(r.zones, r.hold, b, size);
    assert Owns(s.owner, b, s.hold[b]);
    if SlabZone.IsChunk(r.zones[b], x) { SlabZone.ChunkInside(r.zones[b], b, size, x); assert s.owner[x / PAGE] == b; }
    if SlabZone.IsChunk(s.zones[b], x) { SlabZone.ChunkInside(s.zones[b], b, size, x); assert s.owner[x / PAGE] == b; }
  }

  lemma {:induction false} GainedIn(s: Slab, r: Slab, size: nat, b: int, a: int)
    requires Core(s, size) && Core(r, size) && OneZone(s, r, b) && !SlabZone.LiveIn(s.zones[b], a)
    requires forall x {:trigger SlabZone.LiveIn(r.zones[b], x)} :: SlabZone.LiveIn(r.zones[b], x) <==>
      SlabZone.LiveIn(s.zones[b], x) || x == a
    ensures Gained(s, r, a) && a / PAGE in s.owner && s.owner[a / PAGE] == b
  {
    LiveOneZone(s, r, size, b, a);
    assert SlabZone.LiveIn(r.zones[b], a);
    assert s.owner[a / PAGE] == b by { LiveOwner(r, size, b, a); }
    forall x ensures (Live(r, x) <==> Live(s, x) || x == a)
      && (Live(s, x) && Live(r, x) ==> Extent(r, x) == Extent(s, x)) {
      LiveOneZone(s, r, size, b, x);
    }
  }

  lemma {:induction false} LostIn(s: Slab, r: Slab, size: nat, b: int, a: int)
    requires Core(s, size) && Core(r, size) && OneZone(s, r, b) && SlabZone.LiveIn(s.zones[b], a)
    requires forall x {:trigger SlabZone.LiveIn(r.zones[b], x)} :: SlabZone.LiveIn(r.zones[b], x) <==>
      SlabZone.LiveIn(s.zones[b], x) && x != a
    ensures Lost(s, r, a)
  {
    LiveOwner(s, size, b, a);
    forall x ensures (Live(r, x) <==> Live(s, x) && x != a)
      && (Live(s, x) && Live(r, x) ==> Extent(r, x) == Extent(s, x)) {
      LiveOneZone(s, r, size, b, x);
    }
  }

  /** A live chunk is owned by its zone. */
  lemma {:induction false} LiveOwner(s: Slab, size: nat, b: int, a: int)
    requires Core(s, size) && b in s.zones && SlabZone.LiveIn(s.zones[b], a)
    ensures a / PAGE in s.owner && s.owner[a / PAGE] == b && Live(s, a)
  {
    assert ZoneAt(s.zones, s.hold, b, size);
    SlabZone.ChunkInside(s.zones[b], b, size, a);
    assert Owns(s.owner, b, s.hold[b]);
  }

  lemma {:induction false} ChunkTakenLive(s: Slab, size: nat, i: nat)
    requires Core(s, size) && i < NZONES && s.lists[i] != []
    ensures s.lists[i][0] in s.zones
    ensures var z := s.zones[s.lists[i][0]];
      && (z.uindex + 1 != z.nmax || z.free != []) && Gained(s, ChunkTaken(s, i), SlabZone.Given(z))
      && z.chunk == ChunkOf(i) && SlabZone.Given(z) / PAGE in s.owner
      && s.owner[SlabZone.Given(z) / PAGE] == s.lists[i][0]
  {
    ChunkTakenInv(s, size, i);
    var b := s.lists[i][0];
    SlabZone.TakeOk(s.zones[b], b, size);
    GainedIn(s, ChunkTaken(s, i), size, b, SlabZone.Given(s.zones[b]));
  }

  // --- new zones

  /** A reserve zone is set up for a request and put on its list. */
  function Opened(s: Slab, size: nat, n: nat): Slab
    requires s.spare != [] && 0 < n < ZONE_LIMIT && |s.lists| == NZONES
  {
    ZoneIndexFits(n);
    var b, i := s.spare[0], ZoneIndex(n);
    s.(zones := s.zones[b := SlabZone.NewZone(b, size, n)], spare := s.spare[1..],
      lists := s.lists[i := [b] + s.lists[i]])
  }

  /** A new zone enters the lists. */
  lemma {:induction false} ListsAdd(lists: seq<seq<int>>, zones: map<int, Zone>, b: int, z: Zone, i: nat)
    requires ListsOk(lists, zones) && b !in zones && z.index == i < NZONES && z.nfree > 0
    ensures ListsOk(lists[i := [b] + lists[i]], zones[b := z])
  {
    var lists2, zones2 := lists[i := [b] + lists[i]], zones[b := z];
    assert b !in lists[i] by { assert Filed(lists, i, b) <==> Partial(zones, i, b); }
    forall j, c | 0 <= j < NZONES ensures Filed(lists2, j, c) <==> Partial(zones2, j, c) {
      assert Filed(lists, j, c) <==> Partial(zones, j, c);
    }
    Pushed(lists[i], b);
  }

  lemma {:induction false} Pushed(list: seq<int>, b: int)
    requires Distinct(list) && b !in list
    ensures Distinct([b] + list)
  {
    var r := [b] + list;
    forall k, l | 0 <= k < l < |r| ensures Differ(r[k], r[l]) {
      if k == 0 { var x := list[l - 1]; assert x in list; } else { assert Differ(list[k - 1], list[l - 1]); }
    }
  }

  lemma {:induction false} OpenedInv(s: Slab, size: nat, n: nat)
    requires Core(s, size) && s.spare != [] && 0 < n < Limit(size)
    ensures Core(Opened(s, size, n), size)
  {
    ZoneIndexFits(n);
    var b, i, r := s.spare[0], ZoneIndex(n), Opened(s, size, n);
    assert b in s.spare;
    TailWithout(s.spare);
    SlabZone.NewZoneOk(b, size, n);
    ListsAdd(s.lists, s.zones, b, r.zones[b], i);
    forall c | c in r.zones ensures ZoneAt(r.zones, r.hold, c, size) {
      assert c != b ==> ZoneAt(s.zones, s.hold, c, size);
    }
    forall c | c in r.hold ensures Described(r.zones, r.spare, r.usage, r.hold, c) {
      assert Described(s.zones, s.spare, s.usage, s.hold, c);
    }
  }

  lemma {:induction false} OpenedLive(s: Slab, size: nat, n: nat)
    requires Core(s, size) && s.spare != [] && 0 < n < Limit(size)
    ensures var r, b := Opened(s, size, n), s.spare[0];
      Gained(s, r, r.zones[b].base) && r.zones[b].base / PAGE in s.owner && s.owner[r.zones[b].base / PAGE] == b
        && r.zones[b].chunk == Chunk(n)
  {
    OpenedInv(s, size, n);
    var r, b := Opened(s, size, n), s.spare[0];
    var a := r.zones[b].base;
    assert b in s.spare && b !in s.zones;
    TailWithout(s.spare);
    SlabZone.NewZoneOk(b, size, n);
    assert SlabZone.LiveIn(r.zones[b], a);
    LiveOwner(r, size, b, a);
    forall x ensures (Live(r, x) <==> Live(s, x) || x == a)
      && (Live(s, x) && Live(r, x) ==> Extent(r, x) == Extent(s, x)) {
      var p := x / PAGE;
      assert p in s.owner && s.owner[p] == b ==> (SlabZone.LiveIn(r.zones[b], x) <==> x == a);
    }
  }

  /** Descriptors of the pages of a new zone. */
  function MarkZone(usage: map<int, Usage>, b: int, n: nat): (r: map<int, Usage>)
    ensures forall p {:trigger p in r} {:trigger r[p]} :: if b <= p < b + n then p in r && r[p] == Small(p - b)
      else (p in r <==> p in usage) && (p in usage ==> r[p] == usage[p])
  {
    if n == 0 then usage else MarkZone(usage, b, n - 1)[b + n - 1 := Small(n - 1)]
  }

  /** Pages for another zone. */
  function SpareAdded(s: Slab, size: nat): Slab {
    var b := PageList.Answer(s.pages, size);
    s.(pages := PageList.AfterAlloc(s.pages, size), usage := MarkZone(s.usage, b, size), hold := s.hold[b := size],
       owner := Claim(s.owner, b, size, b), spare := [b] + s.spare)
  }

  lemma {:induction false} DescribedMarked(s: Slab, size: nat, b: int, spare: seq<int>, usage: map<int, Usage>, n: nat)
    requires Core(s, size) && b !in s.hold && n > 0 && AllFree(s.owner, b, n)
    requires usage == MarkZone(s.usage, b, n) && spare == [b] + s.spare
    ensures AllDescribed(s.zones, spare, usage, s.hold[b := n])
  {
    var hold := s.hold[b := n];
    forall c | c in hold ensures Described(s.zones, spare, usage, hold, c) {
      if c == b {
        assert b in spare;
        forall p | b <= p < b + n ensures LeadsTo(usage, p, b) {}
      } else {
        assert Described(s.zones, s.spare, s.usage, s.hold, c);
        assert Owns(s.owner, c, s.hold[c]) && c > 0;
        assert c in spare <==> c in s.spare;
        if IsZone(s.zones, spare, c) {
          forall p | c <= p < c + hold[c] ensures LeadsTo(usage, p, c) {
            assert LeadsTo(s.usage, p, c);
            assert s.owner[p] == c;
            assert p in usage;
          }
        } else {
          assert s.owner[c] == c;
          assert Sized(s.usage, c, s.hold[c]) && c in usage;
        }
      }
    }
  }

  lemma {:induction false} SpareAddedInv(s: Slab, size: nat)
    requires Core(s, size) && PageList.Answer(s.pages, size) != 0
    ensures Core(SpareAdded(s, size), size) && Kept(s, SpareAdded(s, size))
  {
    var b, r := PageList.Answer(s.pages, size), SpareAdded(s, size);
    ClaimOk(s.pages, s.hold, s.owner, size);
    PageList.AllocPages(s.pages, size);
    DescribedMarked(s, size, b, r.spare, r.usage, size);
    assert b !in s.zones by { assert b in s.zones ==> ZoneAt(s.zones, s.hold, b, size); }
    Pushed(s.spare, b);
    forall c | c in r.zones ensures ZoneAt(r.zones, r.hold, c, size) { assert ZoneAt(s.zones, s.hold, c, size); }
    forall x ensures (Live(r, x) <==> Live(s, x)) && (Live(s, x) && Live(r, x) ==> Extent(r, x) == Extent(s, x)) {
      var p := x / PAGE;
      assert p in s.owner && s.owner[p] != 0 ==> Covered(s.hold, s.owner, p);
      assert 0 in s.zones ==> ZoneAt(s.zones, s.hold, 0, size);
    }
  }

  // --- returning a chunk

  function ChunkReturned(s: Slab, b: int, a: int): Slab
    requires b in s.zones && s.zones[b].index < |s.lists|
  {
    var z := s.zones[b];
    s.(zones := s.zones[b := SlabZone.Returned(z, a)],
      lists := if z.nfree == 0 then s.lists[z.index := [b] + s.lists[z.index]] else s.lists)
  }

  lemma {:induction false} ChunkReturnedInv(s: Slab, size: nat, b: int, a: int)
    requires Core(s, size) && b in s.zones && SlabZone.LiveIn(s.zones[b], a)
    ensures ZoneAt(s.zones, s.hold, b, size) && Core(ChunkReturned(s, b, a), size)
  {
    assert ZoneAt(s.zones, s.hold, b, size);
    var z, r := s.zones[b], ChunkReturned(s, b, a);
    SlabZone.ReturnOk(z, b, size, a);
    ChangeZone(s, size, b, SlabZone.Returned(z, a));
    assert Filed(s.lists, z.index, b) <==> Partial(s.zones, z.index, b);
    assert Distinct(s.lists[z.index]);
    if z.nfree == 0 { Pushed(s.lists[z.index], b); }
    ListsChange(s.lists, s.zones, b, SlabZone.Returned(z, a), r.lists);
  }

  lemma {:induction false} ChunkReturnedLive(s: Slab, size: nat, b: int, a: int)
    requires Core(s, size) && b in s.zones && SlabZone.LiveIn(s.zones[b], a)
    ensures ZoneAt(s.zones, s.hold, b, size) && Lost(s, ChunkReturned(s, b, a), a)
  {
    ChunkReturnedInv(s, size, b, a);
    SlabZone.ReturnOk(s.zones[b], b, size, a);
    LostIn(s, ChunkReturned(s, b, a), size, b, a);
  }

  // --- zones without chunks in use

  /** The zone moves from its list to the reserve. */
  function Retired(s: Slab, b: int): Slab
    requires b in s.zones && s.zones[b].index < |s.lists|
  {
    var i := s.zones[b].index;
    s.(zones := s.zones - {b}, lists := s.lists[i := Drop(s.lists[i], b)], spare := [b] + s.spare)
  }

  lemma {:induction false} ListsDrop(lists: seq<seq<int>>, zones: map<int, Zone>, b: int)
    requires ListsOk(lists, zones) && b in zones && zones[b].index < NZONES
    ensures ListsOk(lists[zones[b].index := Drop(lists[zones[b].index], b)], zones - {b})
  {
    var i := zones[b].index;
    var lists2, zones2 := lists[i := Drop(lists[i], b)], zones - {b};
    DropDistinct(lists[i], b);
    forall j, c | 0 <= j < NZONES ensures Filed(lists2, j, c) <==> Partial(zones2, j, c) {
      assert Filed(lists, j, c) <==> Partial(zones, j, c);
    }
  }

  lemma {:induction false} RetiredInv(s: Slab, size: nat, b: int)
    requires Core(s, size) && b in s.zones && s.zones[b].nfree == s.zones[b].nmax
    ensures ZoneAt(s.zones, s.hold, b, size) && Core(Retired(s, b), size) && Kept(s, Retired(s, b))
  {
    assert ZoneAt(s.zones, s.hold, b, size);
    var z, r := s.zones[b], Retired(s, b);
    ListsDrop(s.lists, s.zones, b);
    assert b !in s.spare;
    Pushed(s.spare, b);
    forall c | c in r.zones ensures ZoneAt(r.zones, r.hold, c, size) { assert ZoneAt(s.zones, s.hold, c, size); }
    forall c | c in r.hold ensures Described(r.zones, r.spare, r.usage, r.hold, c) {
      assert Described(s.zones, s.spare, s.usage, s.hold, c);
      assert c in r.spare <==> c == b || c in s.spare;
    }
    forall x ensures (Live(r, x) <==> Live(s, x)) && (Live(s, x) && Live(r, x) ==> Extent(r, x) == Extent(s, x)) {
      SlabZone.AllFree(z, b, size, x);
      assert b in r.spare;
      var p := x / PAGE;
      assert p in s.owner ==> (s.owner[p] in r.spare <==> s.owner[p] == b || s.owner[p] in s.spare);
    }
  }

  function ClearZone(usage: map<int, Usage>, b: int, n: nat): (r: map<int, Usage>)
    ensures forall p {:trigger p in r} {:trigger r[p]} :: if b <= p < b + n then p in r && r[p] == Unused
      else (p in r <==> p in usage) && (p in usage ==> r[p] == usage[p])
  {
    if n == 0 then usage else ClearZone(usage, b, n - 1)[b + n - 1 := Unused]
  }

  /** The first reserve zone goes back to the page allocator. */
  function SpareReleased(s: Slab, size: nat): Slab
    requires s.spare != []
  {
    var b := s.spare[0];
    s.(pages := PageList.AfterFree(s.pages, b, size), usage := ClearZone(s.usage, b, size), hold := s.hold - {b},
       owner := Claim(s.owner, b, size, 0), spare := s.spare[1..])
  }

  lemma {:induction false} SpareReleasedInv(s: Slab, size: nat)
    requires Core(s, size) && s.spare != []
    ensures s.spare[0] > 0 && PageList.Disjoint(s.pages, s.spare[0], size)
    ensures Core(SpareReleased(s, size), size) && Kept(s, SpareReleased(s, size))
  {
    var b, r := s.spare[0], SpareReleased(s, size);
    assert b in s.spare && b in s.hold;
    TailWithout(s.spare);
    ReleaseOk(s.pages, s.hold, s.owner, b);
    DescribedWithout(s, size, b, r.spare, r.usage);
    forall c | c in r.zones ensures ZoneAt(r.zones, r.hold, c, size) { assert ZoneAt(s.zones, s.hold, c, size); }
    assert Owns(s.owner, b, size);
    forall x ensures (Live(r, x) <==> Live(s, x)) && (Live(s, x) && Live(r, x) ==> Extent(r, x) == Extent(s, x)) {
      var p := x / PAGE;
      assert p in s.owner && s.owner[p] != 0 ==> Covered(s.hold, s.owner, p);
      assert 0 in s.zones ==> ZoneAt(s.zones, s.hold, 0, size);
      assert p in s.owner ==> (s.owner[p] in r.spare <==> s.owner[p] in s.spare && s.owner[p] != b);
    }
  }

  // --- rt_malloc and rt_free

  function PagesFor(n: nat): nat { (n + PAGE - 1) / PAGE }

  /** The pages for a request hold it, and one page less would not. */
  lemma {:induction false} PagesHold(n: nat)
    ensures n <= PagesFor(n) * PAGE < n + PAGE
  {
    var m := n + PAGE - 1;
    assert m == m / PAGE * PAGE + m % PAGE;
  }

  /** A chunk from a reserve zone set up for the request. */
  function FromSpare(s: Slab, size: nat, n: nat): (Slab, int)
    requires s.spare != [] && 0 < n < ZONE_LIMIT && |s.lists| == NZONES
  {
    var r := Opened(s, size, n);
    (r, r.zones[s.spare[0]].base)
  }

  /** The state after a request and the address given, 0 for none. */
  ghost function Malloc(s: Slab, size: nat, n: nat): (Slab, int)
    requires Core(s, size)
  {
    if n == 0 then (s, 0)
    else if n >= Limit(size) then
      var b := PageList.Answer(s.pages, PagesFor(n));
      if b == 0 then (s, 0) else (LargeTaken(s, PagesFor(n)), b * PAGE)
    else
      ZoneIndexFits(n);
      var i := ZoneIndex(n);
      if s.lists[i] != [] then
        ChunkTakenInv(s, size, i);
        (ChunkTaken(s, i), SlabZone.Given(s.zones[s.lists[i][0]]))
      else if s.spare != [] then FromSpare(s, size, n)
      else if PageList.Answer(s.pages, size) == 0 then (s, 0)
      else FromSpare(SpareAdded(s, size), size, n)
  }

  /** A request fails only when it is empty or the pages it needs are not there. */
  ghost predicate NoMemory(s: Slab, size: nat, n: nat)
    requires |s.lists| == NZONES
  {
    n == 0
    || (n >= Limit(size) && !PageList.Room(s.pages, PagesFor(n)))
    || (n < Limit(size) && 0 <= ZoneIndex(n) < NZONES && s.lists[ZoneIndex(n)] == [] && s.spare == []
       && !PageList.Room(s.pages, size))
  }

  /** A small request for which there is no zone, no reserve zone and no pages for one: the lock
      of the heap is released before the pages are asked for, and once more on the way out. */
  ghost predicate Leaks(s: Slab, size: nat, n: nat)
    requires |s.lists| == NZONES
  {
    && 0 < n < Limit(size) && 0 <= ZoneIndex(n) < NZONES && s.lists[ZoneIndex(n)] == [] && s.spare == []
    && PageList.Answer(s.pages, size) == 0
  }

  /** What a request promises. */
  ghost predicate Served(s: Slab, size: nat, n: nat, r: Slab, a: int)
    requires |s.lists| == NZONES
  {
    && Inv(r, size) && r.owner.Keys == s.owner.Keys
    && (a == 0 ==> r == s && NoMemory(s, size, n))
    && (a != 0 ==>
       && Gained(s, r, a) && Live(r, a) && n <= Extent(r, a)
       && Extent(r, a) == if n >= Limit(size) then PagesFor(n) * PAGE else Chunk(n))
  }

  lemma {:induction false} FromSpareServes(s: Slab, size: nat, n: nat)
    requires Core(s, size) && s.spare != [] && |s.spare| <= THRESHOLD + 1 && 0 < n < Limit(size)
    ensures var (r, a) := FromSpare(s, size, n);
      Inv(r, size) && Gained(s, r, a) && Live(r, a) && Extent(r, a) == Chunk(n) && a != 0 && r.owner == s.owner
  {
    OpenedInv(s, size, n);
    OpenedLive(s, size, n);
    var (r, a) := FromSpare(s, size, n);
    assert Live(r, a);
    NotNull(r, size, a);
  }

  lemma {:induction false} NotNull(s: Slab, size: nat, a: int)
    requires Core(s, size) && Live(s, a)
    ensures a > 0
  {
    Inside(s, size, a);
    var b := s.owner[a / PAGE];
    assert b in s.hold && b > 0;
  }

  lemma {:induction false} KeptGained(s: Slab, t: Slab, r: Slab, a: int)
    requires Kept(s, t) && Gained(t, r, a)
    ensures Gained(s, r, a)
  {
    assert Live(t, a) <==> Live(s, a);
    forall x ensures (Live(r, x) <==> Live(s, x) || x == a)
      && (Live(s, x) && Live(r, x) ==> Extent(r, x) == Extent(s, x)) {
      assert Live(t, x) <==> Live(s, x);
    }
  }

  /** Every request keeps the invariant, gives memory that nobody has, enough of it, and leaves
      all other allocations as they are; it fails only without memory. */
  lemma {:induction false} MallocServes(s: Slab, size: nat, n: nat)
    requires Inv(s, size)
    ensures Served(s, size, n, Malloc(s, size, n).0, Malloc(s, size, n).1)
  {
    if n == 0 {
    } else if n >= Limit(size) {
      PageList.AllocPages(s.pages, PagesFor(n));
      if PageList.Answer(s.pages, PagesFor(n)) != 0 { LargeServes(s, size, n); }
    } else {
      ZoneIndexFits(n);
      var i := ZoneIndex(n);
      if s.lists[i] != [] {
        ChunkServes(s, size, n);
      } else if s.spare != [] {
        FromSpareServes(s, size, n);
      } else {
        PageList.AllocPages(s.pages, size);
        if PageList.Answer(s.pages, size) != 0 { NewZoneServes(s, size, n); }
      }
    }
  }

  lemma {:induction false} LargeServes(s: Slab, size: nat, n: nat)
    requires Inv(s, size) && n >= Limit(size) && PageList.Answer(s.pages, PagesFor(n)) != 0
    ensures Served(s, size, n, LargeTaken(s, PagesFor(n)), PageList.Answer(s.pages, PagesFor(n)) * PAGE)
  {
    var k := PagesFor(n);
    var b, r := PageList.Answer(s.pages, k), LargeTaken(s, k);
    PagesHold(n);
    LargeTakenInv(s, size, k);
    assert Live(r, b * PAGE);
    NotNull(r, size, b * PAGE);
    assert b * PAGE / PAGE == b;
    ClaimOk(s.pages, s.hold, s.owner, k);
    PageList.AllocPages(s.pages, k);
    assert b in s.owner;
    assert b !in s.zones by { assert b in s.zones ==> ZoneAt(s.zones, s.hold, b, size); }
  }

  lemma {:induction false} ChunkServes(s: Slab, size: nat, n: nat)
    requires Inv(s, size) && 0 < n < Limit(size) && 0 <= ZoneIndex(n) < NZONES && s.lists[ZoneIndex(n)] != []
    ensures s.lists[ZoneIndex(n)][0] in s.zones
    ensures var z := s.zones[s.lists[ZoneIndex(n)][0]];
      (z.uindex + 1 != z.nmax || z.free != []) && Served(s, size, n, ChunkTaken(s, ZoneIndex(n)), SlabZone.Given(z))
  {
    ZoneIndexFits(n);
    var i := ZoneIndex(n);
    ChunkTakenInv(s, size, i);
    ChunkTakenLive(s, size, i);
    var a := SlabZone.Given(s.zones[s.lists[i][0]]);
    assert Live(ChunkTaken(s, i), a);
    NotNull(ChunkTaken(s, i), size, a);
  }

  lemma {:induction false} NewZoneServes(s: Slab, size: nat, n: nat)
    requires Inv(s, size) && 0 < n < Limit(size) && s.spare == [] && PageList.Answer(s.pages, size) != 0
    ensures var r := FromSpare(SpareAdded(s, size), size, n); Served(s, size, n, r.0, r.1)
  {
    SpareAddedInv(s, size);
    var t := SpareAdded(s, size);
    FromSpareServes(t, size, n);
    var r := FromSpare(t, size, n);
    KeptGained(s, t, r.0, r.1);
  }

  /** The zone of a returned chunk leaves its list when all its chunks are free and the list has
      another zone; a third reserve zone goes back to the page allocator. */
  ghost function Settle(s: Slab, size: nat, b: int): Slab
    requires Core(s, size) && b in s.zones && s.zones[b].index < NZONES
  {
    if s.zones[b].nfree == s.zones[b].nmax && |s.lists[s.zones[b].index]| > 1 then
      var t := Retired(s, b);
      if |t.spare| > THRESHOLD then SpareReleased(t, size) else t
    else s
  }

  ghost function Free(s: Slab, size: nat, a: int): Slab
    requires Core(s, size) && (a == 0 || Live(s, a))
  {
    if a == 0 then s else
    var b := s.owner[a / PAGE];
    if b !in s.zones then LargeFreed(s, b)
    else
      ChunkReturnedInv(s, size, b, a);
      Settle(ChunkReturned(s, b, a), size, b)
  }

  lemma {:induction false} SettleInv(s: Slab, size: nat, b: int)
    requires Inv(s, size) && b in s.zones
    ensures ZoneAt(s.zones, s.hold, b, size)
    ensures Inv(Settle(s, size, b), size) && Kept(s, Settle(s, size, b))
      && Settle(s, size, b).owner.Keys == s.owner.Keys
  {
    assert ZoneAt(s.zones, s.hold, b, size);
    if s.zones[b].nfree == s.zones[b].nmax && |s.lists[s.zones[b].index]| > 1 {
      RetiredInv(s, size, b);
      var t := Retired(s, b);
      if |t.spare| > THRESHOLD {
        SpareReleasedInv(t, size);
        KeptTwice(s, t, SpareReleased(t, size));
      }
    }
  }

  lemma {:induction false} KeptTwice(s: Slab, t: Slab, r: Slab)
    requires Kept(s, t) && Kept(t, r)
    ensures Kept(s, r)
  {
    forall x ensures (Live(r, x) <==> Live(s, x)) && (Live(s, x) && Live(r, x) ==> Extent(r, x) == Extent(s, x)) {
      assert Live(t, x) <==> Live(s, x);
    }
  }

  lemma {:induction false} LostKept(s: Slab, t: Slab, r: Slab, a: int)
    requires Lost(s, t, a) && Kept(t, r)
    ensures Lost(s, r, a)
  {
    forall x ensures (Live(r, x) <==> Live(s, x) && x != a)
      && (Live(s, x) && Live(r, x) ==> Extent(r, x) == Extent(s, x)) {
      assert Live(t, x) <==> Live(s, x) && x != a;
    }
  }

  /** A release keeps the invariant, with at most two zones in reserve, and takes exactly that
      allocation away; nothing happens for the null address. */
  lemma {:induction false} FreeTakesAway(s: Slab, size: nat, a: int)
    requires Inv(s, size) && (a == 0 || Live(s, a))
    ensures Inv(Free(s, size, a), size) && Free(s, size, a).owner.Keys == s.owner.Keys
    ensures if a == 0 then Free(s, size, a) == s else Lost(s, Free(s, size, a), a)
  {
    if a != 0 {
      var b := s.owner[a / PAGE];
      if b !in s.zones {
        LargeFreedInv(s, size, b);
      } else {
        ChunkReturnedInv(s, size, b, a);
        ChunkReturnedLive(s, size, b, a);
        var t := ChunkReturned(s, b, a);
        SettleInv(t, size, b);
        LostKept(s, t, Settle(t, size, b), a);
      }
    }
  }

  // --- whole runs

  datatype Event = Request(n: nat) | Release(a: int)

  ghost predicate LegalRun(s: Slab, size: nat, run: seq<Event>)
    requires Inv(s, size)
    decreases |run|
  {
    run != [] ==>
      match run[0]
      case Request(n) => (MallocServes(s, size, n); LegalRun(Malloc(s, size, n).0, size, run[1..]))
      case Release(a) =>
        && (a == 0 || Live(s, a))
        && (FreeTakesAway(s, size, a); LegalRun(Free(s, size, a), size, run[1..]))
  }

  ghost function After(s: Slab, size: nat, run: seq<Event>): Slab
    requires Inv(s, size) && LegalRun(s, size, run)
    decreases |run|
  {
    if run == [] then s else
    match run[0]
    case Request(n) => (MallocServes(s, size, n); After(Malloc(s, size, n).0, size, run[1..]))
    case Release(a) => (FreeTakesAway(s, size, a); After(Free(s, size, a), size, run[1..]))
  }

  /** No sequence of requests and releases breaks the invariant or loses a page. */
  lemma {:induction false} EveryRun(s: Slab, size: nat, run: seq<Event>)
    requires Inv(s, size) && LegalRun(s, size, run)
    ensures Inv(After(s, size, run), size) && After(s, size, run).owner.Keys == s.owner.Keys
    decreases |run|
  {
    if run != [] {
      match run[0]
      case Request(n) =>
        MallocServes(s, size, n);
        EveryRun(Malloc(s, size, n).0, size, run[1..]);
      case Release(a) =>
        FreeTakesAway(s, size, a);
        EveryRun(Free(s, size, a), size, run[1..]);
    }
  }

  /** The value of heap_sem behind a run that begins with `v`. */
  ghost function Permits(s: Slab, size: nat, run: seq<Event>, v: int): int
    requires Inv(s, size) && LegalRun(s, size, run)
    decreases |run|
  {
    if run == [] then v else
    match run[0]
    case Request(n) =>
      (MallocServes(s, size, n);
       Permits(Malloc(s, size, n).0, size, run[1..], if Leaks(s, size, n) then v + 1 else v))
    case Release(a) => (FreeTakesAway(s, size, a); Permits(Free(s, size, a), size, run[1..], v))
  }

  /** The run has a small request that found neither a zone nor pages. */
  ghost predicate Starves(s: Slab, size: nat, run: seq<Event>)
    requires Inv(s, size) && LegalRun(s, size, run)
    decreases |run|
  {
    run != [] &&
      match run[0]
      case Request(n) => Leaks(s, size, n) || (MallocServes(s, size, n); Starves(Malloc(s, size, n).0, size, run[1..]))
      case Release(a) => (FreeTakesAway(s, size, a); Starves(Free(s, size, a), size, run[1..]))
  }

  /** The lock of the heap admits as many holders as before exactly when the run has none. */
  lemma {:induction false} LockOverRuns(s: Slab, size: nat, run: seq<Event>, v: int)
    requires Inv(s, size) && LegalRun(s, size, run)
    ensures Permits(s, size, run, v) >= v
    ensures Permits(s, size, run, v) == v <==> !Starves(s, size, run)
    decreases |run|
  {
    if run != [] {
      match run[0]
      case Request(n) =>
        MallocServes(s, size, n);
        LockOverRuns(Malloc(s, size, n).0, size, run[1..], if Leaks(s, size, n) then v + 1 else v);
      case Release(a) =>
        FreeTakesAway(s, size, a);
        LockOverRuns(Free(s, size, a), size, run[1..], v);
    }
  }
}
