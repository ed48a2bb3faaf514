/** The small-memory heap as a partition into blocks, in words of four bytes. A block is the
    offset of its header; it reaches to the next header, and the last one is `heap_end`. */
module SmallMemSpec {
  import opened WordRing

  /** SIZEOF_STRUCT_MEM and MIN_SIZE_ALIGNED in words. */
  const HDR: int := 3
  const MIN: int := 3

  datatype HeapOf<S> = Heap(at: S, used: set<int>, lfree: int, usedMem: int)

  type Heap = HeapOf<seq<int>>

  predicate Gap(a: int, b: int) { a + HDR <= b }

  ghost predicate Spaced(at: seq<int>) {
    forall i, j {:trigger Gap(at[i], at[j])} :: 0 <= i < j < |at| ==> Gap(at[i], at[j])
  }

  /** Sum of the extents, header included, of the used blocks. */
  function UsedSum(at: seq<int>, used: set<int>): int {
    if |at| < 2 then 0
    else (if at[0] in used then at[1] - at[0] else 0) + UsedSum(at[1..], used)
  }

  lemma {:induction false} UsedSumMark(at: seq<int>, used: set<int>, i: nat)
    requires Spaced(at) && i < |at| - 1 && at[i] !in used
    ensures UsedSum(at, used + {at[i]}) == UsedSum(at, used) + at[i + 1] - at[i]
  {
    if i == 0 {
      forall k | 1 <= k < |at| ensures at[k] != at[0] { assert Gap(at[0], at[k]); }
      UsedSumOther(at[1..], used, at[0]);
    } else {
      assert Gap(at[0], at[i]);
      UsedSumMark(at[1..], used, i - 1);
    }
  }

  lemma {:induction false} UsedSumOther(at: seq<int>, used: set<int>, x: int)
    requires x !in at
    ensures UsedSum(at, used + {x}) == UsedSum(at, used)
  {
    if |at| >= 2 { UsedSumOther(at[1..], used, x); }
  }

  /** A free header placed in block `i` takes the part behind it off a used block. */
  lemma {:induction false} UsedSumSplit(at: seq<int>, used: set<int>, i: nat, n: int)
    requires i < |at| - 1 && n !in used
    ensures UsedSum(Insert(at, i + 1, n), used) == UsedSum(at, used) - if at[i] in used then at[i + 1] - n else 0
  {
    var r := Insert(at, i + 1, n);
    if i == 0 {
      assert r[1..] == [n] + at[1..];
      assert r[1..][1..] == at[1..];
    } else {
      UsedSumSplit(at[1..], used, i - 1, n);
      assert r[1..] == Insert(at[1..], i, n);
    }
  }

  lemma UsedSumDelete(at: seq<int>, used: set<int>, i: nat)
    requires 0 < i < |at| - 1 && at[i] !in used && at[i - 1] !in used
    ensures UsedSum(Delete(at, i), used) == UsedSum(at, used)
  {
    var r := Delete(at, i);
    UsedSumSplit(r, used, i - 1, at[i]);
    assert Insert(r, i, at[i]) == at;
  }

  // ---- invariants ----

  function End(h: Heap): int
    requires |h.at| >= 1
  {
    h.at[|h.at| - 1]
  }

  function SizeAt(h: Heap, i: nat): int
    requires i < |h.at| - 1
  {
    h.at[i + 1] - h.at[i] - HDR
  }

  predicate FreeAt(h: Heap, i: nat)
    requires i < |h.at|
  {
    h.at[i] !in h.used
  }

  predicate IsHeader(at: seq<int>, x: int) { x in at }

  /** The headers tile the heap; `heap_end` is marked used. */
  ghost predicate Tiles(h: Heap) {
    && Spaced(h.at) && |h.at| >= 2 && h.at[0] == 0 && End(h) in h.used
    && (forall x {:trigger IsHeader(h.at, x)} :: x in h.used ==> IsHeader(h.at, x))
  }

  predicate OneUsed(used: set<int>, a: int, b: int) { a in used || b in used }

  ghost predicate NoAdjacentFree(h: Heap) {
    forall i, j {:trigger OneUsed(h.used, h.at[i], h.at[j])} ::
      0 <= i && j == i + 1 < |h.at| ==> OneUsed(h.used, h.at[i], h.at[j])
  }

  /** `lfree` is a live free header or `heap_end`. */
  ghost predicate LfreeLive(h: Heap) {
    |h.at| >= 1 && h.lfree in h.at && (h.lfree in h.used ==> h.lfree == End(h))
  }

  ghost predicate Counted(h: Heap) {
    Tiles(h) && h.usedMem == UsedSum(h.at, h.used)
  }

  ghost predicate Partition(h: Heap) {
    Counted(h) && LfreeLive(h)
  }

  ghost predicate Inv(h: Heap) {
    Partition(h) && NoAdjacentFree(h)
  }

  /** `lfree` is the lowest free block. */
  ghost predicate Lowest(h: Heap) {
    forall i {:trigger FreeAt(h, i)} :: 0 <= i < |h.at| && FreeAt(h, i) ==> h.lfree <= h.at[i]
  }

  function Init(end: int): Heap { Heap([0, end], {end}, 0, 0) }

  lemma {:induction false} InitInv(end: int)
    requires end >= HDR
    ensures Inv(Init(end)) && Lowest(Init(end))
  {
    var h := Init(end);
    assert h.at[1..] == [end];
  }

  // ---- elementary steps ----

  function Mark(h: Heap, i: nat): Heap
    requires i < |h.at| - 1
  {
    h.(used := h.used + {h.at[i]}, usedMem := h.usedMem + h.at[i + 1] - h.at[i])
  }

  /** A free header at `n` inside block `i`. */
  function Split(h: Heap, i: nat, n: int): Heap
    requires i < |h.at| - 1
  {
    h.(at := Insert(h.at, i + 1, n), usedMem := h.usedMem - if h.at[i] in h.used then h.at[i + 1] - n else 0)
  }

  function Unmark(h: Heap, i: nat): Heap
    requires i < |h.at| - 1
  {
    h.(used := h.used - {h.at[i]}, usedMem := h.usedMem - (h.at[i + 1] - h.at[i]),
       lfree := if h.at[i] < h.lfree then h.at[i] else h.lfree)
  }

  /** Free block `i` is joined to the free block before it; `lfree` follows. */
  function Join(h: Heap, i: nat): Heap
    requires 0 < i < |h.at|
  {
    h.(at := Delete(h.at, i), lfree := if h.lfree == h.at[i] then h.at[i - 1] else h.lfree)
  }

  lemma {:induction false} InsertedHeader(at: seq<int>, i: nat, n: int)
    requires Spaced(at) && i < |at| - 1 && Gap(at[i], n) && Gap(n, at[i + 1])
    ensures Spaced(Insert(at, i + 1, n)) && n !in at
    ensures forall x :: x in Insert(at, i + 1, n) <==> x in at || x == n
  {
    var r := Insert(at, i + 1, n);
    forall k, l | 0 <= k < l < |r| ensures Gap(r[k], r[l]) {
      assert k < i ==> Gap(at[k], at[i]);
      assert l > i + 2 ==> Gap(at[i + 1], at[l - 1]);
      assert l <= i ==> Gap(at[k], at[l]);
      assert k > i + 1 ==> Gap(at[k - 1], at[l - 1]);
      assert k <= i && l > i + 1 ==> Gap(at[k], at[l - 1]);
    }
    forall k | 0 <= k < |at| ensures at[k] != n && at[k] in r {
      assert k < i ==> Gap(at[k], at[i]);
      assert k > i + 1 ==> Gap(at[i + 1], at[k]);
      assert r[if k <= i then k else k + 1] == at[k];
    }
    assert r[i + 1] == n;
    forall k | 0 <= k < |r| ensures r[k] in at || r[k] == n {
      assert k != i + 1 ==> r[k] == at[if k <= i then k else k - 1];
    }
  }

  lemma {:induction false} DeletedHeader(at: seq<int>, i: nat)
    requires Spaced(at) && i < |at|
    ensures Spaced(Delete(at, i)) && forall x :: x in Delete(at, i) <==> x in at && x != at[i]
  {
    var r := Delete(at, i);
    forall k, l | 0 <= k < l < |r| ensures Gap(r[k], r[l]) {
      assert Gap(at[if k < i then k else k + 1], at[if l < i then l else l + 1]);
    }
    forall x | x in at && x != at[i] ensures x in r {
      var k :| 0 <= k < |at| && at[k] == x;
      assert r[if k < i then k else k - 1] == x;
    }
    forall k | 0 <= k < |r| ensures r[k] in at && r[k] != at[i] {
      var l := if k < i then k else k + 1;
      assert r[k] == at[l] && if l < i then Gap(at[l], at[i]) else Gap(at[i], at[l]);
    }
  }

  lemma {:induction false} SplitPartition(h: Heap, i: nat, n: int)
    requires Partition(h) && i < |h.at| - 1 && Gap(h.at[i], n) && Gap(n, h.at[i + 1])
    ensures Partition(Split(h, i, n)) && FreeAt(Split(h, i, n), i + 1)
  {
    InsertedHeader(h.at, i, n);
    assert !IsHeader(h.at, n);
    UsedSumSplit(h.at, h.used, i, n);
    var r := Split(h, i, n);
    forall x | x in r.used ensures IsHeader(r.at, x) { assert IsHeader(h.at, x); }
  }

  lemma {:induction false} JoinPartition(h: Heap, i: nat)
    requires Partition(h) && 0 < i < |h.at| - 1 && FreeAt(h, i) && FreeAt(h, i - 1)
    ensures Partition(Join(h, i))
  {
    DeletedHeader(h.at, i);
    UsedSumDelete(h.at, h.used, i);
    var r := Join(h, i);
    assert Gap(h.at[i], End(h)) && Gap(h.at[i - 1], h.at[i]);
    forall x | x in r.used ensures IsHeader(r.at, x) { assert IsHeader(h.at, x); }
    assert r.at[i - 1] == h.at[i - 1];
  }

  lemma {:induction false} UnmarkPartition(h: Heap, i: nat)
    requires Partition(h) && i < |h.at| - 1 && !FreeAt(h, i)
    ensures Partition(Unmark(h, i))
  {
    var r := Unmark(h, i);
    UsedSumMark(h.at, r.used, i);
    assert r.used + {h.at[i]} == h.used;
    assert Gap(h.at[i], End(h));
    forall x | x in r.used ensures IsHeader(r.at, x) { assert IsHeader(h.at, x); }
    var y := h.at[i];
    assert y in h.at;
  }

  lemma {:induction false} MarkCounted(h: Heap, i: nat)
    requires Counted(h) && i < |h.at| - 1 && FreeAt(h, i)
    ensures Counted(Mark(h, i))
  {
    UsedSumMark(h.at, h.used, i);
    var r, y := Mark(h, i), h.at[i];
    assert y in h.at;
    forall x | x in r.used ensures IsHeader(r.at, x) { assert IsHeader(h.at, x); }
  }

  // ---- rt_malloc ----

  /** The loop that advances `lfree`: the first free block from the `i`-th on, or `heap_end`. */
  function FirstFree(at: seq<int>, used: set<int>, i: nat): (k: nat)
    requires i < |at|
    ensures i <= k < |at| && (at[k] in used ==> k == |at| - 1)
    ensures forall j :: i <= j < k ==> at[j] in used
    decreases |at| - i
  {
    if at[i] !in used || i == |at| - 1 then i else FirstFree(at, used, i + 1)
  }

  /** Free block `i` is taken; the rest is split off if it can hold a header and a minimal
      payload. */
  function Taken(h: Heap, i: nat, size: int): Heap
    requires i < |h.at| - 1
  {
    if SizeAt(h, i) >= size + HDR + MIN then Mark(Split(h, i, h.at[i] + HDR + size), i) else Mark(h, i)
  }

  function Malloc(h: Heap, i: nat, size: int): Heap
    requires i < |h.at| - 1
  {
    var r := Taken(h, i, size);
    if h.lfree == h.at[i] then r.(lfree := r.at[FirstFree(r.at, r.used, i)]) else r
  }

  lemma {:induction false} TakenKeeps(h: Heap, i: nat, size: int)
    requires Inv(h) && i < |h.at| - 1 && FreeAt(h, i) && 0 <= size <= SizeAt(h, i)
    ensures var r := Taken(h, i, size);
      && Counted(r) && NoAdjacentFree(r) && i < |r.at| - 1 && r.at[i] == h.at[i] && End(r) == End(h)
      && r.lfree == h.lfree
      && (forall k :: 0 <= k <= i ==> r.at[k] == h.at[k])
      && (forall x :: x in h.at ==> x in r.at)
      && (forall x :: x in h.at && x != h.at[i] ==> (x in r.used <==> x in h.used))
  {
    var n := h.at[i] + HDR + size;
    if SizeAt(h, i) >= size + HDR + MIN {
      InsertedHeader(h.at, i, n);
      SplitPartition(h, i, n);
      MarkCounted(Split(h, i, n), i);
    } else {
      MarkCounted(h, i);
    }
    TakenCoalesced(h, i, size);
  }

  lemma {:induction false} TakenCoalesced(h: Heap, i: nat, size: int)
    requires NoAdjacentFree(h) && i < |h.at| - 1 && FreeAt(h, i)
    ensures NoAdjacentFree(Taken(h, i, size))
  {
    var r := Taken(h, i, size);
    assert OneUsed(h.used, h.at[i], h.at[i + 1]);
    forall k, l | 0 <= k && l == k + 1 < |r.at| ensures OneUsed(r.used, r.at[k], r.at[l]) {
      if SizeAt(h, i) >= size + HDR + MIN {
        if l <= i { assert OneUsed(h.used, h.at[k], h.at[l]); }
        else if k > i + 1 { assert OneUsed(h.used, h.at[k - 1], h.at[l - 1]); }
      } else {
        assert OneUsed(h.used, h.at[k], h.at[l]);
      }
    }
  }

  lemma {:induction false} MallocInv(h: Heap, i: nat, size: int)
    requires Inv(h) && i < |h.at| - 1 && FreeAt(h, i) && 0 <= size <= SizeAt(h, i)
    ensures Inv(Malloc(h, i, size))
  {
    TakenKeeps(h, i, size);
    var t, r := Taken(h, i, size), Malloc(h, i, size);
    if h.lfree == h.at[i] {
      var y := t.at[FirstFree(t.at, t.used, i)];
      assert y in t.at;
    } else {
      assert h.lfree in t.at && (h.lfree in t.used <==> h.lfree in h.used);
    }
    assert r.at == t.at && r.used == t.used;
    forall k, l | 0 <= k && l == k + 1 < |r.at| ensures OneUsed(r.used, r.at[k], r.at[l]) {
      assert OneUsed(t.used, t.at[k], t.at[l]);
    }
  }

  lemma {:induction false} MallocLowest(h: Heap, i: nat, size: int)
    requires Inv(h) && Lowest(h) && i < |h.at| - 1 && FreeAt(h, i) && 0 <= size <= SizeAt(h, i)
    ensures Lowest(Malloc(h, i, size))
  {
    TakenKeeps(h, i, size);
    var t, r := Taken(h, i, size), Malloc(h, i, size);
    forall k | 0 <= k < |r.at| && FreeAt(r, k) ensures r.lfree <= r.at[k] {
      if k < i {
        assert h.at[k] == r.at[k] && Gap(h.at[k], h.at[i]);
        assert FreeAt(h, k);
      } else if h.lfree == h.at[i] {
        var f := FirstFree(t.at, t.used, i);
        assert f < k ==> Gap(t.at[f], t.at[k]);
      } else {
        assert k > i ==> Gap(t.at[i], t.at[k]);
      }
    }
  }

  // ---- plug_holes, rt_free, the splitting branch of rt_realloc ----

  function JoinNext(h: Heap, i: nat): Heap
    requires i + 1 < |h.at|
  {
    if FreeAt(h, i + 1) then Join(h, i + 1) else h
  }

  function JoinPrev(h: Heap, i: nat): Heap
    requires i < |h.at|
  {
    if i > 0 && FreeAt(h, i - 1) then Join(h, i) else h
  }

  /** plug_holes on free block `i`. */
  function Plug(h: Heap, i: nat): Heap
    requires i + 1 < |h.at|
  {
    JoinPrev(JoinNext(h, i), i)
  }

  function Free(h: Heap, i: nat): Heap
    requires i < |h.at| - 1
  {
    Plug(Unmark(h, i), i)
  }

  function Shrink(h: Heap, i: nat, size: int): Heap
    requires i < |h.at| - 1
  {
    Plug(Split(h, i, h.at[i] + HDR + size), i + 1)
  }

  /** Only the pairs next to block `i` may be free together. */
  ghost predicate CoalescedBut(h: Heap, i: nat) {
    forall k, l {:trigger OneUsed(h.used, h.at[k], h.at[l])} ::
      0 <= k && l == k + 1 < |h.at| && k != i && l != i ==> OneUsed(h.used, h.at[k], h.at[l])
  }

  lemma {:induction false} JoinNextKeeps(h: Heap, i: nat)
    requires Partition(h) && i < |h.at| - 1 && FreeAt(h, i) && CoalescedBut(h, i)
    ensures var r := JoinNext(h, i);
      && Partition(r) && i < |r.at| - 1 && FreeAt(r, i) && !FreeAt(r, i + 1) && CoalescedBut(r, i)
      && r.usedMem == h.usedMem
      && (Lowest(h) ==> Lowest(r)) && (i > 0 ==> r.at[i - 1] == h.at[i - 1]) && r.used == h.used
  {
    var r := JoinNext(h, i);
    if FreeAt(h, i + 1) {
      JoinPartition(h, i + 1);
      assert i + 2 < |h.at| - 1 ==> OneUsed(h.used, h.at[i + 1], h.at[i + 2]);
      forall k, l | 0 <= k && l == k + 1 < |r.at| && k != i && l != i ensures OneUsed(r.used, r.at[k], r.at[l]) {
        assert if l < i then OneUsed(h.used, h.at[k], h.at[l]) else OneUsed(h.used, h.at[k + 1], h.at[l + 1]);
      }
      if i + 2 < |h.at| - 1 { assert r.at[i + 1] == h.at[i + 2]; }
      JoinLowest(h, i + 1);
    }
  }

  lemma {:induction false} JoinLowest(h: Heap, i: nat)
    requires Partition(h) && 0 < i < |h.at| - 1 && FreeAt(h, i) && FreeAt(h, i - 1)
    ensures Lowest(h) ==> Lowest(Join(h, i))
  {
    var r := Join(h, i);
    assert Gap(h.at[i - 1], h.at[i]);
    if Lowest(h) {
      assert FreeAt(h, i - 1);
      forall k | 0 <= k < |r.at| && FreeAt(r, k) ensures r.lfree <= r.at[k] {
        assert FreeAt(h, if k < i then k else k + 1);
      }
    }
  }

  lemma {:induction false} PlugKeeps(h: Heap, i: nat)
    requires Partition(h) && i < |h.at| - 1 && FreeAt(h, i) && CoalescedBut(h, i)
    ensures Inv(Plug(h, i)) && Plug(h, i).usedMem == h.usedMem && (Lowest(h) ==> Lowest(Plug(h, i)))
  {
    JoinNextKeeps(h, i);
    var m, r := JoinNext(h, i), Plug(h, i);
    if i > 0 && FreeAt(m, i - 1) {
      JoinPartition(m, i);
      JoinLowest(m, i);
      assert i > 1 ==> OneUsed(m.used, m.at[i - 2], m.at[i - 1]);
      forall k, l | 0 <= k && l == k + 1 < |r.at| ensures OneUsed(r.used, r.at[k], r.at[l]) {
        if l < i - 1 { assert OneUsed(m.used, m.at[k], m.at[l]); }
        else if k >= i { assert OneUsed(m.used, m.at[k + 1], m.at[l + 1]); }
      }
    } else {
      forall k, l | 0 <= k && l == k + 1 < |r.at| ensures OneUsed(r.used, r.at[k], r.at[l]) {
        if k != i && l != i { assert OneUsed(m.used, m.at[k], m.at[l]); }
      }
    }
  }

  lemma {:induction false} FreeInv(h: Heap, i: nat)
    requires Inv(h) && i < |h.at| - 1 && !FreeAt(h, i)
    ensures Inv(Free(h, i)) && Free(h, i).usedMem <= h.usedMem && (Lowest(h) ==> Lowest(Free(h, i)))
  {
    var r := Unmark(h, i);
    UnmarkPartition(h, i);
    assert Gap(h.at[i], h.at[i + 1]);
    forall k, l | 0 <= k && l == k + 1 < |r.at| && k != i && l != i ensures OneUsed(r.used, r.at[k], r.at[l]) {
      assert OneUsed(h.used, h.at[k], h.at[l]);
      assert if k < i then Gap(h.at[k], h.at[i]) else Gap(h.at[i], h.at[k]);
      assert if l < i then Gap(h.at[l], h.at[i]) else Gap(h.at[i], h.at[l]);
    }
    if Lowest(h) {
      forall k | 0 <= k < |r.at| && FreeAt(r, k) ensures r.lfree <= r.at[k] {
        assert k < i ==> Gap(h.at[k], h.at[i]);
        assert k > i ==> Gap(h.at[i], h.at[k]);
        assert k != i ==> FreeAt(h, k);
      }
    }
    PlugKeeps(r, i);
  }

  lemma {:induction false} ShrinkInv(h: Heap, i: nat, size: int)
    requires Inv(h) && i < |h.at| - 1 && !FreeAt(h, i) && 0 <= size && size + HDR <= SizeAt(h, i)
    ensures Inv(Shrink(h, i, size)) && Shrink(h, i, size).usedMem <= h.usedMem
  {
    var n := h.at[i] + HDR + size;
    var r := Split(h, i, n);
    SplitPartition(h, i, n);
    forall k, l | 0 <= k && l == k + 1 < |r.at| && k != i + 1 && l != i + 1 ensures OneUsed(r.used, r.at[k], r.at[l]) {
      assert if l <= i then OneUsed(h.used, h.at[k], h.at[l]) else OneUsed(h.used, h.at[k - 1], h.at[l - 1]);
    }
    PlugKeeps(r, i + 1);
  }

  /** What the splitting branch does to the block list and to `lfree`. */
  lemma {:induction false} ShrinkFields(h: Heap, i: nat, size: int)
    requires Inv(h) && i < |h.at| - 1 && !FreeAt(h, i) && 0 <= size && size + HDR <= SizeAt(h, i)
    ensures var n, r := h.at[i] + HDR + size, Shrink(h, i, size);
      && r.used == h.used && n !in h.used
      && r.at == (if FreeAt(h, i + 1) then Delete(Insert(h.at, i + 1, n), i + 2) else Insert(h.at, i + 1, n))
      && r.lfree == if FreeAt(h, i + 1) && h.lfree == h.at[i + 1] then n else h.lfree
  {
    var n := h.at[i] + HDR + size;
    InsertedHeader(h.at, i, n);
    assert !IsHeader(h.at, n);
  }

  /** The lowest-free property survives a shrinking reallocation exactly when the freed tail
      is not below `lfree`, or is joined to the block `lfree` points to. */
  lemma {:induction false} ShrinkLowest(h: Heap, i: nat, size: int)
    requires Inv(h) && Lowest(h) && i < |h.at| - 1 && !FreeAt(h, i) && 0 <= size && size + HDR <= SizeAt(h, i)
    ensures Lowest(Shrink(h, i, size)) <==>
      h.lfree < h.at[i] + HDR + size || (FreeAt(h, i + 1) && h.lfree == h.at[i + 1])
  {
    var n, r := h.at[i] + HDR + size, Shrink(h, i, size);
    ShrinkFields(h, i, size);
    InsertedHeader(h.at, i, n);
    assert r.at[i + 1] == n && FreeAt(r, i + 1);
    assert h.lfree in h.at;
    if h.lfree < n || (FreeAt(h, i + 1) && h.lfree == h.at[i + 1]) {
      forall k | 0 <= k < |r.at| && FreeAt(r, k) ensures r.lfree <= r.at[k] {
        if k != i + 1 {
          var l := if k <= i then k else if FreeAt(h, i + 1) then k else k - 1;
          assert r.at[k] == h.at[l] && FreeAt(h, l);
        }
      }
    }
  }

  // ---- first fit ----

  /** Block `i` is free, large enough, and within the loop bound of rt_malloc. */
  predicate Candidate(h: Heap, i: nat, size: int)
    requires |h.at| >= 2
  {
    i < |h.at| - 1 && FreeAt(h, i) && SizeAt(h, i) >= size && h.at[i] < End(h) - HDR - size
  }

  /** The loop bound misses exactly one kind of fitting block: an exact fit that ends at
      `heap_end`. */
  lemma {:induction false} BoundMisses(h: Heap, i: nat, size: int)
    requires Tiles(h) && i < |h.at| - 1 && FreeAt(h, i) && SizeAt(h, i) >= size
    ensures !Candidate(h, i, size) <==> h.at[i + 1] == End(h) && SizeAt(h, i) == size
  {
    assert i + 1 < |h.at| - 1 ==> Gap(h.at[i + 1], End(h));
  }

  /** What the search of rt_malloc finds: the first candidate not below `lfree`. */
  ghost predicate Found(h: Heap, i: nat, size: int)
    requires |h.at| >= 2
  {
    Candidate(h, i, size) && h.lfree <= h.at[i]
      && forall j :: 0 <= j < i && h.lfree <= h.at[j] ==> !Candidate(h, j, size)
  }

  ghost predicate NotFound(h: Heap, size: int)
    requires |h.at| >= 2
  {
    forall j :: 0 <= j < |h.at| && h.lfree <= h.at[j] ==> !Candidate(h, j, size)
  }

  /** With `lfree` the lowest free block, rt_malloc finds the lowest fitting block, and fails
      only if nothing fits but possibly the exact fit that ends at `heap_end`. */
  lemma {:induction false} FirstFitComplete(h: Heap, size: int)
    requires Tiles(h) && Lowest(h)
    ensures forall i: nat :: Found(h, i, size) ==>
      forall j :: 0 <= j < i && FreeAt(h, j) ==> SizeAt(h, j) < size
    ensures NotFound(h, size) ==>
      forall j :: 0 <= j < |h.at| - 1 && FreeAt(h, j) && SizeAt(h, j) >= size ==>
        h.at[j + 1] == End(h) && SizeAt(h, j) == size
  {
    forall i: nat | Found(h, i, size) ensures forall j :: 0 <= j < i && FreeAt(h, j) ==> SizeAt(h, j) < size {
      forall j | 0 <= j < i && FreeAt(h, j) ensures SizeAt(h, j) < size {
        assert Gap(h.at[i], End(h));
        assert j + 1 < i ==> Gap(h.at[j + 1], h.at[i]);
        if SizeAt(h, j) >= size { BoundMisses(h, j, size); }
      }
    }
    if NotFound(h, size) {
      forall j | 0 <= j < |h.at| - 1 && FreeAt(h, j) && SizeAt(h, j) >= size
        ensures h.at[j + 1] == End(h) && SizeAt(h, j) == size {
        BoundMisses(h, j, size);
      }
    }
  }

  // ---- runs ----

  datatype Op = DoMalloc(i: nat, size: int) | DoFree(i: nat) | DoShrink(i: nat, size: int)

  predicate Legal(h: Heap, op: Op) {
    && op.i < |h.at| - 1
    && match op
       case DoMalloc(i, size) => FreeAt(h, i) && 0 <= size <= SizeAt(h, i)
       case DoFree(i) => !FreeAt(h, i)
       case DoShrink(i, size) => !FreeAt(h, i) && 0 <= size && size + HDR + MIN < SizeAt(h, i)
  }

  function Next(h: Heap, op: Op): Heap
    requires Legal(h, op)
  {
    match op
    case DoMalloc(i, size) => Malloc(h, i, size)
    case DoFree(i) => Free(h, i)
    case DoShrink(i, size) => Shrink(h, i, size)
  }

  /** A heap with the maximum the source records and the true high-water mark. */
  datatype System = System(heap: Heap, maxMem: int, peak: int)

  function Max(a: int, b: int): int { if a < b then b else a }

  function Step(s: System, op: Op): System
    requires Legal(s.heap, op)
  {
    var h := Next(s.heap, op);
    System(h, if op.DoMalloc? then Max(s.maxMem, h.usedMem) else s.maxMem, Max(s.peak, h.usedMem))
  }

  ghost predicate SystemInv(s: System) {
    Inv(s.heap) && s.maxMem == s.peak >= s.heap.usedMem
  }

  lemma {:induction false} StepInv(s: System, op: Op)
    requires SystemInv(s) && Legal(s.heap, op)
    ensures SystemInv(Step(s, op))
    ensures Lowest(s.heap) && !op.DoShrink? ==> Lowest(Step(s, op).heap)
  {
    match op
    case DoMalloc(i, size) =>
      MallocInv(s.heap, i, size);
      if Lowest(s.heap) { MallocLowest(s.heap, i, size); }
    case DoFree(i) => FreeInv(s.heap, i);
    case DoShrink(i, size) => ShrinkInv(s.heap, i, size);
  }

  ghost predicate Reaches(s: System, ops: seq<Op>, t: System)
    decreases |ops|
  {
    if ops == [] then s == t else Legal(s.heap, ops[0]) && Reaches(Step(s, ops[0]), ops[1..], t)
  }

  /** Over every run the blocks tile the heap, free blocks are coalesced, `used_mem` counts
      the used extents and `max_mem` is their exact high-water mark, and `lfree` is live; over
      runs without a shrinking reallocation it is the lowest free block. */
  lemma {:induction false} RunInv(s: System, ops: seq<Op>, t: System)
    requires SystemInv(s) && Reaches(s, ops, t)
    ensures SystemInv(t)
    ensures Lowest(s.heap) && (forall k :: 0 <= k < |ops| ==> !ops[k].DoShrink?) ==> Lowest(t.heap)
    decreases |ops|
  {
    if ops != [] {
      StepInv(s, ops[0]);
      RunInv(Step(s, ops[0]), ops[1..], t);
    }
  }

  /** A shrinking reallocation frees nothing below `lfree`, or joins it to the block there. */
  predicate TailAbove(h: Heap, op: Op)
    requires Legal(h, op)
  {
    op.DoShrink? ==> h.lfree < h.at[op.i] + HDR + op.size || (FreeAt(h, op.i + 1) && h.lfree == h.at[op.i + 1])
  }

  ghost predicate Run(s: System, ops: seq<Op>)
    decreases |ops|
  {
    ops != [] ==> Legal(s.heap, ops[0]) && Run(Step(s, ops[0]), ops[1..])
  }

  ghost predicate LowestThroughout(s: System, ops: seq<Op>)
    requires Run(s, ops)
    decreases |ops|
  {
    Lowest(s.heap) && (ops != [] ==> LowestThroughout(Step(s, ops[0]), ops[1..]))
  }

  ghost predicate TailsAbove(s: System, ops: seq<Op>)
    requires Run(s, ops)
    decreases |ops|
  {
    ops != [] ==> TailAbove(s.heap, ops[0]) && TailsAbove(Step(s, ops[0]), ops[1..])
  }

  /** `lfree` is the lowest free block throughout a run exactly when no shrinking reallocation
      of it frees a tail below `lfree`. */
  lemma {:induction false} RunLowest(s: System, ops: seq<Op>)
    requires SystemInv(s) && Lowest(s.heap) && Run(s, ops)
    ensures LowestThroughout(s, ops) <==> TailsAbove(s, ops)
    decreases |ops|
  {
    if ops != [] {
      StepInv(s, ops[0]);
      if ops[0].DoShrink? { ShrinkLowest(s.heap, ops[0].i, ops[0].size); }
      if Lowest(Step(s, ops[0]).heap) { RunLowest(Step(s, ops[0]), ops[1..]); }
    }
  }

  lemma {:induction false} TwoTaken(h: Heap)
    requires h == Heap([0, 20, 30], {0, 30}, 20, 20)
    ensures Found(h, 1, 5) && Malloc(h, 1, 5) == Heap([0, 20, 30], {0, 20, 30}, 30, 30)
  {
    var r := Taken(h, 1, 5);
    assert r.used == {0, 20, 30} && r.at == h.at;
    assert FirstFree(r.at, r.used, 1) == 2;
  }

  /** A run from a heap of 30 words: two blocks are found and taken, the first one is shrunk,
      and malloc would start its search behind the freed tail. */
  lemma LowestCanFail()
    ensures var s, ops := System(Init(30), 0, 0), [DoMalloc(0, 17), DoMalloc(1, 5), DoShrink(0, 4)];
      && Run(s, ops) && !LowestThroughout(s, ops)
      && Found(s.heap, 0, 17) && Found(Malloc(s.heap, 0, 17), 1, 5)
  {
    var s0, h1, h2 := System(Init(30), 0, 0), Heap([0, 20, 30], {0, 30}, 20, 20),
      Heap([0, 20, 30], {0, 20, 30}, 30, 30);
    var ops := [DoMalloc(0, 17), DoMalloc(1, 5), DoShrink(0, 4)];
    InitInv(30);
    var r := Taken(s0.heap, 0, 17);
    assert r.at == [0, 20, 30] && r.used == {0, 30};
    assert FirstFree(r.at, r.used, 0) == 1;
    assert Next(s0.heap, ops[0]) == h1 && Found(s0.heap, 0, 17);
    TwoTaken(h1);
    var s1 := Step(s0, ops[0]);
    var s2 := Step(s1, ops[1]);
    assert s1.heap == h1 && s2.heap == h2 && Legal(h2, ops[2]) && !TailAbove(h2, ops[2]);
    hide Init, Malloc, Found, Step;
    assert ops[2..][1..] == [] && ops[1..][1..] == ops[2..] && ops[2..][0] == ops[2] && ops[1..][0] == ops[1];
    assert Run(Step(s2, ops[2]), []);
    assert Run(s2, ops[2..]) && !TailsAbove(s2, ops[2..]);
    assert Run(s1, ops[1..]) && !TailsAbove(s1, ops[1..]);
    assert Run(s0, ops) && !TailsAbove(s0, ops);
    RunLowest(s0, ops);
  }
}
