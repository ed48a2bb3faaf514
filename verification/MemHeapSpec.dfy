/** The memory heap as a partition of its pool into blocks, in words of four bytes. A block
    is its header's address; it reaches to the next header, and the last header is the
    always-used tailer. */
module MemHeapSpec {
  import opened Lists
  import opened WordRing

  /** RT_MEMHEAP_SIZE and RT_MEMHEAP_MINIALLOC in words. */
  const HDR: int := 6
  const MIN: int := 3

  /** `at` are the headers in address order, `frees` the free list in list order. */
  datatype HeapOf<S> = Heap(
    start: int,
    pool: int,
    at: S,
    used: set<int>,
    frees: S,
    available: int)

  type Heap = HeapOf<seq<int>>

  // ---- block lists ----

  /** Room for a header at `a` before `b`. */
  predicate Gap(a: int, b: int) { a + HDR <= b }

  ghost predicate Spaced(at: seq<int>) {
    forall i, j {:trigger Gap(at[i], at[j])} :: 0 <= i < j < |at| ==> Gap(at[i], at[j])
  }

  /** Sum of the payloads of the free blocks. */
  function FreeSum(at: seq<int>, used: set<int>): int {
    if |at| < 2 then 0
    else (if at[0] in used then 0 else at[1] - at[0] - HDR) + FreeSum(at[1..], used)
  }

  /** Marking one free block used takes its payload off the sum. */
  lemma {:induction false} FreeSumUse(at: seq<int>, used: set<int>, i: nat)
    requires Spaced(at) && i < |at| - 1 && at[i] !in used
    ensures FreeSum(at, used + {at[i]}) == FreeSum(at, used) - (at[i + 1] - at[i] - HDR)
  {
    if i == 0 {
      forall k | 1 <= k < |at| ensures at[k] != at[0] { assert Gap(at[0], at[k]); }
      FreeSumOther(at[1..], used, at[0]);
    } else {
      assert Gap(at[0], at[i]);
      FreeSumUse(at[1..], used, i - 1);
    }
  }

  lemma {:induction false} FreeSumOther(at: seq<int>, used: set<int>, x: int)
    requires x !in at
    ensures FreeSum(at, used + {x}) == FreeSum(at, used)
  {
    if |at| >= 2 { FreeSumOther(at[1..], used, x); }
  }

  /** A header placed inside block `i` costs the block its header; the part behind it counts
      if it is free. */
  lemma {:induction false} FreeSumSplit(at: seq<int>, used: set<int>, i: nat, n: int)
    requires i < |at| - 1 && n !in used
    ensures FreeSum(Insert(at, i + 1, n), used)
      == FreeSum(at, used) + if at[i] in used then at[i + 1] - n - HDR else -HDR
  {
    var r := Insert(at, i + 1, n);
    if i == 0 {
      assert r[1..] == [n] + at[1..];
      assert r[1..][1..] == at[1..];
    } else {
      FreeSumSplit(at[1..], used, i - 1, n);
      assert r[1..] == Insert(at[1..], i, n);
    }
  }

  /** The reverse: dropping the header of free block `i`. */
  lemma {:induction false} FreeSumDelete(at: seq<int>, used: set<int>, i: nat)
    requires 0 < i < |at| - 1 && at[i] !in used
    ensures FreeSum(at, used) == FreeSum(Delete(at, i), used) + if at[i - 1] in used then at[i + 1] - at[i] - HDR
      else -HDR
  {
    var r := Delete(at, i);
    FreeSumSplit(r, used, i - 1, at[i]);
    assert Insert(r, i, at[i]) == at;
  }

  lemma {:induction false} FreeSumBound(at: seq<int>, used: set<int>)
    requires Spaced(at) && |at| >= 1
    ensures 0 <= FreeSum(at, used) <= at[|at| - 1] - at[0]
  {
    if |at| >= 2 {
      assert Gap(at[0], at[1]);
      FreeSumBound(at[1..], used);
    }
  }

  // ---- invariant ----

  function SizeAt(h: Heap, i: nat): int
    requires i < |h.at| - 1
  {
    h.at[i + 1] - h.at[i] - HDR
  }

  predicate FreeAt(h: Heap, i: nat)
    requires i < |h.at|
  {
    h.at[i] !in h.used
  }

  predicate IsHeader(at: seq<int>, x: int) { x in at }

  /** The headers tile the pool, from its start to the tailer at its end. */
  ghost predicate Tiles(h: Heap) {
    && Spaced(h.at) && |h.at| >= 2
    && h.at[0] == h.start
    && h.at[|h.at| - 1] == h.start + h.pool - HDR
    && h.at[|h.at| - 1] in h.used
    && (forall x {:trigger IsHeader(h.at, x)} :: x in h.used ==> IsHeader(h.at, x))
  }

  predicate Listed(frees: seq<int>, at: seq<int>, used: set<int>, x: int) {
    x in frees <==> x in at && x !in used
  }

  /** The free list holds exactly the unused blocks, once each. */
  ghost predicate FreeListExact(h: Heap) {
    && Distinct(h.frees)
    && (forall x {:trigger Listed(h.frees, h.at, h.used, x)} :: Listed(h.frees, h.at, h.used, x))
  }

  lemma {:induction false} FreeIsUnused(h: Heap, k: nat)
    requires FreeListExact(h) && k < |h.frees|
    ensures h.frees[k] in h.at && h.frees[k] !in h.used
  {
    assert Listed(h.frees, h.at, h.used, h.frees[k]);
  }

  predicate OneUsed(used: set<int>, a: int, b: int) { a in used || b in used }

  ghost predicate NoAdjacentFree(h: Heap) {
    forall i, j {:trigger OneUsed(h.used, h.at[i], h.at[j])} ::
      0 <= i && j == i + 1 < |h.at| ==> OneUsed(h.used, h.at[i], h.at[j])
  }

  /** Everything but coalescing. */
  ghost predicate Partition(h: Heap) {
    Tiles(h) && FreeListExact(h) && h.available == FreeSum(h.at, h.used)
  }

  ghost predicate Inv(h: Heap) {
    Partition(h) && NoAdjacentFree(h)
  }

  function Init(start: int, pool: int): Heap {
    Heap(start, pool, [start, start + pool - HDR], {start + pool - HDR}, [start], pool - 2 * HDR)
  }

  lemma {:induction false} InitInv(start: int, pool: int)
    requires pool >= 2 * HDR
    ensures Inv(Init(start, pool))
  {
    var h := Init(start, pool);
    assert h.at[1..] == [start + pool - HDR];
  }

  // ---- elementary steps; block `i` is `at[i]` ----

  /** Free block `i` becomes used. */
  function Use(h: Heap, i: nat): Heap
    requires i < |h.at| - 1
  {
    h.(used := h.used + {h.at[i]}, frees := Drop(h.frees, h.at[i]), available := h.available - SizeAt(h, i))
  }

  lemma {:induction false} UsePartition(h: Heap, i: nat)
    requires Partition(h) && i < |h.at| - 1 && FreeAt(h, i)
    ensures Partition(Use(h, i))
  {
    FreeSumUse(h.at, h.used, i);
    DropDistinct(h.frees, h.at[i]);
    var r := Use(h, i);
    forall x ensures Listed(r.frees, r.at, r.used, x) { assert Listed(h.frees, h.at, h.used, x); }
  }

  lemma {:induction false} UseCoalesced(h: Heap, i: nat)
    requires NoAdjacentFree(h) && i < |h.at| - 1
    ensures NoAdjacentFree(Use(h, i))
  {
    var r := Use(h, i);
    forall k, l | 0 <= k && l == k + 1 < |r.at| ensures OneUsed(r.used, r.at[k], r.at[l]) {
      assert OneUsed(h.used, h.at[k], h.at[l]);
    }
  }

  /** The end of used block `i`, from a header at `n` on, becomes a free block. */
  function Split(h: Heap, i: nat, n: int): Heap
    requires i < |h.at| - 1
  {
    h.(at := Insert(h.at, i + 1, n), frees := [n] + h.frees, available := h.available + h.at[i + 1] - n - HDR)
  }

  lemma {:induction false} SplitPartition(h: Heap, i: nat, n: int)
    requires Partition(h) && i < |h.at| - 1 && !FreeAt(h, i) && Gap(h.at[i], n) && Gap(n, h.at[i + 1])
    ensures Partition(Split(h, i, n))
  {
    NotAHeader(h.at, i, n);
    assert !IsHeader(h.at, n);
    FreeSumSplit(h.at, h.used, i, n);
    SplitShape(h, i, n);
  }

  lemma {:induction false} SplitShape(h: Heap, i: nat, n: int)
    requires Tiles(h) && FreeListExact(h) && i < |h.at| - 1 && n !in h.at && Gap(h.at[i], n) && Gap(n, h.at[i + 1])
    ensures Tiles(Split(h, i, n)) && FreeListExact(Split(h, i, n))
  {
    InsertContents(h.at, i + 1, n);
    InsertSpaced(h.at, i, n);
    forall k | 0 <= k < |h.frees| ensures Differ(n, h.frees[k]) { FreeIsUnused(h, k); }
    var r := Split(h, i, n);
    assert !IsHeader(h.at, n);
    forall x ensures Listed(r.frees, r.at, r.used, x) && (x in r.used ==> IsHeader(r.at, x)) {
      assert Listed(h.frees, h.at, h.used, x) && (x in h.used ==> IsHeader(h.at, x));
    }
  }

  lemma {:induction false} SplitCoalesced(h: Heap, i: nat, n: int)
    requires NoAdjacentFree(h) && i < |h.at| - 1 && !FreeAt(h, i) && !FreeAt(h, i + 1)
    ensures NoAdjacentFree(Split(h, i, n))
  {
    var r := Split(h, i, n);
    forall k, l | 0 <= k && l == k + 1 < |r.at| ensures OneUsed(r.used, r.at[k], r.at[l]) {
      if l <= i { assert OneUsed(h.used, h.at[k], h.at[l]); }
      else if k > i + 1 { assert OneUsed(h.used, h.at[k - 1], h.at[l - 1]); }
    }
  }

  /** Free block `k`, behind a used block, is taken into that block. */
  function Absorb(h: Heap, k: nat): Heap
    requires k < |h.at| - 1
  {
    h.(at := Delete(h.at, k), frees := Drop(h.frees, h.at[k]), available := h.available - SizeAt(h, k))
  }

  lemma {:induction false} AbsorbPartition(h: Heap, k: nat)
    requires Partition(h) && 0 < k < |h.at| - 1 && !FreeAt(h, k - 1) && FreeAt(h, k)
    ensures Partition(Absorb(h, k))
  {
    DeletePartition(h, k);
    FreeSumDelete(h.at, h.used, k);
  }

  lemma {:induction false} AbsorbCoalesced(h: Heap, k: nat)
    requires NoAdjacentFree(h) && 0 < k < |h.at| - 1 && !FreeAt(h, k - 1)
    ensures NoAdjacentFree(Absorb(h, k))
  {
    var r := Absorb(h, k);
    forall i, j | 0 <= i && j == i + 1 < |r.at| ensures OneUsed(r.used, r.at[i], r.at[j]) {
      if j < k { assert OneUsed(h.used, h.at[i], h.at[j]); }
      else if i >= k { assert OneUsed(h.used, h.at[i + 1], h.at[j + 1]); }
    }
  }

  /** Without the free header `k` the rest still tiles, and the free list loses exactly it. */
  lemma {:induction false} DeletePartition(h: Heap, k: nat)
    requires Partition(h) && 0 < k < |h.at| - 1 && FreeAt(h, k)
    ensures Tiles(h.(at := Delete(h.at, k)))
      && FreeListExact(h.(at := Delete(h.at, k), frees := Drop(h.frees, h.at[k])))
  {
    DeleteContents(h.at, k);
    DropDistinct(h.frees, h.at[k]);
    forall x ensures Listed(Drop(h.frees, h.at[k]), Delete(h.at, k), h.used, x)
      && (x in h.used ==> IsHeader(Delete(h.at, k), x)) {
      assert Listed(h.frees, h.at, h.used, x) && (x in h.used ==> IsHeader(h.at, x));
    }
  }

  /** Used block `i` becomes free; its neighbours may be free too. */
  function Release(h: Heap, i: nat): Heap
    requires i < |h.at| - 1
  {
    h.(used := h.used - {h.at[i]}, frees := [h.at[i]] + h.frees, available := h.available + SizeAt(h, i))
  }

  lemma {:induction false} ReleasePartition(h: Heap, i: nat)
    requires Partition(h) && i < |h.at| - 1 && !FreeAt(h, i)
    ensures Partition(Release(h, i))
  {
    var r := Release(h, i);
    FreeSumUse(h.at, r.used, i);
    assert r.used + {h.at[i]} == h.used;
    assert Gap(h.at[i], h.at[|h.at| - 1]);
    forall k | 0 <= k < |h.frees| ensures Differ(h.at[i], h.frees[k]) { FreeIsUnused(h, k); }
    forall x ensures Listed(r.frees, r.at, r.used, x) { assert Listed(h.frees, h.at, h.used, x); }
  }

  /** Free block `i` is joined to the free block before it. */
  function Join(h: Heap, i: nat): Heap
    requires i < |h.at|
  {
    h.(at := Delete(h.at, i), frees := Drop(h.frees, h.at[i]), available := h.available + HDR)
  }

  lemma {:induction false} JoinPartition(h: Heap, i: nat)
    requires Partition(h) && 0 < i < |h.at| - 1 && FreeAt(h, i) && FreeAt(h, i - 1)
    ensures Partition(Join(h, i))
  {
    DeletePartition(h, i);
    FreeSumDelete(h.at, h.used, i);
  }

  // ---- operations ----

  /** rt_memheap_alloc once a fitting free block is found: the rest is split off if it can
      hold a header and a minimal payload. */
  function Alloc(h: Heap, i: nat, size: int): Heap
    requires i < |h.at| - 1
  {
    if SizeAt(h, i) >= size + HDR + MIN then Split(Use(h, i), i, h.at[i] + HDR + size) else Use(h, i)
  }

  lemma {:induction false} UseInv(h: Heap, i: nat)
    requires Inv(h) && i < |h.at| - 1 && FreeAt(h, i)
    ensures Inv(Use(h, i)) && !FreeAt(Use(h, i), i) && !FreeAt(Use(h, i), i + 1)
  {
    UsePartition(h, i);
    UseCoalesced(h, i);
    assert OneUsed(h.used, h.at[i], h.at[i + 1]);
  }

  lemma {:induction false} SplitInv(h: Heap, i: nat, n: int)
    requires Inv(h) && i < |h.at| - 1 && !FreeAt(h, i) && !FreeAt(h, i + 1) && Gap(h.at[i], n) && Gap(n, h.at[i + 1])
    ensures Inv(Split(h, i, n))
  {
    SplitPartition(h, i, n);
    SplitCoalesced(h, i, n);
  }

  lemma {:induction false} AllocInv(h: Heap, i: nat, size: int)
    requires Inv(h) && i < |h.at| - 1 && FreeAt(h, i) && 0 <= size <= SizeAt(h, i)
    ensures Inv(Alloc(h, i, size))
  {
    UseInv(h, i);
    if SizeAt(h, i) >= size + HDR + MIN { SplitInv(Use(h, i), i, h.at[i] + HDR + size); }
  }

  function JoinLeft(h: Heap, i: nat): Heap
    requires i < |h.at|
  {
    if i > 0 && FreeAt(h, i - 1) then Join(h, i) else h
  }

  function JoinRight(h: Heap, i: nat): Heap
    requires i + 1 < |h.at|
  {
    if FreeAt(h, i + 1) then Join(h, i + 1) else h
  }

  /** Where block `i` is after `JoinLeft`. */
  function Merged(h: Heap, i: nat): nat
    requires i < |h.at|
  {
    if i > 0 && FreeAt(h, i - 1) then i - 1 else i
  }

  /** rt_memheap_free: release, then coalesce to the left and to the right. */
  function Free(h: Heap, i: nat): Heap
    requires i < |h.at| - 1
  {
    var r := Release(h, i);
    JoinRight(JoinLeft(r, i), Merged(r, i))
  }

  /** Only the pairs next to block `i` may be free together. */
  ghost predicate CoalescedBut(h: Heap, i: nat) {
    forall k, l {:trigger OneUsed(h.used, h.at[k], h.at[l])} ::
      0 <= k && l == k + 1 < |h.at| && k != i && l != i ==> OneUsed(h.used, h.at[k], h.at[l])
  }

  lemma {:induction false} FreeInv(h: Heap, i: nat)
    requires Inv(h) && i < |h.at| - 1 && !FreeAt(h, i)
    ensures Inv(Free(h, i)) && Free(h, i).available >= h.available
  {
    var r := Release(h, i);
    ReleasePartition(h, i);
    forall k, l | 0 <= k && l == k + 1 < |r.at| && k != i && l != i ensures OneUsed(r.used, r.at[k], r.at[l]) {
      assert OneUsed(h.used, h.at[k], h.at[l]);
      assert if k < i then Gap(h.at[k], h.at[i]) else Gap(h.at[i], h.at[k]);
      assert if l < i then Gap(h.at[l], h.at[i]) else Gap(h.at[i], h.at[l]);
    }
    JoinLeftInv(r, i);
    JoinRightInv(JoinLeft(r, i), Merged(r, i));
    assert Gap(h.at[i], h.at[i + 1]);
  }

  lemma {:induction false} JoinLeftInv(h: Heap, i: nat)
    requires Partition(h) && i < |h.at| - 1 && FreeAt(h, i) && CoalescedBut(h, i)
    ensures var r, j := JoinLeft(h, i), Merged(h, i);
      && Partition(r) && j < |r.at| - 1 && FreeAt(r, j) && CoalescedBut(r, j) && (j > 0 ==> !FreeAt(r, j - 1))
      && r.available >= h.available
  {
    if i > 0 && FreeAt(h, i - 1) {
      JoinPartition(h, i);
      var r := Join(h, i);
      forall k, l | 0 <= k && l == k + 1 < |r.at| && k != i - 1 && l != i - 1
        ensures OneUsed(r.used, r.at[k], r.at[l]) {
        assert if l < i then OneUsed(h.used, h.at[k], h.at[l]) else OneUsed(h.used, h.at[k + 1], h.at[l + 1]);
      }
      if i > 1 { assert OneUsed(h.used, h.at[i - 2], h.at[i - 1]); }
    }
  }

  lemma {:induction false} JoinRightInv(h: Heap, i: nat)
    requires Partition(h) && i < |h.at| - 1 && FreeAt(h, i) && CoalescedBut(h, i) && (i > 0 ==> !FreeAt(h, i - 1))
    ensures Partition(JoinRight(h, i)) && NoAdjacentFree(JoinRight(h, i)) && JoinRight(h, i).available >= h.available
  {
    var r := JoinRight(h, i);
    if FreeAt(h, i + 1) { JoinPartition(h, i + 1); }
    forall k, l | 0 <= k && l == k + 1 < |r.at| ensures OneUsed(r.used, r.at[k], r.at[l]) {
      if l < i { assert OneUsed(h.used, h.at[k], h.at[l]); }
      else if FreeAt(h, i + 1) && k >= i { assert OneUsed(h.used, h.at[k + 1], h.at[l + 1]); }
      else if k > i { assert OneUsed(h.used, h.at[k], h.at[l]); }
    }
  }

  /** Can used block `i` be resized without moving? */
  predicate InPlace(h: Heap, i: nat, size: int)
    requires i < |h.at| - 1
  {
    size <= SizeAt(h, i) ||
    (i < |h.at| - 2 && FreeAt(h, i + 1) && SizeAt(h, i + 1) + SizeAt(h, i) > size + MIN)
  }

  /** Give block `i` the payload `size`; whatever is behind it becomes one free block. */
  function Cut(h: Heap, i: nat, size: int): Heap
    requires i < |h.at| - 1
  {
    if i < |h.at| - 2 && FreeAt(h, i + 1) then Split(Absorb(h, i + 1), i, h.at[i] + HDR + size)
    else Split(h, i, h.at[i] + HDR + size)
  }

  /** rt_memheap_realloc in place: grow into the free block behind, leave alone, or shrink. */
  function Resize(h: Heap, i: nat, size: int): Heap
    requires i < |h.at| - 1
  {
    if size <= SizeAt(h, i) <= size + HDR + MIN then h else Cut(h, i, size)
  }

  lemma {:induction false} ResizeInv(h: Heap, i: nat, size: int)
    requires Inv(h) && i < |h.at| - 1 && !FreeAt(h, i) && size >= 0 && InPlace(h, i, size)
    ensures Inv(Resize(h, i, size))
  {
    var n := h.at[i] + HDR + size;
    assert i < |h.at| - 2 ==> Gap(h.at[i], h.at[i + 1]) && Gap(h.at[i + 1], h.at[i + 2]);
    if size > SizeAt(h, i) || size + HDR + MIN < SizeAt(h, i) {
      if i < |h.at| - 2 && FreeAt(h, i + 1) {
        assert OneUsed(h.used, h.at[i + 1], h.at[i + 2]);
        AbsorbPartition(h, i + 1);
        AbsorbCoalesced(h, i + 1);
        SplitInv(Absorb(h, i + 1), i, n);
      } else {
        SplitInv(h, i, n);
      }
    }
  }

  /** Freeing what was just allocated restores the blocks and the byte count: a split is
      undone by coalescing. */
  lemma {:induction false} AllocFreeRestores(h: Heap, i: nat, size: int)
    requires Inv(h) && i < |h.at| - 1 && FreeAt(h, i) && 0 <= size <= SizeAt(h, i)
    ensures var r := Free(Alloc(h, i, size), i);
      r.at == h.at && r.used == h.used && r.available == h.available
  {
    hide Free;
    assert OneUsed(h.used, h.at[i], h.at[i + 1]);
    assert i > 0 ==> OneUsed(h.used, h.at[i - 1], h.at[i]);
    var n := h.at[i] + HDR + size;
    if SizeAt(h, i) >= size + HDR + MIN {
      assert n !in h.used by {
        NotAHeader(h.at, i, n);
        assert !IsHeader(h.at, n);
      }
      SplitReleased(h, i, n);
    } else {
      UseReleased(h, i);
    }
  }

  /** With a used left neighbour, freeing is releasing and joining to the right. */
  lemma {:induction false} FreeUnjoinedLeft(h: Heap, i: nat)
    requires i < |h.at| - 1 && (i > 0 ==> h.at[i - 1] in h.used - {h.at[i]})
    ensures Free(h, i) == JoinRight(Release(h, i), i)
  {
  }

  lemma {:induction false} UseReleased(h: Heap, i: nat)
    requires i < |h.at| - 1 && FreeAt(h, i) && !FreeAt(h, i + 1) && (i > 0 ==> !FreeAt(h, i - 1))
    ensures var r := Free(Use(h, i), i); r.at == h.at && r.used == h.used && r.available == h.available
  {
    FreeUnjoinedLeft(Use(h, i), i);
    assert Release(Use(h, i), i).used == h.used;
  }

  lemma {:induction false} SplitReleased(h: Heap, i: nat, n: int)
    requires i < |h.at| - 1 && FreeAt(h, i) && !FreeAt(h, i + 1) && (i > 0 ==> !FreeAt(h, i - 1)) && n !in h.used
    ensures var r := Free(Split(Use(h, i), i, n), i);
      r.at == h.at && r.used == h.used && r.available == h.available
  {
    var m := Split(Use(h, i), i, n);
    FreeUnjoinedLeft(m, i);
    assert Release(m, i).used == h.used;
    assert Delete(m.at, i + 1) == h.at;
  }

  // ---- runs ----

  datatype Op = DoAlloc(i: nat, size: int) | DoFree(i: nat) | DoResize(i: nat, size: int)

  predicate Legal(h: Heap, op: Op) {
    && op.i < |h.at| - 1
    && match op
       case DoAlloc(i, size) => FreeAt(h, i) && 0 <= size <= SizeAt(h, i)
       case DoFree(i) => !FreeAt(h, i)
       case DoResize(i, size) => !FreeAt(h, i) && size >= 0 && InPlace(h, i, size)
  }

  function Next(h: Heap, op: Op): Heap
    requires Legal(h, op)
  {
    match op
    case DoAlloc(i, size) => Alloc(h, i, size)
    case DoFree(i) => Free(h, i)
    case DoResize(i, size) => Resize(h, i, size)
  }

  /** Does the operation take memory? Then the source updates its maximum. */
  predicate Takes(h: Heap, op: Op)
    requires Legal(h, op)
  {
    op.DoAlloc? || (op.DoResize? && op.size > SizeAt(h, op.i))
  }

  lemma {:induction false} NextInv(h: Heap, op: Op)
    requires Inv(h) && Legal(h, op)
    ensures Inv(Next(h, op)) && Next(h, op).pool == h.pool && Next(h, op).start == h.start
    ensures !Takes(h, op) ==> Next(h, op).available >= h.available
  {
    match op
    case DoAlloc(i, size) => AllocInv(h, i, size);
    case DoFree(i) => FreeInv(h, i);
    case DoResize(i, size) => ResizeInv(h, i, size);
  }

  function Max(a: int, b: int): int { if a < b then b else a }

  /** A heap with the maximum the source records and the true high-water mark of its run. */
  datatype System = System(heap: Heap, maxUsed: int, peak: int)

  function Step(s: System, op: Op): System
    requires Legal(s.heap, op)
  {
    var h := Next(s.heap, op);
    var taken := h.pool - h.available;
    System(h, if Takes(s.heap, op) then Max(s.maxUsed, taken) else s.maxUsed, Max(s.peak, taken))
  }

  ghost predicate Reaches(s: System, ops: seq<Op>, t: System)
    decreases |ops|
  {
    if ops == [] then s == t else Legal(s.heap, ops[0]) && Reaches(Step(s, ops[0]), ops[1..], t)
  }

  ghost predicate SystemInv(s: System) {
    Inv(s.heap) && s.maxUsed == s.peak >= s.heap.pool - s.heap.available
  }

  lemma {:induction false} StepInv(s: System, op: Op)
    requires SystemInv(s) && Legal(s.heap, op)
    ensures SystemInv(Step(s, op)) && Step(s, op).heap.pool == s.heap.pool
  {
    NextInv(s.heap, op);
  }

  /** Over every run the blocks tile the pool, the free list is exact, free blocks are
      coalesced and counted, and the recorded maximum is the exact high-water mark. */
  lemma {:induction false} RunInv(s: System, ops: seq<Op>, t: System)
    requires SystemInv(s) && Reaches(s, ops, t)
    ensures SystemInv(t) && t.heap.pool == s.heap.pool
    decreases |ops|
  {
    if ops != [] {
      StepInv(s, ops[0]);
      RunInv(Step(s, ops[0]), ops[1..], t);
    }
  }

  // ---- sequence helpers ----

  lemma {:induction false} InsertSpaced(at: seq<int>, i: nat, n: int)
    requires Spaced(at) && i < |at| - 1 && Gap(at[i], n) && Gap(n, at[i + 1])
    ensures Spaced(Insert(at, i + 1, n))
  {
    var r := Insert(at, i + 1, n);
    forall k, l | 0 <= k < l < |r| ensures Gap(r[k], r[l]) {
      assert k < i ==> Gap(at[k], at[i]);
      assert l > i + 2 ==> Gap(at[i + 1], at[l - 1]);
      assert l <= i ==> Gap(at[k], at[l]);
      assert k > i + 1 ==> Gap(at[k - 1], at[l - 1]);
      assert k <= i && l > i + 1 ==> Gap(at[k], at[l - 1]);
    }
  }

  lemma {:induction false} InsertContents(s: seq<int>, i: nat, n: int)
    requires i <= |s|
    ensures forall x :: x in Insert(s, i, n) <==> x in s || x == n
  {
    var r := Insert(s, i, n);
    forall x | x in s ensures x in r {
      var k :| 0 <= k < |s| && s[k] == x;
      assert r[if k < i then k else k + 1] == x;
    }
    assert r[i] == n;
  }

  lemma {:induction false} DeleteContents(s: seq<int>, i: nat)
    requires Spaced(s) && i < |s|
    ensures Spaced(Delete(s, i)) && forall x :: x in Delete(s, i) <==> x in s && x != s[i]
  {
    var r := Delete(s, i);
    forall k, l | 0 <= k < l < |r| ensures Gap(r[k], r[l]) {
      assert Gap(s[if k < i then k else k + 1], s[if l < i then l else l + 1]);
    }
    forall x | x in s && x != s[i] ensures x in r {
      var k :| 0 <= k < |s| && s[k] == x;
      assert r[if k < i then k else k - 1] == x;
    }
    forall k | 0 <= k < |r| ensures r[k] in s && r[k] != s[i] {
      var l := if k < i then k else k + 1;
      assert r[k] == s[l] && if l < i then Gap(s[l], s[i]) else Gap(s[i], s[l]);
    }
  }

  /** An address strictly inside a block is no header. */
  lemma {:induction false} NotAHeader(at: seq<int>, i: nat, n: int)
    requires Spaced(at) && i < |at| - 1 && at[i] < n < at[i + 1]
    ensures n !in at
  {
    forall k | 0 <= k < |at| ensures at[k] != n {
      assert k < i ==> Gap(at[k], at[i]);
      assert k > i + 1 ==> Gap(at[i + 1], at[k]);
    }
  }
}
