/** The memory heap working in place on its pool. Sizes and addresses are in words. */
module MemHeap {
  import opened Lists
  import opened WordRing
  import opened MemHeapSpec
  import opened MemHeapThreads
  import opened MemHeapLive

  /** Words for a request in bytes: aligned, and at least the minimal payload. */
  function Words(bytes: nat): int {
    var w := (bytes + 3) / 4;
    if w < MIN then MIN else w
  }

  /** The words hold the bytes, and not a word more than that and the minimal payload need. */
  lemma {:induction false} WordsHold(bytes: nat)
    ensures bytes <= 4 * Words(bytes) && MIN <= Words(bytes)
    ensures Words(bytes) == MIN || 4 * (Words(bytes) - 1) < bytes
  {
    var w := (bytes + 3) / 4;
    assert 4 * w <= bytes + 3 < 4 * w + 4;
  }

  /** The free-list header and the block headers. */
  function Nodes(pool: int, at: seq<int>): set<int> {
    if at == [] then {pool} else Nodes(pool, at[1..]) + {at[0]}
  }

  lemma {:induction false} InNodes(pool: int, at: seq<int>)
    ensures forall x :: x in Nodes(pool, at) <==> x == pool || x in at
  {
    if at != [] {
      InNodes(pool, at[1..]);
      assert forall x :: x in at <==> x == at[0] || x in at[1..];
    }
  }

  /** Heap `h` lies in memory `m`, its free-list header at `pool` below its blocks. */
  ghost predicate LiesIn(m: Memory, pool: int, h: Heap) {
    && 0 < pool && pool + 6 <= h.start && h.start + h.pool <= |m|
    && Threads(m, Nodes(pool, h.at), pool, h.at, h.frees, h.used)
  }

  predicate InPayload(h: Heap, j: nat, x: int)
    requires j < |h.at| - 1
  {
    h.at[j] + HDR <= x < h.at[j + 1]
  }

  /** The payloads of the used blocks other than block `i` keep their contents. */
  ghost predicate OthersKept(h: Heap, m: Memory, w: Memory, i: int) {
    |w| == |m| && forall j, x {:trigger InPayload(h, j, x)} ::
      0 <= j < |h.at| - 1 && j != i && !FreeAt(h, j) && InPayload(h, j, x) && 0 <= x < |m| ==> w[x] == m[x]
  }

  lemma {:induction false} SpacedNodes(pool: int, at: seq<int>, m: Memory)
    requires Spaced(at) && 0 < pool && |at| > 0 && pool + 6 <= at[0] && at[|at| - 1] + 6 <= |m|
    ensures Apart(Nodes(pool, at)) && Fits(m, Nodes(pool, at)) && pool !in at && Distinct(at)
      && Among(at, Nodes(pool, at))
    ensures pool in Nodes(pool, at)
  {
    InNodes(pool, at);
    forall k | 0 <= k < |at| ensures pool + 6 <= at[k] && at[k] + 6 <= |m| {
      assert k > 0 ==> Gap(at[0], at[k]);
      assert k < |at| - 1 ==> Gap(at[k], at[|at| - 1]);
    }
    forall a, b | a in Nodes(pool, at) && b in Nodes(pool, at) && a != b ensures Far(a, b) {
      if a != pool && b != pool {
        var k :| 0 <= k < |at| && at[k] == a;
        var l :| 0 <= l < |at| && at[l] == b;
        assert if k < l then Gap(at[k], at[l]) else Gap(at[l], at[k]);
      }
    }
    forall k, l | 0 <= k < l < |at| ensures Differ(at[k], at[l]) { assert Gap(at[k], at[l]); }
  }

  /** The headers of a partitioned heap leave room for each other. */
  lemma {:induction false} HeapRoom(m: Memory, pool: int, h: Heap)
    requires Tiles(h) && FreeListExact(h) && 0 < pool && pool + 6 <= h.start && h.start + h.pool <= |m|
    ensures Room(m, Nodes(pool, h.at), pool, h.at, h.frees)
  {
    SpacedNodes(pool, h.at, m);
    InNodes(pool, h.at);
    var s := FreeRing(pool, h.frees);
    forall k | 0 <= k < |h.frees| ensures h.frees[k] in h.at { FreeIsUnused(h, k); }
    forall k, l | 0 <= k < l < |s| ensures Differ(s[k], s[l]) {
      if k > 0 { assert Differ(h.frees[k - 1], h.frees[l - 1]); } else { FreeIsUnused(h, l - 1); }
    }
  }

  lemma {:induction false} DropIsDelete(s: seq<int>, k: nat)
    requires Distinct(s) && k < |s|
    ensures Drop(s, s[k]) == Delete(s, k)
  {
    if k == 0 {
      forall l | 1 <= l < |s| ensures s[l] != s[0] { assert Differ(s[0], s[l]); }
      DropAbsent(s[1..], s[0]);
    } else {
      assert Differ(s[0], s[k]);
      DropIsDelete(s[1..], k - 1);
    }
  }

  /** A payload word lies in no header. */
  lemma {:induction false} PayloadOutside(pool: int, h: Heap, j: nat, x: int)
    requires Tiles(h) && pool + 6 <= h.start && j < |h.at| - 1 && InPayload(h, j, x)
    ensures Outside(Nodes(pool, h.at), x)
  {
    InNodes(pool, h.at);
    forall a | a in Nodes(pool, h.at) ensures !(a <= x < a + 6) {
      if a == pool {
        assert j > 0 ==> Gap(h.at[0], h.at[j]);
      } else {
        var k :| 0 <= k < |h.at| && h.at[k] == a;
        assert k < j ==> Gap(h.at[k], h.at[j]);
        assert k > j + 1 ==> Gap(h.at[j + 1], h.at[k]);
      }
    }
  }

  /** `v` is a set of non-overlapping headers that includes these. */
  ghost predicate Headers(m: Memory, v: set<int>, pool: int, at: seq<int>, frees: seq<int>) {
    Apart(v) && Fits(m, v) && pool in v && Among(at, v) && Among(frees, v)
  }

  /** The same threads seen with another set of headers. */
  lemma {:induction false} Rebase(m: Memory, u: set<int>, v: set<int>, pool: int, at: seq<int>, frees: seq<int>,
      used: set<int>)
    requires Threads(m, u, pool, at, frees, used)
    requires Headers(m, v, pool, at, frees)
    ensures Threads(m, v, pool, at, frees, used)
  {
    var s := FreeRing(pool, frees);
    forall k | 0 <= k < |s| ensures s[k] in v { assert k > 0 ==> s[k] == frees[k - 1]; }
  }

  /** The set of headers with one more inside block `i`. */
  lemma {:induction false} OneMoreHeader(m: Memory, pool: int, h: Heap, i: nat, n: int)
    requires Tiles(h) && FreeListExact(h) && 0 < pool && pool + 6 <= h.start && h.start + h.pool <= |m|
    requires i < |h.at| - 1 && Gap(h.at[i], n) && Gap(n, h.at[i + 1])
    ensures n !in h.at && n !in h.frees && n !in h.used && n != pool
    ensures Nodes(pool, Insert(h.at, i + 1, n)) == Nodes(pool, h.at) + {n}
    ensures Headers(m, Nodes(pool, h.at) + {n}, pool, h.at, h.frees)
  {
    var r := Insert(h.at, i + 1, n);
    NotAHeader(h.at, i, n);
    assert !IsHeader(h.at, n);
    InsertSpaced(h.at, i, n);
    InsertContents(h.at, i + 1, n);
    SpacedNodes(pool, r, m);
    InNodes(pool, r);
    InNodes(pool, h.at);
    assert i > 0 ==> Gap(h.at[0], h.at[i]);
    forall k | 0 <= k < |h.frees| ensures h.frees[k] in h.at && h.frees[k] != n { FreeIsUnused(h, k); }
    forall x ensures x in Nodes(pool, r) <==> x in Nodes(pool, h.at) + {n} {}
    assert Nodes(pool, r) == Nodes(pool, h.at) + {n};
    forall k | 0 <= k < |h.at| ensures h.at[k] in Nodes(pool, r) { var x := h.at[k]; assert x in h.at; }
  }

  /** First fit in list order: `k` free blocks are too small. */
  ghost predicate TooSmall(h: Heap, size: int, k: int) {
    0 <= k <= |h.frees| && forall j, i :: 0 <= j < k && 0 <= i < |h.at| - 1 && h.at[i] == h.frees[j] ==>
      SizeAt(h, i) < size
  }

  /** Block `i` is the first fit. */
  ghost predicate FirstFit(h: Heap, size: int, i: nat) {
    i < |h.at| - 1 && size <= SizeAt(h, i)
      && exists k :: 0 <= k < |h.frees| && h.frees[k] == h.at[i] && TooSmall(h, size, k)
  }

  lemma KeptTwice(m: Memory, w: Memory, z: Memory, u: set<int>)
    requires Kept(m, w, u) && Kept(w, z, u)
    ensures Kept(m, z, u)
  {
  }

  lemma {:induction false} KeptAll(m: Memory, w: Memory, pool: int, h: Heap, i: int)
    requires Tiles(h) && pool + 6 <= h.start && Kept(m, w, Nodes(pool, h.at))
    ensures OthersKept(h, m, w, i)
  {
    forall j, x | 0 <= j < |h.at| - 1 && j != i && InPayload(h, j, x) && 0 <= x < |m| ensures w[x] == m[x] {
      PayloadOutside(pool, h, j, x);
    }
  }

  /** Used payloads are in no header, not even one being placed in free space. */
  lemma {:induction false} KeptOthers(m: Memory, w: Memory, pool: int, h: Heap, i: nat, n: int)
    requires Tiles(h) && pool + 6 <= h.start && h.start + h.pool <= |m| && i < |h.at| - 1
    requires Kept(m, w, Nodes(pool, h.at) + {n}) && h.at[i] < n && n + 6 <= h.at[i + 1]
    ensures OthersKept(h, m, w, i)
  {
    forall j, x | 0 <= j < |h.at| - 1 && j != i && InPayload(h, j, x) && 0 <= x < |m| ensures w[x] == m[x] {
      PayloadOutside(pool, h, j, x);
      assert if j < i then j + 1 < i ==> Gap(h.at[j + 1], h.at[i]) else i + 1 < j ==> Gap(h.at[i + 1], h.at[j]);
      assert Outside(Nodes(pool, h.at) + {n}, x);
    }
  }

  lemma {:induction false} ChainAt(m: Memory, pool: int, h: Heap, i: nat)
    requires LiesIn(m, pool, h) && |h.at| >= 2 && i < |h.at|
    ensures 0 <= h.at[i] && h.at[i] + 6 <= |m|
    ensures m[h.at[i] + NEXT] == h.at[Succ(i, |h.at|)] && m[h.at[i] + NEXT + 1] == h.at[Pred(i, |h.at|)]
    ensures m[h.at[i]] == if FreeAt(h, i) then MAGIC else MAGIC + USED
  {
    LinkedInBounds(m, h.at, NEXT, i);
    assert Marked(m, h.at[i], h.used, pool);
  }

  /** The first node of the free list, and what follows a node. */
  lemma {:induction false} FreeListAt(m: Memory, pool: int, h: Heap, k: nat)
    requires LiesIn(m, pool, h) && k <= |h.frees|
    ensures var s := FreeRing(pool, h.frees); 0 <= s[k] && s[k] + 6 <= |m| && m[s[k] + NEXT_FREE] == s[Succ(k, |s|)]
  {
    LinkedInBounds(m, FreeRing(pool, h.frees), NEXT_FREE, k);
  }

  function IndexOf(s: seq<int>, x: int): (i: nat)
    requires x in s
    ensures i < |s| && s[i] == x
  {
    if s[0] == x then 0 else 1 + IndexOf(s[1..], x)
  }

  /** Where a free block is in the chain; it is not the tailer. */
  lemma {:induction false} FreeIndex(h: Heap, k: nat) returns (i: nat)
    requires Tiles(h) && FreeListExact(h) && k < |h.frees|
    ensures i < |h.at| - 1 && h.at[i] == h.frees[k] && FreeAt(h, i)
  {
    FreeIsUnused(h, k);
    i := IndexOf(h.at, h.frees[k]);
  }

  lemma {:induction false} SameIndex(at: seq<int>, i: nat, j: nat)
    requires Spaced(at) && i < |at| && j < |at| && at[i] == at[j]
    ensures i == j
  {
    assert i < j ==> Gap(at[i], at[j]);
    assert j < i ==> Gap(at[j], at[i]);
  }

  class MemHeap {
    /** Address of the free-list header in the heap's control block. */
    const pool: int
    var mem: Memory
    var poolSize: int
    var available: int
    var maxUsed: int
    ghost var sys: System

    ghost predicate Valid()
      reads this
    {
      && LiesIn(mem, pool, sys.heap)
      && SystemInv(sys)
      && poolSize == sys.heap.pool && available == sys.heap.available && maxUsed == sys.maxUsed
    }

    /** Records the high-water mark after taking memory. */
    method Record()
      modifies this`maxUsed
      ensures maxUsed == Max(old(maxUsed), poolSize - available)
    {
      if poolSize - available > maxUsed { maxUsed := poolSize - available; }
    }

    method Link(a: int, n: int, o: nat)
      requires 0 <= a && a + 6 <= |mem| && 0 <= n && n + 6 <= |mem| && o < 5
      requires 0 <= mem[a + o] && mem[a + o] + 6 <= |mem|
      modifies this`mem
      ensures mem == LinkAfter(old(mem), a, n, o)
    {
      var b := mem[a + o];
      mem := mem[n + o + 1 := a];
      mem := mem[n + o := b];
      mem := mem[b + o + 1 := n];
      mem := mem[a + o := n];
    }

    method Remove(x: int, o: nat)
      requires 0 <= x && x + 6 <= |mem| && o < 5
      requires 0 <= mem[x + o] && mem[x + o] + 6 <= |mem| && 0 <= mem[x + o + 1] && mem[x + o + 1] + 6 <= |mem|
      modifies this`mem
      ensures mem == Unlink(old(mem), x, o)
    {
      var next, prev := mem[x + o], mem[x + o + 1];
      mem := mem[next + o + 1 := prev];
      mem := mem[prev + o := next];
    }

    /** Takes free block `i`, the `k`-th of the free list, out of the free list. */
    method TakeFree(a: int, ghost u: set<int>, ghost at: seq<int>, ghost frees: seq<int>, ghost used: set<int>,
        ghost k: nat)
      requires Threads(mem, u, pool, at, frees, used) && k < |frees| && frees[k] == a
      modifies this`mem
      ensures Threads(mem, u, pool, at, Delete(frees, k), used) && Kept(old(mem), mem, u)
    {
      FreeOut(mem, u, pool, at, frees, used, k);
      Remove(a, NEXT_FREE);
    }

    method PutFree(a: int, ghost u: set<int>, ghost at: seq<int>, ghost frees: seq<int>, ghost used: set<int>)
      requires Threads(mem, u, pool, at, frees, used) && a in u && a != pool && a !in frees
      modifies this`mem
      ensures Threads(mem, u, pool, at, [a] + frees, used) && Kept(old(mem), mem, u)
    {
      FreeIn(mem, u, pool, at, frees, used, a);
      Link(pool, a, NEXT_FREE);
    }

    /** Writes a free header at `n` and chains it behind block `i`. */
    method NewBlock(a: int, n: int, ghost u: set<int>, ghost at: seq<int>, ghost frees: seq<int>, ghost used: set<int>,
        ghost i: nat)
      requires Threads(mem, u, pool, at, frees, used) && i < |at| && at[i] == a
      requires n in u && n != pool && n !in at && n !in frees && n !in used
      modifies this`mem
      ensures Threads(mem, u, pool, Insert(at, i + 1, n), frees, used) && Kept(old(mem), mem, u)
    {
      NewHeader(mem, u, pool, at, frees, used, n);
      mem := mem[n := MAGIC];
      mem := mem[n + POOL := pool];
      ChainIn(mem, u, pool, at, frees, used, i, n);
      Link(a, n, NEXT);
    }
  
    /** Takes a block out of the free list and clears its free links. */
    method Detach(a: int, ghost u: set<int>, ghost at: seq<int>, ghost frees: seq<int>, ghost used: set<int>,
        ghost k: nat)
      requires Threads(mem, u, pool, at, frees, used) && k < |frees| && frees[k] == a
      modifies this`mem
      ensures Threads(mem, u, pool, at, Delete(frees, k), used) && Kept(old(mem), mem, u)
    {
      FreeNode(mem, u, pool, at, frees, used, k);
      TakeFree(a, u, at, frees, used, k);
      ClearLinks(mem, u, pool, at, Delete(frees, k), used, a);
      mem := mem[a + NEXT_FREE := 0];
      mem := mem[a + NEXT_FREE + 1 := 0];
    }

    /** Splits the found free block `i` at `n`: the front leaves the free list, the rest enters. */
    method SplitFound(a: int, n: int, ghost u: set<int>, ghost h: Heap, ghost i: nat, ghost k: nat)
      requires Threads(mem, u, pool, h.at, h.frees, h.used) && i < |h.at| && k < |h.frees| && h.at[i] == a == h.frees[k]
      requires n in u && n != pool && n !in h.at && n !in h.frees && n !in h.used
      modifies this`mem
      ensures Threads(mem, u, pool, Insert(h.at, i + 1, n), [n] + Delete(h.frees, k), h.used) && Kept(old(mem), mem, u)
    {
      NewBlock(a, n, u, h.at, h.frees, h.used, i);
      Detach(a, u, Insert(h.at, i + 1, n), h.frees, h.used, k);
      PutFree(n, u, Insert(h.at, i + 1, n), Delete(h.frees, k), h.used);
    }

    /** Marks block `i` used. */
    method MarkUsed(a: int, ghost u: set<int>, ghost at: seq<int>, ghost frees: seq<int>, ghost used: set<int>,
        ghost i: nat)
      requires Threads(mem, u, pool, at, frees, used) && i < |at| && at[i] == a && a !in used
      modifies this`mem
      ensures Threads(mem, u, pool, at, frees, used + {a}) && Kept(old(mem), mem, u)
    {
      SetMark(mem, u, pool, at, frees, used, i, used + {a});
      assert Marked(mem, at[i], used, pool);
      mem := mem[a := mem[a] + USED];
    }

    method AllocSplit(a: int, size: int, ghost h: Heap, ghost i: nat, ghost k: nat)
      requires LiesIn(mem, pool, h) && Tiles(h) && FreeListExact(h)
      requires i < |h.at| - 1 && k < |h.frees| && h.at[i] == a == h.frees[k] && SizeAt(h, i) >= size + HDR && size >= 0
      modifies this`mem
      ensures LiesIn(mem, pool, Split(Use(h, i), i, a + HDR + size)) && OthersKept(h, old(mem), mem, i)
    {
      FreeIsUnused(h, k);
      DropIsDelete(h.frees, k);
      var n := a + size + HDR;
      OneMoreHeader(mem, pool, h, i, n);
      ghost var u, at, frees := Nodes(pool, h.at) + {n}, Insert(h.at, i + 1, n), [n] + Delete(h.frees, k);
      Rebase(mem, Nodes(pool, h.at), u, pool, h.at, h.frees, h.used);
      SplitFound(a, n, u, h, i, k);
      ghost var m1 := mem;
      MarkUsed(a, u, at, frees, h.used, i);
      KeptTwice(old(mem), m1, mem, u);
      KeptOthers(old(mem), mem, pool, h, i, n);
    }

    method AllocWhole(a: int, ghost h: Heap, ghost i: nat, ghost k: nat)
      requires LiesIn(mem, pool, h) && Tiles(h) && FreeListExact(h)
      requires i < |h.at| - 1 && k < |h.frees| && h.at[i] == a == h.frees[k]
      modifies this`mem
      ensures LiesIn(mem, pool, Use(h, i)) && OthersKept(h, old(mem), mem, i)
    {
      FreeIsUnused(h, k);
      DropIsDelete(h.frees, k);
      ghost var u := Nodes(pool, h.at);
      Detach(a, u, h.at, h.frees, h.used, k);
      ghost var m1 := mem;
      MarkUsed(a, u, h.at, Delete(h.frees, k), h.used, i);
      KeptTwice(old(mem), m1, mem, u);
      KeptAll(old(mem), mem, pool, h, i);
    }

    /** The found free block is taken; the rest is split off if it is worth a block. */
    method AllocBlock(a: int, freeSize: int, size: int, ghost h: Heap, ghost i: nat, ghost k: nat)
      requires LiesIn(mem, pool, h) && Tiles(h) && FreeListExact(h)
      requires i < |h.at| - 1 && k < |h.frees| && h.at[i] == a == h.frees[k]
      requires freeSize == SizeAt(h, i) >= size >= MIN && available == h.available
      modifies this`mem, this`available
      ensures LiesIn(mem, pool, MemHeapSpec.Alloc(h, i, size)) && available == MemHeapSpec.Alloc(h, i, size).available
      ensures OthersKept(h, old(mem), mem, i)
    {
      if freeSize >= size + HDR + MIN {
        AllocSplit(a, size, h, i, k);
        available := available - size - HDR;
      } else {
        AllocWhole(a, h, i, k);
        available := available - freeSize;
      }
    }

    method AllocFound(a: int, freeSize: int, size: int, ghost i: nat, ghost k: nat)
      requires Valid() && i < |sys.heap.at| - 1 && k < |sys.heap.frees| && sys.heap.at[i] == a == sys.heap.frees[k]
      requires freeSize == SizeAt(sys.heap, i) >= size >= MIN
      modifies this
      ensures Legal(old(sys.heap), DoAlloc(i, size)) && Valid() && sys == Step(old(sys), DoAlloc(i, size))
      ensures OthersKept(old(sys.heap), old(mem), mem, i)
    {
      FreeIsUnused(sys.heap, k);
      StepInv(sys, DoAlloc(i, size));
      AllocBlock(a, freeSize, size, sys.heap, i, k);
      Record();
      sys := Step(sys, DoAlloc(i, size));
    }

    /** The search loop of rt_memheap_alloc: walks the free list to the first block that is
        large enough, or back to the list header. */
    method Find(size: int) returns (header: int, freeSize: int, ghost i: nat, ghost k: nat)
      requires LiesIn(mem, pool, sys.heap) && Tiles(sys.heap) && FreeListExact(sys.heap) && size > 0
      ensures freeSize < size ==> TooSmall(sys.heap, size, |sys.heap.frees|)
      ensures freeSize >= size ==>
        k < |sys.heap.frees| && i < |sys.heap.at| - 1 && sys.heap.at[i] == header == sys.heap.frees[k]
      ensures freeSize >= size ==> freeSize == SizeAt(sys.heap, i) && TooSmall(sys.heap, size, k)
    {
      ghost var h := sys.heap;
      k, i, freeSize := 0, 0, 0;
      FreeListAt(mem, pool, h, 0);
      header := mem[pool + NEXT_FREE];
      while header != pool && freeSize < size
        invariant 0 <= k <= |h.frees| && header == FreeRing(pool, h.frees)[Succ(k, |h.frees| + 1)]
          && TooSmall(h, size, k)
        invariant freeSize >= size ==>
          k < |h.frees| && i < |h.at| - 1 && h.at[i] == h.frees[k] && freeSize == SizeAt(h, i)
        decreases |h.frees| - k, size - freeSize
      {
        i := FreeIndex(h, k);
        ChainAt(mem, pool, h, i);
        freeSize := mem[header + NEXT] - header - HDR;
        if freeSize < size {
          FreeListAt(mem, pool, h, k + 1);
          header := mem[header + NEXT_FREE];
          StillTooSmall(h, size, k, i);
          k := k + 1;
        }
      }
      ListEnd(mem, pool, h, k);
    }

    /** rt_memheap_alloc: the first block of the free list that is large enough. */
    method Alloc(bytes: nat) returns (ptr: int, ghost i: nat)
      requires Valid()
      modifies this
      ensures Valid() && OthersKept(old(sys.heap), old(mem), mem, i)
      ensures ptr == 0 ==> sys == old(sys) && mem == old(mem)
      ensures ptr == 0 ==>
        Words(bytes) >= old(available) || TooSmall(old(sys.heap), Words(bytes), |old(sys.heap).frees|)
      ensures ptr != 0 ==>
        Words(bytes) < old(available) && FirstFit(old(sys.heap), Words(bytes), i) && ptr == old(sys.heap).at[i] + HDR
      ensures ptr != 0 ==>
        Legal(old(sys.heap), DoAlloc(i, Words(bytes))) && sys == Step(old(sys), DoAlloc(i, Words(bytes)))
      ensures ptr != 0 ==>
        && Dead(old(sys.heap), ptr - HDR) && Serves(sys.heap, ptr, bytes)
        && SameLive(old(sys.heap), sys.heap, ptr - HDR, ptr - HDR)
    {
      var size := Words(bytes);
      ptr, i := 0, 0;
      if size < available {
        var header, freeSize;
        ghost var k;
        header, freeSize, i, k := Find(size);
        if freeSize >= size {
          AllocFound(header, freeSize, size, i, k);
          ptr := header + HDR;
          AllocServes(old(sys.heap), i, bytes);
        }
      }
    }

    /** Joins the free block behind block `j` to block `j`, which is also free. */
    method AbsorbRight(right: int, ghost u: set<int>, ghost at: seq<int>, ghost frees: seq<int>, ghost used: set<int>,
        ghost j: nat, ghost k: nat)
      requires Threads(mem, u, pool, at, frees, used) && 1 <= j < |at| && at[j] == right && k < |frees|
        && frees[k] == right
      modifies this`mem
      ensures Threads(mem, u, pool, Delete(at, j), Delete(frees, k), used) && Kept(old(mem), mem, u)
    {
      ChainOut(mem, u, pool, at, frees, used, j);
      Remove(right, NEXT);
      ghost var m1 := mem;
      TakeFree(right, u, Delete(at, j), frees, used, k);
      KeptTwice(old(mem), m1, mem, u);
    }

    /** rt_memheap_free, left neighbour: a free one takes the block in. */
    method CoalesceLeft(header: int, ghost u: set<int>, ghost at: seq<int>, ghost frees: seq<int>,
        ghost used: set<int>, ghost i: nat)
        returns (left: bool, node: int)
      requires Threads(mem, u, pool, at, frees, used) && i < |at| - 1 && at[i] == header && at[|at| - 1] in used
      modifies this`mem
      ensures left == (i > 0 && at[i - 1] !in used) && node == at[if left then i - 1 else i] && Kept(old(mem), mem, u)
      ensures Threads(mem, u, pool, if left then Delete(at, i) else at, frees, used)
    {
      LinkedInBounds(mem, at, NEXT, i);
      assert Marked(mem, at[Pred(i, |at|)], used, pool);
      var prev := mem[header + NEXT + 1];
      left, node := !IsUsed(mem, prev), header;
      if left {
        ChainOut(mem, u, pool, at, frees, used, i);
        Remove(header, NEXT);
        node := prev;
      }
    }

    /** rt_memheap_free, right neighbour: a free one is taken in. */
    method CoalesceRight(node: int, ghost u: set<int>, ghost at: seq<int>, ghost frees: seq<int>, ghost used: set<int>,
        ghost j: nat, ghost k: nat)
        returns (right: bool)
      requires Threads(mem, u, pool, at, frees, used) && j < |at| - 1 && at[j] == node
      requires at[j + 1] !in used ==> k < |frees| && frees[k] == at[j + 1]
      modifies this`mem
      ensures right == (at[j + 1] !in used) && Kept(old(mem), mem, u)
      ensures Threads(mem, u, pool, if right then Delete(at, j + 1) else at, if right then Delete(frees, k) else frees,
        used)
    {
      LinkedInBounds(mem, at, NEXT, j);
      assert Marked(mem, at[j + 1], used, pool);
      var next := mem[node + NEXT];
      right := !IsUsed(mem, next);
      if right { AbsorbRight(next, u, at, frees, used, j + 1, k); }
    }

    /** Clears the used mark of block `i`. */
    method MarkFree(a: int, ghost u: set<int>, ghost at: seq<int>, ghost frees: seq<int>, ghost used: set<int>,
        ghost i: nat)
      requires Threads(mem, u, pool, at, frees, used) && i < |at| && at[i] == a && a in used
      modifies this`mem
      ensures Threads(mem, u, pool, at, frees, used - {a}) && Kept(old(mem), mem, u)
    {
      SetMark(mem, u, pool, at, frees, used, i, used - {a});
      assert Marked(mem, at[i], used, pool);
      mem := mem[a := mem[a] - USED];
    }

    /** rt_memheap_free behind the left neighbour: join to the right, then put the block on
        the free list unless the left neighbour took it in. */
    method Finish(node: int, insert: bool, ghost u: set<int>, ghost at: seq<int>, ghost frees: seq<int>,
        ghost used: set<int>, ghost j: nat, ghost k: nat)
        returns (right: bool, ghost at': seq<int>, ghost frees': seq<int>)
      requires Threads(mem, u, pool, at, frees, used) && j < |at| - 1 && at[j] == node
      requires insert ==> node in u && node != pool && node !in frees
      requires at[j + 1] !in used ==> k < |frees| && frees[k] == at[j + 1]
      modifies this`mem
      ensures right == (at[j + 1] !in used) && Kept(old(mem), mem, u) && Threads(mem, u, pool, at', frees', used)
      ensures at' == if right then Delete(at, j + 1) else at
      ensures frees' == (if insert then [node] else []) + (if right then Delete(frees, k) else frees)
    {
      right := CoalesceRight(node, u, at, frees, used, j, k);
      at', frees' := if right then Delete(at, j + 1) else at, if right then Delete(frees, k) else frees;
      if insert {
        if right { NotInDelete(frees, k, node); }
        ghost var m1 := mem;
        PutFree(node, u, at', frees', used);
        KeptTwice(old(mem), m1, mem, u);
        frees' := [node] + frees';
      } else {
        assert [] + frees' == frees';
      }
    }

    /** All link and mark changes of rt_memheap_free. */
    method FreeThreads(header: int, ghost u: set<int>, ghost at: seq<int>, ghost frees: seq<int>, ghost used: set<int>,
        ghost i: nat, ghost k: nat)
        returns (left: bool, right: bool, ghost at': seq<int>, ghost frees': seq<int>)
      requires Threads(mem, u, pool, at, frees, used) && i < |at| - 1 && at[i] == header && header in used
        && header !in frees
      requires (i > 0 ==> at[i - 1] != header) && at[i + 1] != header && at[|at| - 1] in used - {header}
      requires at[i + 1] !in used ==> k < |frees| && frees[k] == at[i + 1]
      modifies this`mem
      ensures left == (i > 0 && at[i - 1] !in used) && right == (at[i + 1] !in used)
      ensures Threads(mem, u, pool, at', frees', used - {header}) && Kept(old(mem), mem, u)
      ensures var at1, j := if left then Delete(at, i) else at, if left then i - 1 else i;
        at' == if right then Delete(at1, j + 1) else at1
      ensures frees' == (if left then [] else [header]) + (if right then Delete(frees, k) else frees)
    {
      ghost var now := used - {header};
      assert header in u && header != pool;
      MarkFree(header, u, at, frees, used, i);
      ghost var m1 := mem;
      var node;
      left, node := CoalesceLeft(header, u, at, frees, now, i);
      KeptTwice(old(mem), m1, mem, u);
      m1 := mem;
      ghost var at1, j := if left then Delete(at, i) else at, if left then i - 1 else i;
      assert at1[j + 1] == at[i + 1];
      right, at', frees' := Finish(node, !left, u, at1, frees, now, j, k);
      KeptTwice(old(mem), m1, mem, u);
    }

    method FreeBlock(header: int, ghost u: set<int>, ghost h: Heap, ghost i: nat, ghost r: Heap)
      requires LiesIn(mem, pool, h) && Tiles(h) && FreeListExact(h) && available == h.available
        && u == Nodes(pool, h.at)
      requires i < |h.at| - 1 && h.at[i] == header && !FreeAt(h, i) && IsFreed(h, i, r)
      modifies this`mem, this`available
      ensures Threads(mem, u, pool, r.at, r.frees, r.used) && available == r.available && Kept(old(mem), mem, u)
    {
      hide Threads, Drop, Insert, Delete;
      ChainAt(mem, pool, h, i);
      ghost var k := RightInList(h, i);
      assert Gap(header, h.at[|h.at| - 1]) && Gap(header, h.at[i + 1]) && Listed(h.frees, h.at, h.used, header);
      assert i > 0 ==> Gap(h.at[i - 1], header);
      available := available + (mem[header + NEXT] - header - HDR);
      ghost var at, frees := h.at, h.frees;
      var left, right;
      left, right, at, frees := FreeThreads(header, u, h.at, h.frees, h.used, i, k);
      if left { available := available + HDR; }
      if right { available := available + HDR; }
    }

    /** rt_memheap_free; freeing RT_NULL does nothing. */
    method Free(ptr: int, ghost i: nat)
      requires Valid()
      requires ptr != 0 ==> i < |sys.heap.at| - 1 && sys.heap.at[i] == ptr - HDR && !FreeAt(sys.heap, i)
      modifies this
      ensures Valid() && OthersKept(old(sys.heap), old(mem), mem, i)
      ensures ptr == 0 ==> sys == old(sys)
      ensures ptr != 0 ==> Legal(old(sys.heap), DoFree(i)) && sys == Step(old(sys), DoFree(i))
    {
      if ptr == 0 { return; }
      FreeFields(sys.heap, i);
      StepInv(sys, DoFree(i));
      ghost var u := Nodes(pool, sys.heap.at);
      FreeBlock(ptr - HDR, u, sys.heap, i, MemHeapSpec.Free(sys.heap, i));
      Settle(mem, u, pool, MemHeapSpec.Free(sys.heap, i));
      KeptAll(old(mem), mem, pool, sys.heap, i);
      sys := Step(sys, DoFree(i));
    }

    /** Cuts used block `i` at `n`, giving the rest back; a free block behind it is taken in. */
    method ShrinkThreads(a: int, n: int, ghost u: set<int>, ghost at: seq<int>, ghost frees: seq<int>,
        ghost used: set<int>, ghost i: nat, ghost k: nat)
        returns (freed: int, ghost at': seq<int>, ghost frees': seq<int>)
      requires Threads(mem, u, pool, at, frees, used) && i < |at| - 1 && at[i] == a
      requires n in u && n != pool && n !in at && n !in frees && n !in used
      requires at[i + 1] !in used ==> k < |frees| && frees[k] == at[i + 1] && i + 2 < |at|
      modifies this`mem
      ensures Threads(mem, u, pool, at', frees', used) && Kept(old(mem), mem, u)
      ensures at' == if at[i + 1] in used then Insert(at, i + 1, n) else Insert(Delete(at, i + 1), i + 1, n)
      ensures frees' == [n] + if at[i + 1] in used then frees else Delete(frees, k)
      ensures freed == if at[i + 1] in used then 0 else at[i + 2] - at[i + 1] - HDR
    {
      NewBlock(a, n, u, at, frees, used, i);
      ghost var m1 := mem;
      at', frees', freed := Insert(at, i + 1, n), frees, 0;
      LinkedInBounds(mem, at', NEXT, i + 1);
      assert Marked(mem, at'[i + 2], used, pool);
      var next := mem[n + NEXT];
      if !IsUsed(mem, next) {
        LinkedInBounds(mem, at', NEXT, i + 2);
        freed := mem[next + NEXT] - next - HDR;
        AbsorbRight(next, u, at', frees, used, i + 2, k);
        KeptTwice(old(mem), m1, mem, u);
        NotInDelete(frees, k, n);
        at', frees' := Delete(at', i + 2), Delete(frees, k);
        assert at' == Insert(Delete(at, i + 1), i + 1, n);
      }
      m1 := mem;
      PutFree(n, u, at', frees', used);
      KeptTwice(old(mem), m1, mem, u);
      frees' := [n] + frees';
    }

    /** Takes the free block behind used block `i` out of both lists. */
    method GrowThreads(next: int, ghost u: set<int>, ghost at: seq<int>, ghost frees: seq<int>, ghost used: set<int>,
        ghost i: nat, ghost k: nat)
      requires Threads(mem, u, pool, at, frees, used) && i < |at| - 2 && at[i + 1] == next && k < |frees|
        && frees[k] == next
      modifies this`mem
      ensures Threads(mem, u, pool, Delete(at, i + 1), Delete(frees, k), used) && Kept(old(mem), mem, u)
    {
      TakeFree(next, u, at, frees, used, k);
      ghost var m1 := mem;
      ChainOut(mem, u, pool, at, Delete(frees, k), used, i + 1);
      Remove(next, NEXT);
      KeptTwice(old(mem), m1, mem, u);
    }

    /** rt_memheap_realloc, shrinking: the end of the block becomes free. */
    method ShrinkBlock(a: int, n: int, ghost u: set<int>, ghost h: Heap, ghost i: nat, ghost k: nat, ghost r: Heap)
      requires Threads(mem, u, pool, h.at, h.frees, h.used) && available == h.available
      requires n in u && n != pool && n !in h.at && n !in h.frees && n !in h.used
      requires i < |h.at| - 1 && h.at[i] == a && IsCut(h, i, n, r) && (|h.at| == i + 2 ==> !FreeAt(h, i + 1))
      requires FreeAt(h, i + 1) ==>
        k < |h.frees| && h.frees[k] == h.at[i + 1] && Drop(h.frees, h.at[i + 1]) == Delete(h.frees, k)
      modifies this`mem, this`available
      ensures Threads(mem, u, pool, r.at, r.frees, r.used) && available == r.available && Kept(old(mem), mem, u)
    {
      ghost var at, frees := h.at, h.frees;
      var freed;
      freed, at, frees := ShrinkThreads(a, n, u, h.at, h.frees, h.used, i, k);
      available := available - freed;
      LinkedInBounds(mem, at, NEXT, i + 1);
      available := available + (mem[n + NEXT] - n - HDR);
    }

    /** rt_memheap_realloc, growing into the free block behind: its header moves up, possibly
        onto words of the old one. */
    method GrowBlock(a: int, size: int, next: int, ghost u: set<int>, ghost v: set<int>, ghost h: Heap, ghost i: nat,
        ghost k: nat, ghost g: Heap, ghost r: Heap)
        returns (ghost m1: Memory)
      requires Threads(mem, u, pool, h.at, h.frees, h.used) && available == h.available
      requires i < |h.at| - 2 && h.at[i] == a && h.at[i + 1] == next && FreeAt(h, i + 1)
        && IsCut(h, i, a + HDR + size, r)
      requires k < |h.frees| && h.frees[k] == next && g.frees == Drop(h.frees, next) == Delete(h.frees, k)
        && g.at == Delete(h.at, i + 1)
      requires Headers(mem, v, pool, g.at, g.frees)
      requires var n := a + HDR + size; n in v && n != pool && n !in g.at && n !in g.frees && n !in h.used
      modifies this`mem, this`available
      ensures Threads(mem, v, pool, r.at, r.frees, r.used) && available == r.available
      ensures Kept(old(mem), m1, u) && Kept(m1, mem, v)
    {
      available := available - (size - (next - a - HDR));
      GrowThreads(next, u, h.at, h.frees, h.used, i, k);
      m1 := mem;
      Rebase(mem, u, v, pool, g.at, g.frees, h.used);
      var n := a + HDR + size;
      NewBlock(a, n, v, g.at, g.frees, h.used, i);
      ghost var m2 := mem;
      PutFree(n, v, Insert(g.at, i + 1, n), g.frees, h.used);
      KeptTwice(m1, m2, mem, v);
    }

    method ShrinkMemory(a: int, n: int, ghost h: Heap, ghost i: nat, ghost r: Heap)
      requires LiesIn(mem, pool, h) && Tiles(h) && FreeListExact(h) && available == h.available
      requires i < |h.at| - 1 && h.at[i] == a && Gap(a, n) && Gap(n, h.at[i + 1])
      requires IsCut(h, i, n, r) && Tiles(r) && FreeListExact(r)
      modifies this`mem, this`available
      ensures LiesIn(mem, pool, r) && available == r.available
      ensures OthersKept(h, old(mem), mem, i) && WordsKept(old(mem), mem, a + HDR, n)
    {
      ghost var u, k := Nodes(pool, h.at) + {n}, RightInList(h, i);
      OneMoreHeader(mem, pool, h, i, n);
      Rebase(mem, Nodes(pool, h.at), u, pool, h.at, h.frees, h.used);
      ShrinkBlock(a, n, u, h, i, k, r);
      Shrunk(old(mem), mem, u, pool, h, i, n, r);
    }

    method GrowMemory(a: int, size: int, ghost h: Heap, ghost i: nat, ghost g: Heap, ghost r: Heap)
      requires LiesIn(mem, pool, h) && Tiles(h) && FreeListExact(h) && available == h.available
      requires i < |h.at| - 2 && h.at[i] == a && FreeAt(h, i + 1) && g == Absorb(h, i + 1) && Tiles(g)
        && FreeListExact(g)
      requires var n := a + HDR + size; Gap(a, n) && h.at[i + 1] <= n && Gap(n, g.at[i + 1])
      requires IsCut(h, i, a + HDR + size, r) && Tiles(r) && FreeListExact(r)
      modifies this`mem, this`available
      ensures LiesIn(mem, pool, r) && available == r.available
      ensures OthersKept(h, old(mem), mem, i) && WordsKept(old(mem), mem, a + HDR, h.at[i + 1])
    {
      hide Threads, Headers, Absorb, Kept, Drop, Delete, Insert;
      ghost var n := a + HDR + size;
      ghost var k := GrowSetup(mem, pool, h, i, g, n);
      ghost var m1 := GrowBlock(a, size, mem[a + NEXT], Nodes(pool, h.at), Nodes(pool, g.at) + {n}, h, i, k, g, r);
      Grown(old(mem), m1, mem, pool, h, i, g, n, r);
    }

    /** Shrinks block `i`; `after` is the state this leads to. */
    method ShrinkTo(a: int, size: int, ghost i: nat, ghost after: System)
      requires Valid() && i < |sys.heap.at| - 1 && sys.heap.at[i] == a && SystemInv(after)
        && after.maxUsed == sys.maxUsed && after.heap.pool == sys.heap.pool
      requires var h, n := sys.heap, a + HDR + size; IsCut(h, i, n, after.heap) && Gap(a, n) && Gap(n, h.at[i + 1])
      modifies this
      ensures Valid() && sys == after
      ensures OthersKept(old(sys.heap), old(mem), mem, i) && WordsKept(old(mem), mem, a + HDR, a + HDR + size)
    {
      hide Threads, IsCut;
      ShrinkMemory(a, a + HDR + size, sys.heap, i, after.heap);
      sys := after;
    }

    method ShrinkInPlace(a: int, size: int, ghost i: nat)
      requires Valid() && i < |sys.heap.at| - 1 && sys.heap.at[i] == a && !FreeAt(sys.heap, i)
      requires 0 <= size && size + HDR + MIN < SizeAt(sys.heap, i)
      modifies this
      ensures Legal(old(sys.heap), DoResize(i, size)) && Valid() && sys == Step(old(sys), DoResize(i, size))
      ensures OthersKept(old(sys.heap), old(mem), mem, i) && WordsKept(old(mem), mem, a + HDR, a + HDR + size)
    {
      hide Threads, IsCut, Next, Inv;
      ShrinkReady(sys, i, size);
      ShrinkTo(a, size, i, Step(sys, DoResize(i, size)));
    }

    /** Grows block `i` over its free right neighbour; `g` is the heap with the two joined and
        `after` the state this leads to. */
    method GrowTo(a: int, size: int, ghost i: nat, ghost g: Heap, ghost after: System)
      requires Valid() && i < |sys.heap.at| - 2 && sys.heap.at[i] == a && FreeAt(sys.heap, i + 1)
        && g == Absorb(sys.heap, i + 1) && Tiles(g) && FreeListExact(g)
      requires SystemInv(after) && after.maxUsed == Max(sys.maxUsed, after.heap.pool - after.heap.available)
        && after.heap.pool == sys.heap.pool
      requires var h, n := sys.heap, a + HDR + size;
        IsCut(h, i, n, after.heap) && Gap(a, n) && h.at[i + 1] <= n && Gap(n, g.at[i + 1])
      modifies this
      ensures Valid() && sys == after
      ensures OthersKept(old(sys.heap), old(mem), mem, i) && WordsKept(old(mem), mem, a + HDR, old(sys.heap).at[i + 1])
    {
      hide Threads, IsCut, Absorb;
      GrowMemory(a, size, sys.heap, i, g, after.heap);
      Record();
      sys := after;
    }

    method GrowInPlace(a: int, size: int, ghost i: nat)
      requires Valid() && i < |sys.heap.at| - 2 && sys.heap.at[i] == a && !FreeAt(sys.heap, i)
        && FreeAt(sys.heap, i + 1)
      requires 0 <= size && SizeAt(sys.heap, i) < size && size + MIN < SizeAt(sys.heap, i) + SizeAt(sys.heap, i + 1)
      modifies this
      ensures Legal(old(sys.heap), DoResize(i, size)) && Valid() && sys == Step(old(sys), DoResize(i, size))
      ensures OthersKept(old(sys.heap), old(mem), mem, i) && WordsKept(old(mem), mem, a + HDR, old(sys.heap).at[i + 1])
    {
      hide Threads, IsCut, Absorb, Next;
      GrowReady(sys.heap, i, size);
      GrowStep(sys, i, size);
      GrowTo(a, size, i, Absorb(sys.heap, i + 1), Step(sys, DoResize(i, size)));
    }

    /** rt_memcpy of `len` payload words between two blocks. */
    method CopyWords(dst: int, src: int, len: int, ghost h: Heap, ghost d: nat, ghost s: nat)
      requires LiesIn(mem, pool, h) && Tiles(h) && d < |h.at| - 1 && s < |h.at| - 1 && d != s && 0 <= len
      requires h.at[d] + HDR == dst && dst + len <= h.at[d + 1] && h.at[s] + HDR == src && src + len <= h.at[s + 1]
      modifies this`mem
      ensures LiesIn(mem, pool, h) && Copied(old(mem), mem, dst, src, len)
    {
      BlockRange(mem, pool, h, d);
      BlockRange(mem, pool, h, s);
      BlocksDisjoint(h, d, s);
      var i := 0;
      while i < len
        invariant 0 <= i <= len && Copied(old(mem), mem, dst, src, i)
      {
        mem := mem[dst + i := mem[src + i]];
        i := i + 1;
      }
      PayloadWrites(old(mem), mem, pool, h, d);
    }

    /** The second half of a move: the payload of block `j` goes to block `a`, then `j` is freed. */
    method CopyAndFree(res: int, ptr: int, ghost a: nat, ghost j: nat) returns (ghost m2: Memory)
      requires Valid() && a < |sys.heap.at| - 1 && j < |sys.heap.at| - 1 && a != j && sys.heap.at[a] == res - HDR
        && sys.heap.at[j] == ptr - HDR
      requires !FreeAt(sys.heap, j) && SizeAt(sys.heap, j) <= SizeAt(sys.heap, a)
      modifies this
      ensures Valid() && Legal(old(sys.heap), DoFree(j)) && sys == Step(old(sys), DoFree(j)) && |mem| == |old(mem)|
      ensures Copied(old(mem), m2, res, ptr, SizeAt(old(sys.heap), j)) && OthersKept(old(sys.heap), m2, mem, j)
    {
      BlockRange(mem, pool, sys.heap, j);
      ChainAt(mem, pool, sys.heap, j);
      var oldsize := mem[ptr - HDR + NEXT] - (ptr - HDR) - HDR;
      CopyWords(res, ptr, oldsize, sys.heap, a, j);
      m2 := mem;
      Free(ptr, j);
    }

    /** rt_memheap_realloc by moving: allocate, copy the old payload, free the old block. */
    method Move(ptr: int, bytes: nat, ghost i: nat) returns (res: int, ghost a: nat, ghost j: nat)
      requires Valid() && i < |sys.heap.at| - 1 && sys.heap.at[i] == ptr - HDR && !FreeAt(sys.heap, i)
      requires SizeAt(sys.heap, i) < Words(bytes)
      modifies this
      ensures Valid()
      ensures res == 0 ==> sys == old(sys) && mem == old(mem)
      ensures res == 0 ==>
        Words(bytes) >= old(available) || TooSmall(old(sys.heap), Words(bytes), |old(sys.heap).frees|)
      ensures res != 0 ==> Moved(old(sys), i, Words(bytes), a, j, sys, res) && FirstFit(old(sys.heap), Words(bytes), a)
      ensures res != 0 ==> |mem| == |old(mem)| && OthersKept(old(sys.heap), old(mem), mem, i)
      ensures res != 0 ==> Carried(old(mem), mem, res, ptr, SizeAt(old(sys.heap), i))
    {
      ghost var h, size := sys.heap, Words(bytes);
      j := 0;
      res, a := Alloc(bytes);
      if res != 0 {
        ghost var g, m1 := sys.heap, mem;
        j := AfterAlloc(h, a, size, i);
        AllocIndex(h, a, size, i);
        AllocRange(h, a, size);
        ghost var m2 := CopyAndFree(res, ptr, a, j);
        MovedOthers(h, a, size, i, j, g, old(mem), m1, m2, mem, ptr, res);
      }
    }

    /** rt_memheap_realloc. A size of zero frees; RT_NULL allocates; a block that can be
        resized where it is keeps its address and its first words; otherwise it is moved, or
        left untouched if there is no room. */
    method Realloc(ptr: int, bytes: nat, ghost i: nat) returns (res: int, ghost a: nat, ghost j: nat)
      requires Valid()
      requires ptr != 0 ==> i < |sys.heap.at| - 1 && sys.heap.at[i] == ptr - HDR && !FreeAt(sys.heap, i)
      modifies this
      ensures Valid()
      ensures bytes == 0 ==>
        res == 0 && OthersKept(old(sys.heap), old(mem), mem, i)
        && sys == if ptr == 0 then old(sys) else Step(old(sys), DoFree(i))
      ensures bytes > 0 && ptr == 0 && res == 0 ==> sys == old(sys) && mem == old(mem)
      ensures bytes > 0 && ptr == 0 && res != 0 ==>
        && FirstFit(old(sys.heap), Words(bytes), a) && res == old(sys.heap).at[a] + HDR
        && Legal(old(sys.heap), DoAlloc(a, Words(bytes))) && sys == Step(old(sys), DoAlloc(a, Words(bytes)))
        && OthersKept(old(sys.heap), old(mem), mem, a)
      ensures bytes > 0 && ptr != 0 && InPlace(old(sys.heap), i, Words(bytes)) ==>
        && res == ptr && Legal(old(sys.heap), DoResize(i, Words(bytes)))
        && sys == Step(old(sys), DoResize(i, Words(bytes)))
        && OthersKept(old(sys.heap), old(mem), mem, i)
        && WordsKept(old(mem), mem, ptr,
           ptr + if Words(bytes) < SizeAt(old(sys.heap), i) then Words(bytes) else SizeAt(old(sys.heap), i))
      ensures bytes > 0 && ptr != 0 && !InPlace(old(sys.heap), i, Words(bytes)) && res == 0 ==>
        sys == old(sys) && mem == old(mem)
      ensures bytes > 0 && ptr != 0 && !InPlace(old(sys.heap), i, Words(bytes)) && res != 0 ==>
        && Moved(old(sys), i, Words(bytes), a, j, sys, res) && FirstFit(old(sys.heap), Words(bytes), a)
        && OthersKept(old(sys.heap), old(mem), mem, i) && Carried(old(mem), mem, res, ptr, SizeAt(old(sys.heap), i))
      ensures res != 0 ==>
        Serves(sys.heap, res, bytes) && SameLive(old(sys.heap), sys.heap, ptr - HDR, res - HDR)
      ensures ptr != 0 && res != ptr && (bytes == 0 || res != 0) ==> Dead(sys.heap, ptr - HDR)
    {
      res, a, j := 0, 0, 0;
      if bytes == 0 {
        if ptr != 0 { FreeServes(sys.heap, i); }
        Free(ptr, i);
      } else if ptr == 0 {
        res, a := Alloc(bytes);
      } else {
        ghost var s := sys;
        res, a, j := ResizeOrMove(ptr, bytes, i);
        if InPlace(s.heap, i, Words(bytes)) {
          ResizeServes(s.heap, i, bytes);
        } else if res != 0 {
          MovedServes(s, i, bytes, a, j, sys, res);
        }
      }
    }

    method ResizeOrMove(ptr: int, bytes: nat, ghost i: nat) returns (res: int, ghost a: nat, ghost j: nat)
      requires Valid() && i < |sys.heap.at| - 1 && sys.heap.at[i] == ptr - HDR && !FreeAt(sys.heap, i) && ptr != 0
      modifies this
      ensures Valid()
      ensures InPlace(old(sys.heap), i, Words(bytes)) ==>
        && res == ptr && Legal(old(sys.heap), DoResize(i, Words(bytes)))
        && sys == Step(old(sys), DoResize(i, Words(bytes)))
        && OthersKept(old(sys.heap), old(mem), mem, i)
        && WordsKept(old(mem), mem, ptr,
           ptr + if Words(bytes) < SizeAt(old(sys.heap), i) then Words(bytes) else SizeAt(old(sys.heap), i))
      ensures !InPlace(old(sys.heap), i, Words(bytes)) && res == 0 ==> sys == old(sys) && mem == old(mem)
      ensures !InPlace(old(sys.heap), i, Words(bytes)) && res != 0 ==>
        && Moved(old(sys), i, Words(bytes), a, j, sys, res) && FirstFit(old(sys.heap), Words(bytes), a)
        && OthersKept(old(sys.heap), old(mem), mem, i) && Carried(old(mem), mem, res, ptr, SizeAt(old(sys.heap), i))
    {
      hide Threads, Moved;
      var size, header := Words(bytes), ptr - HDR;
      res, a, j := ptr, 0, 0;
      ChainAt(mem, pool, sys.heap, i);
      ChainAt(mem, pool, sys.heap, i + 1);
      var oldsize := mem[header + NEXT] - header - HDR;
      if size > oldsize {
        var next := mem[header + NEXT];
        if !IsUsed(mem, next) && mem[next + NEXT] - next - HDR + oldsize > size + MIN {
          GrowInPlace(header, size, i);
        } else {
          res, a, j := Move(ptr, bytes, i);
        }
      } else if size + HDR + MIN < oldsize {
        ShrinkInPlace(header, size, i);
      }
    }

    /** rt_memheap_init: one free block and the tailer. */
    constructor (memory: Memory, pool: int, start: int, bytes: nat)
      requires 0 < pool && pool + 6 <= start && bytes / 4 >= 2 * HDR && start + bytes / 4 <= |memory|
      ensures Valid() && sys == System(Init(start, bytes / 4), 2 * HDR, 2 * HDR)
    {
      this.pool := pool;
      var size := bytes / 4;
      poolSize, available := size, size - 2 * HDR;
      maxUsed := size - (size - 2 * HDR);
      var tail := start + (size - 2 * HDR) + HDR;
      mem := memory[pool := MAGIC][pool + POOL := pool][pool + NEXT := 0][pool + NEXT + 1 := 0]
        [start := MAGIC][start + POOL := pool][start + NEXT := tail][start + NEXT + 1 := tail]
        [start + NEXT_FREE := pool][start + NEXT_FREE + 1 := pool][pool + NEXT_FREE + 1 := start][pool
          + NEXT_FREE := start]
        [tail := MAGIC + USED][tail + POOL := pool][tail + NEXT := start][tail + NEXT + 1 := start]
        [tail + NEXT_FREE := 0][tail + NEXT_FREE + 1 := 0];
      sys := System(Init(start, size), 2 * HDR, 2 * HDR);
      new;
      InitInv(start, size);
      InitLies(mem, pool, start, size);
    }
  }

  /** What the words written by the initialisation amount to. */
  lemma {:induction false} InitLies(m: Memory, pool: int, start: int, size: int)
    requires 0 < pool && pool + 6 <= start && size >= 2 * HDR && start + size <= |m|
    requires var tail := start + size - HDR;
      && m[start] == MAGIC && m[start + POOL] == pool && m[tail] == MAGIC + USED && m[tail + POOL] == pool
      && Linked(m, start, tail, NEXT) && Linked(m, tail, start, NEXT)
      && Linked(m, pool, start, NEXT_FREE) && Linked(m, start, pool, NEXT_FREE)
    ensures LiesIn(m, pool, Init(start, size))
  {
    InitInv(start, size);
    HeapRoom(m, pool, Init(start, size));
  }

  /** Moving block `i` is an allocation of block `a` followed by freeing the old block, which
      is block `j` by then. */
  ghost predicate Moved(s: System, i: nat, size: int, a: nat, j: nat, t: System, res: int) {
    && Legal(s.heap, DoAlloc(a, size)) && res == s.heap.at[a] + HDR
    && var m := Step(s, DoAlloc(a, size));
       i < |s.heap.at| && j < |m.heap.at| && m.heap.at[j] == s.heap.at[i]
       && Legal(m.heap, DoFree(j)) && t == Step(m, DoFree(j))
  }

  lemma {:induction false} AllocServes(h: Heap, i: nat, bytes: nat)
    requires Inv(h) && Legal(h, DoAlloc(i, Words(bytes)))
    ensures var r := Next(h, DoAlloc(i, Words(bytes)));
      Dead(h, h.at[i]) && Serves(r, h.at[i] + HDR, bytes) && SameLive(h, r, h.at[i], h.at[i])
  {
    WordsHold(bytes);
    var got := AllocLive(h, i, Words(bytes));
    assert Live(Alloc(h, i, Words(bytes)), h.at[i], got);
  }

  lemma {:induction false} FreeServes(h: Heap, i: nat)
    requires Inv(h) && Legal(h, DoFree(i))
    ensures Dead(Next(h, DoFree(i)), h.at[i]) && SameLive(h, Next(h, DoFree(i)), h.at[i], h.at[i])
  {
    FreeLive(h, i);
  }

  lemma {:induction false} ResizeServes(h: Heap, i: nat, bytes: nat)
    requires Inv(h) && Legal(h, DoResize(i, Words(bytes)))
    ensures var r := Next(h, DoResize(i, Words(bytes)));
      Serves(r, h.at[i] + HDR, bytes) && SameLive(h, r, h.at[i], h.at[i])
  {
    WordsHold(bytes);
    var got := ResizeLive(h, i, Words(bytes));
    assert Live(Resize(h, i, Words(bytes)), h.at[i], got);
  }

  /** A move serves the request, and the old block is gone. */
  lemma {:induction false} MovedServes(s: System, i: nat, bytes: nat, a: nat, j: nat, t: System, res: int)
    requires SystemInv(s) && Moved(s, i, Words(bytes), a, j, t, res) && !FreeAt(s.heap, i) && FreeAt(s.heap, a)
    ensures Serves(t.heap, res, bytes) && Dead(t.heap, s.heap.at[i])
      && SameLive(s.heap, t.heap, s.heap.at[i], res - HDR)
  {
    var h, m := s.heap, Step(s, DoAlloc(a, Words(bytes)));
    AllocServes(h, a, bytes);
    AllocInv(h, a, Words(bytes));
    FreeServes(m.heap, j);
    var n :| Live(m.heap, h.at[a], n) && bytes <= 4 * n;
    assert Live(t.heap, res - HDR, n);
    forall x, k | x != h.at[i] && x != h.at[a] ensures Live(t.heap, x, k) <==> Live(h, x, k) {
      assert Live(m.heap, x, k) <==> Live(h, x, k);
    }
  }

  /** Where block `b` is after allocating block `a`. */
  ghost function AfterAlloc(h: Heap, a: nat, size: int, b: nat): nat
    requires a < |h.at| - 1
  {
    if SizeAt(h, a) >= size + HDR + MIN && b > a then b + 1 else b
  }

  lemma {:induction false} AllocIndex(h: Heap, a: nat, size: int, b: nat)
    requires a < |h.at| - 1 && b < |h.at| - 1 && a != b
    ensures var g, c := Alloc(h, a, size), AfterAlloc(h, a, size, b);
      c < |g.at| - 1 && c != a && g.at[c] == h.at[b] && g.at[c + 1] == h.at[b + 1] && (!FreeAt(h, b) ==> !FreeAt(g, c))
  {
  }

  lemma {:induction false} AllocRange(h: Heap, a: nat, size: int)
    requires a < |h.at| - 1 && 0 <= size <= SizeAt(h, a)
    ensures var g := Alloc(h, a, size);
      a < |g.at| - 1 && g.at[a] == h.at[a] && h.at[a] + HDR + size <= g.at[a + 1] <= h.at[a + 1] && !FreeAt(g, a)
  {
  }

  /** Nothing but the moved contents changes for a live block through the three phases. */
  lemma {:induction false} MovedOthers(h: Heap, a: nat, size: int, i: nat, j: nat, g: Heap, m0: Memory, m1: Memory,
      m2: Memory, m3: Memory, ptr: int, res: int)
    requires Spaced(h.at) && a < |h.at| - 1 && i < |h.at| - 1 && a != i && FreeAt(h, a) && !FreeAt(h, i)
      && 0 <= size <= SizeAt(h, a) && SizeAt(h, i) <= size
    requires g == Alloc(h, a, size) && j == AfterAlloc(h, a, size, i) && ptr == h.at[i] + HDR && res == h.at[a] + HDR
    requires OthersKept(h, m0, m1, a) && Copied(m1, m2, res, ptr, SizeAt(h, i)) && OthersKept(g, m2, m3, j)
    ensures OthersKept(h, m0, m3, i) && Carried(m0, m3, res, ptr, SizeAt(h, i))
  {
    AllocRange(h, a, size);
    forall b, x | 0 <= b < |h.at| - 1 && b != i && !FreeAt(h, b) && InPayload(h, b, x) && 0 <= x < |m0|
      ensures m3[x] == m0[x] {
      AllocIndex(h, a, size, b);
      BlocksDisjoint(h, a, b);
      AllocIndex(h, a, size, i);
      assert InPayload(g, AfterAlloc(h, a, size, b), x);
    }
    forall x | 0 <= x < |m0| && res <= x < res + SizeAt(h, i) && 0 <= x - res + ptr < |m0|
      ensures m3[x] == m0[x - res + ptr] {
      AllocIndex(h, a, size, i);
      assert InPayload(g, a, x);
      assert InPayload(h, i, x - res + ptr);
    }
  }

  lemma {:induction false} BlockRange(m: Memory, pool: int, h: Heap, d: nat)
    requires Tiles(h) && 0 < pool && pool + 6 <= h.start && h.start + h.pool <= |m| && d < |h.at| - 1
    ensures 0 <= h.at[d] && Gap(h.at[d], h.at[d + 1]) && h.at[d + 1] + HDR <= |m|
  {
    assert Gap(h.at[d], h.at[d + 1]);
    assert d > 0 ==> Gap(h.at[0], h.at[d]);
    assert d + 1 < |h.at| - 1 ==> Gap(h.at[d + 1], h.at[|h.at| - 1]);
  }

  lemma {:induction false} BlocksDisjoint(h: Heap, d: nat, s: nat)
    requires Spaced(h.at) && d < |h.at| - 1 && s < |h.at| - 1 && d != s
    ensures h.at[d + 1] <= h.at[s] || h.at[s + 1] <= h.at[d]
  {
    assert d + 1 < s ==> Gap(h.at[d + 1], h.at[s]);
    assert s + 1 < d ==> Gap(h.at[s + 1], h.at[d]);
  }

  /** Writing payload words leaves headers, marks and links alone. */
  lemma {:induction false} PayloadWrites(m: Memory, w: Memory, pool: int, h: Heap, d: nat)
    requires LiesIn(m, pool, h) && Tiles(h) && d < |h.at| - 1 && |w| == |m|
    requires forall x :: 0 <= x < |m| && w[x] != m[x] ==> InPayload(h, d, x)
    ensures LiesIn(w, pool, h)
  {
    var u := Nodes(pool, h.at);
    forall a | a in u ensures SameHeader(m, w, a) {
      forall x | a <= x < a + 6 ensures w[x] == m[x] {
        if w[x] != m[x] { PayloadOutside(pool, h, d, x); }
      }
    }
    SameRing(m, w, u, h.at, NEXT);
    SameRing(m, w, u, FreeRing(pool, h.frees), NEXT_FREE);
    forall k | 0 <= k < |h.at| ensures Marked(w, h.at[k], h.used, pool) {
      assert Marked(m, h.at[k], h.used, pool) && SameHeader(m, w, h.at[k]);
    }
  }

  predicate SameHeader(m: Memory, w: Memory, a: int) {
    && 0 <= a && a + 6 <= |m| == |w|
    && w[a] == m[a] && w[a + 1] == m[a + 1] && w[a + 2] == m[a + 2] && w[a + 3] == m[a + 3] && w[a + 4] == m[a + 4]
    && w[a + 5] == m[a + 5]
  }

  lemma {:induction false} SameRing(m: Memory, w: Memory, u: set<int>, s: seq<int>, o: nat)
    requires Ring(m, s, o) && Among(s, u) && |w| == |m|
    requires forall a {:trigger SameHeader(m, w, a)} :: a in u ==> SameHeader(m, w, a)
    ensures Ring(w, s, o)
  {
    forall i, j | 0 <= i < |s| && j == Succ(i, |s|) ensures Linked(w, s[i], s[j], o) {
      assert Linked(m, s[i], s[j], o);
      assert SameHeader(m, w, s[i]) && SameHeader(m, w, s[j]);
    }
  }

  /** After shrinking: the heap lies in memory and no live word below the cut changed. */
  lemma {:induction false} Shrunk(m: Memory, w: Memory, u: set<int>, pool: int, h: Heap, i: nat, n: int, r: Heap)
    requires Tiles(h) && 0 < pool && pool + 6 <= h.start && h.start + h.pool <= |m| && i < |h.at| - 1
    requires u == Nodes(pool, h.at) + {n} && Kept(m, w, u) && Gap(h.at[i], n) && Gap(n, h.at[i + 1])
    requires Threads(w, u, pool, r.at, r.frees, r.used) && Tiles(r) && FreeListExact(r) && r.start == h.start
      && r.pool == h.pool
    ensures LiesIn(w, pool, r) && OthersKept(h, m, w, i) && WordsKept(m, w, h.at[i] + HDR, n)
  {
    Settle(w, u, pool, r);
    KeptOthers(m, w, pool, h, i, n);
    KeptWords(m, w, u, pool, h, i, n, h.at[i] + HDR, n);
  }

  /** After growing: likewise, for all words the block had. */
  lemma {:induction false} Grown(m: Memory, m1: Memory, w: Memory, pool: int, h: Heap, i: nat, g: Heap, n: int, r: Heap)
    requires Tiles(h) && 0 < pool && pool + 6 <= h.start && h.start + h.pool <= |m| && i < |h.at| - 2
      && FreeAt(h, i + 1)
    requires g == Absorb(h, i + 1) && Tiles(g) && Gap(h.at[i + 1], n + HDR) && Gap(h.at[i], n) && Gap(n, g.at[i + 1])
    requires Kept(m, m1, Nodes(pool, h.at)) && Kept(m1, w, Nodes(pool, g.at) + {n})
    requires Threads(w, Nodes(pool, g.at) + {n}, pool, r.at, r.frees, r.used) && Tiles(r) && FreeListExact(r)
      && r.start == h.start && r.pool == h.pool
    ensures LiesIn(w, pool, r) && OthersKept(h, m, w, i) && WordsKept(m, w, h.at[i] + HDR, h.at[i + 1])
  {
    Settle(w, Nodes(pool, g.at) + {n}, pool, r);
    KeptAll(m, m1, pool, h, i);
    KeptOthers(m1, w, pool, g, i, n);
    GrownOthers(h, i, m, m1, w);
    KeptWords(m, m1, Nodes(pool, h.at), pool, h, i, h.at[i], h.at[i] + HDR, h.at[i + 1]);
    KeptWords(m1, w, Nodes(pool, g.at) + {n}, pool, g, i, n, h.at[i] + HDR, h.at[i + 1]);
  }

  /** What cutting used block `i` at `n` amounts to. */
  ghost predicate IsCut(h: Heap, i: nat, n: int, r: Heap)
    requires i < |h.at| - 1
  {
    var b, taken := h.at[i + 1], i < |h.at| - 2 && FreeAt(h, i + 1);
    && r.at == (if taken then Insert(Delete(h.at, i + 1), i + 1, n) else Insert(h.at, i + 1, n))
    && r.frees == [n] + (if taken then Drop(h.frees, b) else h.frees)
    && r.used == h.used && r.start == h.start && r.pool == h.pool
    && r.available == h.available + (if taken then b - n else b - n - HDR)
  }

  lemma {:induction false} CutFields(h: Heap, i: nat, size: int)
    requires i < |h.at| - 1
    ensures IsCut(h, i, h.at[i] + HDR + size, Cut(h, i, size))
  {
  }

  /** What growing block `i` over its free right neighbour finds in memory. */
  lemma {:induction false} GrowSetup(m: Memory, pool: int, h: Heap, i: nat, g: Heap, n: int) returns (k: nat)
    requires LiesIn(m, pool, h) && Tiles(h) && FreeListExact(h)
    requires i < |h.at| - 2 && FreeAt(h, i + 1) && g == Absorb(h, i + 1) && Tiles(g) && FreeListExact(g)
    requires Gap(h.at[i], n) && Gap(n, g.at[i + 1])
    ensures k < |h.frees| && h.frees[k] == h.at[i + 1] && g.frees == Drop(h.frees, h.at[i + 1]) == Delete(h.frees, k)
      && g.at == Delete(h.at, i + 1)
    ensures Headers(m, Nodes(pool, g.at) + {n}, pool, g.at, g.frees) && n != pool && n !in g.at && n !in g.frees
      && n !in h.used
    ensures 0 <= h.at[i] && h.at[i] + 6 <= |m| && m[h.at[i] + NEXT] == h.at[i + 1]
  {
    k := RightInList(h, i);
    OneMoreHeader(m, pool, g, i, n);
    ChainAt(m, pool, h, i);
  }

  /** A step that shrinks block `i` in place. */
  lemma {:induction false} ShrinkReady(s: System, i: nat, size: int)
    requires SystemInv(s) && i < |s.heap.at| - 1 && !FreeAt(s.heap, i) && 0 <= size
      && size + HDR + MIN < SizeAt(s.heap, i)
    ensures Legal(s.heap, DoResize(i, size))
    ensures var h, r, n := s.heap, Step(s, DoResize(i, size)), s.heap.at[i] + HDR + size;
      SystemInv(r) && r.maxUsed == s.maxUsed && r.heap.pool == h.pool && IsCut(h, i, n, r.heap) && Gap(h.at[i], n)
        && Gap(n, h.at[i + 1])
  {
    CutFields(s.heap, i, size);
    hide Inv, IsCut;
    StepInv(s, DoResize(i, size));
  }

  /** A step that grows block `i` in place. */
  lemma {:induction false} GrowStep(s: System, i: nat, size: int)
    requires SystemInv(s) && Legal(s.heap, DoResize(i, size)) && Takes(s.heap, DoResize(i, size))
    ensures var r := Step(s, DoResize(i, size));
      SystemInv(r) && r.maxUsed == Max(s.maxUsed, r.heap.pool - r.heap.available) && r.heap.pool == s.heap.pool
  {
    StepInv(s, DoResize(i, size));
  }

  /** There is room for the new free header when block `i` grows in place. */
  lemma {:induction false} GrowReady(h: Heap, i: nat, size: int)
    requires Partition(h) && i < |h.at| - 2 && !FreeAt(h, i) && FreeAt(h, i + 1)
    requires 0 <= size && SizeAt(h, i) < size && size + MIN < SizeAt(h, i) + SizeAt(h, i + 1)
    ensures Legal(h, DoResize(i, size)) && Takes(h, DoResize(i, size))
      && IsCut(h, i, h.at[i] + HDR + size, Next(h, DoResize(i, size)))
    ensures Tiles(Absorb(h, i + 1)) && FreeListExact(Absorb(h, i + 1))
    ensures var n := h.at[i] + HDR + size; Gap(h.at[i], n) && h.at[i + 1] <= n && Gap(n, Absorb(h, i + 1).at[i + 1])
  {
    AbsorbPartition(h, i + 1);
    CutFields(h, i, size);
    assert Gap(h.at[i], h.at[i + 1]) && Gap(h.at[i + 1], h.at[i + 2]);
  }

  /** Payload words of block `i` below a new header (or away from an old one) are kept. */
  lemma {:induction false} KeptWords(m: Memory, w: Memory, u: set<int>, pool: int, h: Heap, i: nat, n: int, from: int,
      to: int)
    requires Tiles(h) && pool + 6 <= h.start && i < |h.at| - 1 && Kept(m, w, u) && u <= Nodes(pool, h.at) + {n}
    requires h.at[i] + HDR <= from && to <= h.at[i + 1] && (n + 6 <= from || to <= n)
    ensures WordsKept(m, w, from, to)
  {
    forall x | from <= x < to && 0 <= x < |m| ensures w[x] == m[x] {
      PayloadOutside(pool, h, i, x);
      assert Outside(u, x);
    }
  }

  /** Used blocks other than `i` are the same with the free block behind `i` taken in. */
  lemma {:induction false} GrownOthers(h: Heap, i: nat, m: Memory, w: Memory, z: Memory)
    requires i < |h.at| - 2 && FreeAt(h, i + 1) && OthersKept(h, m, w, i) && OthersKept(Absorb(h, i + 1), w, z, i)
    ensures OthersKept(h, m, z, i)
  {
    var g := Absorb(h, i + 1);
    forall j, x | 0 <= j < |h.at| - 1 && j != i && !FreeAt(h, j) && InPayload(h, j, x) && 0 <= x < |m|
      ensures z[x] == m[x] {
      var l := if j < i then j else j - 1;
      assert InPayload(g, l, x) && !FreeAt(g, l);
    }
  }

  lemma NotInDelete(s: seq<int>, k: nat, x: int)
    requires k < |s| && x !in s
    ensures x !in Delete(s, k)
  {
    var r := Delete(s, k);
    forall l | 0 <= l < |r| ensures r[l] in s { assert r[l] == s[if l < k then l else l + 1]; }
  }

  /** A heap threaded through memory lies in it. */
  lemma {:induction false} Settle(m: Memory, u: set<int>, pool: int, r: Heap)
    requires Threads(m, u, pool, r.at, r.frees, r.used) && Tiles(r) && FreeListExact(r)
    requires 0 < pool && pool + 6 <= r.start && r.start + r.pool <= |m|
    ensures LiesIn(m, pool, r)
  {
    SpacedNodes(pool, r.at, m);
    InNodes(pool, r.at);
    forall k | 0 <= k < |r.frees| ensures r.frees[k] in Nodes(pool, r.at) { FreeIsUnused(r, k); }
    Rebase(m, u, Nodes(pool, r.at), pool, r.at, r.frees, r.used);
  }

  /** What freeing block `i` amounts to, case by case. */
  ghost predicate IsFreed(h: Heap, i: nat, r: Heap)
    requires i < |h.at| - 1
  {
    var left, right := i > 0 && FreeAt(h, i - 1), FreeAt(h, i + 1);
    var at := if left then Delete(h.at, i) else h.at;
    var j := if left then i - 1 else i;
    && r.at == (if right then Delete(at, j + 1) else at) && r.used == h.used - {h.at[i]}
    && r.frees == (if left then [] else [h.at[i]]) + (if right then Drop(h.frees, h.at[i + 1]) else h.frees)
    && r.available == h.available + SizeAt(h, i) + (if left then HDR else 0) + (if right then HDR else 0)
    && r.start == h.start && r.pool == h.pool
  }

  lemma {:induction false} FreeFields(h: Heap, i: nat)
    requires Tiles(h) && FreeListExact(h) && i < |h.at| - 1 && !FreeAt(h, i)
    ensures IsFreed(h, i, Free(h, i))
  {
    var a, r := h.at[i], Release(h, i);
    assert i > 0 ==> Gap(h.at[i - 1], a);
    assert Gap(a, h.at[i + 1]);
    assert FreeAt(r, i + 1) <==> FreeAt(h, i + 1);
    assert Listed(h.frees, h.at, h.used, a);
    DropAbsent(h.frees, a);
    var l := JoinLeft(r, i);
    assert ([a] + h.frees)[1..] == h.frees;
    if i > 0 && FreeAt(h, i - 1) {
      assert l.frees == h.frees;
    }
    assert FreeAt(l, Merged(r, i) + 1) <==> FreeAt(h, i + 1);
  }

  /** Where the right neighbour of block `i` is in the free list, if it is free. */
  ghost function RightInList(h: Heap, i: nat): (k: nat)
    requires Tiles(h) && FreeListExact(h) && i < |h.at| - 1
    ensures FreeAt(h, i + 1) ==>
      k < |h.frees| && h.frees[k] == h.at[i + 1] && Drop(h.frees, h.at[i + 1]) == Delete(h.frees, k)
  {
    assert Listed(h.frees, h.at, h.used, h.at[i + 1]);
    if FreeAt(h, i + 1) then
      var k := IndexOf(h.frees, h.at[i + 1]);
      DropIsDelete(h.frees, k);
      k
    else 0
  }

  predicate IsUsed(m: Memory, a: int)
    requires 0 <= a < |m|
  {
    m[a] % 2 == USED
  }

  /** The walk is at the list header exactly when it has passed every free block. */
  lemma ListEnd(m: Memory, pool: int, h: Heap, k: nat)
    requires LiesIn(m, pool, h) && k <= |h.frees|
    ensures FreeRing(pool, h.frees)[Succ(k, |h.frees| + 1)] == pool <==> k == |h.frees|
  {
    var s := FreeRing(pool, h.frees);
    assert k < |h.frees| ==> Differ(s[0], s[k + 1]);
  }

  lemma {:induction false} StillTooSmall(h: Heap, size: int, k: nat, i: nat)
    requires Spaced(h.at) && TooSmall(h, size, k) && k < |h.frees| && i < |h.at| - 1 && h.at[i] == h.frees[k]
      && SizeAt(h, i) < size
    ensures TooSmall(h, size, k + 1)
  {
    forall j, l | 0 <= j < k + 1 && 0 <= l < |h.at| - 1 && h.at[l] == h.frees[j] ensures SizeAt(h, l) < size {
      if j == k { SameIndex(h.at, i, l); }
    }
  }

  lemma FreeNode(m: Memory, u: set<int>, pool: int, at: seq<int>, frees: seq<int>, used: set<int>, k: nat)
    requires Threads(m, u, pool, at, frees, used) && k < |frees|
    ensures frees[k] in u && frees[k] != pool && frees[k] !in Delete(frees, k)
  {
    var s := FreeRing(pool, frees);
    assert s[k + 1] in u && Differ(s[0], s[k + 1]);
    Absent(s, k + 1);
    assert Delete(s, k + 1) == FreeRing(pool, Delete(frees, k));
  }

  lemma Absent(s: seq<int>, k: nat)
    requires Distinct(s) && k < |s|
    ensures s[k] !in Delete(s, k)
  {
    var r := Delete(s, k);
    forall l | 0 <= l < |r| ensures r[l] != s[k] {
      assert l < k ==> r[l] == s[l] && Differ(s[l], s[k]);
      assert l >= k ==> r[l] == s[l + 1] && Differ(s[k], s[l + 1]);
    }
  }
}