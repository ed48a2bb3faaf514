/** The small-memory heap working in place: three-word headers linked by offsets. */
module SmallMem {
  import Blocks
  import opened WordRing
  import opened SmallMemSpec
  import opened SmallMemLive

  /** The first header word: HEAP_MAGIC in the low half, the used flag in the high half. */
  const FREE_WORD: int := 0x1ea0
  const USED_WORD: int := 0x1_1ea0
  const NEXT: int := 1
  const PREV: int := 2

  function MarkWord(used: bool): int { if used then USED_WORD else FREE_WORD }

  /** Header `k` as it lies in memory. The back link of `heap_end` is not maintained. */
  predicate NodeAt(m: Memory, at: seq<int>, used: set<int>, k: int)
    requires 0 <= k < |at|
  {
    && 0 <= at[k] && at[k] + HDR <= |m| && m[at[k]] == MarkWord(at[k] in used)
    && m[at[k] + NEXT] == (if k + 1 < |at| then at[k + 1] else at[k])
    && (k < |at| - 1 ==> m[at[k] + PREV] == if k == 0 then at[0] else at[k - 1])
  }

  ghost predicate Laid(m: Memory, at: seq<int>, used: set<int>) {
    forall k {:trigger NodeAt(m, at, used, k)} :: 0 <= k < |at| ==> NodeAt(m, at, used, k)
  }

  /** A word in no header of `at` and not in a header at `n`. */
  ghost predicate Outside(at: seq<int>, n: int, x: int) {
    !(n <= x < n + HDR) && forall k :: 0 <= k < |at| ==> !(at[k] <= x < at[k] + HDR)
  }

  ghost predicate Kept(m: Memory, w: Memory, at: seq<int>, n: int) {
    |w| == |m| && forall x {:trigger Outside(at, n, x)} :: 0 <= x < |m| && Outside(at, n, x) ==> w[x] == m[x]
  }

  // ---- single steps ----

  lemma {:induction false} MarkLaid(m: Memory, at: seq<int>, used: set<int>, i: nat, now: set<int>)
    requires Laid(m, at, used) && Spaced(at) && i < |at| && forall x :: x != at[i] ==> (x in now <==> x in used)
    ensures NodeAt(m, at, used, i)
    ensures var w := m[at[i] := MarkWord(at[i] in now)]; Laid(w, at, now) && forall n :: Kept(m, w, at, n)
  {
    assert NodeAt(m, at, used, i);
    var w := m[at[i] := MarkWord(at[i] in now)];
    forall k | 0 <= k < |at| ensures NodeAt(w, at, now, k) {
      assert NodeAt(m, at, used, k);
      assert k < i ==> Gap(at[k], at[i]);
      assert k > i ==> Gap(at[i], at[k]);
    }
  }

  function SplitWords(m: Memory, a: int, next: int, n: int, end: int): Memory
    requires 0 <= a && a + HDR <= |m| && 0 <= n && n + HDR <= |m| && 0 <= next && next + HDR <= |m|
  {
    var w := m[n := FREE_WORD][n + NEXT := next][n + PREV := a][a + NEXT := n];
    if next != end then w[next + PREV := n] else w
  }

  /** A free header is written at `n` behind block `i`. */
  lemma {:induction false} SplitLaid(m: Memory, at: seq<int>, used: set<int>, i: nat, n: int)
    requires Laid(m, at, used) && Spaced(at) && i < |at| - 1 && n !in used && Gap(at[i], n) && Gap(n, at[i + 1])
    ensures NodeAt(m, at, used, i) && NodeAt(m, at, used, i + 1)
    ensures var w := SplitWords(m, at[i], at[i + 1], n, at[|at| - 1]);
      Laid(w, Insert(at, i + 1, n), used) && Kept(m, w, at, n)
  {
    assert NodeAt(m, at, used, i) && NodeAt(m, at, used, i + 1);
    var w, r := SplitWords(m, at[i], at[i + 1], n, at[|at| - 1]), Insert(at, i + 1, n);
    assert i + 1 < |at| - 1 ==> Gap(at[i + 1], at[|at| - 1]);
    forall k | 0 <= k < |r| ensures NodeAt(w, r, used, k) {
      if k != i + 1 && k != i && k != i + 2 {
        SplitElsewhere(m, at, used, i, n, k);
      }
    }
  }

  lemma {:induction false} SplitElsewhere(m: Memory, at: seq<int>, used: set<int>, i: nat, n: int, k: nat)
    requires Laid(m, at, used) && Spaced(at) && i < |at| - 1 && n !in used && Gap(at[i], n) && Gap(n, at[i + 1])
    requires NodeAt(m, at, used, i) && NodeAt(m, at, used, i + 1) && k <= |at| && k != i && k != i + 1 && k != i + 2
    ensures NodeAt(SplitWords(m, at[i], at[i + 1], n, at[|at| - 1]), Insert(at, i + 1, n), used, k)
  {
    var l := if k < i then k else k - 1;
    assert NodeAt(m, at, used, l);
    assert l < i ==> Gap(at[l], at[i]);
    assert l > i + 1 ==> Gap(at[i + 1], at[l]);
  }

  /** Block `i` is joined to the block before it. */
  lemma {:induction false} JoinLaid(m: Memory, at: seq<int>, used: set<int>, i: nat)
    requires Laid(m, at, used) && Spaced(at) && 0 < i < |at| - 1
    ensures NodeAt(m, at, used, i - 1) && NodeAt(m, at, used, i) && NodeAt(m, at, used, i + 1)
    ensures var w := m[at[i - 1] + NEXT := at[i + 1]][at[i + 1] + PREV := at[i - 1]];
      Laid(w, Delete(at, i), used) && forall n :: Kept(m, w, at, n)
  {
    assert NodeAt(m, at, used, i - 1) && NodeAt(m, at, used, i) && NodeAt(m, at, used, i + 1);
    var w, r := m[at[i - 1] + NEXT := at[i + 1]][at[i + 1] + PREV := at[i - 1]], Delete(at, i);
    assert Gap(at[i - 1], at[i + 1]);
    forall k | 0 <= k < |r| ensures NodeAt(w, r, used, k) {
      var l := if k < i then k else k + 1;
      assert r[k] == at[l] && NodeAt(m, at, used, l);
      assert l < i - 1 ==> Gap(at[l], at[i - 1]);
      assert l > i + 1 ==> Gap(at[i + 1], at[l]);
      assert l < i + 1 ==> Gap(at[l], at[i + 1]);
      assert l > i - 1 ==> Gap(at[i - 1], at[l]);
    }
  }

  predicate InPayload(h: Heap, j: nat, x: int)
    requires j < |h.at| - 1
  {
    h.at[j] + HDR <= x < h.at[j + 1]
  }

  /** The payloads of the used blocks other than block `i` keep their contents. */
  ghost predicate OthersKept(h: Heap, m: Memory, w: Memory, i: int) {
    |w| == |m| && forall j, x {:trigger InPayload(h, j, x)} ::
      0 <= j < |h.at| - 1 && j != i && !FreeAt(h, j) && InPayload(h, j, x) && 0 <= x < |m| ==> w[x] == m[x]
  }

  /** A payload word is in no header, nor in one placed in block `i` elsewhere. */
  lemma {:induction false} PayloadOutside(h: Heap, i: nat, n: int, j: nat, x: int)
    requires Spaced(h.at) && i < |h.at| - 1 && h.at[i] <= n && n + HDR <= h.at[i + 1] && j < |h.at| - 1
      && InPayload(h, j, x)
    requires j == i ==> x < n || n + HDR <= x
    ensures Outside(h.at, n, x)
  {
    forall k | 0 <= k < |h.at| ensures !(h.at[k] <= x < h.at[k] + HDR) {
      assert k < j ==> Gap(h.at[k], h.at[j]);
      assert k > j + 1 ==> Gap(h.at[j + 1], h.at[k]);
    }
    assert j + 1 < i ==> Gap(h.at[j + 1], h.at[i]);
    assert i + 1 < j ==> Gap(h.at[i + 1], h.at[j]);
  }

  lemma {:induction false} KeptPayloads(m: Memory, w: Memory, h: Heap, i: nat, n: int)
    requires Spaced(h.at) && i < |h.at| - 1 && h.at[i] <= n && n + HDR <= h.at[i + 1] && Kept(m, w, h.at, n)
    ensures OthersKept(h, m, w, i) && WordsKept(m, w, h.at[i] + HDR, n)
  {
    forall j, x | 0 <= j < |h.at| - 1 && j != i && InPayload(h, j, x) && 0 <= x < |m| ensures w[x] == m[x] {
      PayloadOutside(h, i, n, j, x);
    }
    forall x | h.at[i] + HDR <= x < n && 0 <= x < |m| ensures w[x] == m[x] { PayloadOutside(h, i, n, i, x); }
  }

  lemma KeptTwice(m: Memory, w: Memory, z: Memory, at: seq<int>, n: int)
    requires Kept(m, w, at, n) && Kept(w, z, at, n)
    ensures Kept(m, z, at, n)
  {
  }

  /** Keeping everything outside fewer headers keeps everything outside more. */
  lemma KeptWider(m: Memory, w: Memory, at: seq<int>, wide: seq<int>, n: int, l: int)
    requires Kept(m, w, at, l) && forall k :: 0 <= k < |at| ==> at[k] in wide || at[k] == n
    requires l in wide || l == n
    ensures Kept(m, w, wide, n)
  {
    forall x | 0 <= x < |m| && Outside(wide, n, x) ensures w[x] == m[x] { assert Outside(at, l, x); }
  }

  lemma {:induction false} DeleteWithin(at: seq<int>, i: nat, n: int)
    requires i < |at|
    ensures forall k :: 0 <= k < |Delete(at, i)| ==> Delete(at, i)[k] in at || Delete(at, i)[k] == n
  {
    var r := Delete(at, i);
    forall k | 0 <= k < |r| ensures r[k] in at { assert r[k] == at[if k < i then k else k + 1]; }
  }

  lemma {:induction false} InsertWithin(at: seq<int>, i: nat, n: int)
    requires i <= |at|
    ensures forall k :: 0 <= k < |Insert(at, i, n)| ==> Insert(at, i, n)[k] in at || Insert(at, i, n)[k] == n
  {
    var r := Insert(at, i, n);
    forall k | 0 <= k < |r| ensures r[k] in at || r[k] == n {
      assert k != i ==> r[k] == at[if k < i then k else k - 1];
    }
  }

  function Words(bytes: nat): int { (bytes + 3) / 4 }

  /** The words hold the bytes, and one word less does not. */
  lemma {:induction false} WordsHold(bytes: nat)
    ensures 0 <= Words(bytes) && bytes <= 4 * Words(bytes) && 4 * (Words(bytes) - 1) < bytes
  {
    var w := (bytes + 3) / 4;
    assert 4 * w <= bytes + 3 < 4 * w + 4;
  }

  class SmallMem {
    var mem: Memory
    /** mem_size_aligned in words */
    const memSize: int
    var lfree: int
    var usedMem: int
    var maxMem: int
    ghost var sys: System

    ghost predicate Valid()
      reads this
    {
      && Laid(mem, sys.heap.at, sys.heap.used) && SystemInv(sys)
      && End(sys.heap) == memSize + HDR && memSize >= MIN
      && lfree == sys.heap.lfree && usedMem == sys.heap.usedMem && maxMem == sys.maxMem
    }

    /** rt_system_heap_init on an aligned range of `memSize` plus two headers. */
    constructor (memory: Memory, size: int)
      requires size >= MIN && size + 2 * HDR <= |memory|
      ensures Valid() && sys == System(Init(size + HDR), 0, 0)
    {
      memSize := size;
      var end := size + HDR;
      mem := memory[0 := FREE_WORD][NEXT := end][PREV := 0][end := USED_WORD][end + NEXT := end][end + PREV := end];
      lfree, usedMem, maxMem := 0, 0, 0;
      sys := System(Init(end), 0, 0);
      new;
      InitInv(end);
      forall k | 0 <= k < 2 ensures NodeAt(mem, Init(end).at, Init(end).used, k) {}
    }

    /** Forward half of plug_holes. */
    method PlugNext(a: int, ghost h: Heap, ghost i: nat, ghost n: int)
      requires Laid(mem, h.at, h.used) && Tiles(h) && i < |h.at| - 1 && h.at[i] == a && End(h) == memSize + HDR
        && lfree == h.lfree
      modifies this`mem, this`lfree
      ensures Laid(mem, JoinNext(h, i).at, h.used) && lfree == JoinNext(h, i).lfree && Kept(old(mem), mem, h.at, n)
    {
      assert NodeAt(mem, h.at, h.used, i) && NodeAt(mem, h.at, h.used, i + 1);
      assert Gap(h.at[i], h.at[i + 1]);
      var nmem := mem[a + NEXT];
      if a != nmem && mem[nmem] == FREE_WORD && nmem != memSize + HDR {
        JoinLaid(mem, h.at, h.used, i + 1);
        if lfree == nmem { lfree := a; }
        mem := mem[a + NEXT := mem[nmem + NEXT]];
        mem := mem[mem[nmem + NEXT] + PREV := a];
      }
    }

    /** Backward half of plug_holes. */
    method PlugPrev(a: int, ghost h: Heap, ghost i: nat, ghost n: int)
      requires Laid(mem, h.at, h.used) && Tiles(h) && i < |h.at| - 1 && h.at[i] == a && lfree == h.lfree
      modifies this`mem, this`lfree
      ensures Laid(mem, JoinPrev(h, i).at, h.used) && lfree == JoinPrev(h, i).lfree && Kept(old(mem), mem, h.at, n)
    {
      assert NodeAt(mem, h.at, h.used, i);
      var pmem := mem[a + PREV];
      if i > 0 {
        assert NodeAt(mem, h.at, h.used, i - 1);
        assert Gap(h.at[i - 1], h.at[i]);
      }
      if pmem != a && mem[pmem] == FREE_WORD {
        JoinLaid(mem, h.at, h.used, i);
        if lfree == a { lfree := pmem; }
        mem := mem[pmem + NEXT := mem[a + NEXT]];
        mem := mem[mem[a + NEXT] + PREV := pmem];
      }
    }

    method PlugHoles(a: int, ghost h: Heap, ghost i: nat, ghost n: int)
      requires Laid(mem, h.at, h.used) && Tiles(h) && i < |h.at| - 1 && h.at[i] == a && End(h) == memSize + HDR
        && lfree == h.lfree
      requires Tiles(JoinNext(h, i))
      modifies this`mem, this`lfree
      ensures Laid(mem, Plug(h, i).at, h.used) && lfree == Plug(h, i).lfree && Kept(old(mem), mem, h.at, n)
    {
      ghost var m := JoinNext(h, i);
      PlugNext(a, h, i, n);
      ghost var m1 := mem;
      PlugPrev(a, m, i, n);
      if FreeAt(h, i + 1) { DeleteWithin(h.at, i + 1, n); }
      KeptWider(m1, mem, m.at, h.at, n, n);
      KeptTwice(old(mem), m1, mem, h.at, n);
    }

    /** rt_free; the block must be in use. */
    method Free(ptr: int, ghost i: nat)
      requires Valid()
      requires ptr != 0 ==> i < |sys.heap.at| - 1 && sys.heap.at[i] == ptr - HDR && !FreeAt(sys.heap, i)
      modifies this
      ensures Valid()
      ensures ptr == 0 ==> sys == old(sys) && mem == old(mem)
      ensures ptr != 0 ==>
        Legal(old(sys.heap), DoFree(i)) && sys == Step(old(sys), DoFree(i))
        && OthersKept(old(sys.heap), old(mem), mem, i)
    {
      hide Inv, OthersKept;
      if ptr == 0 { return; }
      ghost var h, after := sys.heap, Step(sys, DoFree(i));
      StepInv(sys, DoFree(i));
      FreeReady(h, i);
      var a := ptr - HDR;
      ghost var u := Unmark(h, i);
      WriteMark(a, false, h.at, h.used, i, u.used, h.at, a);
      ghost var m1 := mem;
      if a < lfree { lfree := a; }
      assert NodeAt(mem, u.at, u.used, i);
      usedMem := usedMem - (mem[a + NEXT] - a);
      PlugHoles(a, u, i, a);
      KeptTwice(old(mem), m1, mem, h.at, a);
      KeptPayloads(old(mem), mem, h, i, a);
      sys := after;
    }

    /** Writes a free header at `n` and links it behind block `a`. */
    method WriteSplit(a: int, n: int, ghost at: seq<int>, ghost used: set<int>, ghost i: nat)
      requires Laid(mem, at, used) && Spaced(at) && i < |at| - 1 && at[i] == a && at[|at| - 1] == memSize + HDR
      requires n !in used && Gap(a, n) && Gap(n, at[i + 1])
      modifies this`mem
      ensures Laid(mem, Insert(at, i + 1, n), used) && Kept(old(mem), mem, at, n)
    {
      SplitLaid(mem, at, used, i, n);
      var next := mem[a + NEXT];
      mem := mem[n := FREE_WORD];
      mem := mem[n + NEXT := next];
      mem := mem[n + PREV := a];
      mem := mem[a + NEXT := n];
      if next != memSize + HDR { mem := mem[next + PREV := n]; }
    }

    method WriteMark(a: int, flag: bool, ghost at: seq<int>, ghost used: set<int>, ghost i: nat, ghost now: set<int>,
        ghost wide: seq<int>, ghost n: int)
      requires Laid(mem, at, used) && Spaced(at) && i < |at| && at[i] == a && flag == (a in now)
      requires forall x :: x != a ==> (x in now <==> x in used)
      requires forall k :: 0 <= k < |at| ==> at[k] in wide || at[k] == n
      modifies this`mem
      ensures Laid(mem, at, now) && Kept(old(mem), mem, wide, n)
    {
      MarkLaid(mem, at, used, i, now);
      mem := mem[a := if flag then USED_WORD else FREE_WORD];
      KeptWider(old(mem), mem, at, wide, n, n);
    }

    /** Block `i` is taken: split if the rest is worth a block, mark used, count. */
    method Take(a: int, size: int, ghost h: Heap, ghost i: nat) returns (ghost n: int)
      requires Laid(mem, h.at, h.used) && Tiles(h) && i < |h.at| - 1 && h.at[i] == a && FreeAt(h, i)
        && MIN <= size <= SizeAt(h, i)
      requires End(h) == memSize + HDR && usedMem == h.usedMem
      modifies this`mem, this`usedMem, this`maxMem
      ensures var r := Taken(h, i, size); Laid(mem, r.at, r.used) && usedMem == r.usedMem
      ensures maxMem == Max(old(maxMem), usedMem)
      ensures a <= n && n + HDR <= h.at[i + 1] && Kept(old(mem), mem, h.at, n)
    {
      assert NodeAt(mem, h.at, h.used, i);
      var next := mem[a + NEXT];
      n := a;
      if next - (a + HDR) >= size + HDR + MIN {
        n := a + HDR + size;
        InsertedHeader(h.at, i, n);
        assert !IsHeader(h.at, n);
        WriteSplit(a, a + HDR + size, h.at, h.used, i);
        ghost var m1 := mem;
        InsertWithin(h.at, i + 1, n);
        WriteMark(a, true, Insert(h.at, i + 1, n), h.used, i, h.used + {a}, h.at, n);
        KeptTwice(old(mem), m1, mem, h.at, n);
        usedMem := usedMem + (size + HDR);
      } else {
        WriteMark(a, true, h.at, h.used, i, h.used + {a}, h.at, n);
        usedMem := usedMem + (next - a);
      }
      if maxMem < usedMem { maxMem := usedMem; }
    }

    /** The loop that moves `lfree` off a block that was just taken. */
    method Advance(ghost h: Heap, ghost i: nat)
      requires Laid(mem, h.at, h.used) && Tiles(h) && i < |h.at| && lfree == h.at[i] && End(h) == memSize + HDR
      modifies this`lfree
      ensures lfree == h.at[FirstFree(h.at, h.used, i)]
    {
      ghost var k := i;
      while mem[lfree] == USED_WORD && lfree != memSize + HDR
        invariant i <= k < |h.at| && lfree == h.at[k] && FirstFree(h.at, h.used, k) == FirstFree(h.at, h.used, i)
        invariant NodeAt(mem, h.at, h.used, k)
        decreases |h.at| - k
      {
        assert k < |h.at| - 1;
        lfree := mem[lfree + NEXT];
        k := k + 1;
        assert NodeAt(mem, h.at, h.used, k);
      }
      assert k < |h.at| - 1 ==> Gap(h.at[k], End(h));
    }

    /** The search of rt_malloc, from `lfree` up to the loop bound. */
    method Search(size: int) returns (found: bool, ptr: int, ghost i: nat)
      requires Valid() && size >= MIN
      ensures found ==> Found(sys.heap, i, size) && ptr == sys.heap.at[i]
      ensures !found ==> NotFound(sys.heap, size)
    {
      ghost var h := sys.heap;
      found, ptr := false, lfree;
      i :| 0 <= i < |h.at| && h.at[i] == lfree;
      forall j | 0 <= j < i ensures h.at[j] < lfree { assert Gap(h.at[j], h.at[i]); }
      while ptr < memSize - size
        invariant 0 <= i < |h.at| && ptr == h.at[i] && lfree <= ptr
        invariant forall j :: 0 <= j < i && lfree <= h.at[j] ==> !Candidate(h, j, size)
        decreases |h.at| - i
      {
        assert NodeAt(mem, h.at, h.used, i);
        assert i < |h.at| - 1;
        assert Gap(h.at[i], h.at[i + 1]);
        if mem[ptr] == FREE_WORD && mem[ptr + NEXT] - (ptr + HDR) >= size {
          found := true;
          return;
        }
        ptr := mem[ptr + NEXT];
        i := i + 1;
      }
      forall j | 0 <= j < |h.at| && lfree <= h.at[j] ensures !Candidate(h, j, size) {
        assert j > i ==> Gap(h.at[i], h.at[j]);
      }
    }

    /** rt_malloc: the first fitting block from `lfree` on. */
    method Malloc(bytes: nat) returns (ptr: int, ghost i: nat)
      requires Valid()
      modifies this
      ensures Valid()
      ensures bytes == 0 || Words(bytes) > memSize ==> ptr == 0
      ensures ptr == 0 ==> sys == old(sys) && mem == old(mem)
      ensures ptr == 0 && bytes > 0 && Words(bytes) <= memSize ==> NotFound(old(sys.heap), Max(Words(bytes), MIN))
      ensures ptr != 0 ==> Found(old(sys.heap), i, Max(Words(bytes), MIN)) && ptr == old(sys.heap).at[i] + HDR
      ensures ptr != 0 ==>
        Legal(old(sys.heap), DoMalloc(i, Max(Words(bytes), MIN)))
        && sys == Step(old(sys), DoMalloc(i, Max(Words(bytes), MIN)))
      ensures ptr != 0 ==> OthersKept(old(sys.heap), old(mem), mem, i)
      ensures ptr != 0 ==>
        && Dead(old(sys.heap), ptr - HDR) && Serves(sys.heap, ptr, bytes)
        && SameLive(old(sys.heap), sys.heap, ptr - HDR, ptr - HDR)
    {
      ptr, i := 0, 0;
      if bytes == 0 { return; }
      var size := Words(bytes);
      if size > memSize { return; }
      if size < MIN { size := MIN; }
      var found, a;
      found, a, i := Search(size);
      if found {
        MallocFound(a, size, i);
        ptr := a + HDR;
        ghost var h := old(sys.heap);
        MallocServes(h, i, bytes);
        assert i > 0 ==> Gap(h.at[0], h.at[i]);
      }
    }

    method MallocFound(a: int, size: int, ghost i: nat)
      requires Valid() && i < |sys.heap.at| - 1 && sys.heap.at[i] == a && FreeAt(sys.heap, i)
        && MIN <= size <= SizeAt(sys.heap, i)
      modifies this
      ensures Valid() && Legal(old(sys.heap), DoMalloc(i, size)) && sys == Step(old(sys), DoMalloc(i, size))
      ensures OthersKept(old(sys.heap), old(mem), mem, i)
    {
      ghost var h, after := sys.heap, Step(sys, DoMalloc(i, size));
      StepInv(sys, DoMalloc(i, size));
      TakenKeeps(h, i, size);
      ghost var n := Take(a, size, h, i);
      if a == lfree { Advance(Taken(h, i, size), i); }
      KeptPayloads(old(mem), mem, h, i, n);
      sys := after;
    }

    /** The splitting branch of rt_realloc. */
    method ShrinkInPlace(ptr: int, newsize: int, size: int, ghost i: nat)
      requires Valid() && i < |sys.heap.at| - 1 && sys.heap.at[i] == ptr - HDR && !FreeAt(sys.heap, i)
      requires size == SizeAt(sys.heap, i) && 0 <= newsize && newsize + HDR + MIN < size
      modifies this
      ensures Valid() && Legal(old(sys.heap), DoShrink(i, newsize)) && sys == Step(old(sys), DoShrink(i, newsize))
      ensures OthersKept(old(sys.heap), old(mem), mem, i) && WordsKept(old(mem), mem, ptr, ptr + newsize)
    {
      ghost var h, after := sys.heap, Step(sys, DoShrink(i, newsize));
      StepInv(sys, DoShrink(i, newsize));
      var a := ptr - HDR;
      var n := a + HDR + newsize;
      ShrinkReady(h, i, newsize);
      usedMem := usedMem - (size - newsize);
      WriteSplit(a, n, h.at, h.used, i);
      ghost var m1, at := mem, Insert(h.at, i + 1, n);
      PlugHoles(n, Split(h, i, n), i + 1, n);
      InsertWithin(h.at, i + 1, n);
      KeptWider(m1, mem, at, h.at, n, n);
      KeptTwice(old(mem), m1, mem, h.at, n);
      KeptPayloads(old(mem), mem, h, i, n);
      sys := after;
    }

    /** rt_memcpy of `len` payload words between two blocks. */
    method CopyWords(dst: int, src: int, len: int, ghost h: Heap, ghost d: nat, ghost s: nat)
      requires Laid(mem, h.at, h.used) && Spaced(h.at) && d < |h.at| - 1 && s < |h.at| - 1 && d != s && 0 <= len
      requires h.at[d] + HDR == dst && dst + len <= h.at[d + 1] && h.at[s] + HDR == src && src + len <= h.at[s + 1]
      modifies this`mem
      ensures Laid(mem, h.at, h.used) && Copied(old(mem), mem, dst, src, len)
    {
      assert NodeAt(mem, h.at, h.used, d) && NodeAt(mem, h.at, h.used, s);
      assert NodeAt(mem, h.at, h.used, d + 1) && NodeAt(mem, h.at, h.used, s + 1);
      assert d + 1 < s ==> Gap(h.at[d + 1], h.at[s]);
      assert s + 1 < d ==> Gap(h.at[s + 1], h.at[d]);
      var i := 0;
      while i < len
        invariant 0 <= i <= len && Copied(old(mem), mem, dst, src, i)
      {
        mem := mem[dst + i := mem[src + i]];
        i := i + 1;
      }
      forall k | 0 <= k < |h.at| ensures NodeAt(mem, h.at, h.used, k) {
        assert NodeAt(old(mem), h.at, h.used, k);
        assert k < d ==> Gap(h.at[k], h.at[d]);
        assert k > d + 1 ==> Gap(h.at[d + 1], h.at[k]);
      }
    }

    /** rt_realloc by moving. */
    method Move(ptr: int, bytes: nat, size: int, ghost i: nat) returns (res: int, ghost a: nat, ghost j: nat)
      requires Valid() && i < |sys.heap.at| - 1 && sys.heap.at[i] == ptr - HDR && !FreeAt(sys.heap, i)
      requires size == SizeAt(sys.heap, i)
      modifies this
      ensures Valid()
      ensures bytes == 0 || Words(bytes) > memSize ==> res == 0
      ensures res == 0 ==> sys == old(sys) && mem == old(mem)
      ensures res == 0 && bytes > 0 && Words(bytes) <= memSize ==> NotFound(old(sys.heap), Max(Words(bytes), MIN))
      ensures res != 0 ==>
        Moved(old(sys), i, Max(Words(bytes), MIN), a, j, sys, res) && Found(old(sys.heap), a, Max(Words(bytes), MIN))
      ensures res != 0 ==>
        OthersKept(old(sys.heap), old(mem), mem, i)
        && Carried(old(mem), mem, res, ptr, if size < Words(bytes) then size else Words(bytes))
    {
      j := 0;
      ghost var h, need := sys.heap, Max(Words(bytes), MIN);
      res, a := Malloc(bytes);
      if res != 0 {
        ghost var g, m1 := sys.heap, mem;
        j := AfterMalloc(h, a, need, i);
        MallocIndex(h, a, need, i);
        MallocRange(h, a, need);
        assert Gap(h.at[i], h.at[i + 1]);
        var len := if size < Words(bytes) then size else Words(bytes);
        CopyWords(res, ptr, len, g, a, j);
        ghost var m2 := mem;
        assert i > 0 ==> Gap(h.at[0], h.at[i]);
        Free(ptr, j);
        MovedOthers(h, a, need, i, j, g, old(mem), m1, m2, mem, ptr, res, len);
      }
    }

    /** rt_realloc of a block of the heap. */
    method Refit(ptr: int, bytes: nat, size: int, ghost i: nat) returns (res: int, ghost a: nat, ghost j: nat)
      requires Valid() && i < |sys.heap.at| - 1 && sys.heap.at[i] == ptr - HDR && !FreeAt(sys.heap, i)
      requires size == SizeAt(sys.heap, i) && Words(bytes) <= memSize && ptr != 0
      modifies this
      ensures Valid()
      ensures
        if size == Words(bytes) then res == ptr && sys == old(sys) && mem == old(mem)
        else if Words(bytes) + HDR + MIN < size then
          && res == ptr && sys == Step(old(sys), DoShrink(i, Words(bytes)))
          && OthersKept(old(sys.heap), old(mem), mem, i) && WordsKept(old(mem), mem, ptr, ptr + Words(bytes))
        else if res == 0 then sys == old(sys) && mem == old(mem)
        else
          && Moved(old(sys), i, Max(Words(bytes), MIN), a, j, sys, res)
          && OthersKept(old(sys.heap), old(mem), mem, i)
          && Carried(old(mem), mem, res, ptr, if size < Words(bytes) then size else Words(bytes))
      ensures res != 0 ==> Serves(sys.heap, res, bytes) && SameLive(old(sys.heap), sys.heap, ptr - HDR, res - HDR)
      ensures res != 0 && res != ptr ==> Dead(sys.heap, ptr - HDR)
    {
      hide Live, Moved, Laid;
      WordsHold(bytes);
      res, a, j := ptr, 0, 0;
      var newsize := Words(bytes);
      if size == newsize {
        KeepServes(sys.heap, i);
        return;
      }
      if newsize + HDR + MIN < size {
        ShrinkServes(sys.heap, i, newsize);
        ShrinkInPlace(ptr, newsize, size, i);
      } else {
        ghost var s := sys;
        res, a, j := Move(ptr, bytes, size, i);
        if res != 0 { MovedServes(s, i, bytes, a, j, sys, res); }
      }
    }

    /** rt_realloc. The new size is aligned but not raised to the minimum; a pointer outside
        the heap is returned as it is; a block too little smaller to be split is moved. */
    method Realloc(ptr: int, bytes: nat, ghost i: nat) returns (res: int, ghost a: nat, ghost j: nat)
      requires Valid()
      requires 0 < ptr < memSize + HDR ==> i < |sys.heap.at| - 1 && sys.heap.at[i] == ptr - HDR && !FreeAt(sys.heap, i)
      modifies this
      ensures Valid()
      ensures Words(bytes) > memSize ==> res == 0 && sys == old(sys) && mem == old(mem)
      ensures Words(bytes) <= memSize && ptr != 0 && !(0 < ptr < memSize + HDR) ==>
        res == ptr && sys == old(sys) && mem == old(mem)
      ensures Words(bytes) <= memSize && ptr == 0 ==>
        if res == 0 then sys == old(sys) && mem == old(mem)
        else && Found(old(sys.heap), a, Max(Words(bytes), MIN)) && res == old(sys.heap).at[a] + HDR
             && sys == Step(old(sys), DoMalloc(a, Max(Words(bytes), MIN)))
             && OthersKept(old(sys.heap), old(mem), mem, a)
      ensures Words(bytes) <= memSize && 0 < ptr < memSize + HDR ==>
        var size := SizeAt(old(sys.heap), i);
        if size == Words(bytes) then res == ptr && sys == old(sys) && mem == old(mem)
        else if Words(bytes) + HDR + MIN < size then
          && res == ptr && sys == Step(old(sys), DoShrink(i, Words(bytes)))
          && OthersKept(old(sys.heap), old(mem), mem, i) && WordsKept(old(mem), mem, ptr, ptr + Words(bytes))
        else if res == 0 then sys == old(sys) && mem == old(mem)
        else
          && Moved(old(sys), i, Max(Words(bytes), MIN), a, j, sys, res)
          && OthersKept(old(sys.heap), old(mem), mem, i)
          && Carried(old(mem), mem, res, ptr, if size < Words(bytes) then size else Words(bytes))
      ensures res != 0 && (ptr == 0 || 0 < ptr < memSize + HDR) ==>
        Serves(sys.heap, res, bytes) && SameLive(old(sys.heap), sys.heap, ptr - HDR, res - HDR)
      ensures res != 0 && 0 < ptr < memSize + HDR && res != ptr ==> Dead(sys.heap, ptr - HDR)
    {
      res, a, j := 0, 0, 0;
      WordsHold(bytes);
      var newsize := Words(bytes);
      if newsize > memSize { return; }
      if ptr == 0 {
        res, a := Malloc(bytes);
        return;
      }
      res := ptr;
      if ptr < 0 || ptr >= memSize + HDR { return; }
      assert NodeAt(mem, sys.heap.at, sys.heap.used, i);
      var size := mem[ptr - HDR + NEXT] - (ptr - HDR) - HDR;
      res, a, j := Refit(ptr, bytes, size, i);
    }
  }

  lemma {:induction false} ShrinkReady(h: Heap, i: nat, size: int)
    requires Inv(h) && i < |h.at| - 1 && !FreeAt(h, i) && 0 <= size && size + HDR + MIN < SizeAt(h, i)
    ensures var n := h.at[i] + HDR + size;
      var s := Split(h, i, n);
      && n !in h.used && Gap(h.at[i], n) && Gap(n, h.at[i + 1]) && Tiles(s) && End(s) == End(h) && s.used == h.used
      && s.lfree == h.lfree
      && i + 1 < |s.at| - 1 && s.at[i + 1] == n && Tiles(JoinNext(s, i + 1)) && Shrink(h, i, size) == Plug(s, i + 1)
      && Plug(s, i + 1).used == h.used && Plug(s, i + 1).usedMem == h.usedMem - (SizeAt(h, i) - size)
      && End(Plug(s, i + 1)) == End(h)
  {
    var n := h.at[i] + HDR + size;
    InsertedHeader(h.at, i, n);
    assert !IsHeader(h.at, n);
    SplitPartition(h, i, n);
    var s := Split(h, i, n);
    if FreeAt(s, i + 2) { JoinPartition(s, i + 2); }
  }

  /** Moving block `i` is an allocation of block `a`, then freeing the old block, by then
      block `j`. */
  ghost predicate Moved(s: System, i: nat, size: int, a: nat, j: nat, t: System, res: int) {
    && Legal(s.heap, DoMalloc(a, size)) && res == s.heap.at[a] + HDR
    && var m := Step(s, DoMalloc(a, size));
       i < |s.heap.at| && j < |m.heap.at| && m.heap.at[j] == s.heap.at[i]
       && Legal(m.heap, DoFree(j)) && t == Step(m, DoFree(j))
  }

  lemma {:induction false} MallocServes(h: Heap, i: nat, bytes: nat)
    requires Inv(h) && Legal(h, DoMalloc(i, Max(Words(bytes), MIN)))
    ensures var r := Next(h, DoMalloc(i, Max(Words(bytes), MIN)));
      Dead(h, h.at[i]) && Serves(r, h.at[i] + HDR, bytes) && SameLive(h, r, h.at[i], h.at[i])
  {
    WordsHold(bytes);
    var need := Max(Words(bytes), MIN);
    var got := MallocLive(h, i, need);
    assert Live(SmallMemSpec.Malloc(h, i, need), h.at[i], got);
  }

  lemma {:induction false} KeepServes(h: Heap, i: nat)
    requires Inv(h) && i < |h.at| - 1 && !FreeAt(h, i)
    ensures Live(h, h.at[i], SizeAt(h, i))
  {
    TilesRise(h);
    Blocks.MarkUsed(h.at, h.used, i, h.at[i], h.at[i + 1]);
  }

  lemma {:induction false} ShrinkServes(h: Heap, i: nat, size: int)
    requires Inv(h) && Legal(h, DoShrink(i, size))
    ensures var r := Next(h, DoShrink(i, size)); Live(r, h.at[i], size) && SameLive(h, r, h.at[i], h.at[i])
  {
    ShrinkLive(h, i, size);
  }

  /** A move serves the request, and the old block is gone. */
  lemma {:induction false} MovedServes(s: System, i: nat, bytes: nat, a: nat, j: nat, t: System, res: int)
    requires Inv(s.heap) && Moved(s, i, Max(Words(bytes), MIN), a, j, t, res) && !FreeAt(s.heap, i)
    ensures Serves(t.heap, res, bytes) && Dead(t.heap, s.heap.at[i])
      && SameLive(s.heap, t.heap, s.heap.at[i], res - HDR)
  {
    var h, need := s.heap, Max(Words(bytes), MIN);
    var m := Step(s, DoMalloc(a, need));
    MallocServes(h, a, bytes);
    MallocInv(h, a, need);
    FreeLive(m.heap, j);
    var n :| Live(m.heap, h.at[a], n) && bytes <= 4 * n;
    assert h.at[a] != h.at[i] && Live(t.heap, res - HDR, n);
    forall x, k | x != h.at[i] && x != h.at[a] ensures Live(t.heap, x, k) <==> Live(h, x, k) {
      assert Live(m.heap, x, k) <==> Live(h, x, k);
    }
  }

  /** Where block `b` is after allocating block `a`. */
  ghost function AfterMalloc(h: Heap, a: nat, size: int, b: nat): nat
    requires a < |h.at| - 1
  {
    if SizeAt(h, a) >= size + HDR + MIN && b > a then b + 1 else b
  }

  lemma {:induction false} MallocIndex(h: Heap, a: nat, size: int, b: nat)
    requires a < |h.at| - 1 && b < |h.at| - 1 && a != b
    ensures var g, c := Malloc(h, a, size), AfterMalloc(h, a, size, b);
      c < |g.at| - 1 && c != a && g.at[c] == h.at[b] && g.at[c + 1] == h.at[b + 1] && (!FreeAt(h, b) ==> !FreeAt(g, c))
  {
  }

  lemma {:induction false} MallocRange(h: Heap, a: nat, size: int)
    requires a < |h.at| - 1 && 0 <= size <= SizeAt(h, a)
    ensures var g := Malloc(h, a, size);
      a < |g.at| - 1 && g.at[a] == h.at[a] && h.at[a] + HDR + size <= g.at[a + 1] <= h.at[a + 1] && !FreeAt(g, a)
  {
  }

  /** Nothing but the moved contents changes for a live block through the three phases. */
  lemma {:induction false} MovedOthers(h: Heap, a: nat, size: int, i: nat, j: nat, g: Heap, m0: Memory, m1: Memory,
      m2: Memory, m3: Memory, ptr: int, res: int, len: int)
    requires Spaced(h.at) && a < |h.at| - 1 && i < |h.at| - 1 && a != i && FreeAt(h, a) && !FreeAt(h, i)
      && 0 <= size <= SizeAt(h, a) && len <= SizeAt(h, i) && len <= size
    requires g == Malloc(h, a, size) && j == AfterMalloc(h, a, size, i) && ptr == h.at[i] + HDR && res == h.at[a] + HDR
    requires OthersKept(h, m0, m1, a) && Copied(m1, m2, res, ptr, len) && OthersKept(g, m2, m3, j)
    ensures OthersKept(h, m0, m3, i) && Carried(m0, m3, res, ptr, len)
  {
    MallocRange(h, a, size);
    MallocIndex(h, a, size, i);
    forall b, x | 0 <= b < |h.at| - 1 && b != i && !FreeAt(h, b) && InPayload(h, b, x) && 0 <= x < |m0|
      ensures m3[x] == m0[x] {
      MallocIndex(h, a, size, b);
      assert a + 1 < b ==> Gap(h.at[a + 1], h.at[b]);
      assert b + 1 < a ==> Gap(h.at[b + 1], h.at[a]);
      assert InPayload(g, AfterMalloc(h, a, size, b), x);
    }
    forall x | 0 <= x < |m0| && res <= x < res + len && 0 <= x - res + ptr < |m0| ensures m3[x] == m0[x - res + ptr] {
      assert InPayload(g, a, x);
      assert InPayload(h, i, x - res + ptr);
    }
  }

  /** Freeing block `i` is unmarking it and plugging holes; what that needs. */
  lemma {:induction false} FreeReady(h: Heap, i: nat)
    requires Inv(h) && i < |h.at| - 1 && !FreeAt(h, i)
    ensures var u := Unmark(h, i);
      Tiles(u) && Tiles(JoinNext(u, i)) && End(u) == End(h) && Free(h, i) == Plug(u, i)
        && Free(h, i).usedMem == u.usedMem
      && Free(h, i).used == u.used && Gap(h.at[i], h.at[i + 1]) && End(Free(h, i)) == End(h)
  {
    UnmarkPartition(h, i);
    var u := Unmark(h, i);
    if FreeAt(u, i + 1) { JoinPartition(u, i + 1); }
    assert Gap(h.at[i], h.at[i + 1]);
  }
}
