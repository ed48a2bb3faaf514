/** How a memory heap lies in memory: every block header carries a mark, the links of the
    block chain and the links of the free list. */
module MemHeapThreads {
  import opened Lists
  import opened WordRing
  import opened MemHeapSpec

  /** RT_MEMHEAP_MAGIC and RT_MEMHEAP_USED */
  const MAGIC: int := 0x1ea0_1ea0
  const USED: int := 1

  /** Word offsets in struct rt_memheap_item. */
  const POOL: nat := 1
  const NEXT: nat := 2
  const NEXT_FREE: nat := 4

  predicate Marked(m: Memory, a: int, used: set<int>, pool: int) {
    0 <= a && a + 6 <= |m| && m[a] == (if a in used then MAGIC + USED else MAGIC) && m[a + POOL] == pool
  }

  ghost predicate Marks(m: Memory, at: seq<int>, used: set<int>, pool: int) {
    forall k {:trigger Marked(m, at[k], used, pool)} :: 0 <= k < |at| ==> Marked(m, at[k], used, pool)
  }

  /** The free ring: its header, which is not in the pool, and the free blocks. */
  function FreeRing(pool: int, frees: seq<int>): seq<int> { [pool] + frees }

  /** `u` is a set of non-overlapping headers that includes everything linked. */
  ghost predicate Room(m: Memory, u: set<int>, pool: int, at: seq<int>, frees: seq<int>) {
    && Apart(u) && Fits(m, u) && pool in u && pool !in at && Among(at, u) && Among(FreeRing(pool, frees), u)
    && Distinct(at) && Distinct(FreeRing(pool, frees))
  }

  ghost predicate Threads(m: Memory, u: set<int>, pool: int, at: seq<int>, frees: seq<int>, used: set<int>) {
    && Room(m, u, pool, at, frees)
    && Ring(m, at, NEXT)
    && Ring(m, FreeRing(pool, frees), NEXT_FREE)
    && Marks(m, at, used, pool)
  }

  /** Words in no header of `u` keep their values. */
  ghost predicate Kept(m: Memory, w: Memory, u: set<int>) {
    |w| == |m| && forall x {:trigger Outside(u, x)} :: 0 <= x < |m| && Outside(u, x) ==> w[x] == m[x]
  }

  ghost predicate Outside(u: set<int>, x: int) {
    forall a :: a in u ==> !(a <= x < a + 6)
  }

  lemma LinksKeep(m: Memory, w: Memory, u: set<int>, v: set<int>, o: nat)
    requires OnlyLinks(m, w, v, o) && v <= u && o < 5
    ensures Kept(m, w, u)
  {
    forall x | 0 <= x < |m| && Outside(u, x) ensures w[x] == m[x] {
      assert x - o in u ==> !(x - o <= x < x - o + 6);
      assert x - o - 1 in u ==> !(x - o - 1 <= x < x - o - 1 + 6);
    }
  }

  // ---- single steps ----

  lemma {:induction false} MarksKept(m: Memory, w: Memory, u: set<int>, o: nat, at: seq<int>, used: set<int>, pool: int)
    requires OnlyLinks(m, w, u, o) && 2 <= o < 5 && Apart(u) && Fits(m, u) && Among(at, u) && Marks(m, at, used, pool)
    ensures Marks(w, at, used, pool)
  {
    forall k | 0 <= k < |at| ensures Marked(w, at[k], used, pool) {
      assert Marked(m, at[k], used, pool);
      OtherWord(m, w, u, o, at[k], 0);
      OtherWord(m, w, u, o, at[k], POOL);
    }
  }

  /** Writes to one header that is not in a ring leave the ring alone. */
  lemma {:induction false} RingElsewhere(m: Memory, w: Memory, u: set<int>, n: int, o: nat, s: seq<int>, p: nat)
    requires OnlyLinks(m, w, {n}, o) && Apart(u) && Fits(m, u) && n in u && Among(s, u) && n !in s && Ring(m, s, p)
      && o < 5
    ensures Ring(w, s, p)
  {
    forall i, j | 0 <= i < |s| && j == Succ(i, |s|) ensures Linked(w, s[i], s[j], p) {
      assert Linked(m, s[i], s[j], p);
      assert Far(s[i], n) && Far(s[j], n);
    }
  }

  function Header(m: Memory, n: int, pool: int): Memory
    requires 0 <= n && n + 6 <= |m|
  {
    m[n := MAGIC][n + POOL := pool]
  }

  /** A fresh header is written; nothing linked changes. */
  lemma {:induction false} NewHeader(m: Memory, u: set<int>, pool: int, at: seq<int>, frees: seq<int>, used: set<int>,
      n: int)
    requires Threads(m, u, pool, at, frees, used) && n in u && n != pool && n !in at && n !in frees
    ensures Threads(Header(m, n, pool), u, pool, at, frees, used) && Kept(m, Header(m, n, pool), u)
  {
    var w := Header(m, n, pool);
    assert OnlyLinks(m, w, {n}, 0);
    LinksKeep(m, w, u, {n}, 0);
    RingElsewhere(m, w, u, n, 0, at, NEXT);
    assert n !in FreeRing(pool, frees);
    RingElsewhere(m, w, u, n, 0, FreeRing(pool, frees), NEXT_FREE);
    forall k | 0 <= k < |at| ensures Marked(w, at[k], used, pool) {
      assert Marked(m, at[k], used, pool);
      assert Far(at[k], n);
    }
  }

  /** A marked free header enters the chain behind block `i`. */
  lemma {:induction false} ChainIn(m: Memory, u: set<int>, pool: int, at: seq<int>, frees: seq<int>, used: set<int>,
      i: nat, n: int)
    requires Threads(m, u, pool, at, frees, used) && i < |at| && n in u && n != pool && n !in at && n !in used
    requires m[n] == MAGIC && m[n + POOL] == pool
    ensures Linked(m, at[i], at[Succ(i, |at|)], NEXT)
    ensures var w := LinkAfter(m, at[i], n, NEXT);
      Threads(w, u, pool, Insert(at, i + 1, n), frees, used) && Kept(m, w, u)
  {
    LinkRing(m, at, NEXT, i, n, u);
    var w, r := LinkAfter(m, at[i], n, NEXT), Insert(at, i + 1, n);
    LinkOnly(m, at[i], n, NEXT, u);
    LinksKeep(m, w, u, u, NEXT);
    OtherRing(m, w, u, NEXT, FreeRing(pool, frees), NEXT_FREE);
    MarksKept(m, w, u, NEXT, at, used, pool);
    OtherWord(m, w, u, NEXT, n, 0);
    OtherWord(m, w, u, NEXT, n, POOL);
    forall k | 0 <= k < |r| ensures Marked(w, r[k], used, pool) && r[k] in u && r[k] != pool {
      if k != i + 1 { var l := if k < i + 1 then k else k - 1; assert r[k] == at[l] && Marked(w, at[l], used, pool); }
    }
    InsertDistinct(at, i + 1, n);
  }

  /** Block `i` leaves the chain. */
  lemma {:induction false} ChainOut(m: Memory, u: set<int>, pool: int, at: seq<int>, frees: seq<int>, used: set<int>,
      i: nat)
    requires Threads(m, u, pool, at, frees, used) && i < |at| && |at| >= 2
    ensures Linked(m, at[i], at[Succ(i, |at|)], NEXT) && Linked(m, at[Pred(i, |at|)], at[i], NEXT)
    ensures var w := Unlink(m, at[i], NEXT);
      Threads(w, u, pool, Delete(at, i), frees, used) && Kept(m, w, u)
  {
    UnlinkRing(m, at, NEXT, i, u);
    var w, r := Unlink(m, at[i], NEXT), Delete(at, i);
    UnlinkOnly(m, at[i], NEXT, u);
    LinksKeep(m, w, u, u, NEXT);
    OtherRing(m, w, u, NEXT, FreeRing(pool, frees), NEXT_FREE);
    MarksKept(m, w, u, NEXT, at, used, pool);
    forall k | 0 <= k < |r| ensures Marked(w, r[k], used, pool) && r[k] in u && r[k] != pool {
      var l := if k < i then k else k + 1;
      assert r[k] == at[l] && Marked(w, at[l], used, pool);
    }
    DeleteDistinct(at, i);
  }

  /** A header enters the free list at its front. */
  lemma {:induction false} FreeIn(m: Memory, u: set<int>, pool: int, at: seq<int>, frees: seq<int>, used: set<int>,
      x: int)
    requires Threads(m, u, pool, at, frees, used) && x in u && x != pool && x !in frees
    ensures var s := FreeRing(pool, frees); Linked(m, pool, s[Succ(0, |s|)], NEXT_FREE)
    ensures var w := LinkAfter(m, pool, x, NEXT_FREE);
      Threads(w, u, pool, at, [x] + frees, used) && Kept(m, w, u)
  {
    var s := FreeRing(pool, frees);
    LinkRing(m, s, NEXT_FREE, 0, x, u);
    var w := LinkAfter(m, pool, x, NEXT_FREE);
    LinkOnly(m, pool, x, NEXT_FREE, u);
    LinksKeep(m, w, u, u, NEXT_FREE);
    OtherRing(m, w, u, NEXT_FREE, at, NEXT);
    MarksKept(m, w, u, NEXT_FREE, at, used, pool);
    assert Insert(s, 1, x) == FreeRing(pool, [x] + frees);
    InsertDistinct(s, 1, x);
  }

  /** The `k`-th free block leaves the free list. */
  lemma {:induction false} FreeOut(m: Memory, u: set<int>, pool: int, at: seq<int>, frees: seq<int>, used: set<int>,
      k: nat)
    requires Threads(m, u, pool, at, frees, used) && k < |frees|
    ensures var s := FreeRing(pool, frees);
      Linked(m, frees[k], s[Succ(k + 1, |s|)], NEXT_FREE) && Linked(m, s[k], frees[k], NEXT_FREE)
    ensures var w := Unlink(m, frees[k], NEXT_FREE);
      Threads(w, u, pool, at, Delete(frees, k), used) && Kept(m, w, u)
  {
    var s := FreeRing(pool, frees);
    UnlinkRing(m, s, NEXT_FREE, k + 1, u);
    var w := Unlink(m, frees[k], NEXT_FREE);
    UnlinkOnly(m, frees[k], NEXT_FREE, u);
    LinksKeep(m, w, u, u, NEXT_FREE);
    OtherRing(m, w, u, NEXT_FREE, at, NEXT);
    MarksKept(m, w, u, NEXT_FREE, at, used, pool);
    assert Delete(s, k + 1) == FreeRing(pool, Delete(frees, k));
    DeleteDistinct(s, k + 1);
  }

  /** The free links of a block outside the free list are cleared. */
  lemma {:induction false} ClearLinks(m: Memory, u: set<int>, pool: int, at: seq<int>, frees: seq<int>, used: set<int>,
      a: int)
    requires Threads(m, u, pool, at, frees, used) && a in u && a != pool && a !in frees
    ensures var w := m[a + NEXT_FREE := 0][a + NEXT_FREE + 1 := 0];
      Threads(w, u, pool, at, frees, used) && Kept(m, w, u)
  {
    var w := m[a + NEXT_FREE := 0][a + NEXT_FREE + 1 := 0];
    assert OnlyLinks(m, w, {a}, NEXT_FREE);
    assert OnlyLinks(m, w, u, NEXT_FREE);
    LinksKeep(m, w, u, {a}, NEXT_FREE);
    OtherRing(m, w, u, NEXT_FREE, at, NEXT);
    assert a !in FreeRing(pool, frees);
    RingElsewhere(m, w, u, a, NEXT_FREE, FreeRing(pool, frees), NEXT_FREE);
    MarksKept(m, w, u, NEXT_FREE, at, used, pool);
  }

  /** Block `i` is marked used or free. */
  lemma {:induction false} SetMark(m: Memory, u: set<int>, pool: int, at: seq<int>, frees: seq<int>, used: set<int>,
      i: nat, now: set<int>)
    requires Threads(m, u, pool, at, frees, used) && i < |at|
    requires forall x :: x != at[i] ==> (x in now <==> x in used)
    ensures var w := m[at[i] := if at[i] in now then MAGIC + USED else MAGIC];
      Threads(w, u, pool, at, frees, now) && Kept(m, w, u)
  {
    var w := m[at[i] := if at[i] in now then MAGIC + USED else MAGIC];
    assert Marked(m, at[i], used, pool);
    assert OnlyLinks(m, w, {at[i]}, 0);
    assert OnlyLinks(m, w, u, 0);
    LinksKeep(m, w, u, {at[i]}, 0);
    OtherRing(m, w, u, 0, at, NEXT);
    OtherRing(m, w, u, 0, FreeRing(pool, frees), NEXT_FREE);
    forall k | 0 <= k < |at| ensures Marked(w, at[k], now, pool) {
      assert Marked(m, at[k], used, pool);
      if k != i {
        assert if k < i then Differ(at[k], at[i]) else Differ(at[i], at[k]);
        assert Far(at[k], at[i]);
      }
    }
  }

  lemma InsertDistinct(s: seq<int>, i: nat, n: int)
    requires Distinct(s) && i <= |s| && n !in s
    ensures Distinct(Insert(s, i, n))
  {
    var r := Insert(s, i, n);
    forall k, l | 0 <= k < l < |r| ensures Differ(r[k], r[l]) {
      var p, q := if k < i then k else k - 1, if l < i then l else l - 1;
      if k != i && l != i { assert r[k] == s[p] && r[l] == s[q] && Differ(s[p], s[q]); }
    }
  }

  lemma DeleteDistinct(s: seq<int>, i: nat)
    requires Distinct(s) && i < |s|
    ensures Distinct(Delete(s, i))
  {
    var r := Delete(s, i);
    forall k, l | 0 <= k < l < |r| ensures Differ(r[k], r[l]) {
      var p, q := if k < i then k else k + 1, if l < i then l else l + 1;
      assert r[k] == s[p] && r[l] == s[q] && Differ(s[p], s[q]);
    }
  }
}
