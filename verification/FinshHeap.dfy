/** The shell's heap with its two linked lists of headers. Links are offsets into the heap. */
module FinshHeap {
  import opened FinshHeapSpec

  /** A variable of the shell: `kind` 0 is an unused entry. */
  datatype Variable = Variable(kind: nat, value: int)

  function Refs(vars: seq<Variable>): set<int> {
    set i | 0 <= i < |vars| && vars[i].kind != 0 :: vars[i].value
  }

  function At(s: seq<int>, i: nat): int {
    if i < |s| then s[i] else NULL
  }

  predicate Link(next: map<int, int>, s: seq<int>, i: int) {
    0 <= i < |s| && s[i] in next && next[s[i]] == At(s, i + 1) && s[i] >= 0
  }

  /** The list of headers from `head`. */
  ghost predicate Chain(head: int, next: map<int, int>, s: seq<int>) {
    head == At(s, 0) && forall i {:trigger Link(next, s, i)} :: 0 <= i < |s| ==> Link(next, s, i)
  }

  predicate Same(a: map<int, int>, b: map<int, int>, x: int) { x in a && x in b && a[x] == b[x] }

  /** The links agree except at two places. */
  ghost predicate Except(a: map<int, int>, b: map<int, int>, x: int, y: int) {
    forall z {:trigger Same(a, b, z)} :: z in a && z != x && z != y ==> Same(a, b, z)
  }

  lemma {:induction false} ChainKept(head: int, a: map<int, int>, b: map<int, int>, s: seq<int>, x: int, y: int)
    requires Chain(head, a, s) && Except(a, b, x, y) && x !in s && y !in s
    ensures Chain(head, b, s)
  {
    forall i | 0 <= i < |s| ensures Link(b, s, i) {
      assert Link(a, s, i) && s[i] in s;
      assert Same(a, b, s[i]);
    }
  }

  /** A header goes in behind the first `k`. */
  lemma {:induction false} ChainInsert(head: int, next: map<int, int>, s: seq<int>, k: nat, h: int, head2: int,
      next2: map<int, int>)
    requires Chain(head, next, s) && Ascending(s) && h !in s && k <= |s| && h >= 0
    requires Except(next, next2, h, if k == 0 then h else s[k - 1]) && h in next2 && next2[h] == At(s, k)
    requires if k == 0 then head2 == h else head2 == head && s[k - 1] in next2 && next2[s[k - 1]] == h
    ensures Chain(head2, next2, s[..k] + [h] + s[k..])
  {
    var r := s[..k] + [h] + s[k..];
    forall i | 0 <= i < |r| ensures Link(next2, r, i) {
      var j := if i < k then i else i - 1;
      if i != k {
        assert r[i] == s[j] && Link(next, s, j) && s[j] in s;
        assert i != k - 1 ==> Same(next, next2, s[j]);
        assert i > k && i + 1 < |r| ==> r[i + 1] == s[i];
      } else {
        assert k < |s| ==> r[k + 1] == s[k];
      }
    }
  }

  /** The headers from `a` to `b` go out. */
  lemma {:induction false} ChainCut(head: int, next: map<int, int>, s: seq<int>, a: nat, b: nat, x: int, head2: int,
      next2: map<int, int>)
    requires Chain(head, next, s) && Ascending(s) && a <= b <= |s| && (x in s[a..b] || (a > 0 && x == s[a - 1]))
    requires Except(next, next2, x, if a == 0 then x else s[a - 1])
    requires if a == 0 then head2 == At(s, b) else head2 == head && s[a - 1] in next2 && next2[s[a - 1]] == At(s, b)
    ensures Chain(head2, next2, s[..a] + s[b..])
  {
    var r := s[..a] + s[b..];
    forall i | 0 <= i < |r| ensures Link(next2, r, i) {
      var j := if i < a then i else i - a + b;
      assert r[i] == s[j] && Link(next, s, j);
      assert i + 1 < |r| && i >= a ==> r[i + 1] == s[j + 1];
      if i != a - 1 {
        if x in s[a..b] { var l :| a <= l < b && s[l] == x; assert s[l] != s[j]; }
        assert a > 0 ==> s[a - 1] != s[j];
        assert Same(next, next2, s[j]);
      }
    }
  }

  /** Headers below `h` and headers above it. */
  ghost predicate Place(s: seq<int>, h: int, k: nat) {
    k <= |s| && (forall j :: 0 <= j < k ==> s[j] < h) && (forall j :: k <= j < |s| ==> h < s[j])
  }

  ghost predicate Lens(length: map<int, int>, bs: seq<Block>) {
    forall i {:trigger bs[i]} :: 0 <= i < |bs| ==> bs[i].at in length && length[bs[i].at] == bs[i].len
  }

  /** The parts of a list in front of block `i` and behind it. */
  function Front(bs: seq<Block>, i: nat, used: bool): seq<int>
    requires i < |bs|
  {
    Listed(bs[..i], used)
  }

  function Back(bs: seq<Block>, i: nat, used: bool): seq<int>
    requires i < |bs|
  {
    Listed(bs[i + 1..], used)
  }

  lemma {:induction false} Parts(bs: seq<Block>, i: nat, used: bool)
    requires i < |bs|
    ensures Listed(bs, used) == Front(bs, i, used) + (if bs[i].used == used then [bs[i].at] else []) + Back(bs, i, used)
  {
    assert bs == bs[..i] + [bs[i]] + bs[i + 1..];
    ListedConcat(bs[..i] + [bs[i]], bs[i + 1..], used);
    ListedConcat(bs[..i], [bs[i]], used);
  }

  lemma {:induction false} FrontBelow(bs: seq<Block>, i: nat, used: bool, x: int) returns (j: nat)
    requires Inv(bs) && i < |bs| && x in Front(bs, i, used)
    ensures j < i && bs[j].at == x && bs[j].used == used && 0 <= x && x + HEADER + bs[j].len <= bs[i].at
      && bs[j].len >= 0
  {
    ListedIff(bs[..i], used, x);
    j :| 0 <= j < |bs[..i]| && bs[..i][j].at == x && bs[..i][j].used == used;
    InOrder(bs, j, i);
    assert bs[j].len >= 0 && bs[0].len >= 0;
    if j > 0 { InOrder(bs, 0, j); }
  }

  lemma {:induction false} BackAbove(bs: seq<Block>, i: nat, used: bool, x: int) returns (j: nat)
    requires Inv(bs) && i < |bs| && x in Back(bs, i, used)
    ensures i < j < |bs| && bs[j].at == x && bs[j].used == used && x >= End(bs[i]) && bs[i].len >= 0
  {
    ListedIff(bs[i + 1..], used, x);
    var l :| 0 <= l < |bs[i + 1..]| && bs[i + 1..][l].at == x && bs[i + 1..][l].used == used;
    j := i + 1 + l;
    InOrder(bs, i, j);
    assert bs[i].len >= 0;
  }

  /** Where a header of block `i` belongs on either list. */
  lemma {:induction false} PlaceOf(bs: seq<Block>, i: nat, used: bool)
    requires Inv(bs) && i < |bs|
    ensures bs[i].at >= 0
    ensures Place(Front(bs, i, used) + Back(bs, i, used), bs[i].at, |Front(bs, i, used)|)
  {
    var f, b := Front(bs, i, used), Back(bs, i, used);
    forall k | 0 <= k < |f| ensures f[k] < bs[i].at {
      var x := f[k];
      assert x in f;
      var j := FrontBelow(bs, i, used, x);
    }
    forall k | 0 <= k < |b| ensures bs[i].at < b[k] {
      var x := b[k];
      assert x in b;
      var j := BackAbove(bs, i, used, x);
    }
    if i > 0 { InOrder(bs, 0, i); }
    assert bs[0].len >= 0;
  }

  lemma {:induction false} ListedAscending(bs: seq<Block>, used: bool)
    requires Inv(bs)
    ensures Ascending(Listed(bs, used))
  {
    assert bs[0..] == bs;
    ListedSorted(bs, 0, used);
  }

  /** A header of one list is not on the other. */
  lemma {:induction false} OneList(bs: seq<Block>, i: nat)
    requires Inv(bs) && i < |bs|
    ensures bs[i].at in Listed(bs, bs[i].used) && bs[i].at !in Listed(bs, !bs[i].used)
  {
    ListedIff(bs, bs[i].used, bs[i].at);
    ListedIff(bs, !bs[i].used, bs[i].at);
    if j :| 0 <= j < |bs| && bs[j].at == bs[i].at && bs[j].used == !bs[i].used {
      assert bs[i].len >= 0 && bs[j].len >= 0;
      if j < i { InOrder(bs, j, i); } else { InOrder(bs, i, j); }
    }
  }

  // --- release

  predicate Joins(length: map<int, int>, a: int, b: int) {
    a in length && a + HEADER + length[a] == b
  }

  predicate JoinsPrev(s: seq<int>, k: nat, length: map<int, int>) {
    0 < k < |s| && Joins(length, s[k - 1], s[k])
  }

  predicate JoinsNext(s: seq<int>, k: nat, length: map<int, int>) {
    k + 1 < |s| && Joins(length, s[k], s[k + 1])
  }

  function MergeFrom(s: seq<int>, k: nat, length: map<int, int>): nat { if JoinsPrev(s, k, length) then k else k + 1 }

  function MergeTo(s: seq<int>, k: nat, length: map<int, int>): nat { if JoinsNext(s, k, length) then k + 2 else k + 1 }

  /** The headers from `a` to `b` are gone and header `a - 1` reaches to where the last of them ended. */
  ghost predicate Merged(s: seq<int>, a: nat, b: nat, head: int, next: map<int, int>, next2: map<int, int>,
      length: map<int, int>, length2: map<int, int>) {
    && 0 < a <= b <= |s| && s[b - 1] in length
    && Chain(head, next2, s[..a] + s[b..])
    && Except(next, next2, s[a - 1], s[a - 1])
    && length2 == length[s[a - 1] := s[b - 1] + length[s[b - 1]] - s[a - 1]]
  }

  /** The free list with the header of block `i` in it. */
  function WithHeader(bs: seq<Block>, i: nat): seq<int>
    requires i < |bs|
  {
    Front(bs, i, false) + [bs[i].at] + Back(bs, i, false)
  }

  /** On the lists a neighbour joins exactly when the neighbouring block is free. */
  lemma {:induction false} PrevJoins(bs: seq<Block>, i: nat, length: map<int, int>)
    requires Inv(bs) && Lens(length, bs) && i < |bs| && bs[i].used
    ensures JoinsPrev(WithHeader(bs, i), |Front(bs, i, false)|, length) <==> Low(bs, i) < i
    ensures Low(bs, i) < i ==> Front(bs, i, false) == Listed(bs[..i - 1], false) + [bs[i - 1].at]
  {
    var f := Front(bs, i, false);
    if Low(bs, i) < i {
      assert bs[..i] == bs[..i - 1] + [bs[i - 1]];
      ListedConcat(bs[..i - 1], [bs[i - 1]], false);
      assert Meets(bs[i - 1], bs[i]);
    } else if f != [] {
      var x := f[|f| - 1];
      assert x in f;
      var j := FrontBelow(bs, i, false, x);
      assert j < i - 1;
      InOrder(bs, j, i - 1);
      InOrder(bs, i - 1, i);
      assert bs[i - 1].len >= 0;
    }
  }

  lemma {:induction false} NextJoins(bs: seq<Block>, i: nat, length: map<int, int>)
    requires Inv(bs) && Lens(length, bs) && i < |bs| && bs[i].used
    ensures JoinsNext(WithHeader(bs, i), |Front(bs, i, false)|, length) <==> High(bs, i) > i + 1
    ensures High(bs, i) > i + 1 ==> Back(bs, i, false) == [bs[i + 1].at] + Listed(bs[i + 2..], false)
    ensures Back(bs, i, false) != []
  {
    var b := Back(bs, i, false);
    var last := bs[|bs| - 1];
    assert bs[i + 1..][|bs| - 2 - i] == last;
    ListedIff(bs[i + 1..], false, last.at);
    assert Meets(bs[i], bs[i + 1]);
    if High(bs, i) > i + 1 {
      assert bs[i + 1..][1..] == bs[i + 2..];
    } else {
      var x := b[0];
      assert x in b;
      var j := BackAbove(bs, i, false, x);
      assert j > i + 1 && bs[i + 1].len >= 0;
      InOrder(bs, i + 1, j);
    }
  }

  lemma {:induction false} FreeListed(bs: seq<Block>, i: nat, used: bool)
    requires i < |bs|
    ensures Listed(FreeAt(bs, i), used) == Listed(bs[..Low(bs, i)], used) + (if used then [] else [bs[Low(bs, i)].at])
      + Listed(bs[High(bs, i)..], used)
  {
    var lo, hi := Low(bs, i), High(bs, i);
    var m := Block(bs[lo].at, End(bs[hi - 1]) - bs[lo].at - HEADER, false);
    ListedConcat(bs[..lo] + [m], bs[hi..], used);
    ListedConcat(bs[..lo], [m], used);
  }

  /** The allocated list after the release. */
  lemma {:induction false} FreeListUsed(bs: seq<Block>, i: nat)
    requires i < |bs|
    ensures Listed(FreeAt(bs, i), true) == Front(bs, i, true) + Back(bs, i, true)
  {
    var lo, hi := Low(bs, i), High(bs, i);
    FreeListed(bs, i, true);
    if lo < i {
      assert bs[..i] == bs[..lo] + [bs[lo]];
      ListedConcat(bs[..lo], [bs[lo]], true);
    }
    if hi > i + 1 { assert bs[i + 1..][1..] == bs[hi..]; }
  }

  /** The free list after the release. */
  lemma {:induction false} FreeListFree(bs: seq<Block>, i: nat, length: map<int, int>)
    requires Inv(bs) && Lens(length, bs) && i < |bs| && bs[i].used
    ensures var s, k := WithHeader(bs, i), |Front(bs, i, false)|;
      Listed(FreeAt(bs, i), false) == s[..if Low(bs, i) < i then k else k + 1]
        + s[if High(bs, i) > i + 1 then k + 2 else k + 1..]
  {
    FreeListed(bs, i, false);
    PrevJoins(bs, i, length);
    NextJoins(bs, i, length);
  }

  lemma {:induction false} FreeLens(bs: seq<Block>, i: nat, length: map<int, int>, length2: map<int, int>)
    requires Inv(bs) && Lens(length, bs) && i < |bs| && bs[i].used
    requires length2 == length[bs[Low(bs, i)].at := End(bs[High(bs, i) - 1]) - bs[Low(bs, i)].at - HEADER]
    ensures Lens(length2, FreeAt(bs, i))
  {
    var r, lo, hi := FreeAt(bs, i), Low(bs, i), High(bs, i);
    forall k | 0 <= k < |r| ensures r[k].at in length2 && length2[r[k].at] == r[k].len {
      if k < lo {
        InOrder(bs, k, lo);
        assert r[k] == bs[k] && bs[k].len >= 0;
      } else if k > lo {
        var j := k - lo - 1 + hi;
        InOrder(bs, lo, j);
        assert r[k] == bs[j] && bs[lo].len >= 0;
      }
    }
  }

  lemma {:induction false} ListsDisjoint(bs: seq<Block>, x: int)
    requires Inv(bs)
    ensures !(x in Listed(bs, true) && x in Listed(bs, false))
  {
    ListedIff(bs, true, x);
    if x in Listed(bs, true) {
      var i :| 0 <= i < |bs| && bs[i].at == x && bs[i].used;
      OneList(bs, i);
    }
  }

  /** The two lists with the header of block `i` moved over. */
  lemma {:induction false} Moved(bs: seq<Block>, i: nat, length: map<int, int>)
    requires Inv(bs) && Lens(length, bs) && i < |bs| && bs[i].used
    ensures Ascending(WithHeader(bs, i)) && forall x :: x in WithHeader(bs, i) ==> x in length
    ensures forall x :: x in WithHeader(bs, i) ==> x !in Front(bs, i, true) + Back(bs, i, true)
  {
    hide Inv;
    var s, f, b := WithHeader(bs, i), Front(bs, i, false), Back(bs, i, false);
    Parts(bs, i, false);
    Parts(bs, i, true);
    ListedAscending(bs, false);
    PlaceOf(bs, i, false);
    PlaceOf(bs, i, true);
    var u := Front(bs, i, true) + Back(bs, i, true);
    var free := f + b;
    assert free == Listed(bs, false);
    assert forall k :: 0 <= k < |u| ==> u[k] != bs[i].at;
    forall j, k | 0 <= j < k < |s| ensures s[j] < s[k] {
      assert j < |f| ==> s[j] == free[j];
      assert j > |f| ==> s[j] == free[j - 1];
      assert k < |f| ==> s[k] == free[k];
      assert k > |f| ==> s[k] == free[k - 1];
    }
    forall x | x in s ensures x in length && x !in u {
      assert x == bs[i].at || x in free;
      ListsDisjoint(bs, x);
      ListedIff(bs, false, x);
    }
  }

  /** What a merge leaves is the free list, and the header it grows is that of the joined block. */
  lemma {:induction false} MergedWhere(bs: seq<Block>, i: nat, length: map<int, int>)
    requires Inv(bs) && Lens(length, bs) && i < |bs| && bs[i].used
    ensures var s, k := WithHeader(bs, i), |Front(bs, i, false)|;
      var a, b := MergeFrom(s, k, length), MergeTo(s, k, length);
      && 0 < a <= b <= |s| && s[a - 1] == bs[Low(bs, i)].at && s[b - 1] == bs[High(bs, i) - 1].at
      && Listed(FreeAt(bs, i), false) == s[..a] + s[b..]
  {
    FreeListFree(bs, i, length);
    PrevJoins(bs, i, length);
    NextJoins(bs, i, length);
  }

  lemma {:induction false} MergedHeap(bs: seq<Block>, i: nat, alloc: int, free: int, next: map<int, int>,
      next2: map<int, int>,
                                      length: map<int, int>, length2: map<int, int>)
    requires Inv(bs) && Lens(length, bs) && i < |bs| && bs[i].used
    requires Chain(alloc, next, Front(bs, i, true) + Back(bs, i, true))
    requires var s, k := WithHeader(bs, i), |Front(bs, i, false)|;
      Merged(s, MergeFrom(s, k, length), MergeTo(s, k, length), free, next, next2, length, length2)
    ensures Chain(free, next2, Listed(FreeAt(bs, i), false)) && Chain(alloc, next2, Listed(FreeAt(bs, i), true))
    ensures Inv(FreeAt(bs, i)) && Lens(length2, FreeAt(bs, i))
  {
    var s := WithHeader(bs, i);
    var m := s[MergeFrom(s, |Front(bs, i, false)|, length) - 1];
    MergedWhere(bs, i, length);
    FreeInv(bs, i);
    Moved(bs, i, length);
    FreeListUsed(bs, i);
    assert m in s;
    ChainKept(alloc, next, next2, Front(bs, i, true) + Back(bs, i, true), m, m);
    var last := bs[High(bs, i) - 1];
    assert length[last.at] == last.len;
    FreeLens(bs, i, length, length2);
  }

  // --- the search

  /** The first listed block that suits is the first of the heap that does. */
  lemma {:induction false} FitOfList(bs: seq<Block>, k: nat, size: nat, strict: bool, length: map<int, int>)
    requires Inv(bs) && Lens(length, bs) && k <= |Listed(bs, false)|
    requires forall j :: 0 <= j < |Listed(bs, false)| ==> Listed(bs, false)[j] in length
    requires forall j :: 0 <= j < k ==> !Roomy(length[Listed(bs, false)[j]], size, strict)
    requires k < |Listed(bs, false)| ==> Roomy(length[Listed(bs, false)[k]], size, strict)
    ensures k < |Listed(bs, false)| ==>
      FirstFit(bs, size, strict) < |bs| && bs[FirstFit(bs, size, strict)].at == Listed(bs, false)[k]
    ensures k == |Listed(bs, false)| ==> FirstFit(bs, size, strict) == |bs|
  {
    var f, i := Listed(bs, false), FirstFit(bs, size, strict);
    ListedAscending(bs, false);
    if i < |bs| {
      ListedIff(bs, false, bs[i].at);
      var j :| 0 <= j < |f| && f[j] == bs[i].at;
      assert j >= k;
    }
    if k < |f| {
      ListedIff(bs, false, f[k]);
      assert f[k] in f;
      var m :| 0 <= m < |bs| && bs[m].at == f[k] && !bs[m].used;
      assert Suits(bs[m], size, strict);
      assert i <= m && bs[i].len >= 0;
      if i < m { InOrder(bs, i, m); }
    }
  }

  predicate Roomy(len: int, size: nat, strict: bool) {
    if strict then len > size + HEADER else len >= size + HEADER
  }

  lemma {:induction false} ListedHaveLengths(bs: seq<Block>, length: map<int, int>)
    requires Lens(length, bs)
    ensures forall j :: 0 <= j < |Listed(bs, false)| ==> Listed(bs, false)[j] in length
  {
    var f := Listed(bs, false);
    forall j | 0 <= j < |f| ensures f[j] in length {
      var x := f[j];
      assert x in f;
      ListedIff(bs, false, x);
    }
  }

  // --- allocation

  /** The lists after the split of block `i`. */
  lemma {:induction false} AllocLists(bs: seq<Block>, i: nat, size: int)
    requires i < |bs| && !bs[i].used
    ensures Listed(AllocAt(bs, i, size), true) == Front(bs, i, true) + [bs[i].at] + Back(bs, i, true)
    ensures Listed(AllocAt(bs, i, size), false) == Front(bs, i, false) + [bs[i].at + HEADER + size] + Back(bs, i, false)
  {
    var b := bs[i];
    var put := [Block(b.at, size, true), Block(b.at + HEADER + size, b.len - HEADER - size, false)];
    assert put == [put[0]] + [put[1]];
    ListedConcat([put[0]], [put[1]], true);
    ListedConcat([put[0]], [put[1]], false);
    forall used
      ensures Listed(AllocAt(bs, i, size), used) == Front(bs, i, used) + Listed(put, used) + Back(bs, i, used) {
      ListedConcat(bs[..i] + put, bs[i + 1..], used);
      ListedConcat(bs[..i], put, used);
    }
  }

  lemma {:induction false} AllocLens(bs: seq<Block>, i: nat, size: int, length: map<int, int>, length2: map<int, int>)
    requires Inv(bs) && Lens(length, bs) && i < |bs| && Fits(bs[i], size) && size >= 0
    requires length2 == length[bs[i].at + HEADER + size := bs[i].len - HEADER - size][bs[i].at := size]
    ensures Lens(length2, AllocAt(bs, i, size))
  {
    var r := AllocAt(bs, i, size);
    forall k | 0 <= k < |r| ensures r[k].at in length2 && length2[r[k].at] == r[k].len {
      if k < i {
        InOrder(bs, k, i);
        assert r[k] == bs[k] && bs[k].len >= 0;
      } else if k > i + 1 {
        InOrder(bs, i, k - 1);
        assert r[k] == bs[k - 1];
      }
    }
  }

  /** The header of the rest belongs between the header of the split block and those behind. */
  lemma {:induction false} RestPlace(bs: seq<Block>, i: nat, n: int, used: bool)
    requires Inv(bs) && i < |bs| && bs[i].at < n < End(bs[i])
    ensures n !in Listed(bs, used) && n >= 0
  {
    ListedIff(bs, used, n);
    if j :| 0 <= j < |bs| && bs[j].at == n && bs[j].used == used {
      assert bs[j].len >= 0;
      if j < i { InOrder(bs, j, i); }
      if i < j { InOrder(bs, i, j); }
    }
    PlaceOf(bs, i, used);
  }

  class FinshHeap {
    var freeList: int
    var allocList: int
    var next: map<int, int>
    var length: map<int, int>
    ghost var blocks: seq<Block>

    /** finsh_block_insert */
    method BlockInsert(head: int, h: int, ghost s: seq<int>, ghost k: nat) returns (first: int)
      requires Chain(head, next, s) && Ascending(s) && h >= 0 && h in next && Place(s, h, k)
      requires k == |s| ==> next[h] == NULL
      modifies `next
      ensures Chain(first, next, s[..k] + [h] + s[k..])
      ensures Except(old(next), next, h, if k == 0 then h else s[k - 1])
    {
      first := head;
      if first == NULL {
        assert s != [] ==> Link(next, s, 0);
        first := h;
        ChainInsert(head, next, s, k, h, first, next);
        return;
      }
      var node := first;
      assert Link(next, s, 0);
      if node > h {
        next := next[h := node];
        first := h;
      } else {
        ghost var i := 0;
        while !(next[node] > h) && next[node] != NULL
          invariant Chain(head, next, s) && next == old(next) && i < k && node == s[i] && node in next
          decreases |s| - i
        {
          assert Link(next, s, i) && Link(next, s, i + 1);
          node, i := next[node], i + 1;
        }
        assert Link(next, s, i);
        assert i + 1 < |s| ==> Link(next, s, i + 1);
        assert i + 1 == k;
        if next[node] != NULL { next := next[h := next[node]]; }
        next := next[node := h];
      }
      ChainInsert(head, old(next), s, k, h, first, next);
    }

    /** finsh_block_remove: the link of a header that is not first stays behind. */
    method BlockRemove(head: int, h: int, ghost s: seq<int>, ghost k: nat) returns (first: int)
      requires Chain(head, next, s) && Ascending(s) && k < |s| && s[k] == h
      modifies `next
      ensures Chain(first, next, s[..k] + s[k + 1..])
      ensures Except(old(next), next, if k == 0 then h else s[k - 1], if k == 0 then h else s[k - 1])
      ensures h in next
    {
      first := head;
      assert Link(next, s, 0) && Link(next, s, k);
      if first == h {
        first := next[h];
        next := next[h := NULL];
        ChainCut(head, old(next), s, 0, 1, h, first, next);
        assert s[..0] + s[1..] == s[1..];
        return;
      }
      var node := first;
      ghost var i := 0;
      while next[node] != h
        invariant i < k && node == s[i] && next == old(next) && node in next && Link(next, s, i)
        decreases k - i
      {
        assert Link(next, s, i + 1);
        node, i := next[node], i + 1;
      }
      assert i + 1 == k by { assert s[i + 1] == s[k]; }
      next := next[node := next[h]];
      ChainCut(head, old(next), s, k, k + 1, s[k - 1], first, next);
    }
  
    /** The header in front of `h` on the free list. */
    method Previous(h: int, ghost s: seq<int>, ghost k: nat) returns (prevNode: int)
      requires Chain(freeList, next, s) && Ascending(s) && k < |s| && s[k] == h
      ensures prevNode == if k == 0 then NULL else s[k - 1]
    {
      assert Link(next, s, 0);
      prevNode := NULL;
      if freeList != h {
        ghost var i := 0;
        prevNode := freeList;
        while next[prevNode] != h
          invariant i < k && prevNode == s[i] && prevNode in next && Link(next, s, i)
          decreases k - i
        {
          assert Link(next, s, i + 1);
          prevNode, i := next[prevNode], i + 1;
        }
        assert i + 1 == k by { assert s[i + 1] == s[k]; }
      }
    }

    /** Header `to` takes over the space up to the end of header `last`, and its link. */
    method Absorb(to: int, last: int, len: int, ghost s: seq<int>, ghost a: nat, ghost b: nat)
      requires Chain(freeList, next, s) && Ascending(s) && 0 < a < b <= |s| && s[a - 1] == to && s[b - 1] == last
      modifies `next, `length
      ensures Chain(freeList, next, s[..a] + s[b..]) && Except(old(next), next, to, to)
      ensures length == old(length)[to := len]
    {
      assert Link(next, s, b - 1);
      length := length[to := len];
      next := next[to := next[last]];
      ChainCut(freeList, old(next), s, a, b, to, freeList, next);
    }

    /** finsh_block_merge */
    method BlockMerge(h: int, ghost s: seq<int>, ghost k: nat)
      requires Chain(freeList, next, s) && Ascending(s) && k < |s| && s[k] == h
      requires forall x :: x in s ==> x in length
      modifies `next, `length
      ensures Merged(s, MergeFrom(s, k, old(length)), MergeTo(s, k, old(length)), freeList, old(next), next,
        old(length), length)
    {
      hide Ascending;
      ghost var a, b := MergeFrom(s, k, length), MergeTo(s, k, length);
      assert Link(next, s, k) && s[k] in s;
      assert k > 0 ==> s[k - 1] in s && Link(next, s, k - 1);
      assert k + 1 < |s| ==> s[k + 1] in s && Link(next, s, k + 1);
      var nextNode := next[h];
      var prevNode := Previous(h, s, k);
      var joinsNext := nextNode != NULL && h + length[h] + HEADER == nextNode;
      assert joinsNext <==> b == k + 2;
      if prevNode != NULL && prevNode + length[prevNode] + HEADER == h {
        assert a == k;
        if joinsNext {
          Absorb(prevNode, nextNode, length[prevNode] + (length[h] + length[nextNode] + 2 * HEADER), s, a, b);
        } else {
          Absorb(prevNode, h, length[prevNode] + (length[h] + HEADER), s, a, b);
        }
      } else if joinsNext {
        Absorb(h, nextNode, length[h] + (length[nextNode] + HEADER), s, a, b);
      } else {
        assert s[..a] + s[b..] == s;
        assert length == length[h := length[h]];
      }
    }
  
    ghost predicate Valid()
      reads this
    {
      && Inv(blocks) && Lens(length, blocks)
      && Chain(freeList, next, Listed(blocks, false)) && Chain(allocList, next, Listed(blocks, true))
    }

    /** finsh_heap_init */
    constructor ()
      ensures Valid() && blocks == [Block(0, HEAP - HEADER, false)]
    {
      freeList, allocList := 0, NULL;
      next, length := map[0 := NULL], map[0 := HEAP - HEADER];
      blocks := [Block(0, HEAP - HEADER, false)];
    }

    /** Takes the header of block `i` off the allocated list. */
    method Detach(h: int, ghost i: nat)
      requires Valid() && i < |blocks| && blocks[i].used && blocks[i].at == h
      modifies `next, `allocList
      ensures Chain(freeList, next, Listed(blocks, false))
        && Chain(allocList, next, Front(blocks, i, true) + Back(blocks, i, true)) && h in next
    {
      ghost var u, k := Listed(blocks, true), |Front(blocks, i, true)|;
      Parts(blocks, i, true);
      ListedAscending(blocks, true);
      allocList := BlockRemove(allocList, h, u, k);
      assert u[..k] + u[k + 1..] == Front(blocks, i, true) + Back(blocks, i, true);
      ghost var x := if k == 0 then h else u[k - 1];
      assert x in u;
      ListsDisjoint(blocks, x);
      ChainKept(freeList, old(next), next, Listed(blocks, false), x, x);
    }

    /** Puts the header of block `i` on the free list. */
    method Attach(h: int, ghost i: nat)
      requires Inv(blocks) && Lens(length, blocks) && i < |blocks| && blocks[i].used && blocks[i].at == h && h in next
      requires Chain(freeList, next, Listed(blocks, false))
        && Chain(allocList, next, Front(blocks, i, true) + Back(blocks, i, true))
      modifies `next, `freeList
      ensures Chain(freeList, next, WithHeader(blocks, i))
        && Chain(allocList, next, Front(blocks, i, true) + Back(blocks, i, true))
    {
      ghost var f, k := Listed(blocks, false), |Front(blocks, i, false)|;
      Parts(blocks, i, false);
      ListedAscending(blocks, false);
      PlaceOf(blocks, i, false);
      assert f == Front(blocks, i, false) + Back(blocks, i, false);
      NextJoins(blocks, i, length);
      Moved(blocks, i, length);
      freeList := BlockInsert(freeList, h, f, k);
      assert f[..k] + [h] + f[k..] == WithHeader(blocks, i);
      ghost var x := if k == 0 then h else f[k - 1];
      assert x in WithHeader(blocks, i) && h in WithHeader(blocks, i);
      ChainKept(allocList, old(next), next, Front(blocks, i, true) + Back(blocks, i, true), h, x);
    }

    /** finsh_heap_free */
    method Free(ptr: int)
      requires Valid() && UsedAt(blocks, ptr - HEADER)
      modifies this
      ensures Valid() && blocks == FreeAt(old(blocks), IndexOf(old(blocks), ptr - HEADER))
    {
      var h := ptr - HEADER;
      ghost var i := IndexOf(blocks, h);
      Detach(h, i);
      Attach(h, i);
      Moved(blocks, i, length);
      ghost var links, s, k := next, WithHeader(blocks, i), |Front(blocks, i, false)|;
      BlockMerge(h, s, k);
      Finish(i, s, k, links, old(length));
    }

    /** The new layout of the blocks, once the lists have it. */
    ghost method Finish(i: nat, s: seq<int>, k: nat, links: map<int, int>, lengths: map<int, int>)
      requires Inv(blocks) && Lens(lengths, blocks) && i < |blocks| && blocks[i].used
      requires s == WithHeader(blocks, i) && k == |Front(blocks, i, false)|
      requires Chain(allocList, links, Front(blocks, i, true) + Back(blocks, i, true))
      requires Merged(s, MergeFrom(s, k, lengths), MergeTo(s, k, lengths), freeList, links, next, lengths, length)
      modifies `blocks
      ensures Valid() && blocks == FreeAt(old(blocks), i)
    {
      MergedHeap(blocks, i, allocList, freeList, links, next, lengths, length);
      blocks := FreeAt(blocks, i);
    }
  
    /** Some typed variable points to the data. */
    static method Referenced(vars: seq<Variable>, ptr: int) returns (found: bool)
      ensures found <==> ptr in Refs(vars)
    {
      var i := 0;
      while i < |vars|
        invariant i <= |vars|
        invariant forall k :: 0 <= k < i ==> !(vars[k].kind != 0 && vars[k].value == ptr)
      {
        if vars[i].kind != 0 && vars[i].value == ptr { return true; }
        i := i + 1;
      }
      return false;
    }

    /** One turn of the collector: releases the block unless a variable refers to it. */
    method CollectOne(vars: seq<Variable>, header: int, ghost kept: seq<int>, ghost rest: seq<int>)
        returns (after: int, ghost kept2: seq<int>)
      requires Valid() && Listed(blocks, true) == kept + [header] + rest
      modifies this
      ensures Valid() && after == At(rest, 0) && Listed(blocks, true) == kept2 + rest
      ensures blocks == Turn(old(blocks), header, Refs(vars))
    {
      hide Inv, Listed, FreeAt, Lens;
      ghost var all := Listed(blocks, true);
      assert Link(next, all, |kept|);
      assert rest != [] ==> all[|kept| + 1] == rest[0];
      ListedUsed(blocks);
      assert header in all && UsedAt(blocks, header);
      var found := Referenced(vars, header + HEADER);
      after, kept2 := next[header], kept;
      if found {
        kept2 := kept + [header];
      } else {
        FreeFromList(blocks, header, kept, rest);
        Free(header + HEADER);
      }
    }

    /** finsh_heap_gc */
    method Collect(vars: seq<Variable>)
      requires Valid()
      modifies this
      ensures Valid() && blocks == Gc(old(blocks), Refs(vars))
    {
      hide Inv, Listed, FreeAt, Lens, Refs;
      ghost var list, kept: seq<int> := Listed(blocks, true), [];
      var header := allocList;
      while header != NULL
        invariant Valid() && header == At(list, 0) && Listed(blocks, true) == kept + list
        invariant FinshHeapSpec.Collect(blocks, list, Refs(vars)) == Gc(old(blocks), Refs(vars))
        decreases |list|
      {
        assert list == [header] + list[1..];
        assert kept + list == kept + [header] + list[1..];
        header, kept := CollectOne(vars, header, kept, list[1..]);
        list := list[1..];
      }
      assert list != [] ==> Link(next, Listed(blocks, true), |kept|);
    }

    /** The search of finsh_heap_allocate along the free list. */
    method Search(size: nat, strict: bool) returns (header: int)
      requires Valid()
      ensures var i := FirstFit(blocks, size, strict);
        if i == |blocks| then header == NULL else header == blocks[i].at
    {
      ghost var f, k := Listed(blocks, false), 0;
      ListedHaveLengths(blocks, length);
      header := freeList;
      while header != NULL && !Roomy(length[header], size, strict)
        invariant k <= |f| && header == At(f, k)
        invariant forall j :: 0 <= j < k ==> !Roomy(length[f[j]], size, strict)
        decreases |f| - k
      {
        assert Link(next, f, k);
        header, k := next[header], k + 1;
      }
      assert k < |f| ==> Link(next, f, k);
      FitOfList(blocks, k, size, strict, length);
    }

    /** finsh_block_split: the header of the rest goes in behind the header of the block. */
    method BlockSplit(header: int, size: nat, ghost i: nat)
      requires Valid() && i < |blocks| && Fits(blocks[i], size) && blocks[i].at == header
      modifies `next, `length
      ensures length == old(length)[header + HEADER + size := blocks[i].len - HEADER - size][header := size]
      ensures Chain(freeList, next,
        Front(blocks, i, false) + [header] + [header + HEADER + size] + Back(blocks, i, false))
      ensures Chain(allocList, next, Listed(blocks, true))
    {
      ghost var f, k := Listed(blocks, false), |Front(blocks, i, false)|;
      Parts(blocks, i, false);
      ListedAscending(blocks, false);
      assert f[k] == header;
      assert Link(next, f, k);
      var rest := header + HEADER + size;
      RestPlace(blocks, i, rest, false);
      RestPlace(blocks, i, rest, true);
      OneList(blocks, i);
      length := length[rest := length[header] - HEADER - size];
      length := length[header := size];
      next := next[rest := next[header]];
      next := next[header := rest];
      ChainInsert(freeList, old(next), f, k + 1, rest, freeList, next);
      assert f[..k + 1] + [rest] + f[k + 1..] == Front(blocks, i, false) + [header] + [rest] + Back(blocks, i, false);
      ChainKept(allocList, old(next), next, Listed(blocks, true), rest, header);
    }
  
    /** Moves the header of the split block from the free list to the allocated list. */
    method Transfer(header: int, rest: int, ghost i: nat)
      requires Inv(blocks) && i < |blocks| && !blocks[i].used && blocks[i].at == header < rest < End(blocks[i])
      requires Chain(freeList, next, WithRest(blocks, i, rest)) && Chain(allocList, next, Listed(blocks, true))
      modifies `next, `freeList, `allocList
      ensures Chain(freeList, next, Front(blocks, i, false) + [rest] + Back(blocks, i, false))
      ensures Chain(allocList, next, Front(blocks, i, true) + [header] + Back(blocks, i, true))
    {
      hide Inv, Listed;
      ghost var s, k := WithRest(blocks, i, rest), |Front(blocks, i, false)|;
      ghost var u, f := Listed(blocks, true), Front(blocks, i, false) + [rest] + Back(blocks, i, false);
      WithRestAscending(blocks, i, rest);
      ListedAscending(blocks, true);
      freeList := BlockRemove(freeList, header, s, k);
      assert s[..k] + s[k + 1..] == f;
      ghost var x := if k == 0 then header else s[k - 1];
      assert x in s && header in s;
      ChainKept(allocList, old(next), next, u, x, x);
      ghost var links := next;
      next := next[header := NULL];
      NotLeft(s, k);
      ChainKept(freeList, links, next, f, header, header);
      ChainKept(allocList, links, next, u, header, header);
      ghost var kept := next;
      ghost var l := |Front(blocks, i, true)|;
      PlaceOf(blocks, i, true);
      allocList := BlockInsert(allocList, header, u, l);
      Parts(blocks, i, true);
      assert u[..l] + [header] + u[l..] == Front(blocks, i, true) + [header] + Back(blocks, i, true);
      ghost var y := if l == 0 then header else u[l - 1];
      assert l > 0 ==> y in u;
      assert y !in f by { assert forall z :: z in f ==> z in s; }
      ChainKept(freeList, kept, next, f, header, y);
    }

    /** Splits a block that fits and hands out its front. */
    method Take(header: int, size: nat, ghost i: nat) returns (data: int)
      requires Valid() && size % 4 == 0 && i < |blocks| && Fits(blocks[i], size) && blocks[i].at == header
      modifies this
      ensures Valid() && blocks == AllocAt(old(blocks), i, size) && data == header + HEADER
    {
      BlockSplit(header, size, i);
      Transfer(header, header + HEADER + size, i);
      AllocInv(blocks, i, size);
      AllocLists(blocks, i, size);
      AllocLens(blocks, i, size, old(length), length);
      blocks := AllocAt(blocks, i, size);
      data := header + HEADER;
    }

    /** finsh_heap_allocate */
    method Allocate(request: nat, vars: seq<Variable>) returns (data: int)
      requires Valid()
      modifies this
      ensures Valid() && Outcome(blocks, data) == FinshHeapSpec.Allocate(old(blocks), request, Refs(vars))
      ensures Allocated(old(blocks), request, Refs(vars), Outcome(blocks, data))
    {
      hide Inv, Listed, Chain, Lens, Gc, AllocAt, Refs, Allocated;
      AllocateExact(blocks, request, Refs(vars));
      var size := Align(request);
      var header := Search(size, true);
      AtNotNull(blocks);
      if header == NULL {
        Collect(vars);
        header := Search(size, false);
        AtNotNull(blocks);
        if header == NULL { return NULL; }
        data := Take(header, size, FirstFit(blocks, size, false));
      } else {
        data := Take(header, size, FirstFit(blocks, size, true));
      }
    }
  }

  /** Addresses of blocks are not null. */
  lemma {:induction false} AtNotNull(bs: seq<Block>)
    requires Inv(bs)
    ensures forall i {:trigger bs[i]} :: 0 <= i < |bs| ==> bs[i].at >= 0
  {
    forall i | 0 <= i < |bs| ensures bs[i].at >= 0 { PlaceOf(bs, i, true); }
  }

  lemma {:induction false} NotLeft(s: seq<int>, k: nat)
    requires Ascending(s) && k < |s|
    ensures s[k] !in s[..k] + s[k + 1..]
  {
    var r := s[..k] + s[k + 1..];
    forall j | 0 <= j < |r| ensures r[j] != s[k] { assert r[j] == s[if j < k then j else j + 1]; }
  }

  /** The free list between the split and the removal of the block. */
  function WithRest(bs: seq<Block>, i: nat, rest: int): seq<int>
    requires i < |bs|
  {
    Front(bs, i, false) + [bs[i].at] + [rest] + Back(bs, i, false)
  }

  lemma {:induction false} WithRestAscending(bs: seq<Block>, i: nat, rest: int)
    requires Inv(bs) && i < |bs| && !bs[i].used && bs[i].at < rest < End(bs[i])
    ensures Ascending(WithRest(bs, i, rest))
    ensures forall x :: x in WithRest(bs, i, rest) ==> x !in Listed(bs, true)
    ensures Place(Listed(bs, true), bs[i].at, |Front(bs, i, true)|)
  {
    var s, f, b := WithRest(bs, i, rest), Front(bs, i, false), Back(bs, i, false);
    var all, k := Listed(bs, false), |f|;
    Parts(bs, i, false);
    Parts(bs, i, true);
    assert Listed(bs, true) == Front(bs, i, true) + Back(bs, i, true);
    PlaceOf(bs, i, true);
    ListedAscending(bs, false);
    RestPlace(bs, i, rest, true);
    forall j | 0 <= j < |b| ensures rest < b[j] { var x := b[j]; assert x in b; var l := BackAbove(bs, i, false, x); }
    forall j, l | 0 <= j < l < |s| ensures s[j] < s[l] {
      assert j <= k ==> s[j] == all[j];
      assert j > k + 1 ==> s[j] == all[j - 1];
      assert l <= k ==> s[l] == all[l];
      assert l > k + 1 ==> s[l] == all[l - 1];
      assert all[k] == bs[i].at;
    }
    forall x | x in s ensures x !in Listed(bs, true) {
      assert x == rest || x in all;
      ListsDisjoint(bs, x);
    }
  }

  /** What one turn of the collector does to the blocks. */
  function Turn(bs: seq<Block>, h: int, refs: set<int>): seq<Block> {
    if h + HEADER in refs || IndexOf(bs, h) == |bs| then bs else FreeAt(bs, IndexOf(bs, h))
  }

  lemma {:induction false} FreeFromList(bs: seq<Block>, h: int, kept: seq<int>, rest: seq<int>)
    requires Inv(bs) && UsedAt(bs, h) && Listed(bs, true) == kept + [h] + rest
    ensures Listed(FreeAt(bs, IndexOf(bs, h)), true) == kept + rest
  {
    var i := IndexOf(bs, h);
    Parts(bs, i, true);
    ListedAscending(bs, true);
    SameSplit(Listed(bs, true), kept, rest, Front(bs, i, true), Back(bs, i, true), h);
    FreeListUsed(bs, i);
  }

  /** A list of distinct headers has one place for each. */
  lemma {:induction false} SameSplit(all: seq<int>, a: seq<int>, b: seq<int>, c: seq<int>, d: seq<int>, x: int)
    requires Ascending(all) && all == a + [x] + b && all == c + [x] + d
    ensures a == c && b == d
  {
    assert all[|a|] == x && all[|c|] == x;
    assert |a| == |c|;
    assert a == all[..|a|] && c == all[..|c|] && b == all[|a| + 1..] && d == all[|c| + 1..];
  }
}
