/** The block layout of the shell's heap. Every block, free or allocated, has a header of
    eight bytes in front of its data. */
module FinshHeapSpec {

  const HEAP := 128
  const HEADER := 8

  datatype Block = Block(at: int, len: int, used: bool)

  function End(b: Block): int { b.at + HEADER + b.len }

  ghost predicate Meets(a: Block, b: Block) { b.at == End(a) && (a.used || b.used) }

  /** The blocks tile the heap, two neighbours are never both free, and the highest block is
      free. */
  ghost predicate Inv(bs: seq<Block>) {
    && bs != [] && bs[0].at == 0 && End(bs[|bs| - 1]) == HEAP && !bs[|bs| - 1].used
    && (forall i {:trigger bs[i]} :: 0 <= i < |bs| ==> bs[i].len >= 0 && bs[i].len % 4 == 0)
    && (forall i, j {:trigger Meets(bs[i], bs[j])} :: 0 <= i < |bs| - 1 && j == i + 1 ==> Meets(bs[i], bs[j]))
  }

  predicate Before(a: Block, b: Block) { End(a) <= b.at }

  lemma {:induction false} InOrder(bs: seq<Block>, i: nat, j: nat)
    requires Inv(bs) && i < j < |bs|
    ensures Before(bs[i], bs[j])
    decreases j
  {
    assert Meets(bs[j - 1], bs[j]);
    if i < j - 1 {
      InOrder(bs, i, j - 1);
      assert bs[j - 1].len >= 0;
    }
  }

  /** The headers on one of the two lists. */
  function Listed(bs: seq<Block>, used: bool): seq<int> {
    if bs == [] then [] else if bs[0].used == used then [bs[0].at] + Listed(bs[1..], used) else Listed(bs[1..], used)
  }

  lemma {:induction false} ListedConcat(a: seq<Block>, b: seq<Block>, used: bool)
    ensures Listed(a + b, used) == Listed(a, used) + Listed(b, used)
  {
    if a == [] {
      assert a + b == b;
    } else {
      assert (a + b)[1..] == a[1..] + b;
      ListedConcat(a[1..], b, used);
    }
  }

  lemma {:induction false} ListedIff(bs: seq<Block>, used: bool, x: int)
    ensures x in Listed(bs, used) <==> exists i :: 0 <= i < |bs| && bs[i].at == x && bs[i].used == used
  {
    if bs != [] {
      ListedIff(bs[1..], used, x);
      if i :| 0 <= i < |bs| && bs[i].at == x && bs[i].used == used { assert i > 0 ==> bs[1..][i - 1] == bs[i]; }
      if i :| 0 <= i < |bs[1..]| && bs[1..][i].at == x && bs[1..][i].used == used { assert bs[i + 1] == bs[1..][i]; }
    }
  }

  // --- allocation and release

  function Replace(bs: seq<Block>, i: nat, j: nat, put: seq<Block>): seq<Block>
    requires i <= j <= |bs|
  {
    bs[..i] + put + bs[j..]
  }

  /** The block split: its front allocated, the rest free. */
  function AllocAt(bs: seq<Block>, i: nat, size: int): seq<Block>
    requires i < |bs|
  {
    var b := bs[i];
    Replace(bs, i, i + 1, [Block(b.at, size, true), Block(b.at + HEADER + size, b.len - HEADER - size, false)])
  }

  predicate Fits(b: Block, size: int) { !b.used && b.len >= size + HEADER }

  lemma {:induction false} AllocInv(bs: seq<Block>, i: nat, size: int)
    requires Inv(bs) && i < |bs| && Fits(bs[i], size) && size >= 0 && size % 4 == 0
    ensures Inv(AllocAt(bs, i, size))
  {
    var r := AllocAt(bs, i, size);
    assert forall k :: i + 2 <= k < |r| ==> r[k] == bs[k - 1];
    assert bs[i].len % 4 == 0;
    forall k, l | 0 <= k < |r| - 1 && l == k + 1 ensures Meets(r[k], r[l]) {
      assert k < i ==> Meets(bs[k], bs[k + 1]);
      assert k > i ==> Meets(bs[k - 1], bs[k]);
    }
  }

  function Low(bs: seq<Block>, i: nat): nat
    requires i < |bs|
  {
    if i > 0 && !bs[i - 1].used then i - 1 else i
  }

  function High(bs: seq<Block>, i: nat): nat
    requires i < |bs|
  {
    if i + 1 < |bs| && !bs[i + 1].used then i + 2 else i + 1
  }

  /** The block released and joined with its free neighbours. */
  function FreeAt(bs: seq<Block>, i: nat): seq<Block>
    requires i < |bs|
  {
    var lo, hi := Low(bs, i), High(bs, i);
    Replace(bs, lo, hi, [Block(bs[lo].at, End(bs[hi - 1]) - bs[lo].at - HEADER, false)])
  }

  /** The joined block covers its parts and has used neighbours. */
  lemma {:induction false} JoinedBlock(bs: seq<Block>, i: nat)
    requires Inv(bs) && i < |bs| && bs[i].used
    ensures var lo, hi := Low(bs, i), High(bs, i);
      var len := End(bs[hi - 1]) - bs[lo].at - HEADER;
      && len >= 0 && len % 4 == 0 && hi <= |bs| && bs[lo].at + HEADER + len == End(bs[hi - 1])
      && (lo > 0 ==> bs[lo].at == End(bs[lo - 1]) && bs[lo - 1].used)
      && (hi < |bs| ==> bs[hi].at == End(bs[hi - 1]) && bs[hi].used)
  {
    var lo, hi := Low(bs, i), High(bs, i);
    assert lo > 0 ==> Meets(bs[lo - 1], bs[lo]);
    assert hi < |bs| ==> Meets(bs[hi - 1], bs[hi]);
    if lo < i { assert Meets(bs[lo], bs[i]); }
    if hi > i + 1 { assert Meets(bs[i], bs[i + 1]); }
    assert bs[lo].len % 4 == 0 && bs[i].len % 4 == 0 && bs[hi - 1].len % 4 == 0;
  }

  lemma {:induction false} FreeInv(bs: seq<Block>, i: nat)
    requires Inv(bs) && i < |bs| && bs[i].used
    ensures Inv(FreeAt(bs, i))
  {
    var lo, hi, r := Low(bs, i), High(bs, i), FreeAt(bs, i);
    JoinedBlock(bs, i);
    hide Low, High;
    assert forall k :: lo + 1 <= k < |r| ==> r[k] == bs[k - lo - 1 + hi];
    forall k, l | 0 <= k < |r| - 1 && l == k + 1 ensures Meets(r[k], r[l]) {
      assert k < lo - 1 ==> Meets(bs[k], bs[k + 1]);
      assert k > lo ==> Meets(bs[k - lo - 1 + hi], bs[k - lo + hi]);
    }
  }

  // --- the allocated blocks determine the heap

  ghost predicate Live(bs: seq<Block>, at: int, len: int) {
    exists i :: 0 <= i < |bs| && bs[i] == Block(at, len, true)
  }

  lemma {:induction false} LiveConcat(a: seq<Block>, b: seq<Block>, at: int, len: int)
    ensures Live(a + b, at, len) <==> Live(a, at, len) || Live(b, at, len)
  {
    var s := a + b;
    if i :| 0 <= i < |s| && s[i] == Block(at, len, true) {
      if i < |a| { assert a[i] == s[i]; } else { assert b[i - |a|] == s[i]; }
    }
    if i :| 0 <= i < |a| && a[i] == Block(at, len, true) { assert s[i] == a[i]; }
    if i :| 0 <= i < |b| && b[i] == Block(at, len, true) { assert s[|a| + i] == b[i]; }
  }

  lemma {:induction false} LiveReplace(bs: seq<Block>, i: nat, j: nat, put: seq<Block>, at: int, len: int)
    requires i <= j <= |bs|
    ensures Live(Replace(bs, i, j, put), at, len) <==>
      Live(bs[..i], at, len) || Live(put, at, len) || Live(bs[j..], at, len)
    ensures Live(bs, at, len) <==> Live(bs[..i], at, len) || Live(bs[i..j], at, len) || Live(bs[j..], at, len)
  {
    LiveConcat(bs[..i] + put, bs[j..], at, len);
    LiveConcat(bs[..i], put, at, len);
    assert bs == bs[..i] + bs[i..j] + bs[j..];
    LiveConcat(bs[..i] + bs[i..j], bs[j..], at, len);
    LiveConcat(bs[..i], bs[i..j], at, len);
  }

  lemma {:induction false} AllocLive(bs: seq<Block>, i: nat, size: int, at: int, len: int)
    requires i < |bs| && !bs[i].used
    ensures Live(AllocAt(bs, i, size), at, len) <==> Live(bs, at, len) || (at == bs[i].at && len == size)
  {
    var b := bs[i];
    var put := [Block(b.at, size, true), Block(b.at + HEADER + size, b.len - HEADER - size, false)];
    LiveReplace(bs, i, i + 1, put, at, len);
    assert put[0] == Block(b.at, size, true);
    assert bs[i..i + 1] == [b];
  }

  lemma {:induction false} FreeLive(bs: seq<Block>, i: nat, at: int, len: int)
    requires Inv(bs) && i < |bs| && bs[i].used
    ensures Live(FreeAt(bs, i), at, len) <==> Live(bs, at, len) && at != bs[i].at
  {
    var lo, hi := Low(bs, i), High(bs, i);
    LiveReplace(bs, lo, hi, [Block(bs[lo].at, End(bs[hi - 1]) - bs[lo].at - HEADER, false)], at, len);
    var mid := bs[lo..hi];
    assert mid[i - lo] == bs[i];
    if k :| 0 <= k < |mid| && mid[k] == Block(at, len, true) { assert mid[k] == bs[lo + k]; }
    if k :| 0 <= k < |bs[..lo]| && bs[..lo][k] == Block(at, len, true) { InOrder(bs, k, i); assert bs[k].len >= 0; }
    if k :| 0 <= k < |bs[hi..]| && bs[hi..][k] == Block(at, len, true) {
      InOrder(bs, i, hi + k);
      assert bs[i].len >= 0;
    }
  }

  ghost predicate SameLive(bs: seq<Block>, cs: seq<Block>) {
    forall at, len {:trigger Live(bs, at, len)} {:trigger Live(cs, at, len)} :: Live(bs, at, len) <==> Live(cs, at, len)
  }

  /** Where an allocated block of one heap is in another that begins the same way. */
  lemma {:induction false} SameUsed(bs: seq<Block>, cs: seq<Block>, k: nat)
    requires Inv(bs) && Inv(cs) && SameLive(bs, cs) && k < |bs| && k < |cs| && bs[k].at == cs[k].at && bs[k].used
    ensures cs[k] == bs[k]
  {
    assert Live(bs, bs[k].at, bs[k].len);
    var j :| 0 <= j < |cs| && cs[j] == Block(bs[k].at, bs[k].len, true);
    assert cs[j].len >= 0 && cs[k].len >= 0;
    if j < k { InOrder(cs, j, k); }
    if k < j { InOrder(cs, k, j); }
  }

  /** A free block ends where the next allocated block begins. */
  lemma {:induction false} FreeNotShorter(bs: seq<Block>, cs: seq<Block>, k: nat)
    requires Inv(bs) && Inv(cs) && SameLive(bs, cs) && k < |bs| && k < |cs| && bs[k].at == cs[k].at && !bs[k].used
      && !cs[k].used
    ensures bs[k].len >= cs[k].len
  {
    var last := cs[|cs| - 1];
    assert cs[k].len >= 0 && last.len >= 0;
    if k < |cs| - 1 { InOrder(cs, k, |cs| - 1); }
    if k + 1 < |bs| {
      var b := bs[k + 1];
      assert Meets(bs[k], b) && b.len >= 0 && bs[k].len >= 0;
      assert Live(bs, b.at, b.len);
      var j :| 0 <= j < |cs| && cs[j] == Block(b.at, b.len, true);
      if j < k { InOrder(cs, j, k); }
      if k < j { InOrder(cs, k, j); }
    }
  }

  lemma {:induction false} SamePrefix(bs: seq<Block>, cs: seq<Block>, k: nat)
    requires Inv(bs) && Inv(cs) && SameLive(bs, cs) && k <= |bs|
    ensures k <= |cs| && bs[..k] == cs[..k]
  {
    if k > 0 {
      SamePrefix(bs, cs, k - 1);
      if k > 1 {
        assert bs[..k - 1][k - 2] == cs[..k - 1][k - 2];
        assert Meets(bs[k - 2], bs[k - 1]) && bs[k - 1].len >= 0;
        if k <= |cs| { assert Meets(cs[k - 2], cs[k - 1]); } else { NotPastEnd(bs, k - 2); assert false; }
      }
      if bs[k - 1].used {
        SameUsed(bs, cs, k - 1);
      } else if cs[k - 1].used {
        SameUsed(cs, bs, k - 1);
      } else {
        FreeNotShorter(bs, cs, k - 1);
        FreeNotShorter(cs, bs, k - 1);
      }
      assert bs[..k] == bs[..k - 1] + [bs[k - 1]] && cs[..k] == cs[..k - 1] + [cs[k - 1]];
    }
  }

  /** Only the last block reaches the end of the heap. */
  lemma {:induction false} NotPastEnd(bs: seq<Block>, k: nat)
    requires Inv(bs) && k < |bs| - 1
    ensures End(bs[k]) < HEAP
  {
    InOrder(bs, k, |bs| - 1);
    assert bs[|bs| - 1].len >= 0;
  }

  lemma {:induction false} Unique(bs: seq<Block>, cs: seq<Block>)
    requires Inv(bs) && Inv(cs) && SameLive(bs, cs)
    ensures bs == cs
  {
    SamePrefix(bs, cs, |bs|);
    SamePrefix(cs, bs, |cs|);
    assert bs[..|bs|] == bs && cs[..|cs|] == cs;
  }

  /** Releasing what was just allocated gives the same heap again. */
  lemma {:induction false} AllocFreeRestores(bs: seq<Block>, i: nat, size: int)
    requires Inv(bs) && i < |bs| && Fits(bs[i], size) && size >= 0 && size % 4 == 0
    ensures FreeAt(AllocAt(bs, i, size), i) == bs
  {
    var a := AllocAt(bs, i, size);
    AllocInv(bs, i, size);
    assert a[i] == Block(bs[i].at, size, true);
    FreeInv(a, i);
    forall at, len ensures Live(FreeAt(a, i), at, len) <==> Live(bs, at, len) {
      FreeLive(a, i, at, len);
      AllocLive(bs, i, size, at, len);
      if k :| 0 <= k < |bs| && bs[k] == Block(at, len, true) {
        assert bs[k].len >= 0 && bs[i].len >= 0;
        if k < i { InOrder(bs, k, i); } else { InOrder(bs, i, k); }
      }
    }
    Unique(FreeAt(a, i), bs);
  }

  // --- garbage collection

  function IndexOf(bs: seq<Block>, at: int): (i: nat)
    ensures i <= |bs| && (i < |bs| ==> bs[i].at == at)
    ensures forall k :: 0 <= k < i ==> bs[k].at != at
  {
    if bs == [] || bs[0].at == at then 0 else 1 + IndexOf(bs[1..], at)
  }

  ghost predicate UsedAt(bs: seq<Block>, at: int) {
    IndexOf(bs, at) < |bs| && bs[IndexOf(bs, at)].used
  }

  /** Release of the listed blocks that nothing refers to, in order. */
  function Collect(bs: seq<Block>, list: seq<int>, refs: set<int>): seq<Block>
    decreases |list|
  {
    if list == [] then bs
    else
      var i := IndexOf(bs, list[0]);
      Collect(if list[0] + HEADER in refs || i == |bs| then bs else FreeAt(bs, i), list[1..], refs)
  }

  /** The garbage collection of a heap: the whole list of allocated blocks is visited. */
  function Gc(bs: seq<Block>, refs: set<int>): seq<Block> {
    Collect(bs, Listed(bs, true), refs)
  }

  lemma {:induction false} UsedAtLive(bs: seq<Block>, at: int)
    requires Inv(bs)
    ensures UsedAt(bs, at) <==> exists len :: Live(bs, at, len)
  {
    var i := IndexOf(bs, at);
    if UsedAt(bs, at) { assert bs[i] == Block(at, bs[i].len, true) && Live(bs, at, bs[i].len); }
    if len :| Live(bs, at, len) {
      var j :| 0 <= j < |bs| && bs[j] == Block(at, len, true);
      assert bs[j].at == at;
      assert i <= j;
      assert bs[i].len >= 0;
      if i < j { InOrder(bs, i, j); }
    }
  }

  ghost predicate AllUsed(bs: seq<Block>, list: seq<int>) {
    forall x {:trigger UsedAt(bs, x)} :: x in list ==> UsedAt(bs, x)
  }

  ghost predicate Ascending(list: seq<int>) {
    forall i, j {:trigger list[i], list[j]} :: 0 <= i < j < |list| ==> list[i] < list[j]
  }

  /** Releasing the first listed block leaves the others allocated. */
  lemma {:induction false} StillUsed(bs: seq<Block>, list: seq<int>)
    requires Inv(bs) && AllUsed(bs, list) && Ascending(list) && list != [] && UsedAt(bs, list[0])
    ensures Inv(FreeAt(bs, IndexOf(bs, list[0]))) && AllUsed(FreeAt(bs, IndexOf(bs, list[0])), list[1..])
    ensures AllUsed(bs, list[1..]) && Ascending(list[1..])
  {
    var i, rest := IndexOf(bs, list[0]), list[1..];
    var next := FreeAt(bs, i);
    FreeInv(bs, i);
    forall x | x in rest ensures UsedAt(next, x) && UsedAt(bs, x) {
      var k :| 0 <= k < |rest| && rest[k] == x;
      assert list[k + 1] == x && x != list[0];
      assert x in list && UsedAt(bs, x);
      UsedAtLive(bs, x);
      var len :| Live(bs, x, len);
      FreeLive(bs, i, x, len);
      UsedAtLive(next, x);
    }
  }

  lemma {:induction false} CollectInv(bs: seq<Block>, list: seq<int>, refs: set<int>)
    requires Inv(bs) && AllUsed(bs, list) && Ascending(list)
    ensures Inv(Collect(bs, list, refs))
    decreases |list|
  {
    if list != [] {
      assert list[0] in list && UsedAt(bs, list[0]);
      StillUsed(bs, list);
      CollectInv(if list[0] + HEADER in refs then bs else FreeAt(bs, IndexOf(bs, list[0])), list[1..], refs);
    }
  }

  /** Exactly the listed blocks without a reference are released. */
  lemma {:induction false} CollectExact(bs: seq<Block>, list: seq<int>, refs: set<int>, at: int, len: int)
    requires Inv(bs) && AllUsed(bs, list) && Ascending(list)
    ensures Live(Collect(bs, list, refs), at, len) <==> Live(bs, at, len) && (at in list ==> at + HEADER in refs)
    decreases |list|
  {
    if list != [] {
      assert list[0] in list && UsedAt(bs, list[0]);
      var i := IndexOf(bs, list[0]);
      StillUsed(bs, list);
      FreeLive(bs, i, at, len);
      CollectExact(if list[0] + HEADER in refs then bs else FreeAt(bs, i), list[1..], refs, at, len);
      assert at in list <==> at == list[0] || at in list[1..];
    }
  }

  lemma {:induction false} ListedSorted(bs: seq<Block>, i: nat, used: bool)
    requires Inv(bs) && i <= |bs|
    ensures Ascending(Listed(bs[i..], used))
    ensures forall x :: x in Listed(bs[i..], used) ==> i < |bs| && bs[i].at <= x
    decreases |bs| - i
  {
    if i < |bs| {
      assert bs[i..][1..] == bs[i + 1..];
      ListedSorted(bs, i + 1, used);
      assert bs[i].len >= 0;
      if i + 1 < |bs| { InOrder(bs, i, i + 1); }
      var rest := Listed(bs[i + 1..], used);
      forall k | 0 <= k < |rest| ensures bs[i].at < rest[k] { assert rest[k] in rest; }
    }
  }

  lemma {:induction false} ListedUsed(bs: seq<Block>)
    requires Inv(bs)
    ensures Ascending(Listed(bs, true)) && AllUsed(bs, Listed(bs, true))
    ensures forall x {:trigger UsedAt(bs, x)} :: UsedAt(bs, x) ==> x in Listed(bs, true)
  {
    assert bs[0..] == bs;
    ListedSorted(bs, 0, true);
    forall x ensures x in Listed(bs, true) <==> UsedAt(bs, x) {
      ListedIff(bs, true, x);
      UsedAtLive(bs, x);
      if i :| 0 <= i < |bs| && bs[i].at == x && bs[i].used { assert Live(bs, x, bs[i].len); }
    }
  }

  /** Garbage collection keeps exactly the blocks that a typed variable points to. */
  lemma {:induction false} GcExact(bs: seq<Block>, refs: set<int>)
    requires Inv(bs)
    ensures Inv(Gc(bs, refs))
    ensures forall at, len :: Live(Gc(bs, refs), at, len) <==> Live(bs, at, len) && at + HEADER in refs
  {
    var list := Listed(bs, true);
    ListedUsed(bs);
    CollectInv(bs, list, refs);
    forall at, len ensures Live(Gc(bs, refs), at, len) <==> Live(bs, at, len) && at + HEADER in refs {
      CollectExact(bs, list, refs, at, len);
      UsedAtLive(bs, at);
    }
  }

  // --- finsh_heap_allocate

  function Align(size: nat): nat { (size + 3) / 4 * 4 }

  predicate Suits(b: Block, size: nat, strict: bool) {
    !b.used && if strict then b.len > size + HEADER else b.len >= size + HEADER
  }

  function FirstFit(bs: seq<Block>, size: nat, strict: bool): (i: nat)
    ensures i <= |bs| && (i < |bs| ==> Suits(bs[i], size, strict))
    ensures forall k :: 0 <= k < i ==> !Suits(bs[k], size, strict)
  {
    if bs == [] || Suits(bs[0], size, strict) then 0 else 1 + FirstFit(bs[1..], size, strict)
  }

  datatype Outcome = Outcome(blocks: seq<Block>, data: int)

  const NULL := -1

  /** A block with room to spare is taken at once; otherwise garbage is collected first, and
      then an exact fit will do. */
  function Allocate(bs: seq<Block>, request: nat, refs: set<int>): Outcome {
    var size := Align(request);
    var i := FirstFit(bs, size, true);
    if i < |bs| then Outcome(AllocAt(bs, i, size), bs[i].at + HEADER)
    else
      var cs := Gc(bs, refs);
      var j := FirstFit(cs, size, false);
      if j < |cs| then Outcome(AllocAt(cs, j, size), cs[j].at + HEADER) else Outcome(cs, NULL)
  }

  /** A block that was live before and still is: always with room to spare, otherwise when a
      variable refers to it. */
  ghost predicate Survives(bs: seq<Block>, request: nat, refs: set<int>, at: int, len: int) {
    Live(bs, at, len) && (FirstFit(bs, Align(request), true) < |bs| || at + HEADER in refs)
  }

  /** Some free block has room for an allocation. */
  ghost predicate Room(bs: seq<Block>, size: nat) {
    exists k :: 0 <= k < |bs| && Fits(bs[k], size)
  }

  lemma {:induction false} FreeKeepsRoom(bs: seq<Block>, i: nat, size: nat)
    requires Inv(bs) && i < |bs| && bs[i].used && Room(bs, size)
    ensures Room(FreeAt(bs, i), size)
  {
    var k :| 0 <= k < |bs| && Fits(bs[k], size);
    var lo, hi, r := Low(bs, i), High(bs, i), FreeAt(bs, i);
    if k < lo {
      assert r[k] == bs[k];
    } else if k >= hi {
      assert r[lo + 1 + k - hi] == bs[k];
    } else {
      assert bs[i].len >= 0;
      if lo < i { assert Meets(bs[lo], bs[i]) && bs[lo].len >= 0; }
      if hi > i + 1 { assert Meets(bs[i], bs[i + 1]) && bs[i + 1].len >= 0; }
      assert Fits(r[lo], size);
    }
  }

  lemma {:induction false} CollectKeepsRoom(bs: seq<Block>, list: seq<int>, refs: set<int>, size: nat)
    requires Inv(bs) && AllUsed(bs, list) && Ascending(list) && Room(bs, size)
    ensures Room(Collect(bs, list, refs), size)
    decreases |list|
  {
    if list != [] {
      var h, rest := list[0], list[1..];
      assert h in list && UsedAt(bs, h);
      var i := IndexOf(bs, h);
      if h + HEADER !in refs {
        FreeInv(bs, i);
        FreeKeepsRoom(bs, i, size);
        StillUsed(bs, list);
        CollectKeepsRoom(FreeAt(bs, i), rest, refs, size);
      } else {
        CollectKeepsRoom(bs, rest, refs, size);
      }
    }
  }

  lemma {:induction false} GcKeepsRoom(bs: seq<Block>, refs: set<int>, size: nat)
    requires Inv(bs) && Room(bs, size)
    ensures Room(Gc(bs, refs), size)
  {
    ListedUsed(bs);
    CollectKeepsRoom(bs, Listed(bs, true), refs, size);
  }

  /** The aligned size is the least multiple of four that holds the request. */
  lemma {:induction false} AlignHolds(request: nat)
    ensures Align(request) % 4 == 0 && request <= Align(request) < request + 4
  {
    var m := request + 3;
    assert m == m / 4 * 4 + m % 4;
  }

  /** The outcome of an allocation: a block that holds the request beside the surviving blocks;
      or none, exactly when not even the collected heap has room. */
  ghost predicate Allocated(bs: seq<Block>, request: nat, refs: set<int>, r: Outcome) {
    && Inv(r.blocks)
    && (r.data == NULL <==> !Room(Gc(bs, refs), Align(request)))
    && (r.data == NULL ==> r.blocks == Gc(bs, refs))
    && request <= Align(request) < request + 4
    && (r.data != NULL ==>
       forall at, len {:trigger Live(r.blocks, at, len)} :: Live(r.blocks, at, len) <==>
       Survives(bs, request, refs, at, len) || (at + HEADER == r.data && len == Align(request)))
  }

  lemma {:induction false} AllocatedAt(bs: seq<Block>, i: nat, size: int)
    requires Inv(bs) && i < |bs| && Fits(bs[i], size) && size >= 0 && size % 4 == 0
    ensures Inv(AllocAt(bs, i, size)) && bs[i].at >= 0
    ensures forall at, len :: Live(AllocAt(bs, i, size), at, len) <==>
      Live(bs, at, len) || (at == bs[i].at && len == size)
  {
    AllocInv(bs, i, size);
    if i > 0 { InOrder(bs, 0, i); }
    assert bs[0].len >= 0;
    forall at, len ensures Live(AllocAt(bs, i, size), at, len) <==>
      Live(bs, at, len) || (at == bs[i].at && len == size) {
      AllocLive(bs, i, size, at, len);
    }
  }

  lemma {:induction false} AllocateExact(bs: seq<Block>, request: nat, refs: set<int>)
    requires Inv(bs)
    ensures Allocated(bs, request, refs, Allocate(bs, request, refs))
  {
    var size, cs := Align(request), Gc(bs, refs);
    AlignHolds(request);
    GcExact(bs, refs);
    var i := FirstFit(bs, size, true);
    if i < |bs| {
      AllocatedAt(bs, i, size);
      assert Fits(bs[i], size);
      GcKeepsRoom(bs, refs, size);
    } else {
      var j := FirstFit(cs, size, false);
      assert forall k :: 0 <= k < |cs| ==> (Fits(cs[k], size) <==> Suits(cs[k], size, false));
      if j < |cs| { AllocatedAt(cs, j, size); assert Fits(cs[j], size); }
    }
  }

  // --- whole runs

  /** A request with the variables' values at that moment, or a release. */
  datatype Event = Request(size: nat, refs: set<int>) | Release(at: int)

  function Next(bs: seq<Block>, e: Event): seq<Block> {
    match e
    case Request(size, refs) => Allocate(bs, size, refs).blocks
    case Release(at) => if IndexOf(bs, at) == |bs| then bs else FreeAt(bs, IndexOf(bs, at))
  }

  ghost predicate LegalRun(bs: seq<Block>, run: seq<Event>)
    decreases |run|
  {
    run != [] ==> (run[0].Release? ==> UsedAt(bs, run[0].at)) && LegalRun(Next(bs, run[0]), run[1..])
  }

  function After(bs: seq<Block>, run: seq<Event>): seq<Block>
    decreases |run|
  {
    if run == [] then bs else After(Next(bs, run[0]), run[1..])
  }

  lemma {:induction false} EveryRun(bs: seq<Block>, run: seq<Event>)
    requires Inv(bs) && LegalRun(bs, run)
    ensures Inv(After(bs, run))
    decreases |run|
  {
    if run != [] {
      match run[0] {
        case Request(size, refs) => AllocateExact(bs, size, refs);
        case Release(at) => FreeInv(bs, IndexOf(bs, at));
      }
      EveryRun(Next(bs, run[0]), run[1..]);
    }
  }
}
