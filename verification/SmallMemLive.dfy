/** What the operations of the small-memory heap do to its live blocks. */
module SmallMemLive {
  import opened Blocks
  import opened WordRing
  import opened SmallMemSpec

  /** A block in use with its header at `a` and a payload of `n` words. */
  ghost predicate Live(h: Heap, a: int, n: int) { Used(h.at, h.used, a, a + HDR + n) }

  /** The block at `ptr` is in use and has room for so many bytes. */
  ghost predicate Serves(h: Heap, ptr: int, bytes: nat) {
    exists n {:trigger Live(h, ptr - HDR, n)} :: Live(h, ptr - HDR, n) && bytes <= 4 * n
  }

  /** Every block but those with headers at `a` and `b` is live as before. */
  ghost predicate SameLive(h: Heap, r: Heap, a: int, b: int) {
    forall x, n {:trigger Live(r, x, n)} :: x != a && x != b ==> (Live(r, x, n) <==> Live(h, x, n))
  }

  /** No block at `a` is in use. */
  ghost predicate Dead(h: Heap, a: int) { forall n {:trigger Live(h, a, n)} :: !Live(h, a, n) }

  lemma {:induction false} TilesRise(h: Heap)
    requires Tiles(h)
    ensures Rising(h.at)
  {
    forall i, j | 0 <= i < j < |h.at| ensures h.at[i] < h.at[j] { assert Gap(h.at[i], h.at[j]); }
  }

  /** An allocation adds one live block, where it found room, of the size asked for or of so much
      more as can hold no block of its own. */
  lemma {:induction false} MallocLive(h: Heap, i: nat, size: int) returns (got: int)
    requires Inv(h) && Legal(h, DoMalloc(i, size))
    ensures size <= got < size + HDR + MIN
    ensures forall a, n :: Live(Malloc(h, i, size), a, n) <==> if a == h.at[i] then n == got else Live(h, a, n)
    ensures forall n :: !Live(h, h.at[i], n)
  {
    hide Used, Rising;
    TilesRise(h);
    var splits, end := SizeAt(h, i) >= size + HDR + MIN, h.at[i] + HDR + size;
    var s := if splits then Split(h, i, end) else h;
    got := if splits then size else SizeAt(h, i);
    if splits { SplitFacts(h, i, end); }
    forall a, n ensures Live(Malloc(h, i, size), a, n) <==> if a == h.at[i] then n == got else Live(h, a, n) {
      if splits { InsertUsed(h.at, h.used, i, end, a, a + HDR + n); }
      MarkUsed(s.at, s.used, i, a, a + HDR + n);
    }
    forall n ensures !Live(h, h.at[i], n) { MarkUsed(h.at, h.used, i, h.at[i], h.at[i] + HDR + n); }
  }

  lemma {:induction false} JoinLive(h: Heap, i: nat, a: int, n: int)
    requires Tiles(h) && 0 < i < |h.at| - 1 && FreeAt(h, i) && FreeAt(h, i - 1)
    ensures Live(Join(h, i), a, n) <==> Live(h, a, n)
  {
    TilesRise(h);
    DeleteUsed(h.at, h.used, i, a, a + HDR + n);
  }

  lemma {:induction false} PlugLive(h: Heap, i: nat, a: int, n: int)
    requires Partition(h) && i < |h.at| - 1 && FreeAt(h, i)
    ensures Live(Plug(h, i), a, n) <==> Live(h, a, n)
  {
    var m := JoinNext(h, i);
    if FreeAt(h, i + 1) {
      JoinLive(h, i + 1, a, n);
      JoinPartition(h, i + 1);
    }
    if i > 0 && FreeAt(m, i - 1) { JoinLive(m, i, a, n); }
  }

  /** A release takes away exactly the released block. */
  lemma {:induction false} FreeLive(h: Heap, i: nat)
    requires Inv(h) && Legal(h, DoFree(i))
    ensures forall a, n :: Live(Free(h, i), a, n) <==> a != h.at[i] && Live(h, a, n)
  {
    TilesRise(h);
    UnmarkPartition(h, i);
    forall a, n ensures Live(Free(h, i), a, n) <==> a != h.at[i] && Live(h, a, n) {
      MarkUsed(h.at, h.used, i, a, a + HDR + n);
      PlugLive(Unmark(h, i), i, a, n);
    }
  }

  /** Shrinking gives that block the size asked for and changes no other. */
  lemma {:induction false} ShrinkLive(h: Heap, i: nat, size: int)
    requires Inv(h) && Legal(h, DoShrink(i, size))
    ensures forall a, n :: Live(Shrink(h, i, size), a, n) <==> if a == h.at[i] then n == size else Live(h, a, n)
  {
    hide Used, Inv, Shrink;
    forall a, n ensures Live(Shrink(h, i, size), a, n) <==> if a == h.at[i] then n == size else Live(h, a, n) {
      ShrinkLiveAt(h, i, size, a, n);
    }
  }

  lemma {:induction false} ShrinkLiveAt(h: Heap, i: nat, size: int, a: int, n: int)
    requires Inv(h) && Legal(h, DoShrink(i, size))
    ensures Live(Shrink(h, i, size), a, n) <==> if a == h.at[i] then n == size else Live(h, a, n)
  {
    hide Inv, Used, Rising, Partition, Plug;
    var end := h.at[i] + HDR + size;
    SplitFacts(h, i, end);
    InsertUsed(h.at, h.used, i, end, a, a + HDR + n);
    PlugLive(Split(h, i, end), i + 1, a, n);
  }

  lemma {:induction false} SplitFacts(h: Heap, i: nat, end: int)
    requires Inv(h) && i < |h.at| - 1 && Gap(h.at[i], end) && Gap(end, h.at[i + 1])
    ensures Rising(h.at) && end !in h.used && Partition(Split(h, i, end)) && Rising(Split(h, i, end).at)
    ensures FreeAt(Split(h, i, end), i + 1)
  {
    TilesRise(h);
    InsertedHeader(h.at, i, end);
    assert !IsHeader(h.at, end);
    SplitPartition(h, i, end);
    TilesRise(Split(h, i, end));
  }
}
