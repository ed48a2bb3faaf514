/** What the operations of the memory heap do to its live blocks. */
module MemHeapLive {
  import opened Blocks
  import opened WordRing
  import opened MemHeapSpec

  /** A block in use with its header at `a` and a payload of `n` words. */
  ghost predicate Live(h: Heap, a: int, n: int) { Used(h.at, h.used, a, a + HDR + n) }

  /** The block at `ptr` is in use and has room for so many bytes. */
  ghost predicate Serves(h: Heap, ptr: int, bytes: nat) {
    exists n {:trigger Live(h, ptr - HDR, n)} :: Live(h, ptr - HDR, n) && bytes <= 4 * n
  }

  /** Every block but those with headers at `a` and `b` is live as before. */
  ghost predicate SameLive(h: Heap, r: Heap, a: int, b: int) {
    forall x, n {:trigger Live(r, x, n)} :: x != a && x != b ==> (Live(r, x, n) <==> Live(h, x, n))
  }

  /** No block at `a` is in use. */
  ghost predicate Dead(h: Heap, a: int) { forall n {:trigger Live(h, a, n)} :: !Live(h, a, n) }

  lemma {:induction false} TilesRise(h: Heap)
    requires Tiles(h)
    ensures Rising(h.at)
  {
    forall i, j | 0 <= i < j < |h.at| ensures h.at[i] < h.at[j] { assert Gap(h.at[i], h.at[j]); }
  }

  /** An allocation adds one live block, where it found room, of the size asked for or of so much
      more as can hold no block of its own. */
  lemma {:induction false} AllocLive(h: Heap, i: nat, size: int) returns (got: int)
    requires Inv(h) && Legal(h, DoAlloc(i, size))
    ensures size <= got < size + HDR + MIN
    ensures forall a, n :: Live(Alloc(h, i, size), a, n) <==> if a == h.at[i] then n == got else Live(h, a, n)
    ensures forall n :: !Live(h, h.at[i], n)
  {
    TilesRise(h);
    var g, u := Alloc(h, i, size), Use(h, i);
    var end := h.at[i] + HDR + size;
    got := if SizeAt(h, i) >= size + HDR + MIN then size else SizeAt(h, i);
    if SizeAt(h, i) >= size + HDR + MIN {
      NotAHeader(h.at, i, end);
      assert !IsHeader(h.at, end);
    }
    forall a, n ensures Live(g, a, n) <==> if a == h.at[i] then n == got else Live(h, a, n) {
      MarkUsed(h.at, h.used, i, a, a + HDR + n);
      if SizeAt(h, i) >= size + HDR + MIN { InsertUsed(h.at, u.used, i, end, a, a + HDR + n); }
    }
    forall n ensures !Live(h, h.at[i], n) { MarkUsed(h.at, h.used, i, h.at[i], h.at[i] + HDR + n); }
  }

  lemma {:induction false} JoinLive(h: Heap, i: nat, a: int, n: int)
    requires Tiles(h) && 0 < i < |h.at| - 1 && FreeAt(h, i) && FreeAt(h, i - 1)
    ensures Live(Join(h, i), a, n) <==> Live(h, a, n)
  {
    TilesRise(h);
    DeleteUsed(h.at, h.used, i, a, a + HDR + n);
  }

  /** A release takes away exactly the released block. */
  lemma {:induction false} FreeLive(h: Heap, i: nat)
    requires Inv(h) && Legal(h, DoFree(i))
    ensures forall a, n :: Live(Free(h, i), a, n) <==> a != h.at[i] && Live(h, a, n)
  {
    TilesRise(h);
    var r := Release(h, i);
    ReleasePartition(h, i);
    var l, j := JoinLeft(r, i), Merged(r, i);
    if i > 0 && FreeAt(r, i - 1) { JoinPartition(r, i); }
    forall a, n ensures Live(Free(h, i), a, n) <==> a != h.at[i] && Live(h, a, n) {
      MarkUsed(h.at, h.used, i, a, a + HDR + n);
      if i > 0 && FreeAt(r, i - 1) { JoinLive(r, i, a, n); }
      if FreeAt(l, j + 1) { JoinLive(l, j + 1, a, n); }
    }
  }

  /** Resizing in place changes the size of that block only, to the size asked for or little more. */
  lemma {:induction false} ResizeLive(h: Heap, i: nat, size: int) returns (got: int)
    requires Inv(h) && Legal(h, DoResize(i, size))
    ensures size <= got <= size + HDR + MIN
    ensures forall a, n :: Live(Resize(h, i, size), a, n) <==> if a == h.at[i] then n == got else Live(h, a, n)
  {
    TilesRise(h);
    got := if size <= SizeAt(h, i) <= size + HDR + MIN then SizeAt(h, i) else size;
    forall a, n ensures Live(Resize(h, i, size), a, n) <==> if a == h.at[i] then n == got else Live(h, a, n) {
      if size <= SizeAt(h, i) <= size + HDR + MIN {
        MarkUsed(h.at, h.used, i, a, a + HDR + n);
      } else {
        CutLive(h, i, size, a, n);
      }
    }
  }

  lemma {:induction false} CutLive(h: Heap, i: nat, size: int, a: int, n: int)
    requires Inv(h) && Legal(h, DoResize(i, size)) && !(size <= SizeAt(h, i) <= size + HDR + MIN)
    ensures Live(Cut(h, i, size), a, n) <==> if a == h.at[i] then n == size else Live(h, a, n)
  {
    hide Inv, Used, Rising, InPlace;
    var end := h.at[i] + HDR + size;
    CutHeader(h, i, size);
    if i < |h.at| - 2 && FreeAt(h, i + 1) {
      var g := Absorb(h, i + 1);
      DeleteUsed(h.at, h.used, i + 1, a, a + HDR + n);
      InsertUsed(g.at, g.used, i, end, a, a + HDR + n);
    } else {
      InsertUsed(h.at, h.used, i, end, a, a + HDR + n);
    }
  }

  lemma {:induction false} CutHeader(h: Heap, i: nat, size: int)
    requires Inv(h) && Legal(h, DoResize(i, size)) && !(size <= SizeAt(h, i) <= size + HDR + MIN)
    ensures h.at[i] + HDR + size !in h.used && Rising(h.at)
    ensures i < |h.at| - 2 && FreeAt(h, i + 1) ==> Rising(Absorb(h, i + 1).at)
  {
    var end := h.at[i] + HDR + size;
    TilesRise(h);
    if i < |h.at| - 2 && FreeAt(h, i + 1) {
      AbsorbPartition(h, i + 1);
      TilesRise(Absorb(h, i + 1));
    }
    if size > SizeAt(h, i) {
      var g := Absorb(h, i + 1);
      assert Gap(h.at[i + 1], h.at[i + 2]);
      NotAHeader(g.at, i, end);
      assert !IsHeader(g.at, end);
    } else {
      NotAHeader(h.at, i, end);
      assert !IsHeader(h.at, end);
    }
  }
}
