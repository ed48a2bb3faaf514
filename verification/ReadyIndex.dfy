/** The bitmap index of the ready queues, one level or two, and the table driven search for
    the lowest set bit. */
module ReadyIndex {
  import opened Bits
  import opened Powers

  // --- __rt_ffs

  /** The table by rows of sixteen: the rows differ in their first entry only. */
  const FIRST_OF_ROW: seq<nat> := [0, 4, 5, 4, 6, 4, 5, 4, 7, 4, 5, 4, 6, 4, 5, 4]
  const REST_OF_ROW: seq<nat> := [0, 0, 1, 0, 2, 0, 1, 0, 3, 0, 1, 0, 2, 0, 1, 0]

  function LowestBitOf(b: nat): nat
    requires b < 256
  {
    if b % 16 == 0 then FIRST_OF_ROW[b / 16] else REST_OF_ROW[b % 16]
  }

  function Ffs(value: nat): nat
    requires value < 0x1_0000_0000
  {
    if value == 0 then 0
    else if value % 0x100 != 0 then LowestBitOf(value % 0x100) + 1
    else if value / 0x100 % 0x100 != 0 then LowestBitOf(value / 0x100 % 0x100) + 9
    else if value / 0x1_0000 % 0x100 != 0 then LowestBitOf(value / 0x1_0000 % 0x100) + 17
    else LowestBitOf(value / 0x100_0000) + 25
  }

  /** Bit `k` is the lowest set bit. */
  ghost predicate Lowest(w: nat, k: nat) {
    Bit(w, k) && forall j {:trigger Bit(w, j)} :: 0 <= j < k ==> !Bit(w, j)
  }

  lemma {:induction false} LowestShift(w: nat, k: nat)
    requires w % 2 == 0 && Lowest(w / 2, k)
    ensures Lowest(w, k + 1)
  {
    forall j | 0 <= j < k + 1 ensures !Bit(w, j) { assert j > 0 ==> !Bit(w / 2, j - 1); }
  }

  function Low(w: nat): nat
    requires w > 0
  {
    if w % 2 == 1 then 0 else 1 + Low(w / 2)
  }

  lemma {:induction false} LowIsLowest(w: nat)
    requires w > 0
    ensures Lowest(w, Low(w))
  {
    if w % 2 == 0 {
      LowIsLowest(w / 2);
      LowestShift(w, Low(w / 2));
    }
  }

  lemma {:induction false} LowDouble(w: nat)
    requires w > 0
    ensures Low(2 * w) == 1 + Low(w)
  {
  }

  /** w << n */
  function Up(w: nat, n: nat): (r: nat)
    ensures w > 0 ==> r > 0
  {
    if n == 0 then w else 2 * Up(w, n - 1)
  }

  lemma {:induction false} UpValues(w: nat)
    ensures Up(w, 4) == 16 * w && Up(w, 8) == 0x100 * w
  {
    assert Up(w, 1) == 2 * w && Up(w, 2) == 4 * w && Up(w, 3) == 8 * w && Up(w, 4) == 16 * w;
    assert Up(w, 5) == 32 * w && Up(w, 6) == 64 * w && Up(w, 7) == 128 * w;
  }

  /** Zero bits in front put the lowest bit up. */
  lemma {:induction false} LowSkips(w: nat, n: nat)
    requires w > 0
    ensures Low(Up(w, n)) == n + Low(w)
  {
    if n > 0 {
      LowSkips(w, n - 1);
      LowDouble(Up(w, n - 1));
    }
  }

  lemma {:induction false} LowSkipsByte(w: nat, h: nat)
    requires w == 0x100 * h && h > 0
    ensures Low(w) == 8 + Low(h)
  {
    UpValues(h);
    LowSkips(h, 8);
  }

  /** Only the low byte matters when it is not zero. */
  lemma {:induction false} LowOfPart(w: nat, n: nat)
    requires w % Power2(n) != 0
    ensures w > 0 && Low(w) == Low(w % Power2(n))
  {
    var p := Power2(n);
    if n == 0 {
      assert false;
    } else {
      var q := Power2(n - 1);
      assert w % p % 2 == w % 2 && w % p / 2 == w / 2 % q by { HalfMod(w, q); }
      if w % 2 == 0 { LowOfPart(w / 2, n - 1); }
    }
  }

  lemma {:induction false} HalfMod(w: nat, q: nat)
    requires q > 0
    ensures w % (2 * q) % 2 == w % 2 && w % (2 * q) / 2 == w / 2 % q
  {
    var d, r := w / (2 * q), w % (2 * q);
    assert w == d * (2 * q) + r;
    assert d * (2 * q) == 2 * (d * q);
    assert w / 2 == d * q + r / 2;
    DivMod(w / 2, q, d, r / 2);
  }

  lemma {:induction false} DivMod(x: nat, q: nat, d: nat, r: nat)
    requires q > 0 && x == d * q + r && r < q
    ensures x % q == r
  {
    var e := x / q;
    assert x == e * q + x % q;
    assert e < d ==> (e + 1) * q <= d * q;
    assert e > d ==> (d + 1) * q <= e * q;
  }

  lemma {:induction false} LowOfNibble(b: nat)
    requires 0 < b < 16
    ensures Low(b) == REST_OF_ROW[b]
  {
    assert Low(1) == 0 && Low(2) == 1 && Low(4) == 2 && Low(8) == 3;
    assert Low(6) == 1 && Low(10) == 1 && Low(14) == 1 && Low(12) == 2;
  }

  lemma {:induction false} LowOfRow(r: nat)
    requires 0 < r < 16
    ensures Low(16 * r) == FIRST_OF_ROW[r]
  {
    UpValues(r);
    LowSkips(r, 4);
    LowOfNibble(r);
  }

  /** The table gives the lowest set bit of every byte. */
  lemma {:induction false} TableIsLow(b: nat)
    requires 0 < b < 256
    ensures LowestBitOf(b) == Low(b)
  {
    if b % 16 == 0 {
      LowOfRow(b / 16);
    } else {
      assert Power2(4) == 16;
      LowOfPart(b, 4);
      LowOfNibble(b % 16);
    }
  }

  /** A byte that is not zero, with only zero bits below it, holds the lowest bit. */
  lemma {:induction false} LowOfByte(w: nat)
    requires w % 0x100 != 0
    ensures w > 0 && Low(w) == LowestBitOf(w % 0x100)
  {
    assert Power2(8) == 0x100;
    LowOfPart(w, 8);
    TableIsLow(w % 0x100);
  }

  lemma {:induction false} FfsIsLow(value: nat)
    requires 0 < value < 0x1_0000_0000
    ensures Ffs(value) == Low(value) + 1
  {
    hide Low, LowestBitOf;
    var w1, w2, w3 := value / 0x100, value / 0x1_0000, value / 0x100_0000;
    if value % 0x100 != 0 {
      LowOfByte(value);
    } else if w1 % 0x100 != 0 {
      LowSkipsByte(value, w1);
      LowOfByte(w1);
    } else if w2 % 0x100 != 0 {
      LowSkipsByte(value, w1);
      LowSkipsByte(w1, w2);
      LowOfByte(w2);
    } else {
      LowSkipsByte(value, w1);
      LowSkipsByte(w1, w2);
      LowSkipsByte(w2, w3);
      LowOfByte(w3);
    }
  }

  /** The result is one more than the number of the lowest set bit, and 0 for 0. */
  lemma {:induction false} FfsIsLowest(value: nat)
    requires value < 0x1_0000_0000
    ensures if value == 0 then Ffs(value) == 0 else Ffs(value) >= 1 && Lowest(value, Ffs(value) - 1)
  {
    if value != 0 {
      FfsIsLow(value);
      LowIsLowest(value);
    }
  }

  // --- the index

  /** The group word and, with more than 32 priorities, the table of 32 bytes below it. */
  datatype IndexOf<S> = Index(group: nat, table: S)
  type Index = IndexOf<seq<nat>>

  /** Where a priority is recorded: the byte, the mask for the group, the mask for the byte. */
  datatype Masks = Masks(number: nat, numberMask: nat, highMask: nat)

  function MasksOf(two: bool, p: nat): Masks {
    if two then Masks(p / 8, Power2(p / 8), Power2(p % 8)) else Masks(0, Power2(p), 0)
  }

  function Mark(x: Index, two: bool, m: Masks): Index
    requires two ==> m.number < |x.table|
  {
    Index(Or(x.group, m.numberMask), if two then x.table[m.number := Or(x.table[m.number], m.highMask)] else x.table)
  }

  function Unmark(x: Index, two: bool, m: Masks): Index
    requires two ==> m.number < |x.table|
  {
    if two then
      var b := AndNot(x.table[m.number], m.highMask);
      Index(if b == 0 then AndNot(x.group, m.numberMask) else x.group, x.table[m.number := b])
    else Index(AndNot(x.group, m.numberMask), x.table)
  }

  predicate Busy(queues: seq<seq<nat>>, p: int) {
    0 <= p < |queues| && queues[p] != []
  }

  /** The priority is recorded in the index. */
  predicate Recorded(x: Index, two: bool, p: nat) {
    if two then p / 8 < |x.table| && Bit(x.table[p / 8], p % 8) else Bit(x.group, p)
  }

  ghost predicate WordsFit(x: Index, two: bool) {
    && x.group < Power2(32)
    && (two ==> |x.table| == 32)
    && (two ==>
       forall n {:trigger x.table[n]} :: 0 <= n < 32 ==>
       x.table[n] < Power2(8) && (Bit(x.group, n) <==> x.table[n] != 0))
  }

  /** Bits are set exactly for the queues that are not empty. */
  ghost predicate Agrees(x: Index, two: bool, queues: seq<seq<nat>>) {
    && WordsFit(x, two)
    && forall p: nat {:trigger Recorded(x, two, p)} :: p < (if two then 256 else 32) ==>
       (Recorded(x, two, p) <==> Busy(queues, p))
  }

  lemma {:induction false} MarkAgrees(x: Index, two: bool, p: nat, queues: seq<seq<nat>>, after: seq<seq<nat>>)
    requires Agrees(x, two, queues) && p < |queues| == |after| && p < (if two then 256 else 32)
    requires Busy(after, p)
    requires forall q {:trigger Busy(after, q)} :: q != p ==> (Busy(after, q) <==> Busy(queues, q))
    ensures Agrees(Mark(x, two, MasksOf(two, p)), two, after)
  {
    var m, r, k := MasksOf(two, p), Mark(x, two, MasksOf(two, p)), if two then p / 8 else p;
    PowersIncrease(k, 32);
    OrRange(x.group, m.numberMask, 32);
    if two {
      var b := x.table[m.number];
      PowersIncrease(p % 8, 8);
      OrRange(b, m.highMask, 8);
      OrBits(b, m.highMask, p % 8);
      OneBit(p % 8, p % 8);
      ZeroHasNoBits(p % 8);
      forall n | 0 <= n < 32 ensures r.table[n] < Power2(8) && (Bit(r.group, n) <==> r.table[n] != 0) {
        OrBits(x.group, m.numberMask, n);
        OneBit(k, n);
      }
    }
    forall q: nat | q < (if two then 256 else 32) ensures Recorded(r, two, q) <==> Busy(after, q) {
      assert Recorded(x, two, q) <==> Busy(queues, q);
      if two {
        OrBits(x.table[m.number], m.highMask, q % 8);
        OneBit(p % 8, q % 8);
      } else {
        OrBits(x.group, m.numberMask, q);
        OneBit(p, q);
      }
    }
  }

  lemma {:induction false} UnmarkAgrees(x: Index, two: bool, p: nat, queues: seq<seq<nat>>, after: seq<seq<nat>>)
    requires Agrees(x, two, queues) && p < |queues| == |after| && p < (if two then 256 else 32)
    requires !Busy(after, p)
    requires forall q {:trigger Busy(after, q)} :: q != p ==> (Busy(after, q) <==> Busy(queues, q))
    ensures Agrees(Unmark(x, two, MasksOf(two, p)), two, after)
  {
    var m, r, k := MasksOf(two, p), Unmark(x, two, MasksOf(two, p)), if two then p / 8 else p;
    if two {
      var b := x.table[m.number];
      forall n | 0 <= n < 32 ensures r.table[n] < Power2(8) && (Bit(r.group, n) <==> r.table[n] != 0) {
        AndNotBits(x.group, m.numberMask, n);
        OneBit(k, n);
        if n == m.number && r.table[n] != 0 {
          var j := SomeBit(r.table[n], 8);
          AndNotBits(b, m.highMask, j);
          ZeroHasNoBits(j);
        }
      }
    }
    forall q: nat | q < (if two then 256 else 32) ensures Recorded(r, two, q) <==> Busy(after, q) {
      assert Recorded(x, two, q) <==> Busy(queues, q);
      if two {
        AndNotBits(x.table[m.number], m.highMask, q % 8);
        OneBit(p % 8, q % 8);
      } else {
        AndNotBits(x.group, m.numberMask, q);
        OneBit(p, q);
      }
    }
  }

  // --- masks that do not belong to the priority

  /** Some priority of a byte of the table is busy. */
  ghost predicate ByteBusy(queues: seq<seq<nat>>, n: nat) {
    exists q {:trigger Busy(queues, q)} :: Busy(queues, q) && q / 8 == n
  }

  /** Clearing these masks takes no busy priority out of the index. */
  ghost predicate Harmless(queues: seq<seq<nat>>, two: bool, m: Masks) {
    if two then
      && (forall q: nat {:trigger Busy(queues, q)} :: Busy(queues, q) && q / 8 == m.number ==> !Bit(m.highMask, q % 8))
      && (ByteBusy(queues, m.number)
         || forall q: nat {:trigger Busy(queues, q)} :: Busy(queues, q) ==> !Bit(m.numberMask, q / 8))
    else forall q: nat {:trigger Busy(queues, q)} :: Busy(queues, q) ==> !Bit(m.numberMask, q)
  }

  lemma {:induction false} AndNotSame(a: nat, b: nat, size: nat)
    requires a < Power2(size) && forall k :: 0 <= k < size ==> !(Bit(a, k) && Bit(b, k))
    ensures AndNot(a, b) == a
  {
    forall k | 0 <= k < size ensures Bit(AndNot(a, b), k) <==> Bit(a, k) { AndNotBits(a, b, k); }
    SameBits(AndNot(a, b), a, size);
  }

  /** A byte of the table is zero when none of its priorities is busy. */
  lemma {:induction false} ByteIsBusy(x: Index, queues: seq<seq<nat>>, n: nat)
    requires Agrees(x, true, queues) && |queues| <= 256 && n < 32
    ensures x.table[n] != 0 <==> ByteBusy(queues, n)
  {
    if x.table[n] != 0 {
      var k := SomeBit(x.table[n], 8);
      var q := 8 * n + k;
      assert q / 8 == n && q % 8 == k && Recorded(x, true, q);
      assert Busy(queues, q);
    }
    if q :| Busy(queues, q) && q / 8 == n {
      assert Recorded(x, true, q);
      ZeroHasNoBits(q % 8);
    }
  }

  lemma {:induction false} UnmarkHarmless(x: Index, two: bool, queues: seq<seq<nat>>, m: Masks)
    requires Agrees(x, two, queues) && |queues| <= (if two then 256 else 32) && (two ==> m.number < 32)
      && Harmless(queues, two, m)
    ensures Unmark(x, two, m) == x
  {
    if two {
      var b := x.table[m.number];
      forall k | 0 <= k < 8 ensures !(Bit(b, k) && Bit(m.highMask, k)) {
        var q := 8 * m.number + k;
        assert q / 8 == m.number && q % 8 == k;
        assert Recorded(x, two, q) <==> Busy(queues, q);
      }
      AndNotSame(b, m.highMask, 8);
      ByteIsBusy(x, queues, m.number);
      if b == 0 {
        forall n | 0 <= n < 32 ensures !(Bit(x.group, n) && Bit(m.numberMask, n)) {
          ByteIsBusy(x, queues, n);
          assert Bit(x.group, n) <==> x.table[n] != 0;
        }
        AndNotSame(x.group, m.numberMask, 32);
      }
      assert x.table[m.number := b] == x.table;
    } else {
      forall k | 0 <= k < 32 ensures !(Bit(x.group, k) && Bit(m.numberMask, k)) {
        assert Recorded(x, two, k) <==> Busy(queues, k);
      }
      AndNotSame(x.group, m.numberMask, 32);
    }
  }

  /** The masks of a priority that nobody is ready at are harmless. */
  lemma {:induction false} OwnHarmless(queues: seq<seq<nat>>, two: bool, p: nat)
    requires !Busy(queues, p)
    ensures Harmless(queues, two, MasksOf(two, p))
  {
    forall q: nat | Busy(queues, q) ensures if two then q / 8 == p / 8 ==>
      !Bit(Power2(p % 8), q % 8) else !Bit(Power2(p), q) {
      if two { OneBit(p % 8, q % 8); } else { OneBit(p, q); }
    }
    if two && !ByteBusy(queues, p / 8) {
      forall q: nat | Busy(queues, q) ensures !Bit(Power2(p / 8), q / 8) { OneBit(p / 8, q / 8); }
    }
  }

  lemma {:induction false} UnmarkHarms(x: Index, two: bool, queues: seq<seq<nat>>, m: Masks)
    requires Agrees(x, two, queues) && |queues| <= (if two then 256 else 32) && (two ==> m.number < 32)
      && !Harmless(queues, two, m)
    ensures !Agrees(Unmark(x, two, m), two, queues)
  {
    var r := Unmark(x, two, m);
    if !two {
      var q: nat :| Busy(queues, q) && Bit(m.numberMask, q);
      AndNotBits(x.group, m.numberMask, q);
      assert !Recorded(r, two, q);
    } else if q: nat :| Busy(queues, q) && q / 8 == m.number && Bit(m.highMask, q % 8) {
      AndNotBits(x.table[m.number], m.highMask, q % 8);
      assert !Recorded(r, two, q);
    } else {
      var q: nat :| Busy(queues, q) && Bit(m.numberMask, q / 8);
      var n := q / 8;
      ByteIsBusy(x, queues, m.number);
      ByteIsBusy(x, queues, n);
      AndNotBits(x.group, m.numberMask, n);
      assert r.table[n] == x.table[n] != 0 && !Bit(r.group, n);
    }
  }

  /** The search of rt_schedule for the most urgent ready priority. */
  function Highest(x: Index, two: bool): int
    requires WordsFit(x, two) && x.group != 0
  {
    assert Power2(32) == 0x1_0000_0000 by { GroupBits(); }
    if two then
      var n := Ffs(x.group) - 1;
      assert 0 <= n < 32 && x.table[n] < Power2(8) by { HighestByte(x); }
      8 * n + Ffs(x.table[n]) - 1
    else Ffs(x.group) - 1
  }

  lemma {:induction false} GroupBits()
    ensures Power2(32) == 0x1_0000_0000 && Power2(8) == 0x100
  {
    assert Power2(8) == 0x100;
    Power32();
  }

  lemma {:induction false} HighestByte(x: Index)
    requires WordsFit(x, true) && x.group != 0
    ensures Power2(32) == 0x1_0000_0000 && Power2(8) == 0x100
    ensures var n := Ffs(x.group) - 1; 0 <= n < 32 && Lowest(x.group, n) && 0 < x.table[n] < Power2(8)
  {
    hide Ffs, Bit, Power2;
    GroupBits();
    FfsIsLowest(x.group);
    BitRange(x.group, Ffs(x.group) - 1, 32);
  }

  /** The most urgent queue that is not empty. */
  ghost predicate IsTop(queues: seq<seq<nat>>, p: int) {
    Busy(queues, p) && forall q {:trigger Busy(queues, q)} :: q < p ==> !Busy(queues, q)
  }

  lemma {:induction false} GroupNotEmpty(x: Index, queues: seq<seq<nat>>, p: nat)
    requires Agrees(x, true, queues) && Busy(queues, p) && |queues| <= 256
    ensures x.group != 0
  {
    assert Recorded(x, true, p);
    ZeroHasNoBits(p % 8);
    assert x.table[p / 8] != 0;
    ZeroHasNoBits(p / 8);
  }

  lemma {:induction false} TopAt(x: Index, queues: seq<seq<nat>>, n: nat, k: nat)
    requires Agrees(x, true, queues) && n < 32 && k < 8 && Lowest(x.group, n) && Lowest(x.table[n], k)
    ensures IsTop(queues, 8 * n + k)
  {
    var h := 8 * n + k;
    assert h / 8 == n && h % 8 == k;
    assert Recorded(x, true, h);
    forall q | q < h ensures !Busy(queues, q) {
      if 0 <= q {
        NotBelow(x, n, k, q);
        assert !Recorded(x, true, q);
      }
    }
  }

  lemma {:induction false} TwoBits(x: Index) returns (n: nat, k: nat)
    requires WordsFit(x, true) && x.group != 0
    ensures n < 32 && k < 8 && Lowest(x.group, n) && Lowest(x.table[n], k) && Highest(x, true) == 8 * n + k
  {
    hide Ffs, Bit, Power2;
    HighestByte(x);
    n := Ffs(x.group) - 1;
    FfsIsLowest(x.table[n]);
    k := Ffs(x.table[n]) - 1;
    BitRange(x.table[n], k, 8);
  }

  lemma {:induction false} HighestOfTwo(x: Index, queues: seq<seq<nat>>, p: nat)
    requires Agrees(x, true, queues) && Busy(queues, p) && |queues| <= 256
    ensures x.group != 0 && IsTop(queues, Highest(x, true))
  {
    GroupNotEmpty(x, queues, p);
    var n, k := TwoBits(x);
    TopAt(x, queues, n, k);
  }

  lemma {:induction false} NotBelow(x: Index, n: nat, k: nat, q: nat)
    requires WordsFit(x, true) && n < 32 && k < 8 && Lowest(x.group, n) && Lowest(x.table[n], k) && q < 8 * n + k
    ensures !Recorded(x, true, q)
  {
    var byte, bit := q / 8, q % 8;
    if byte < n {
      assert !Bit(x.group, byte);
      assert x.table[byte] == 0;
      ZeroHasNoBits(bit);
    } else {
      assert !Bit(x.table[n], bit);
    }
  }

  /** The bitmap search finds the most urgent queue that is not empty. */
  lemma {:induction false} HighestIsTop(x: Index, two: bool, queues: seq<seq<nat>>, p: nat)
    requires Agrees(x, two, queues) && Busy(queues, p) && |queues| <= (if two then 256 else 32)
    ensures x.group != 0 && IsTop(queues, Highest(x, two))
  {
    if two {
      HighestOfTwo(x, queues, p);
    } else {
      GroupBits();
      assert Recorded(x, two, p);
      ZeroHasNoBits(p);
      FfsIsLowest(x.group);
      var h := Highest(x, two);
      BitRange(x.group, h, 32);
      assert Recorded(x, two, h);
      forall q | q < h ensures !Busy(queues, q) { assert 0 <= q ==> !Recorded(x, two, q); }
    }
  }
}
