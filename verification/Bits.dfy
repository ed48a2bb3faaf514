/** Words as numbers, with the bitwise operations the sources use on masks. */
module Bits {
  import opened Powers

  predicate Bit(w: nat, k: nat) {
    if k == 0 then w % 2 == 1 else Bit(w / 2, k - 1)
  }

  /** a | b */
  function Or(a: nat, b: nat): nat {
    if a == 0 && b == 0 then 0 else 2 * Or(a / 2, b / 2) + (if a % 2 == 1 || b % 2 == 1 then 1 else 0)
  }

  /** a & ~b */
  function AndNot(a: nat, b: nat): (r: nat)
    ensures r <= a
  {
    if a == 0 then 0 else 2 * AndNot(a / 2, b / 2) + (if a % 2 == 1 && b % 2 == 0 then 1 else 0)
  }

  /** a & b */
  function And(a: nat, b: nat): (r: nat)
    ensures r <= a
  {
    if a == 0 then 0 else 2 * And(a / 2, b / 2) + (if a % 2 == 1 && b % 2 == 1 then 1 else 0)
  }

  /** a ^ b */
  function Xor(a: nat, b: nat): nat {
    if a == 0 && b == 0 then 0 else 2 * Xor(a / 2, b / 2) + (if a % 2 != b % 2 then 1 else 0)
  }

  lemma {:induction false} ZeroHasNoBits(k: nat)
    ensures !Bit(0, k)
  {
    if k > 0 { ZeroHasNoBits(k - 1); }
  }

  /** Or sets exactly the bits of both words. */
  lemma {:induction false} OrBits(a: nat, b: nat, k: nat)
    ensures Bit(Or(a, b), k) <==> Bit(a, k) || Bit(b, k)
  {
    if a == 0 && b == 0 {
      ZeroHasNoBits(k);
    } else if k > 0 {
      assert Or(a, b) / 2 == Or(a / 2, b / 2);
      OrBits(a / 2, b / 2, k - 1);
    }
  }

  /** And-not clears exactly the bits of the mask. */
  lemma {:induction false} AndNotBits(a: nat, b: nat, k: nat)
    ensures Bit(AndNot(a, b), k) <==> Bit(a, k) && !Bit(b, k)
  {
    if a == 0 {
      ZeroHasNoBits(k);
    } else if k > 0 {
      assert AndNot(a, b) / 2 == AndNot(a / 2, b / 2);
      AndNotBits(a / 2, b / 2, k - 1);
    }
  }

  /** And has exactly the bits of both words. */
  lemma {:induction false} AndBits(a: nat, b: nat, k: nat)
    ensures Bit(And(a, b), k) <==> Bit(a, k) && Bit(b, k)
  {
    if a == 0 {
      ZeroHasNoBits(k);
    } else if k > 0 {
      assert And(a, b) / 2 == And(a / 2, b / 2);
      AndBits(a / 2, b / 2, k - 1);
    }
  }

  /** Exclusive or has the bits of one word and not of the other. */
  lemma {:induction false} XorBits(a: nat, b: nat, k: nat)
    ensures Bit(Xor(a, b), k) <==> Bit(a, k) != Bit(b, k)
  {
    if a == 0 && b == 0 {
      ZeroHasNoBits(k);
    } else if k > 0 {
      assert Xor(a, b) / 2 == Xor(a / 2, b / 2);
      XorBits(a / 2, b / 2, k - 1);
    }
  }

  /** The complement in a word of `size` bits. */
  lemma {:induction false} NotBits(a: nat, size: nat, k: nat)
    requires a < Power2(size) && k < size
    ensures Bit(Power2(size) - 1 - a, k) <==> !Bit(a, k)
  {
    var n := Power2(size) - 1 - a;
    if k > 0 {
      assert n / 2 == Power2(size - 1) - 1 - a / 2;
      NotBits(a / 2, size - 1, k - 1);
    }
  }

  /** 1 << k has one bit. */
  lemma {:induction false} OneBit(k: nat, j: nat)
    ensures Bit(Power2(k), j) <==> j == k
  {
    if k == 0 {
      if j > 0 { ZeroHasNoBits(j - 1); }
    } else if j > 0 {
      OneBit(k - 1, j - 1);
    }
  }

  lemma {:induction false} OrRange(a: nat, b: nat, size: nat)
    requires a < Power2(size) && b < Power2(size)
    ensures Or(a, b) < Power2(size)
  {
    if size > 0 && (a != 0 || b != 0) { OrRange(a / 2, b / 2, size - 1); }
  }

  lemma {:induction false} XorRange(a: nat, b: nat, size: nat)
    requires a < Power2(size) && b < Power2(size)
    ensures Xor(a, b) < Power2(size)
  {
    if size > 0 && (a != 0 || b != 0) { XorRange(a / 2, b / 2, size - 1); }
  }

  lemma {:induction false} PowersIncrease(k: nat, size: nat)
    requires k < size
    ensures Power2(k) < Power2(size)
  {
    if k + 1 < size { PowersIncrease(k, size - 1); }
  }

  /** A word is determined by its bits. */
  lemma {:induction false} SameBits(a: nat, b: nat, size: nat)
    requires a < Power2(size) && b < Power2(size) && forall k :: 0 <= k < size ==> (Bit(a, k) <==> Bit(b, k))
    ensures a == b
  {
    if size > 0 {
      assert Bit(a, 0) <==> Bit(b, 0);
      forall k | 0 <= k < size - 1 ensures Bit(a / 2, k) <==> Bit(b / 2, k) { assert Bit(a, k + 1) <==> Bit(b, k + 1); }
      SameBits(a / 2, b / 2, size - 1);
    }
  }

  lemma {:induction false} SomeBit(w: nat, size: nat) returns (k: nat)
    requires 0 < w < Power2(size)
    ensures k < size && Bit(w, k)
  {
    if forall k :: 0 <= k < size ==> !Bit(w, k) {
      forall k | 0 <= k < size ensures Bit(w, k) <==> Bit(0, k) { ZeroHasNoBits(k); }
      SameBits(w, 0, size);
      assert false;
    } else {
      k :| 0 <= k < size && Bit(w, k);
    }
  }

  lemma {:induction false} BitRange(w: nat, k: nat, size: nat)
    requires w < Power2(size) && Bit(w, k)
    ensures k < size
  {
    if size == 0 { ZeroHasNoBits(k); } else if k > 0 { BitRange(w / 2, k - 1, size - 1); }
  }
}
