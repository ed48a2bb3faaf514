/** The used blocks of a heap that is cut into blocks by its headers `at`. */
module Blocks {
  import opened WordRing

  ghost predicate Rising(at: seq<int>) {
    forall i, j {:trigger at[i], at[j]} :: 0 <= i < j < |at| ==> at[i] < at[j]
  }

  predicate BlockAt(at: seq<int>, used: set<int>, k: int, a: int, b: int) {
    0 <= k < |at| - 1 && at[k] == a && at[k + 1] == b && a in used
  }

  /** A used block reaches from `a` to `b`. */
  ghost predicate Used(at: seq<int>, used: set<int>, a: int, b: int) {
    exists k {:trigger BlockAt(at, used, k, a, b)} :: BlockAt(at, used, k, a, b)
  }

  /** A free header in a free block changes no used block; in a used block it ends the block. */
  lemma {:induction false} InsertUsed(at: seq<int>, used: set<int>, i: nat, n: int, a: int, b: int)
    requires Rising(at) && i < |at| - 1 && n !in used
    ensures Used(Insert(at, i + 1, n), used, a, b) <==>
      if a == at[i] && at[i] in used then b == n else Used(at, used, a, b)
  {
    var r := Insert(at, i + 1, n);
    if k :| BlockAt(r, used, k, a, b) {
      if k < i { assert BlockAt(at, used, k, a, b) && at[k] < at[i]; }
      else if k > i + 1 { assert BlockAt(at, used, k - 1, a, b) && at[i] < at[k - 1]; }
    }
    if a == at[i] && at[i] in used {
      if b == n { assert BlockAt(r, used, i, a, b); }
    } else if k :| BlockAt(at, used, k, a, b) {
      assert BlockAt(r, used, if k < i then k else k + 1, a, b);
    }
  }

  /** Dropping a free header changes no used block but the one before it. */
  lemma {:induction false} DeleteUsed(at: seq<int>, used: set<int>, i: nat, a: int, b: int)
    requires Rising(at) && 0 < i < |at| - 1 && at[i] !in used
    ensures Used(Delete(at, i), used, a, b) <==>
      if a == at[i - 1] && at[i - 1] in used then b == at[i + 1] else Used(at, used, a, b)
  {
    var r := Delete(at, i);
    if k :| BlockAt(r, used, k, a, b) {
      if k < i - 1 { assert BlockAt(at, used, k, a, b) && at[k] < at[i - 1]; }
      else if k >= i { assert BlockAt(at, used, k + 1, a, b) && at[i - 1] < at[k + 1]; }
    }
    if a == at[i - 1] && at[i - 1] in used {
      if b == at[i + 1] { assert BlockAt(r, used, i - 1, a, b); }
    } else if k :| BlockAt(at, used, k, a, b) {
      assert BlockAt(r, used, if k < i then k else k - 1, a, b);
    }
  }

  lemma {:induction false} MarkUsed(at: seq<int>, used: set<int>, i: nat, a: int, b: int)
    requires Rising(at) && i < |at| - 1
    ensures Used(at, used + {at[i]}, a, b) <==> if a == at[i] then b == at[i + 1] else Used(at, used, a, b)
    ensures Used(at, used - {at[i]}, a, b) <==> a != at[i] && Used(at, used, a, b)
    ensures Used(at, used, at[i], b) <==> at[i] in used && b == at[i + 1]
  {
    if k :| BlockAt(at, used + {at[i]}, k, a, b) { assert a != at[i] ==> BlockAt(at, used, k, a, b); }
    if k :| BlockAt(at, used, k, a, b) {
      assert BlockAt(at, used + {at[i]}, k, a, b);
      assert a != at[i] ==> BlockAt(at, used - {at[i]}, k, a, b);
    }
    if k :| BlockAt(at, used - {at[i]}, k, a, b) { assert BlockAt(at, used, k, a, b); }
    if a == at[i] && b == at[i + 1] { assert BlockAt(at, used + {at[i]}, i, a, b); }
    if k :| BlockAt(at, used, k, at[i], b) { assert k == i; }
    if at[i] in used && b == at[i + 1] { assert BlockAt(at, used, i, at[i], b); }
  }
}
