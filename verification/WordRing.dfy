/** Circular doubly linked lists threaded through six-word headers in a flat word memory:
    a header at `a` keeps its next link in word `a + o` and its previous link in word
    `a + o + 1`. */
module WordRing {
  import opened Lists

  type Memory = seq<int>

  /** Two headers do not overlap. */
  predicate Far(a: int, b: int) { a + 6 <= b || b + 6 <= a }

  ghost predicate Apart(u: set<int>) {
    forall a, b {:trigger Far(a, b)} :: a in u && b in u && a != b ==> Far(a, b)
  }

  ghost predicate Fits(m: Memory, u: set<int>) {
    forall a {:trigger a in u} :: a in u ==> 0 <= a && a + 6 <= |m|
  }

  predicate Linked(m: Memory, a: int, b: int, o: nat) {
    0 <= a && a + 6 <= |m| && 0 <= b && b + 6 <= |m| && o < 5 && m[a + o] == b && m[b + o + 1] == a
  }

  function Succ(i: int, n: int): int { if i + 1 == n then 0 else i + 1 }
  function Pred(i: int, n: int): int { if i == 0 then n - 1 else i - 1 }

  ghost predicate Ring(m: Memory, s: seq<int>, o: nat) {
    |s| >= 1 && o < 5
    && forall i, j {:trigger Linked(m, s[i], s[j], o)} :: 0 <= i < |s| && j == Succ(i, |s|) ==> Linked(m, s[i], s[j], o)
  }

  ghost predicate Among(s: seq<int>, u: set<int>) {
    forall i :: 0 <= i < |s| ==> s[i] in u
  }

  // ---- the two pointer operations ----

  /** `n` goes between `a` and the successor of `a`. */
  function LinkAfter(m: Memory, a: int, n: int, o: nat): Memory
    requires 0 <= a && a + 6 <= |m| && 0 <= n && n + 6 <= |m| && o < 5
    requires 0 <= m[a + o] && m[a + o] + 6 <= |m|
  {
    var b := m[a + o];
    m[n + o + 1 := a][n + o := b][b + o + 1 := n][a + o := n]
  }

  /** The neighbours of `x` are linked to each other; the links of `x` stay. */
  function Unlink(m: Memory, x: int, o: nat): Memory
    requires 0 <= x && x + 6 <= |m| && o < 5
    requires 0 <= m[x + o] && m[x + o] + 6 <= |m| && 0 <= m[x + o + 1] && m[x + o + 1] + 6 <= |m|
  {
    m[m[x + o] + o + 1 := m[x + o + 1]][m[x + o + 1] + o := m[x + o]]
  }

  function Insert(s: seq<int>, i: nat, x: int): (r: seq<int>)
    requires i <= |s|
    ensures |r| == |s| + 1
    ensures forall k {:trigger r[k]} :: 0 <= k < |r| ==> r[k] == if k < i then s[k] else if k == i then x else s[k - 1]
  {
    seq(|s| + 1, k requires 0 <= k <= |s| => if k < i then s[k] else if k == i then x else s[k - 1])
  }

  function Delete(s: seq<int>, i: nat): (r: seq<int>)
    requires i < |s|
    ensures |r| == |s| - 1
    ensures forall k {:trigger r[k]} :: 0 <= k < |r| ==> r[k] == if k < i then s[k] else s[k + 1]
  {
    seq(|s| - 1, k requires 0 <= k < |s| - 1 => if k < i then s[k] else s[k + 1])
  }

  lemma {:induction false} LinkedInBounds(m: Memory, s: seq<int>, o: nat, i: nat)
    requires Ring(m, s, o) && i < |s|
    ensures Linked(m, s[i], s[Succ(i, |s|)], o) && Linked(m, s[Pred(i, |s|)], s[i], o)
  {
  }

  /** Inserting behind the `i`-th node of a ring. */
  lemma {:induction false} LinkRing(m: Memory, s: seq<int>, o: nat, i: nat, n: int, u: set<int>)
    requires Ring(m, s, o) && i < |s| && Apart(u) && Fits(m, u) && Among(s, u) && Distinct(s) && n in u && n !in s
    ensures Linked(m, s[i], s[Succ(i, |s|)], o)
    ensures Ring(LinkAfter(m, s[i], n, o), Insert(s, i + 1, n), o)
  {
    LinkedInBounds(m, s, o, i);
    var a, b := s[i], s[Succ(i, |s|)];
    var m', r := LinkAfter(m, a, n, o), Insert(s, i + 1, n);
    forall k, l | 0 <= k < |r| && l == Succ(k, |r|) ensures Linked(m', r[k], r[l], o) {
      LinkedPair(m, s, o, i, n, u, k, l);
    }
  }

  lemma {:induction false} LinkedPair(m: Memory, s: seq<int>, o: nat, i: nat, n: int, u: set<int>, k: nat, l: nat)
    requires Ring(m, s, o) && i < |s| && Apart(u) && Fits(m, u) && Among(s, u) && Distinct(s) && n in u && n !in s
    requires Linked(m, s[i], s[Succ(i, |s|)], o)
    requires k < |s| + 1 && l == Succ(k, |s| + 1)
    ensures var r := Insert(s, i + 1, n); Linked(LinkAfter(m, s[i], n, o), r[k], r[l], o)
  {
    var a, b, r := s[i], s[Succ(i, |s|)], Insert(s, i + 1, n);
    assert Far(a, n) && Far(b, n) && (a == b || Far(a, b));
    if k != i && k != i + 1 {
      var p := if k <= i then k else k - 1;
      var q := Succ(p, |s|);
      assert r[k] == s[p] && r[l] == s[q] && p != i && q != Succ(i, |s|);
      assert Linked(m, s[p], s[q], o);
      assert if p < i then Differ(s[p], s[i]) else Differ(s[i], s[p]);
      var j := Succ(i, |s|);
      assert if q < j then Differ(s[q], s[j]) else Differ(s[j], s[q]);
      assert Far(s[p], a) && Far(s[p], n) && (s[p] == b || Far(s[p], b));
      assert Far(s[q], b) && Far(s[q], n) && (s[q] == a || Far(s[q], a));
    }
  }

  /** Removing the `i`-th node of a ring of at least two. */
  lemma {:induction false} UnlinkRing(m: Memory, s: seq<int>, o: nat, i: nat, u: set<int>)
    requires Ring(m, s, o) && i < |s| && |s| >= 2 && Apart(u) && Fits(m, u) && Among(s, u) && Distinct(s)
    ensures Linked(m, s[i], s[Succ(i, |s|)], o) && Linked(m, s[Pred(i, |s|)], s[i], o)
    ensures Ring(Unlink(m, s[i], o), Delete(s, i), o)
  {
    LinkedInBounds(m, s, o, i);
    var m', r := Unlink(m, s[i], o), Delete(s, i);
    forall k, l | 0 <= k < |r| && l == Succ(k, |r|) ensures Linked(m', r[k], r[l], o) {
      UnlinkedPair(m, s, o, i, u, k, l);
    }
  }

  lemma {:induction false} UnlinkedPair(m: Memory, s: seq<int>, o: nat, i: nat, u: set<int>, k: nat, l: nat)
    requires Ring(m, s, o) && i < |s| && |s| >= 2 && Apart(u) && Fits(m, u) && Among(s, u) && Distinct(s)
    requires Linked(m, s[i], s[Succ(i, |s|)], o) && Linked(m, s[Pred(i, |s|)], s[i], o)
    requires k < |s| - 1 && l == Succ(k, |s| - 1)
    ensures var r := Delete(s, i); Linked(Unlink(m, s[i], o), r[k], r[l], o)
  {
    var h, j, r := Pred(i, |s|), Succ(i, |s|), Delete(s, i);
    var p, q := if k < i then k else k + 1, if l < i then l else l + 1;
    assert r[k] == s[p] && r[l] == s[q];
    if p == h {
      assert q == j;
      assert s[h] == s[j] || Far(s[h], s[j]);
    } else {
      assert q == Succ(p, |s|) && q != j;
      assert Linked(m, s[p], s[q], o);
      assert if p < h then Differ(s[p], s[h]) else Differ(s[h], s[p]);
      assert if q < j then Differ(s[q], s[j]) else Differ(s[j], s[q]);
      assert Far(s[p], s[h]) && (s[p] == s[j] || Far(s[p], s[j]));
      assert Far(s[q], s[j]) && (s[q] == s[h] || Far(s[q], s[h]));
    }
  }

  // ---- what else changes: nothing ----

  /** From `m` to `w` only link words at offsets `o`, `o + 1` of headers in `u` changed. */
  ghost predicate OnlyLinks(m: Memory, w: Memory, u: set<int>, o: nat) {
    |w| == |m| && forall x {:trigger w[x]} :: 0 <= x < |m| && w[x] != m[x] ==> x - o in u || x - o - 1 in u
  }

  lemma LinkOnly(m: Memory, a: int, n: int, o: nat, u: set<int>)
    requires 0 <= a && a + 6 <= |m| && 0 <= n && n + 6 <= |m| && o < 5
    requires 0 <= m[a + o] && m[a + o] + 6 <= |m|
    requires a in u && n in u && m[a + o] in u
    ensures OnlyLinks(m, LinkAfter(m, a, n, o), u, o)
  {
  }

  lemma UnlinkOnly(m: Memory, x: int, o: nat, u: set<int>)
    requires 0 <= x && x + 6 <= |m| && o < 5
    requires 0 <= m[x + o] && m[x + o] + 6 <= |m| && 0 <= m[x + o + 1] && m[x + o + 1] + 6 <= |m|
    requires m[x + o] in u && m[x + o + 1] in u
    ensures OnlyLinks(m, Unlink(m, x, o), u, o)
  {
  }

  /** Any other word of a header keeps its value. */
  lemma OtherWord(m: Memory, w: Memory, u: set<int>, o: nat, a: int, k: nat)
    requires OnlyLinks(m, w, u, o) && Apart(u) && Fits(m, u) && a in u && k < 6 && k != o && k != o + 1 && o < 5
    ensures w[a + k] == m[a + k]
  {
    var x := a + k;
    assert x - o in u ==> Far(a, x - o);
    assert x - o - 1 in u ==> Far(a, x - o - 1);
  }

  /** A ring through other link words stays. */
  lemma {:induction false} OtherRing(m: Memory, w: Memory, u: set<int>, o: nat, s: seq<int>, p: nat)
    requires OnlyLinks(m, w, u, o) && Apart(u) && Fits(m, u) && Ring(m, s, p) && Among(s, u) && o < 5
    requires p + 1 < o || o + 1 < p
    ensures Ring(w, s, p)
  {
    forall i, j | 0 <= i < |s| && j == Succ(i, |s|) ensures Linked(w, s[i], s[j], p) {
      assert Linked(m, s[i], s[j], p);
      OtherWord(m, w, u, o, s[i], p);
      OtherWord(m, w, u, o, s[j], p + 1);
    }
  }

  // ---- contents ----

  ghost predicate WordsKept(m: Memory, w: Memory, from: int, to: int) {
    |w| == |m| && forall x :: from <= x < to && 0 <= x < |m| ==> w[x] == m[x]
  }

  /** The `len` words at `src` are now at `dst`. */
  ghost predicate Carried(m: Memory, w: Memory, dst: int, src: int, len: int) {
    |w| == |m| && forall x {:trigger w[x]} :: 0 <= x < |m| && dst <= x < dst + len && 0 <= x - dst + src < |m| ==>
      w[x] == m[x - dst + src]
  }

  /** `len` words from `src` were copied to `dst`, and nothing else changed. */
  ghost predicate Copied(m: Memory, w: Memory, dst: int, src: int, len: int) {
    Carried(m, w, dst, src, len) && forall x {:trigger w[x]} :: 0 <= x < |m| && !(dst <= x < dst + len) ==> w[x] == m[x]
  }
}
