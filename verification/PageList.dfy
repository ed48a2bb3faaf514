/** The page allocator of the slab heap: free page runs in address order. Addresses are page
    numbers. */
module PageList {

  datatype Run = Run(start: int, count: int)

  /** Page `p` is in some run of the list. */
  predicate Holds(list: seq<Run>, p: int) {
    exists i :: 0 <= i < |list| && list[i].start <= p < list[i].start + list[i].count
  }

  predicate Apart(a: Run, b: Run) { a.start + a.count < b.start }

  /** The list of maximal free runs in address order. */
  ghost predicate Canonical(list: seq<Run>) {
    && (forall i {:trigger list[i]} :: 0 <= i < |list| ==> list[i].count >= 1)
    && (forall i, j {:trigger Apart(list[i], list[j])} :: 0 <= i < j < |list| ==> Apart(list[i], list[j]))
  }

  ghost predicate SamePages(a: seq<Run>, b: seq<Run>) {
    forall p {:trigger Holds(a, p)} {:trigger Holds(b, p)} :: Holds(a, p) <==> Holds(b, p)
  }

  lemma {:induction false} HoldsFirst(list: seq<Run>, p: int)
    requires list != []
    ensures Holds(list, p) <==> (list[0].start <= p < list[0].start + list[0].count) || Holds(list[1..], p)
  {
    if i :| 0 <= i < |list| && list[i].start <= p < list[i].start + list[i].count {
      if i > 0 { assert list[1..][i - 1] == list[i]; }
    }
    if i :| 0 <= i < |list[1..]| && list[1..][i].start <= p < list[1..][i].start + list[1..][i].count {
      assert list[i + 1] == list[1..][i];
    }
  }

  /** Everything held is at or behind the first start, and the page behind the first run is
      not held. */
  lemma {:induction false} FirstRun(list: seq<Run>)
    requires Canonical(list) && list != []
    ensures Holds(list, list[0].start) && !Holds(list, list[0].start + list[0].count) && Canonical(list[1..])
    ensures forall p :: Holds(list, p) ==> p >= list[0].start
    ensures forall p :: list[0].start <= p < list[0].start + list[0].count ==> Holds(list, p)
    ensures forall p :: Holds(list[1..], p) ==> p > list[0].start + list[0].count
  {
    forall i | 1 <= i < |list| ensures list[0].start + list[0].count < list[i].start { assert Apart(list[0], list[i]); }
    forall i, j | 0 <= i < j < |list[1..]| ensures Apart(list[1..][i], list[1..][j]) {
      assert Apart(list[i + 1], list[j + 1]);
    }
    assert list[0].count >= 1;
    forall p | Holds(list, p) ensures p >= list[0].start {
      var i :| 0 <= i < |list| && list[i].start <= p < list[i].start + list[i].count;
    }
    forall p | Holds(list[1..], p) ensures p > list[0].start + list[0].count {
      var i :| 0 <= i < |list[1..]| && list[1..][i].start <= p < list[1..][i].start + list[1..][i].count;
      assert list[i + 1] == list[1..][i];
    }
  }

  /** The list is determined by the set of free pages. */
  lemma {:induction false} Unique(a: seq<Run>, b: seq<Run>)
    requires Canonical(a) && Canonical(b) && SamePages(a, b)
    ensures a == b
  {
    if a == [] {
      if b != [] { FirstRun(b); assert false; }
    } else if b == [] {
      FirstRun(a);
      assert false;
    } else {
      FirstRun(a);
      FirstRun(b);
      assert Holds(a, b[0].start) && Holds(b, a[0].start);
      var x, y := a[0].start + a[0].count, b[0].start + b[0].count;
      assert x < y ==> Holds(b, x);
      assert y < x ==> Holds(a, y);
      assert a[0] == b[0];
      forall p ensures Holds(a[1..], p) <==> Holds(b[1..], p) { HoldsFirst(a, p); HoldsFirst(b, p); }
      Unique(a[1..], b[1..]);
    }
  }

  /** Consecutive free pages are in one run. */
  lemma {:induction false} ConsecutiveInOneRun(list: seq<Run>, p: int, n: int)
    requires Canonical(list) && n >= 1 && forall q :: p <= q < p + n ==> Holds(list, q)
    ensures exists i :: 0 <= i < |list| && list[i].start <= p && p + n <= list[i].start + list[i].count
    decreases n
  {
    if n == 1 {
      assert Holds(list, p);
    } else {
      ConsecutiveInOneRun(list, p, n - 1);
      var i :| 0 <= i < |list| && list[i].start <= p && p + (n - 1) <= list[i].start + list[i].count;
      var q := p + n - 1;
      assert Holds(list, q);
      var j :| 0 <= j < |list| && list[j].start <= q < list[j].start + list[j].count;
      assert i < j ==> Apart(list[i], list[j]);
      assert j < i ==> Apart(list[j], list[i]);
    }
  }

  /** The list with the runs `i..j` replaced by `put`. */
  function Splice(list: seq<Run>, i: nat, j: nat, put: seq<Run>): seq<Run>
    requires i <= j <= |list|
  {
    list[..i] + put + list[j..]
  }

  lemma {:induction false} HoldsConcat(a: seq<Run>, b: seq<Run>, p: int)
    ensures Holds(a + b, p) <==> Holds(a, p) || Holds(b, p)
  {
    var s := a + b;
    if i :| 0 <= i < |s| && s[i].start <= p < s[i].start + s[i].count {
      if i < |a| { assert a[i] == s[i]; } else { assert b[i - |a|] == s[i]; }
    }
    if i :| 0 <= i < |a| && a[i].start <= p < a[i].start + a[i].count { assert s[i] == a[i]; }
    if i :| 0 <= i < |b| && b[i].start <= p < b[i].start + b[i].count { assert s[|a| + i] == b[i]; }
  }

  lemma {:induction false} HoldsSplice(list: seq<Run>, i: nat, j: nat, put: seq<Run>, p: int)
    requires i <= j <= |list|
    ensures Holds(Splice(list, i, j, put), p) <==> Holds(list[..i], p) || Holds(put, p) || Holds(list[j..], p)
    ensures Holds(list, p) <==> Holds(list[..i], p) || Holds(list[i..j], p) || Holds(list[j..], p)
  {
    HoldsConcat(list[..i] + put, list[j..], p);
    HoldsConcat(list[..i], put, p);
    assert list == list[..i] + list[i..j] + list[j..];
    HoldsConcat(list[..i] + list[i..j], list[j..], p);
    HoldsConcat(list[..i], list[i..j], p);
  }

  /** A run between its neighbours keeps the list canonical. */
  lemma {:induction false} SpliceCanonical(list: seq<Run>, i: nat, j: nat, put: seq<Run>)
    requires Canonical(list) && i <= j <= |list| && |put| <= 1
    requires put != [] ==>
      put[0].count >= 1 && (i > 0 ==> Apart(list[i - 1], put[0])) && (j < |list| ==> Apart(put[0], list[j]))
    ensures Canonical(Splice(list, i, j, put))
  {
    var r, m := Splice(list, i, j, put), |put|;
    forall k | 0 <= k < |r| ensures r[k].count >= 1 {
      if k >= i + m { assert r[k] == list[k - m - i + j]; }
    }
    forall k, l | 0 <= k < l < |r| ensures Apart(r[k], r[l]) {
      var a, b := if k < i then k else k - m - i + j, if l < i then l else l - m - i + j;
      assert k < i || k >= i + m ==> r[k] == list[a];
      assert l < i || l >= i + m ==> r[l] == list[b];
      if (k < i || k >= i + m) && (l < i || l >= i + m) {
        assert Apart(list[a], list[b]);
      } else if k < i {
        assert k < i - 1 ==> Apart(list[k], list[i - 1]);
        assert list[i - 1].count >= 1;
      } else {
        assert j < b ==> Apart(list[j], list[b]);
        assert list[j].count >= 1;
      }
    }
  }

  lemma {:induction false} HoldsOne(r: Run, p: int)
    ensures Holds([r], p) <==> r.start <= p < r.start + r.count
  {
    if r.start <= p < r.start + r.count { assert [r][0].start <= p < [r][0].start + [r][0].count; }
  }

  /** Runs in front of place `i` end before run `i`, runs behind begin after it. */
  lemma {:induction false} Around(list: seq<Run>, i: nat, p: int)
    requires Canonical(list) && i < |list|
    ensures Holds(list[..i], p) ==> p < list[i].start
    ensures Holds(list[i + 1..], p) ==> p > list[i].start + list[i].count
  {
    if k :| 0 <= k < i && list[..i][k].start <= p < list[..i][k].start + list[..i][k].count {
      assert Apart(list[k], list[i]);
    }
    var t := list[i + 1..];
    if k :| 0 <= k < |t| && t[k].start <= p < t[k].start + t[k].count {
      assert t[k] == list[i + 1 + k] && Apart(list[i], list[i + 1 + k]);
    }
  }

  // --- allocation

  /** The place of the first run of at least `n` pages, or the length. */
  function FirstFit(list: seq<Run>, n: nat): (i: nat)
    ensures i <= |list| && (i < |list| ==> list[i].count >= n)
    ensures forall k :: 0 <= k < i ==> list[k].count < n
  {
    if list == [] || list[0].count >= n then 0 else 1 + FirstFit(list[1..], n)
  }

  /** The list with `n` pages cut off the front of run `i`. */
  function Taken(list: seq<Run>, i: nat, n: int): seq<Run>
    requires i < |list|
  {
    Splice(list, i, i + 1, if list[i].count > n then [Run(list[i].start + n, list[i].count - n)] else [])
  }

  /** Exactly the first `n` pages of the run are gone. */
  lemma {:induction false} TakenPages(list: seq<Run>, i: nat, n: int)
    requires Canonical(list) && i < |list| && 1 <= n <= list[i].count
    ensures Canonical(Taken(list, i, n))
    ensures forall p :: Holds(Taken(list, i, n), p) <==> Holds(list, p) && !(list[i].start <= p < list[i].start + n)
  {
    var rest := if list[i].count > n then [Run(list[i].start + n, list[i].count - n)] else [];
    assert i > 0 ==> Apart(list[i - 1], list[i]);
    assert i + 1 < |list| ==> Apart(list[i], list[i + 1]);
    SpliceCanonical(list, i, i + 1, rest);
    forall p ensures Holds(Taken(list, i, n), p) <==> Holds(list, p) && !(list[i].start <= p < list[i].start + n) {
      HoldsSplice(list, i, i + 1, rest, p);
      Around(list, i, p);
      assert list[i..i + 1] == [list[i]];
      HoldsOne(list[i], p);
      if rest != [] { HoldsOne(rest[0], p); }
    }
  }

  /** Some `n` consecutive pages are free. */
  ghost predicate Room(list: seq<Run>, n: nat) {
    exists p :: Consecutive(list, p, n)
  }

  ghost predicate Consecutive(list: seq<Run>, p: int, n: nat) {
    forall q {:trigger Holds(list, q)} :: p <= q < p + n ==> Holds(list, q)
  }

  /** First fit fails only when no `n` consecutive pages are free, and it gives the lowest
      run of pages that is long enough. */
  lemma {:induction false} FirstFitComplete(list: seq<Run>, n: nat)
    requires Canonical(list) && n >= 1
    ensures FirstFit(list, n) < |list| <==> Room(list, n)
    ensures FirstFit(list, n) < |list| ==>
      forall p :: Consecutive(list, p, n) ==> list[FirstFit(list, n)].start <= p
  {
    var i := FirstFit(list, n);
    if i < |list| { assert Consecutive(list, list[i].start, n); }
    forall p | Consecutive(list, p, n) ensures i < |list| && list[i].start <= p {
      ConsecutiveInOneRun(list, p, n);
      var k :| 0 <= k < |list| && list[k].start <= p && p + n <= list[k].start + list[k].count;
      assert k > i ==> Apart(list[i], list[k]);
    }
  }

  // --- release

  /** None of the pages is free. */
  ghost predicate Disjoint(list: seq<Run>, start: int, n: int) {
    forall p {:trigger Holds(list, p)} :: start <= p < start + n ==> !Holds(list, p)
  }

  /** Where released pages go: behind the runs that end before them. */
  ghost predicate GoesAt(list: seq<Run>, start: int, i: int) {
    && 0 <= i <= |list|
    && (forall k :: 0 <= k < i ==> list[k].start + list[k].count < start)
    && (i < |list| ==> list[i].start + list[i].count >= start)
  }

  function Place(list: seq<Run>, start: int): (i: nat)
    ensures GoesAt(list, start, i)
  {
    if list == [] || list[0].start + list[0].count >= start then 0 else 1 + Place(list[1..], start)
  }

  lemma {:induction false} PlaceUnique(list: seq<Run>, start: int, i: nat)
    requires GoesAt(list, start, i)
    ensures i == Place(list, start)
  {
    var j := Place(list, start);
    var x, y := if i < |list| then list[i] else Run(0, 0), if j < |list| then list[j] else Run(0, 0);
    assert i < j ==> x.start + x.count < start;
    assert j < i ==> y.start + y.count < start;
  }

  /** How many runs released pages absorb at place `i`. */
  function Absorbed(list: seq<Run>, start: int, n: int, i: nat): (m: nat)
    requires i <= |list|
    ensures i + m <= |list|
  {
    if i < |list| && list[i].start + list[i].count == start then
      if i + 1 < |list| && start + n == list[i + 1].start then 2 else 1
    else if i < |list| && list[i].start == start + n then 1 else 0
  }

  /** The released pages joined with the run before, the run behind, both or none. */
  function Joined(list: seq<Run>, start: int, n: int, i: nat): Run
    requires i <= |list|
  {
    if i < |list| && list[i].start + list[i].count == start then
      Run(list[i].start, list[i].count + n + if i + 1 < |list| && start + n ==
        list[i + 1].start then list[i + 1].count else 0)
    else if i < |list| && list[i].start == start + n then Run(start, list[i].count + n)
    else Run(start, n)
  }

  function Given(list: seq<Run>, start: int, n: int, i: nat): seq<Run>
    requires i <= |list|
  {
    Splice(list, i, i + Absorbed(list, start, n, i), [Joined(list, start, n, i)])
  }

  /** The run at the place of released pages ends where they begin or begins behind them. */
  lemma {:induction false} Neighbours(list: seq<Run>, start: int, n: int, i: nat)
    requires Canonical(list) && n >= 1 && Disjoint(list, start, n) && GoesAt(list, start, i)
    ensures i < |list| ==> list[i].start + list[i].count == start || list[i].start >= start + n
    ensures i < |list| && list[i].start + list[i].count == start && i + 1 < |list| ==> list[i + 1].start >= start + n
    ensures i > 0 ==> list[i - 1].start + list[i - 1].count < start
  {
    if i < |list| {
      assert list[i].count >= 1;
      if start <= list[i].start { assert list[i].start < start + n ==> Holds(list, list[i].start); }
      else { assert list[i].start + list[i].count > start ==> Holds(list, start); }
    }
    if i + 1 < |list| {
      assert Apart(list[i], list[i + 1]) && list[i + 1].count >= 1;
      assert start <= list[i + 1].start < start + n ==> Holds(list, list[i + 1].start);
    }
  }

  lemma {:induction false} JoinedApart(list: seq<Run>, start: int, n: int, i: nat)
    requires Canonical(list) && n >= 1 && Disjoint(list, start, n) && GoesAt(list, start, i)
    ensures Joined(list, start, n, i).count >= 1
    ensures i > 0 ==> Apart(list[i - 1], Joined(list, start, n, i))
    ensures i + Absorbed(list, start, n, i) < |list| ==>
      Apart(Joined(list, start, n, i), list[i + Absorbed(list, start, n, i)])
  {
    Neighbours(list, start, n, i);
    assert i > 0 && i < |list| ==> Apart(list[i - 1], list[i]);
    assert i < |list| ==> list[i].count >= 1;
    assert i + 1 < |list| ==> Apart(list[i], list[i + 1]) && list[i + 1].count >= 1;
    assert i + 2 < |list| ==> Apart(list[i + 1], list[i + 2]);
  }

  /** The joined run is what it absorbed and the released pages. */
  lemma {:induction false} JoinedPages(list: seq<Run>, start: int, n: int, i: nat, p: int)
    requires Canonical(list) && n >= 1 && Disjoint(list, start, n) && GoesAt(list, start, i)
    ensures Holds([Joined(list, start, n, i)], p) <==>
      Holds(list[i..i + Absorbed(list, start, n, i)], p) || start <= p < start + n
  {
    Neighbours(list, start, n, i);
    var m := Absorbed(list, start, n, i);
    HoldsOne(Joined(list, start, n, i), p);
    if i < |list| {
      HoldsOne(list[i], p);
      assert list[i].count >= 1;
    }
    assert m == 1 ==> list[i..i + m] == [list[i]];
    assert m == 2 ==> list[i..i + m] == [list[i]] + [list[i + 1]];
    if i + 1 < |list| {
      HoldsConcat([list[i]], [list[i + 1]], p);
      HoldsOne(list[i + 1], p);
      assert list[i + 1].count >= 1;
    }
  }

  /** Released pages keep the list canonical, and exactly they are added. */
  lemma {:induction false} GivenPages(list: seq<Run>, start: int, n: int, i: nat)
    requires Canonical(list) && n >= 1 && Disjoint(list, start, n) && GoesAt(list, start, i)
    ensures Canonical(Given(list, start, n, i))
    ensures forall p :: Holds(Given(list, start, n, i), p) <==> Holds(list, p) || start <= p < start + n
  {
    var j, r := i + Absorbed(list, start, n, i), Joined(list, start, n, i);
    JoinedApart(list, start, n, i);
    SpliceCanonical(list, i, j, [r]);
    forall p ensures Holds(Given(list, start, n, i), p) <==> Holds(list, p) || start <= p < start + n {
      HoldsSplice(list, i, j, [r], p);
      JoinedPages(list, start, n, i, p);
    }
  }

  /** The list after allocation of `n` pages. */
  function AfterAlloc(list: seq<Run>, n: nat): seq<Run> {
    if n == 0 || FirstFit(list, n) == |list| then list else Taken(list, FirstFit(list, n), n)
  }

  /** The pages given for a request, 0 for none. */
  function Answer(list: seq<Run>, n: nat): int {
    if n == 0 || FirstFit(list, n) == |list| then 0 else list[FirstFit(list, n)].start
  }

  /** The list after release of `n` pages. */
  function AfterFree(list: seq<Run>, start: int, n: int): seq<Run> {
    Given(list, start, n, Place(list, start))
  }

  ghost predicate Positive(list: seq<Run>) {
    forall i {:trigger list[i]} :: 0 <= i < |list| ==> list[i].start > 0
  }

  /** An allocation gives pages that were free, and takes exactly them. */
  lemma {:induction false} AllocPages(list: seq<Run>, n: nat)
    requires Canonical(list) && Positive(list)
    ensures Canonical(AfterAlloc(list, n)) && Positive(AfterAlloc(list, n))
    ensures var b := Answer(list, n);
      if b == 0 then n == 0 || !Room(list, n)
      else
        && n > 0 && Consecutive(list, b, n)
        && forall p :: Holds(AfterAlloc(list, n), p) <==> Holds(list, p) && !(b <= p < b + n)
    ensures Answer(list, n) == 0 ==> AfterAlloc(list, n) == list
  {
    if n > 0 {
      var i := FirstFit(list, n);
      FirstFitComplete(list, n);
      if i < |list| {
        TakenPages(list, i, n);
        assert list[i].start > 0;
        forall p | list[i].start <= p < list[i].start + n ensures Holds(list, p) {
          assert list[i].start <= p < list[i].start + list[i].count;
        }
        var r := AfterAlloc(list, n);
        forall k | 0 <= k < |r| ensures r[k].start > 0 {
          if k > i || (k == i && list[i].count == n) { assert r[k] == list[k + |list| - |r|]; }
        }
      }
    }
  }

  /** A release adds exactly the released pages. */
  lemma {:induction false} FreePages(list: seq<Run>, start: int, n: int)
    requires Canonical(list) && Positive(list) && start > 0 && n >= 1 && Disjoint(list, start, n)
    ensures Canonical(AfterFree(list, start, n)) && Positive(AfterFree(list, start, n))
    ensures forall p :: Holds(AfterFree(list, start, n), p) <==> Holds(list, p) || start <= p < start + n
  {
    var i := Place(list, start);
    GivenPages(list, start, n, i);
    var r, m := AfterFree(list, start, n), Absorbed(list, start, n, i);
    assert i < |list| ==> list[i].start > 0;
    forall k | 0 <= k < |r| ensures r[k].start > 0 {
      if k > i { assert r[k] == list[k + m - 1]; }
    }
  }

  /** Allocation then release gives back the identical list. */
  lemma {:induction false} AllocFreeRestores(list: seq<Run>, n: nat)
    requires Canonical(list) && Positive(list) && Answer(list, n) != 0
    ensures AfterFree(AfterAlloc(list, n), Answer(list, n), n) == list
  {
    AllocPages(list, n);
    FreePages(AfterAlloc(list, n), Answer(list, n), n);
    Unique(AfterFree(AfterAlloc(list, n), Answer(list, n), n), list);
  }

  /** Two disjoint releases commute: the list does not depend on the order. */
  lemma {:induction false} FreesCommute(list: seq<Run>, a: int, m: int, b: int, n: int)
    requires Canonical(list) && Positive(list) && a > 0 && b > 0 && m >= 1 && n >= 1
    requires Disjoint(list, a, m) && Disjoint(list, b, n) && (a + m <= b || b + n <= a)
    ensures AfterFree(AfterFree(list, a, m), b, n) == AfterFree(AfterFree(list, b, n), a, m)
  {
    FreePages(list, a, m);
    FreePages(list, b, n);
    FreePages(AfterFree(list, a, m), b, n);
    FreePages(AfterFree(list, b, n), a, m);
    Unique(AfterFree(AfterFree(list, a, m), b, n), AfterFree(AfterFree(list, b, n), a, m));
  }

  // --- the list in the pages

  /** The address of run `i`, or the null address. */
  function StartOf(list: seq<Run>, i: nat): int {
    if i < |list| then list[i].start else 0
  }

  ghost predicate NodeAt(list: seq<Run>, i: int, next: map<int, int>, count: map<int, int>) {
    && 0 <= i < |list|
    && list[i].start in next && next[list[i].start] == StartOf(list, i + 1)
    && list[i].start in count && count[list[i].start] == list[i].count
  }

  ghost predicate Linked(list: seq<Run>, head: int, next: map<int, int>, count: map<int, int>) {
    && head == StartOf(list, 0)
    && forall i {:trigger NodeAt(list, i, next, count)} :: 0 <= i < |list| ==> NodeAt(list, i, next, count)
  }

  predicate Kept(m: map<int, int>, m2: map<int, int>, a: int) {
    a in m && a in m2 && m2[a] == m[a]
  }

  /** Links that join a new run to its neighbours and keep the others. */
  ghost predicate Relinked(list: seq<Run>, i: nat, j: nat, put: seq<Run>, next: map<int, int>, count: map<int, int>,
                           head2: int, next2: map<int, int>, count2: map<int, int>)
    requires i <= j <= |list| && |put| <= 1
  {
    var first := if put == [] then StartOf(list, j) else put[0].start;
    && (i == 0 ==> head2 == first)
    && (i > 0 ==>
       head2 == list[0].start && list[i - 1].start in next2 && next2[list[i - 1].start] == first
       && Kept(count, count2, list[i - 1].start))
    && (forall k {:trigger list[k]} :: 0 <= k < i - 1 || j <= k < |list| ==>
       Kept(next, next2, list[k].start) && Kept(count, count2, list[k].start))
    && (put != [] ==>
       first in next2 && next2[first] == StartOf(list, j) && first in count2 && count2[first] == put[0].count)
  }

  lemma {:induction false} SpliceLinked(list: seq<Run>, i: nat, j: nat, put: seq<Run>, head: int, next: map<int, int>,
      count: map<int, int>,
                                        head2: int, next2: map<int, int>, count2: map<int, int>)
    requires Linked(list, head, next, count) && i <= j <= |list| && |put| <= 1
    requires Relinked(list, i, j, put, next, count, head2, next2, count2)
    ensures Linked(Splice(list, i, j, put), head2, next2, count2)
  {
    var r, m := Splice(list, i, j, put), |put|;
    forall k | i + m <= k < |r| ensures r[k] == list[k - m - i + j] {}
    assert StartOf(r, i) == if put == [] then StartOf(list, j) else put[0].start;
    forall k | 0 <= k < |r| ensures NodeAt(r, k, next2, count2) {
      if k < i {
        assert NodeAt(list, k, next, count) && r[k] == list[k];
      } else if k >= i + m {
        var l := k - m - i + j;
        assert NodeAt(list, l, next, count) && r[k] == list[l];
        assert k + 1 < |r| ==> r[k + 1] == list[l + 1];
      } else {
        assert r[k] == put[0] && StartOf(r, k + 1) == StartOf(list, j);
      }
    }
  }

  function PrevOf(list: seq<Run>, i: nat): int
    requires i <= |list|
  {
    if i == 0 then 0 else list[i - 1].start
  }

  /** The link at `prev` set to `to`. */
  ghost predicate LinkSet(head: int, next: map<int, int>, prev: int, to: int, head2: int, next2: map<int, int>) {
    if prev == 0 then head2 == to && next2 == next else head2 == head && next2 == next[prev := to]
  }

  /** The links and counts of a run differ from those of the runs around place `i`. */
  lemma {:induction false} Elsewhere(list: seq<Run>, i: nat, k: nat, head: int, next: map<int, int>,
      count: map<int, int>)
    requires Canonical(list) && Linked(list, head, next, count) && i <= |list| && k < |list|
    ensures list[k].start in next && list[k].start in count && list[k].count >= 1 && Holds(list, list[k].start)
    ensures i > 0 && k != i - 1 ==> list[k].start != list[i - 1].start
    ensures i < |list| && k < i ==> list[k].start + list[k].count < list[i].start
    ensures i < |list| && k > i ==> list[i].start + list[i].count < list[k].start
  {
    assert NodeAt(list, k, next, count);
    assert list[k].count >= 1;
    if i > 0 {
      assert list[i - 1].count >= 1;
      assert k < i - 1 ==> Apart(list[k], list[i - 1]);
      assert k > i - 1 ==> Apart(list[i - 1], list[k]);
    }
    if i < |list| {
      assert k < i ==> Apart(list[k], list[i]);
      assert k > i ==> Apart(list[i], list[k]);
    }
  }

  lemma {:induction false} TakenWhole(list: seq<Run>, i: nat, head: int, next: map<int, int>, count: map<int, int>,
                                      head2: int, next2: map<int, int>)
    requires Canonical(list) && Positive(list) && Linked(list, head, next, count) && i < |list|
    requires LinkSet(head, next, PrevOf(list, i), StartOf(list, i + 1), head2, next2)
    ensures Linked(Taken(list, i, list[i].count), head2, next2, count)
  {
    hide Splice;
    forall k {:trigger list[k]} | 0 <= k < i - 1 || i + 1 <= k < |list|
      ensures Kept(next, next2, list[k].start) && Kept(count, count, list[k].start) {
      Elsewhere(list, i, k, head, next, count);
    }
    if i > 0 { Elsewhere(list, i, i - 1, head, next, count); assert list[i - 1].start > 0; }
    SpliceLinked(list, i, i + 1, [], head, next, count, head2, next2, count);
  }

  lemma {:induction false} TakenPart(list: seq<Run>, i: nat, n: int, head: int, next: map<int, int>,
      count: map<int, int>,
                                     head2: int, next2: map<int, int>, count2: map<int, int>)
    requires Canonical(list) && Positive(list) && Linked(list, head, next, count) && i < |list|
      && 1 <= n < list[i].count
    requires LinkSet(head, next[list[i].start + n := StartOf(list, i + 1)], PrevOf(list, i), list[i].start + n, head2,
      next2)
    requires count2 == count[list[i].start + n := list[i].count - n]
    ensures Linked(Taken(list, i, n), head2, next2, count2)
  {
    hide Splice;
    forall k {:trigger list[k]} | 0 <= k < i - 1 || i + 1 <= k < |list|
      ensures Kept(next, next2, list[k].start) && Kept(count, count2, list[k].start) {
      Elsewhere(list, i, k, head, next, count);
    }
    if i > 0 { Elsewhere(list, i, i - 1, head, next, count); assert list[i - 1].start > 0; }
    SpliceLinked(list, i, i + 1, [Run(list[i].start + n, list[i].count - n)], head, next, count, head2, next2, count2);
  }

  /** Released pages that extend the run before them. */
  lemma {:induction false} GivenBehind(list: seq<Run>, start: int, n: int, i: nat, head: int, next: map<int, int>,
      count: map<int, int>,
                                       next2: map<int, int>, count2: map<int, int>)
    requires Canonical(list) && Positive(list) && Linked(list, head, next, count)
    requires n >= 1 && i < |list| && list[i].start + list[i].count == start
    requires count2 == count[list[i].start := Joined(list, start, n, i).count]
    requires next2 == if Absorbed(list, start, n, i) == 2 then next[list[i].start := StartOf(list, i + 2)] else next
    ensures Linked(Given(list, start, n, i), head, next2, count2)
  {
    hide Splice;
    var j := i + Absorbed(list, start, n, i);
    forall k {:trigger list[k]} | 0 <= k < i - 1 || j <= k < |list|
      ensures Kept(next, next2, list[k].start) && Kept(count, count2, list[k].start) {
      Elsewhere(list, i, k, head, next, count);
    }
    if i > 0 {
      Elsewhere(list, i, i - 1, head, next, count);
      assert NodeAt(list, i - 1, next, count);
    }
    assert NodeAt(list, i, next, count);
    SpliceLinked(list, i, j, [Joined(list, start, n, i)], head, next, count, head, next2, count2);
  }

  /** Released pages that get a head of their own. */
  lemma {:induction false} GivenHead(list: seq<Run>, start: int, n: int, i: nat, head: int, next: map<int, int>,
      count: map<int, int>,
                                     head2: int, next2: map<int, int>, count2: map<int, int>)
    requires Canonical(list) && Positive(list) && Linked(list, head, next, count)
    requires start > 0 && n >= 1 && Disjoint(list, start, n) && GoesAt(list, start, i)
      && Joined(list, start, n, i).start == start
    requires LinkSet(head, next[start := StartOf(list, i + Absorbed(list, start, n, i))], PrevOf(list, i), start,
      head2, next2)
    requires count2 == count[start := Joined(list, start, n, i).count]
    ensures Linked(Given(list, start, n, i), head2, next2, count2)
  {
    hide Splice;
    var j := i + Absorbed(list, start, n, i);
    forall k {:trigger list[k]} | 0 <= k < i - 1 || j <= k < |list|
      ensures Kept(next, next2, list[k].start) && Kept(count, count2, list[k].start) {
      Elsewhere(list, i, k, head, next, count);
    }
    if i > 0 { Elsewhere(list, i, i - 1, head, next, count); assert list[i - 1].start > 0; }
    SpliceLinked(list, i, j, [Joined(list, start, n, i)], head, next, count, head2, next2, count2);
  }

  lemma {:induction false} FitIs(list: seq<Run>, n: nat, i: nat)
    requires i <= |list| && (i < |list| ==> list[i].count >= n) && forall k :: 0 <= k < i ==> list[k].count < n
    ensures FirstFit(list, n) == i
  {
    var j := FirstFit(list, n);
    var x, y := if i < |list| then list[i].count else 0, if j < |list| then list[j].count else 0;
    assert i < j ==> x < n;
    assert j < i ==> y < n;
  }

  /** A run that neither joins released pages nor lies behind them ends before them. */
  lemma {:induction false} StillBefore(list: seq<Run>, start: int, n: int, i: nat)
    requires Canonical(list) && n >= 1 && Disjoint(list, start, n) && i < |list|
    requires list[i].start < start + n && list[i].start + list[i].count != start
    ensures list[i].start + list[i].count < start
  {
    assert list[i].count >= 1;
    assert start <= list[i].start ==> Holds(list, list[i].start);
    assert list[i].start < start < list[i].start + list[i].count ==> Holds(list, start);
  }

  /** The heads of the free runs, kept in the first page of each. */
  class PageHeap {
    var head: int
    var next: map<int, int>
    var count: map<int, int>
    /** The value of heap_sem. */
    var sem: int
    ghost var list: seq<Run>

    ghost predicate Valid()
      reads this
    {
      Canonical(list) && Positive(list) && Linked(list, head, next, count)
    }

    /** rt_page_init: all pages free, through the release operation. */
    constructor (addr: int, n: int)
      requires addr > 0 && n >= 1
      ensures Valid() && list == [Run(addr, n)] && sem == 1
    {
      head, next, count, list, sem := 0, map[], map[], [], 1;
      new;
      Free(addr, n);
    }

    /** Writes the link that `prev` is the address of. */
    method SetLink(prev: int, to: int)
      modifies `head, `next
      ensures prev == 0 ==> head == to && next == old(next)
      ensures prev != 0 ==> head == old(head) && next == old(next)[prev := to]
    {
      if prev == 0 { head := to; } else { next := next[prev := to]; }
    }

    /** rt_sem_take and rt_sem_release on heap_sem, without waiting. */
    method Lock()
      requires sem >= 1
      modifies `sem
      ensures sem == old(sem) - 1
    {
      sem := sem - 1;
    }

    method Unlock()
      modifies `sem
      ensures sem == old(sem) + 1
    {
      sem := sem + 1;
    }

    /** rt_page_alloc */
    method Alloc(n: nat) returns (b: int)
      requires Valid() && sem >= 1
      modifies this
      ensures Valid() && list == AfterAlloc(old(list), n) && b == Answer(old(list), n) && sem == old(sem)
    {
      hide Canonical, Positive, Linked;
      if n == 0 {
        AllocPages(list, n);
        return 0;
      }
      Lock();
      b := Take(n);
      Unlock();
    }

    /** The locked part of rt_page_alloc. */
    method Take(n: nat) returns (b: int)
      requires Valid() && n >= 1
      modifies `head, `next, `count, `list
      ensures Valid() && list == AfterAlloc(old(list), n) && b == Answer(old(list), n)
    {
      AllocPages(list, n);
      ghost var i := 0;
      var prev := 0;
      b := head;
      while b != 0
        invariant Valid() && list == old(list) && i <= |list| && b == StartOf(list, i)
        invariant prev == PrevOf(list, i)
        invariant forall k :: 0 <= k < i ==> list[k].count < n
        decreases |list| - i
      {
        assert NodeAt(list, i, next, count);
        if count[b] > n {
          var rest := b + n;
          next := next[rest := next[b]];
          count := count[rest := count[b] - n];
          SetLink(prev, rest);
          TakenPart(list, i, n, old(head), old(next), old(count), head, next, count);
          list := Taken(list, i, n);
          FitIs(old(list), n, i);
          return;
        }
        if count[b] == n {
          SetLink(prev, next[b]);
          TakenWhole(list, i, old(head), old(next), count, head, next);
          list := Taken(list, i, n);
          FitIs(old(list), n, i);
          return;
        }
        prev, b, i := b, next[b], i + 1;
      }
      FitIs(list, n, i);
    }

    /** Extends run `i`, at `b`, and joins it with the next run when they meet. */
    method JoinBehind(b: int, n: int, ghost i: nat)
      requires Valid() && n >= 1 && i < |list| && b == list[i].start
      modifies `next, `count
      ensures Linked(Given(list, b + list[i].count, n, i), head, next, count)
    {
      assert NodeAt(list, i, next, count) && list[i].start > 0 && list[i].count >= 1;
      assert i + 1 < |list| ==> NodeAt(list, i + 1, next, count) && Apart(list[i], list[i + 1]);
      ghost var start := b + list[i].count;
      count := count[b := count[b] + n];
      if b + count[b] == next[b] {
        count := count[b := count[b] + count[next[b]]];
        next := next[b := next[next[b]]];
      }
      GivenBehind(list, start, n, i, head, old(next), old(count), next, count);
    }

    /** Writes a head into the released pages: `c` pages, linked behind `prev`. */
    method NewHead(prev: int, addr: int, c: int, to: int, ghost n: int, ghost i: nat)
      requires Valid() && addr > 0 && n >= 1 && Disjoint(list, addr, n) && GoesAt(list, addr, i)
      requires prev == PrevOf(list, i) && Joined(list, addr, n, i) == Run(addr, c)
      requires to == StartOf(list, i + Absorbed(list, addr, n, i))
      modifies `head, `next, `count
      ensures Linked(Given(list, addr, n, i), head, next, count)
    {
      count := count[addr := c];
      next := next[addr := to];
      SetLink(prev, addr);
      GivenHead(list, addr, n, i, old(head), old(next), old(count), head, next, count);
    }

    /** rt_page_free */
    method Free(addr: int, n: int)
      requires Valid() && addr > 0 && n >= 1 && Disjoint(list, addr, n) && sem >= 1
      modifies this
      ensures Valid() && list == AfterFree(old(list), addr, n) && sem == old(sem)
    {
      hide Canonical, Positive, Linked, Disjoint, AfterFree;
      Lock();
      Give(addr, n);
      Unlock();
    }

    /** The locked part of rt_page_free. */
    method Give(addr: int, n: int)
      requires Valid() && addr > 0 && n >= 1 && Disjoint(list, addr, n)
      modifies `head, `next, `count, `list
      ensures Valid() && list == AfterFree(old(list), addr, n)
    {
      FreePages(list, addr, n);
      hide AfterFree, Linked;
      ghost var i := 0;
      var prev, b := 0, head;
      while b != 0
        invariant Valid() && list == old(list) && i <= |list| && b == StartOf(list, i)
        invariant prev == PrevOf(list, i)
        invariant forall k :: 0 <= k < i ==> list[k].start + list[k].count < addr
        decreases |list| - i
      {
        assert NodeAt(list, i, next, count) && list[i].start > 0 && list[i].count >= 1;
        if b + count[b] == addr {
          PlaceUnique(list, addr, i);
          JoinBehind(b, n, i);
          list := AfterFree(list, addr, n);
          return;
        }
        if b == addr + n {
          PlaceUnique(list, addr, i);
          NewHead(prev, addr, count[b] + n, next[b], n, i);
          list := AfterFree(list, addr, n);
          return;
        }
        if b > addr + n { break; }
        StillBefore(list, addr, n, i);
        prev, b, i := b, next[b], i + 1;
      }
      assert i < |list| ==> list[i].count >= 1;
      PlaceUnique(list, addr, i);
      NewHead(prev, addr, n, b, n, i);
      list := AfterFree(list, addr, n);
    }
  }
}
