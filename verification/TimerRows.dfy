/** The rows of the timer lists as circular doubly linked lists. A node is a timer, or the list
    head; a timer that is not in a row has its node there linked to itself. */
module TimerRows {
  import opened Links
  import opened Lists
  import opened TimerSpec

  type Row = seq<Timer>

  const HEAD: int := -1

  function Delete(row: Row, t: Timer): (r: Row)
    ensures forall u :: u in r <==> u in row && u != t
  {
    if row == [] then [] else if row[0] == t then Delete(row[1..], t) else [row[0]] + Delete(row[1..], t)
  }

  function InsertAt(row: Row, i: nat, t: Timer): (r: Row)
    requires i <= |row|
    ensures |r| == |row| + 1
  {
    row[..i] + [t] + row[i..]
  }

  lemma {:induction false} InsertAtContents(row: Row, i: nat, t: Timer)
    requires i <= |row|
    ensures forall u :: u in InsertAt(row, i, t) <==> u in row || u == t
  {
    assert row == row[..i] + row[i..];
  }

  lemma {:induction false} DeleteAt(row: Row, i: nat)
    requires Distinct(row) && i < |row|
    ensures Delete(row, row[i]) == row[..i] + row[i + 1..]
  {
    var tail := row[1..];
    forall j, k | 0 <= j < k < |tail| ensures Differ(tail[j], tail[k]) { assert Differ(row[j + 1], row[k + 1]); }
    if i == 0 {
      forall k | 0 <= k < |tail| ensures tail[k] != row[0] { assert Differ(row[0], row[k + 1]); }
      DeleteAbsent(tail, row[0]);
    } else {
      assert Differ(row[0], row[i]);
      DeleteAt(tail, i - 1);
      assert [row[0]] + (tail[..i - 1] + tail[i..]) == row[..i] + row[i + 1..];
    }
  }

  lemma {:induction false} DeleteAbsent(row: Row, t: Timer)
    requires t !in row
    ensures Delete(row, t) == row
  {
    if row != [] {
      assert row[0] in row;
      DeleteAbsent(row[1..], t);
    }
  }

  // ---- the links of a row ----

  /** The `k`-th node of a row; the head is the 0-th. */
  function NodeAt(row: Row, k: nat): int
    requires k <= |row|
  {
    if k == 0 then HEAD else row[k - 1]
  }

  function After(row: Row, k: nat): (s: nat)
    requires k <= |row|
    ensures s <= |row|
  {
    if k == |row| then 0 else k + 1
  }

  predicate JoinedAt(next: map<int, int>, prev: map<int, int>, row: Row, k: nat)
    requires k <= |row|
  {
    Joined(next, prev, NodeAt(row, k), NodeAt(row, After(row, k)))
  }

  ghost predicate Threaded(next: map<int, int>, prev: map<int, int>, row: Row, timers: set<Timer>) {
    && (forall k: nat {:trigger JoinedAt(next, prev, row, k)} :: k <= |row| ==> JoinedAt(next, prev, row, k))
    && (forall t {:trigger Joined(next, prev, t, t)} :: t in timers && t !in row ==> Joined(next, prev, t, t))
  }

  lemma {:induction false} NodesDiffer(row: Row, j: nat, k: nat)
    requires Distinct(row) && j <= |row| && k <= |row| && j != k
    ensures NodeAt(row, j) != NodeAt(row, k)
  {
    var a, b := if j < k then j else k, if j < k then k else j;
    assert a > 0 ==> Differ(row[a - 1], row[b - 1]);
  }

  lemma {:induction false} InsertThreaded(next: map<int, int>, prev: map<int, int>, row: Row, timers: set<Timer>,
      k: nat, t: Timer)
    requires Threaded(next, prev, row, timers) && Distinct(row) && k <= |row| && t !in row
    ensures NodeAt(row, k) in next
    ensures var links := LinkAfter(next, prev, NodeAt(row, k), t);
      Threaded(links.0, links.1, InsertAt(row, k, t), timers)
  {
    var l, r := NodeAt(row, k), InsertAt(row, k, t);
    assert JoinedAt(next, prev, row, k);
    var links := LinkAfter(next, prev, l, t);
    forall j: nat | j <= |r| ensures JoinedAt(links.0, links.1, r, j) {
      if j != k && j != k + 1 {
        var i := if j < k then j else j - 1;
        assert JoinedAt(next, prev, row, i);
        NodesDiffer(row, i, k);
        NodesDiffer(row, After(row, i), After(row, k));
      }
    }
    InsertAtContents(row, k, t);
    forall u | u in timers && u !in r ensures Joined(links.0, links.1, u, u) { assert Joined(next, prev, u, u); }
  }

  lemma {:induction false} ThreadedCoherent(next: map<int, int>, prev: map<int, int>, row: Row, timers: set<Timer>,
      n: int)
    requires Threaded(next, prev, row, timers) && (n == HEAD || (n >= 0 && n in timers))
    ensures Coherent(next, prev, n)
  {
    if n == HEAD {
      assert JoinedAt(next, prev, row, 0);
    } else if n in row {
      var i :| 0 <= i < |row| && row[i] == n;
      assert JoinedAt(next, prev, row, i + 1);
    } else {
      assert Joined(next, prev, n, n);
    }
  }

  /** Inserting a timer that is in the row already leaves links that are no row at all: at the
      timer, or at the node before it, the two directions disagree. */
  lemma {:induction false} LinkedTwice(next: map<int, int>, prev: map<int, int>, row: Row, timers: set<Timer>,
      k: nat, i: nat, after: Row)
    requires Threaded(next, prev, row, timers) && Distinct(row) && k <= |row| && i < |row|
    requires forall u {:trigger u in timers} :: u in row ==> u in timers
    ensures NodeAt(row, k) in next
    ensures var links := LinkAfter(next, prev, NodeAt(row, k), row[i]); !Threaded(links.0, links.1, after, timers)
  {
    var l, t, p := NodeAt(row, k), row[i], NodeAt(row, i);
    assert JoinedAt(next, prev, row, i) && JoinedAt(next, prev, row, k);
    NodesDiffer(row, i, i + 1);
    var links := LinkAfter(next, prev, l, t);
    var n := if k == i then t as int else p;
    if k != i { NodesDiffer(row, k, i); }
    assert !Coherent(links.0, links.1, n);
    if Threaded(links.0, links.1, after, timers) {
      assert i > 0 ==> row[i - 1] in row;
      assert t in row;
      ThreadedCoherent(links.0, links.1, after, timers, n);
    }
  }

  /** The links are a row again exactly when the timer was in none. */
  lemma {:induction false} LinkThreadedExactly(next: map<int, int>, prev: map<int, int>, row: Row, timers: set<Timer>,
      k: nat, t: Timer)
    requires Threaded(next, prev, row, timers) && Distinct(row) && k <= |row|
    requires forall u {:trigger u in timers} :: u in row ==> u in timers
    ensures NodeAt(row, k) in next
    ensures var links := LinkAfter(next, prev, NodeAt(row, k), t);
      (exists after {:trigger Threaded(links.0, links.1, after, timers)} :: Threaded(links.0, links.1, after, timers))
        <==> t !in row
  {
    assert JoinedAt(next, prev, row, k);
    var links := LinkAfter(next, prev, NodeAt(row, k), t);
    if t in row {
      var i :| 0 <= i < |row| && row[i] == t;
      forall after ensures !Threaded(links.0, links.1, after, timers) {
        LinkedTwice(next, prev, row, timers, k, i, after);
      }
    } else {
      InsertThreaded(next, prev, row, timers, k, t);
    }
  }

  /** Removing a timer from a row, whether it is in it or not. */
  lemma {:induction false} RemoveThreaded(next: map<int, int>, prev: map<int, int>, row: Row, timers: set<Timer>,
      t: Timer)
    requires Threaded(next, prev, row, timers) && Distinct(row) && t in timers
    ensures t in next && t in prev
    ensures var links := UnlinkNode(next, prev, t); Threaded(links.0, links.1, Delete(row, t), timers)
  {
    if t in row {
      var i :| 0 <= i < |row| && row[i] == t;
      RemovedAt(next, prev, row, timers, i);
    } else {
      DeleteAbsent(row, t);
      assert Joined(next, prev, t, t);
      assert next[t := t] == next && prev[t := t] == prev;
    }
  }

  lemma {:induction false} RemovedAt(next: map<int, int>, prev: map<int, int>, row: Row, timers: set<Timer>, i: nat)
    requires Threaded(next, prev, row, timers) && Distinct(row) && i < |row|
    ensures row[i] in next && row[i] in prev
    ensures var links := UnlinkNode(next, prev, row[i]); Threaded(links.0, links.1, Delete(row, row[i]), timers)
  {
    var t, r := row[i], Delete(row, row[i]);
    DeleteAt(row, i);
    assert JoinedAt(next, prev, row, i) && JoinedAt(next, prev, row, i + 1);
    var links := UnlinkNode(next, prev, t);
    NodesDiffer(row, i, i + 1);
    NodesDiffer(row, After(row, i + 1), i + 1);
    forall j: nat | j <= |r| ensures JoinedAt(links.0, links.1, r, j) {
      if j != i {
        var k := if j < i then j else j + 1;
        assert JoinedAt(next, prev, row, k);
        NodesDiffer(row, k, i);
        NodesDiffer(row, k, i + 1);
        NodesDiffer(row, After(row, k), After(row, i + 1));
        NodesDiffer(row, After(row, k), i + 1);
      }
    }
    forall u | u in timers && u !in r ensures Joined(links.0, links.1, u, u) {
      assert u != t ==> u !in row && Joined(next, prev, u, u);
    }
  }

  function SelfLinked(timers: set<Timer>): map<int, int> {
    var all: set<int> := timers;
    map n | n in all + {HEAD} :: n
  }

  lemma {:induction false} EmptyThreaded(timers: set<Timer>)
    ensures Threaded(SelfLinked(timers), SelfLinked(timers), [], timers)
  {
  }
}
