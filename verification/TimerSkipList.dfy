/** The kernel's timers: a skip list ordered by wrap-around subtraction of 32-bit ticks.
    Rows are numbered from the sparsest (0) to the complete one (levels - 1). */
module TimerSkipList {
  import opened Links
  import opened Lists
  import opened TimerRows
  import opened TimerSpec

  type tick = x: int | 0 <= x < 0x1_0000_0000

  function Wrapped(n: int): tick { n % 0x1_0000_0000 }

  /** Unsigned subtraction of ticks. */
  function Minus(a: tick, b: tick): tick { Wrapped(a - b) }

  /** The comparison of the insertion search agrees with the unbounded order as long as the
      two deadlines are less than half the range apart. */
  lemma SearchOrder(a: int, b: int)
    requires -HALF <= a - b < HALF
    ensures Minus(Wrapped(a), Wrapped(b)) == 0 <==> a == b
    ensures Minus(Wrapped(a), Wrapped(b)) != 0 && Minus(Wrapped(a), Wrapped(b)) < HALF <==> a > b
  {
    MinusIsDifference(a, b);
  }

  /** For deadlines less than the whole range apart the comparison is right exactly in this
      window. */
  lemma {:induction false} SearchOrderExactly(a: int, b: int)
    requires -0x1_0000_0000 < a - b < 0x1_0000_0000
    ensures (Minus(Wrapped(a), Wrapped(b)) != 0 && Minus(Wrapped(a), Wrapped(b)) < HALF <==> a > b) <==>
      HALF - 0x1_0000_0000 <= a - b < HALF
  {
    MinusIsDifference(a, b);
    ModuloRange(a - b);
    hide *;
  }

  lemma {:induction false} ModuloRange(x: int)
    requires -0x1_0000_0000 < x < 0x1_0000_0000
    ensures x % 0x1_0000_0000 == if x >= 0 then x else x + 0x1_0000_0000
  {
  }

  /** The expiry test agrees with the unbounded order. */
  lemma ExpiryTest(now: int, deadline: int)
    requires -HALF < now - deadline < HALF
    ensures Minus(Wrapped(now), Wrapped(deadline)) < HALF <==> deadline <= now
  {
    MinusIsDifference(now, deadline);
  }

  lemma MinusIsDifference(a: int, b: int)
    ensures Minus(Wrapped(a), Wrapped(b)) == (a - b) % 0x1_0000_0000
  {
    var m := 0x1_0000_0000;
    assert a % m - b % m == a - b - m * (a / m - b / m);
    assert (a % m - b % m) % m == (a - b) % m;
  }

  lemma WrappedPlus(n: int, d: int)
    ensures Wrapped(Wrapped(n) + d) == Wrapped(n + d)
  {
    var m := 0x1_0000_0000;
    assert n % m + d == n + d - m * (n / m);
  }

  // ---- rows ----

  /** A row in queue order; `key` gives each linked timer its current start. */
  ghost predicate SortedRow(row: Row, key: map<Timer, Entry>) {
    && (forall i :: 0 <= i < |row| ==> row[i] in key)
    && (forall i, j {:trigger Before(key[row[i]], key[row[j]])} :: 0 <= i < j < |row| ==>
       Before(key[row[i]], key[row[j]]))
  }

  ghost predicate Within(a: Row, b: Row) {
    forall i {:trigger a[i] in b} :: 0 <= i < |a| ==> a[i] in b
  }

  ghost predicate SkipList(rows: seq<Row>, key: map<Timer, Entry>) {
    && |rows| >= 1
    && (forall r {:trigger SortedRow(rows[r], key)} :: 0 <= r < |rows| ==> SortedRow(rows[r], key))
    && (forall r, s {:trigger Within(rows[r], rows[s])} :: 0 <= r && s == r + 1 < |rows| ==> Within(rows[r], rows[s]))
  }

  /** Ordered sublist. */
  predicate Sublist(a: Row, b: Row) {
    a == [] || (b != [] && ((a[0] == b[0] && Sublist(a[1..], b[1..])) || Sublist(a, b[1..])))
  }

  /** Rows in the same order, one inside the other, are ordered sublists. */
  lemma {:induction false} RowsAreSublists(a: Row, b: Row, key: map<Timer, Entry>)
    requires SortedRow(a, key) && SortedRow(b, key) && Within(a, b)
    ensures Sublist(a, b)
    decreases |b|
  {
    if a != [] {
      assert a[0] in b;
      if a[0] == b[0] {
        forall i | 1 <= i < |a| ensures a[i] in b[1..] { assert a[i] in b; assert Before(key[a[0]], key[a[i]]); }
        RowsAreSublists(a[1..], b[1..], key);
      } else {
        var k :| 0 <= k < |b| && b[k] == a[0];
        forall i | 0 <= i < |a| ensures a[i] in b[1..] {
          assert a[i] in b;
          assert Before(key[b[0]], key[b[k]]);
          assert i > 0 ==> Before(key[a[0]], key[a[i]]);
        }
        RowsAreSublists(a, b[1..], key);
      }
    }
  }

  lemma {:induction false} SortedDistinct(row: Row, key: map<Timer, Entry>)
    requires SortedRow(row, key)
    ensures Distinct(row)
  {
    forall i, j | 0 <= i < j < |row| ensures Differ(row[i], row[j]) { assert Before(key[row[i]], key[row[j]]); }
  }

  /** `i` timers of the row are not later than `d`, and they come first. */
  ghost predicate IsRank(row: Row, key: map<Timer, Entry>, d: int, i: int) {
    && 0 <= i <= |row|
    && (forall j :: 0 <= j < |row| ==> row[j] in key)
    && (forall j :: 0 <= j < i ==> key[row[j]].deadline <= d)
    && (forall j :: i <= j < |row| ==> key[row[j]].deadline > d)
  }

  /** The first `n` timers of the row are not later than `d`. */
  ghost predicate NotLater(row: Row, key: map<Timer, Entry>, d: int, n: int) {
    0 <= n <= |row| && forall j :: 0 <= j < n ==> row[j] in key && key[row[j]].deadline <= d
  }

  lemma StillNotLater(row: Row, key: map<Timer, Entry>, d: int, n: nat)
    requires SortedRow(row, key) && n <= |row| && (n > 0 ==> key[row[n - 1]].deadline <= d)
    ensures NotLater(row, key, d, n)
  {
    forall j | 0 <= j < n ensures key[row[j]].deadline <= d {
      assert j < n - 1 ==> Before(key[row[j]], key[row[n - 1]]);
    }
  }

  lemma {:induction false} DeleteSorted(row: Row, t: Timer, key: map<Timer, Entry>)
    requires SortedRow(row, key)
    ensures SortedRow(Delete(row, t), key)
  {
    if row != [] {
      DeleteSorted(row[1..], t, key);
      var r := Delete(row[1..], t);
      if row[0] != t {
        forall j | 0 <= j < |r| ensures Before(key[row[0]], key[r[j]]) { assert r[j] in row[1..]; }
      }
    }
  }

  /** Inserting the latest start behind everything not later keeps the row sorted. */
  lemma InsertSortedRow(row: Row, key: map<Timer, Entry>, e: Entry, i: nat)
    requires SortedRow(row, key) && IsRank(row, key, e.deadline, i) && e.timer !in row
    requires forall j :: 0 <= j < |row| ==> key[row[j]].order < e.order
    ensures SortedRow(InsertAt(row, i, e.timer), key[e.timer := e])
  {
    var r, k := InsertAt(row, i, e.timer), key[e.timer := e];
    forall a | 0 <= a < |r| ensures r[a] == if a < i then row[a] else if a == i then e.timer else row[a - 1] {}
    forall a | 0 <= a < |row| ensures k[row[a]] == key[row[a]] { assert row[a] in row; }
    forall a, b | 0 <= a < b < |r| ensures Before(k[r[a]], k[r[b]]) {}
  }

  // ---- the complete row against the queue ----

  ghost predicate Matches(row: Row, q: seq<Entry>) {
    |row| == |q| && forall i :: 0 <= i < |q| ==> row[i] == q[i].timer
  }

  lemma {:induction false} DeleteMatches(row: Row, q: seq<Entry>, t: Timer)
    requires Matches(row, q)
    ensures Matches(Delete(row, t), Without(q, t))
  {
    if row != [] {
      DeleteMatches(row[1..], q[1..], t);
      var d, w := Delete(row[1..], t), Without(q[1..], t);
      assert row[0] != t ==> Delete(row, t) == [row[0]] + d && Without(q, t) == [q[0]] + w;
    }
  }

  /** Insertion at the rank is plain stable insertion. */
  lemma {:induction false} InsertMatches(row: Row, q: seq<Entry>, e: Entry, i: nat)
    requires Matches(row, q) && i <= |q|
    requires forall j :: 0 <= j < i ==> q[j].deadline <= e.deadline
    requires forall j :: i <= j < |q| ==> q[j].deadline > e.deadline
    ensures Matches(InsertAt(row, i, e.timer), Insert(q, e))
  {
    if i > 0 {
      InsertMatches(row[1..], q[1..], e, i - 1);
      assert InsertAt(row, i, e.timer) == [row[0]] + InsertAt(row[1..], i - 1, e.timer);
    } else {
      assert InsertAt(row, 0, e.timer) == [e.timer] + row;
    }
  }

  /** `key` gives the entries of the queue, and their deadlines are stored wrapped. */
  ghost predicate Keyed(q: seq<Entry>, key: map<Timer, Entry>, timeout: map<Timer, tick>) {
    forall i :: 0 <= i < |q| ==>
      var t := q[i].timer; t in key && key[t] == q[i] && t in timeout && timeout[t] == Wrapped(q[i].deadline)
  }

  /** A skip list whose complete row holds the queue `q`. */
  ghost predicate Represents(rows: seq<Row>, key: map<Timer, Entry>, timeout: map<Timer, tick>, q: seq<Entry>) {
    SkipList(rows, key) && Matches(rows[|rows| - 1], q) && Keyed(q, key, timeout)
  }

  /** Whatever is in some row is in the complete row. */
  lemma {:induction false} InCompleteRow(rows: seq<Row>, key: map<Timer, Entry>, r: nat, t: Timer)
    requires SkipList(rows, key) && r < |rows| && t in rows[r]
    ensures t in rows[|rows| - 1]
    decreases |rows| - r
  {
    if r + 1 < |rows| {
      assert Within(rows[r], rows[r + 1]);
      InCompleteRow(rows, key, r + 1, t);
    }
  }

  function DeleteAll(rows: seq<Row>, t: Timer): (after: seq<Row>)
    ensures |after| == |rows|
    ensures forall r :: 0 <= r < |rows| ==> after[r] == Delete(rows[r], t)
  {
    seq(|rows|, r requires 0 <= r < |rows| => Delete(rows[r], t))
  }

  lemma {:induction false} DeleteRepresents(rows: seq<Row>, key: map<Timer, Entry>, timeout: map<Timer, tick>,
      q: seq<Entry>, t: Timer)
    requires Represents(rows, key, timeout, q)
    ensures Represents(DeleteAll(rows, t), key, timeout, Without(q, t))
  {
    var after := DeleteAll(rows, t);
    forall r | 0 <= r < |rows| ensures SortedRow(after[r], key) { DeleteSorted(rows[r], t, key); }
    forall r, s | 0 <= r && s == r + 1 < |rows| ensures Within(after[r], after[s]) {
      forall i | 0 <= i < |after[r]| ensures after[r][i] in after[s] {
        assert after[r][i] in after[r];
        assert Within(rows[r], rows[s]);
      }
    }
    DeleteMatches(rows[|rows| - 1], q, t);
    var w := Without(q, t);
    forall i | 0 <= i < |w| ensures w[i] in q { assert w[i] in w; }
  }

  predicate Fits(rows: seq<Row>, at: seq<nat>) {
    |at| == |rows| && forall r :: 0 <= r < |rows| ==> at[r] <= |rows[r]|
  }

  ghost predicate Ranks(rows: seq<Row>, key: map<Timer, Entry>, d: int, at: seq<nat>) {
    Fits(rows, at) && forall r :: 0 <= r < |rows| ==> IsRank(rows[r], key, d, at[r])
  }

  /** Linking a start at its rank in the `h` lowest rows. */
  function InsertRows(rows: seq<Row>, at: seq<nat>, h: nat, t: Timer): (after: seq<Row>)
    requires Fits(rows, at)
    ensures |after| == |rows|
    ensures forall r :: 0 <= r < |rows| ==> after[r] == if r + h >= |rows| then InsertAt(rows[r], at[r], t) else rows[r]
  {
    seq(|rows|, r requires 0 <= r < |rows| => if r + h >= |rows| then InsertAt(rows[r], at[r], t) else rows[r])
  }

  /** The new start is not linked anywhere and is the latest. */
  ghost predicate Latest(row: Row, key: map<Timer, Entry>, e: Entry) {
    e.timer !in row && forall j :: 0 <= j < |row| ==> row[j] in key && key[row[j]].order < e.order
  }

  lemma LatestEverywhere(rows: seq<Row>, key: map<Timer, Entry>, e: Entry)
    requires SkipList(rows, key) && Latest(rows[|rows| - 1], key, e)
    ensures forall r :: 0 <= r < |rows| ==> Latest(rows[r], key, e)
  {
    forall r | 0 <= r < |rows| ensures Latest(rows[r], key, e) {
      forall j | 0 <= j < |rows[r]| ensures rows[r][j] in rows[|rows| - 1] { InCompleteRow(rows, key, r, rows[r][j]); }
    }
  }

  lemma InsertSkipList(rows: seq<Row>, key: map<Timer, Entry>, e: Entry, at: seq<nat>, h: nat)
    requires SkipList(rows, key) && Latest(rows[|rows| - 1], key, e) && h >= 1 && Ranks(rows, key, e.deadline, at)
    ensures SkipList(InsertRows(rows, at, h, e.timer), key[e.timer := e])
  {
    var after, k := InsertRows(rows, at, h, e.timer), key[e.timer := e];
    LatestEverywhere(rows, key, e);
    forall r | 0 <= r < |rows| ensures SortedRow(after[r], k) {
      InsertSortedRow(rows[r], key, e, at[r]);
      forall j | 0 <= j < |rows[r]| ensures k[rows[r][j]] == key[rows[r][j]] { assert rows[r][j] in rows[r]; }
    }
    forall r, s | 0 <= r && s == r + 1 < |rows| ensures Within(after[r], after[s]) {
      InsertAtContents(rows[r], at[r], e.timer);
      InsertAtContents(rows[s], at[s], e.timer);
      forall i | 0 <= i < |after[r]| ensures after[r][i] in after[s] {
        assert after[r][i] in after[r];
        assert Within(rows[r], rows[s]);
      }
    }
  }

  lemma {:induction false} InsertKeyed(q: seq<Entry>, key: map<Timer, Entry>, timeout: map<Timer, tick>, e: Entry)
    requires Keyed(q, key, timeout) && forall i :: 0 <= i < |q| ==> q[i].timer != e.timer
    ensures Keyed(Insert(q, e), key[e.timer := e], timeout[e.timer := Wrapped(e.deadline)])
  {
    InsertContents(q, e);
    var n := Insert(q, e);
    forall i | 0 <= i < |n| ensures n[i] in q || n[i] == e { assert n[i] in n; }
  }

  lemma {:induction false} InsertRepresents(rows: seq<Row>, key: map<Timer, Entry>, timeout: map<Timer, tick>,
      q: seq<Entry>, e: Entry, at: seq<nat>, h: nat)
    requires Represents(rows, key, timeout, q) && Latest(rows[|rows| - 1], key, e) && h >= 1
      && Ranks(rows, key, e.deadline, at)
    ensures Represents(InsertRows(rows, at, h, e.timer), key[e.timer := e], timeout[e.timer := Wrapped(e.deadline)],
      Insert(q, e))
  {
    var last := |rows| - 1;
    InsertSkipList(rows, key, e, at, h);
    hide SkipList, Keyed;
    assert IsRank(rows[last], key, e.deadline, at[last]);
    KeyedDeadlines(rows[last], q, key, timeout, e);
    InsertMatches(rows[last], q, e, at[last]);
    InsertKeyed(q, key, timeout, e);
    assert InsertRows(rows, at, h, e.timer)[last] == InsertAt(rows[last], at[last], e.timer);
  }

  lemma {:induction false} KeyedDeadlines(row: Row, q: seq<Entry>, key: map<Timer, Entry>, timeout: map<Timer, tick>,
      e: Entry)
    requires Matches(row, q) && Keyed(q, key, timeout) && Latest(row, key, e)
    ensures forall i :: 0 <= i < |q| ==> q[i].timer != e.timer && q[i].deadline == key[row[i]].deadline
  {
    forall i | 0 <= i < |q| ensures q[i].timer != e.timer && q[i].deadline == key[row[i]].deadline {
      assert row[i] in row;
    }
  }

  // ---- the links ----

  /** Every row is linked as it should be. */
  ghost predicate Wired(next: seq<map<int, int>>, prev: seq<map<int, int>>, rows: seq<Row>, timers: set<Timer>) {
    && |next| == |prev| == |rows|
    && forall r {:trigger Threaded(next[r], prev[r], rows[r], timers)} :: 0 <= r < |rows| ==>
       Threaded(next[r], prev[r], rows[r], timers)
  }

  /** A timer in no row. */
  ghost predicate Absent(rows: seq<Row>, t: Timer) {
    forall r {:trigger Distinct(rows[r])} :: 0 <= r < |rows| ==> Distinct(rows[r]) && t !in rows[r]
  }

  /** The nodes at the ranks. */
  predicate Heads(rowHead: seq<int>, rows: seq<Row>, at: seq<nat>) {
    |rowHead| == |rows| && Fits(rows, at)
      && forall r {:trigger rowHead[r]} :: 0 <= r < |rows| ==> rowHead[r] == NodeAt(rows[r], at[r])
  }

  /** The links behind rt_timer_start: in the `h` lowest rows the timer is inserted behind the
      node found there. */
  ghost predicate Relinked(next: seq<map<int, int>>, prev: seq<map<int, int>>, rowHead: seq<int>, h: nat, t: Timer,
      next2: seq<map<int, int>>, prev2: seq<map<int, int>>) {
    && |next| == |prev| == |rowHead| == |next2| == |prev2|
    && forall r {:trigger RelinkedRow(next, prev, rowHead, h, t, next2, prev2, r)} :: 0 <= r < |next| ==>
       RelinkedRow(next, prev, rowHead, h, t, next2, prev2, r)
  }

  predicate RelinkedRow(next: seq<map<int, int>>, prev: seq<map<int, int>>, rowHead: seq<int>, h: nat, t: Timer,
      next2: seq<map<int, int>>, prev2: seq<map<int, int>>, r: nat)
    requires |next| == |prev| == |rowHead| == |next2| == |prev2|
  {
    && r < |next| && rowHead[r] in next[r]
    && (next2[r], prev2[r]) ==
       if r + h >= |next| then LinkAfter(next[r], prev[r], rowHead[r], t) else (next[r], prev[r])
  }

  /** A timer in no row is linked where it should be. */
  lemma {:induction false} RelinkedWired(next: seq<map<int, int>>, prev: seq<map<int, int>>, rows: seq<Row>,
      timers: set<Timer>, rowHead: seq<int>, at: seq<nat>, h: nat, t: Timer,
      next2: seq<map<int, int>>, prev2: seq<map<int, int>>)
    requires Wired(next, prev, rows, timers) && Absent(rows, t) && Heads(rowHead, rows, at)
    requires Relinked(next, prev, rowHead, h, t, next2, prev2)
    ensures Wired(next2, prev2, InsertRows(rows, at, h, t), timers)
  {
    var after := InsertRows(rows, at, h, t);
    forall r | 0 <= r < |rows| ensures Threaded(next2[r], prev2[r], after[r], timers) {
      assert RelinkedRow(next, prev, rowHead, h, t, next2, prev2, r);
      assert Threaded(next[r], prev[r], rows[r], timers) && Distinct(rows[r]);
      InsertThreaded(next[r], prev[r], rows[r], timers, at[r], t);
    }
  }

  /** For a timer in the complete row the links are rows no longer. */
  lemma {:induction false} RelinkedTwice(next: seq<map<int, int>>, prev: seq<map<int, int>>, rows: seq<Row>,
      timers: set<Timer>, rowHead: seq<int>, at: seq<nat>, h: nat, t: Timer,
      next2: seq<map<int, int>>, prev2: seq<map<int, int>>, after: seq<Row>)
    requires |rows| >= 1 && h >= 1 && Wired(next, prev, rows, timers) && Heads(rowHead, rows, at)
    requires t in rows[|rows| - 1] && Distinct(rows[|rows| - 1])
    requires forall u {:trigger u in timers} :: u in rows[|rows| - 1] ==> u in timers
    requires Relinked(next, prev, rowHead, h, t, next2, prev2)
    ensures !Wired(next2, prev2, after, timers)
  {
    var r := |rows| - 1;
    assert RelinkedRow(next, prev, rowHead, h, t, next2, prev2, r);
    assert Threaded(next[r], prev[r], rows[r], timers);
    if Wired(next2, prev2, after, timers) {
      assert Threaded(next2[r], prev2[r], after[r], timers);
      LinkThreadedExactly(next[r], prev[r], rows[r], timers, at[r], t);
    }
  }

  // ---- heights ----

  /** The counter bits tested for one row, and the counter with them shifted out. */
  function LowBits(nr: nat, mask: nat): nat { if mask == 1 then nr % 2 else nr % 4 }
  function Shifted(nr: nat, mask: nat): nat { if mask == 1 then nr / 2 else nr / 4 }

  /** Rows a start is linked into: one, plus one for every group of counter bits that is
      zero before the first that is not. */
  function Height(nr: nat, mask: nat, levels: nat): (h: nat)
    ensures levels >= 1 ==> 1 <= h <= levels
  {
    if levels <= 1 || LowBits(nr, mask) != 0 then 1 else 1 + Height(Shifted(nr, mask), mask, levels - 1)
  }

  // ---- how long a start may take ----

  /** The start took at most `w` ticks from the computation of its deadline to the linking, and
      its delay leaves room for them in half the tick range. */
  predicate Near(e: Entry, w: nat) { e.linked <= e.started + w && e.deadline + w < e.started + HALF }

  /** So does a computed deadline. */
  predicate NearStamp(p: Starts, t: Timer, now: nat, w: nat) {
    t in p.stamp ==> StampFits(p.stamp[t], now) && p.stamp[t].deadline + w < p.stamp[t].at + HALF
  }

  ghost predicate Bounded(c: Clock, w: nat) {
    && (forall i {:trigger Near(c.queue[i], w)} :: 0 <= i < |c.queue| ==> Near(c.queue[i], w))
    && (forall t {:trigger NearStamp(c.pending, t, c.now, w)} :: NearStamp(c.pending, t, c.now, w))
  }

  ghost predicate QueueOk(c: Clock, w: nat) { w + 1 < HALF && QueueInv(c) && Bounded(c, w) }

  ghost predicate ClockOk(c: Clock, w: nat) { w + 1 < HALF && Inv(c) && Bounded(c, w) }

  /** The computed deadlines of the starts in progress are stored wrapped. */
  ghost predicate Stored(pending: Starts, timeout: map<Timer, tick>) {
    forall t {:trigger StoredAt(pending, timeout, t)} :: StoredAt(pending, timeout, t)
  }

  predicate StoredAt(pending: Starts, timeout: map<Timer, tick>, t: Timer) {
    t in pending.stamp ==> t in timeout && timeout[t] == Wrapped(pending.stamp[t].deadline)
  }

  lemma {:induction false} FewerBounded(c: Clock, d: Clock, w: nat)
    requires Bounded(c, w) && forall e {:trigger e in d.queue} :: e in d.queue ==> e in c.queue
    requires forall t :: NearStamp(c.pending, t, c.now, w) ==> NearStamp(d.pending, t, d.now, w)
    ensures Bounded(d, w)
  {
    forall i | 0 <= i < |d.queue| ensures Near(d.queue[i], w) {
      assert d.queue[i] in d.queue;
      var k :| 0 <= k < |c.queue| && c.queue[k] == d.queue[i];
      assert Near(c.queue[k], w);
    }
    forall t ensures NearStamp(d.pending, t, d.now, w) { assert NearStamp(c.pending, t, c.now, w); }
  }

  lemma {:induction false} UnlinkOk(c: Clock, w: nat, t: Timer)
    requires ClockOk(c, w)
    ensures ClockOk(Unlink(c, t), w)
  {
    UnlinkKeepsInv(c, t);
    FewerBounded(c, Unlink(c, t), w);
  }

  lemma {:induction false} BeginOk(c: Clock, w: nat, t: Timer)
    requires ClockOk(c, w) && t in c.delay
    ensures ClockOk(Begin(c, t), w)
  {
    BeginKeepsInv(c, t);
    FewerBounded(c, Begin(c, t), w);
  }

  lemma {:induction false} StampOk(c: Clock, w: nat, t: Timer)
    requires ClockOk(c, w) && t in c.delay && t in c.pending.begun && c.delay[t] + w < HALF
    ensures ClockOk(Stamp(c, t), w) && Stamp(c, t).queue == c.queue
    ensures forall i :: 0 <= i < |c.queue| ==> c.queue[i].timer != t
  {
    assert PendingOk(c, t);
    StampKeepsInv(c, t);
    var d := Stamp(c, t);
    forall u ensures NearStamp(d.pending, u, d.now, w) { assert NearStamp(c.pending, u, c.now, w); }
    forall i | 0 <= i < |d.queue| ensures Near(d.queue[i], w) { assert Near(c.queue[i], w); }
  }

  /** The start is linked within the window. */
  predicate InWindow(c: Clock, w: nat, t: Timer) {
    Linkable(c, t) && t in c.delay && c.now <= c.pending.stamp[t].at + w
  }

  lemma {:induction false} LinkReaches(c: Clock, w: nat, t: Timer)
    requires QueueOk(c, w) && InWindow(c, w, t)
    ensures Reachable(c, w, NewEntry(c, t).deadline)
  {
    assert NearStamp(c.pending, t, c.now, w);
  }

  lemma {:induction false} LinkOk(c: Clock, w: nat, t: Timer)
    requires QueueOk(c, w) && InWindow(c, w, t)
    ensures QueueOk(LinkUp(c, t), w) <==> !Linked(c, t)
    ensures ClockOk(c, w) ==> !Linked(c, t) && (ClockOk(LinkUp(c, t), w) <==> !Contended(c.pending, t))
  {
    var d, e := LinkUp(c, t), NewEntry(c, t);
    assert NearStamp(c.pending, t, c.now, w);
    if Inv(c) {
      assert PendingOk(c, t);
      LinkExactly(c, t);
    }
    LinkedOnce(c, t);
    if !Linked(c, t) {
      LinkKeepsQueue(c, t);
      LinkBounded(c, w, t);
    }
  }

  lemma {:induction false} LinkBounded(c: Clock, w: nat, t: Timer)
    requires QueueOk(c, w) && InWindow(c, w, t)
    ensures Bounded(LinkUp(c, t), w)
  {
    var d, e := LinkUp(c, t), NewEntry(c, t);
    assert NearStamp(c.pending, t, c.now, w);
    InsertContents(c.queue, e);
    forall i | 0 <= i < |d.queue| ensures Near(d.queue[i], w) {
      assert d.queue[i] in d.queue;
      if d.queue[i] != e {
        var k :| 0 <= k < |c.queue| && c.queue[k] == d.queue[i];
        assert Near(c.queue[k], w);
      }
    }
    forall u ensures NearStamp(d.pending, u, d.now, w) { assert NearStamp(c.pending, u, c.now, w); }
  }

  /** Where a new deadline can be. */
  predicate Reachable(c: Clock, w: nat, d: int) {
    (if c.mode == Idle then c.now <= d + w else c.now <= d) && d + w < c.now + HALF
  }

  lemma {:induction false} TickOk(c: Clock, w: nat)
    requires ClockOk(c, w) && Legal(c, TickEvent)
    ensures ClockOk(Next(c, TickEvent), w)
  {
    TickKeepsInv(c);
    FewerBounded(c, Next(c, TickEvent), w);
  }

  lemma {:induction false} PollOk(c: Clock, w: nat)
    requires ClockOk(c, w) && c.mode == Checking
    ensures ClockOk(TimerSpec.Poll(c), w)
  {
    PollKeepsInv(c);
    FewerBounded(c, TimerSpec.Poll(c), w);
  }

  lemma {:induction false} QuietOk(c: Clock, d: Clock, w: nat)
    requires ClockOk(c, w) && d.queue == c.queue && d.pending == c.pending && d.now == c.now && d.starts == c.starts
    requires d.delay.Keys >= c.delay.Keys && d.active <= c.active
      && (d.mode == c.mode || (c.mode != Idle && d.mode == Checking))
    ensures ClockOk(d, w)
  {
    SameQueue(c, d);
    FewerBounded(c, d, w);
  }

  /** Where the deadlines of waiting entries can be. */
  lemma {:induction false} EntryWindow(c: Clock, w: nat, i: nat)
    requires QueueOk(c, w) && i < |c.queue|
    ensures c.now - 1 - w <= c.queue[i].deadline && (c.mode == Idle ==> c.now - w <= c.queue[i].deadline)
    ensures c.queue[i].deadline + w < c.now + HALF && c.queue[i].order < c.starts
  {
    assert Near(c.queue[i], w) && Timely(c.queue[i], c.now, c.mode) && Known(c, i);
  }

  lemma {:induction false} LinkStored(c: Clock, timeout: map<Timer, tick>, t: Timer)
    requires Stored(c.pending, timeout) && Linkable(c, t)
    ensures t in timeout && timeout[t] == Wrapped(NewEntry(c, t).deadline) && timeout[t := timeout[t]] == timeout
    ensures Stored(LinkUp(c, t).pending, timeout)
  {
    var d := LinkUp(c, t);
    assert StoredAt(c.pending, timeout, t);
    forall u ensures StoredAt(d.pending, timeout, u) { assert StoredAt(c.pending, timeout, u); }
  }

  lemma {:induction false} KeyedElsewhere(rows: seq<Row>, key: map<Timer, Entry>, timeout: map<Timer, tick>,
      q: seq<Entry>, t: Timer, x: tick)
    requires Represents(rows, key, timeout, q) && forall i :: 0 <= i < |q| ==> q[i].timer != t
    ensures Represents(rows, key, timeout[t := x], q)
  {
  }

  class TimerList {
    const levels: nat
    /** RT_TIMER_SKIP_LIST_MASK: 1 or 3 */
    const mask: nat
    var rt_tick: tick
    /** The links of the rows. */
    var next: seq<map<int, int>>
    var prev: seq<map<int, int>>
    var timeoutTick: map<Timer, tick>
    var initTick: map<Timer, nat>
    var active: set<Timer>
    var periodic: set<Timer>
    var randomNr: tick

    /** How many ticks a start may take once its deadline is computed. */
    ghost const window: nat
    /** The unbounded clock this state stands for, and the current start of each linked timer. */
    ghost var clock: Clock
    ghost var key: map<Timer, Entry>
    ghost var rows: seq<Row>

    /** The lists are right. */
    ghost predicate Listed()
      reads this
    {
      && levels >= 1 && mask in {1, 3} && |rows| == levels
      && Represents(rows, key, timeoutTick, clock.queue) && Wired(next, prev, rows, initTick.Keys)
      && QueueOk(clock, window) && Stored(clock.pending, timeoutTick)
      && rt_tick == Wrapped(clock.now)
      && initTick == clock.delay && active == clock.active && periodic == clock.periodic
    }

    /** No start of a linked timer is in progress. */
    ghost predicate Valid()
      reads this
    {
      Listed() && ClockOk(clock, window)
    }

    /** The links of the rows are lists. */
    ghost predicate Sane()
      reads this
    {
      exists after {:trigger Wired(next, prev, after, initTick.Keys)} :: Wired(next, prev, after, initTick.Keys)
    }

    constructor (levels: nat, mask: nat, initTick: map<Timer, nat>, periodic: set<Timer>, ghost window: nat)
      requires levels >= 1 && mask in {1, 3} && window + 1 < HALF
      ensures Valid() && clock == Initial(initTick, periodic) && this.window == window
    {
      this.levels, this.mask, this.window := levels, mask, window;
      rt_tick, randomNr := 0, 0;
      rows := seq(levels, _ => []);
      next, prev := seq(levels, _ => SelfLinked(initTick.Keys)), seq(levels, _ => SelfLinked(initTick.Keys));
      timeoutTick := map[];
      this.initTick, this.periodic, active := initTick, periodic, {};
      clock := Initial(initTick, periodic);
      key := map[];
      new;
      EmptyThreaded(initTick.Keys);
    }

    /** rt_list_remove on the node of `n` in row `r`. */
    method ListRemove(r: nat, n: int)
      requires r < |next| == |prev| && n in next[r] && n in prev[r]
      modifies this`next, this`prev
      ensures var links := UnlinkNode(old(next)[r], old(prev)[r], n);
        next == old(next)[r := links.0] && prev == old(prev)[r := links.1]
    {
      prev := prev[r := prev[r][next[r][n] := prev[r][n]]];
      next := next[r := next[r][prev[r][n] := next[r][n]]];
      prev := prev[r := prev[r][n := n]];
      next := next[r := next[r][n := n]];
    }

    /** rt_list_insert_after */
    method ListInsertAfter(r: nat, l: int, n: int)
      requires r < |next| == |prev| && l in next[r]
      modifies this`next, this`prev
      ensures var links := LinkAfter(old(next)[r], old(prev)[r], l, n);
        next == old(next)[r := links.0] && prev == old(prev)[r := links.1]
    {
      prev := prev[r := prev[r][next[r][l] := n]];
      next := next[r := next[r][n := next[r][l]]];
      next := next[r := next[r][l := n]];
      prev := prev[r := prev[r][n := l]];
    }

    /** _rt_timer_remove: the timer is unlinked from every row, also from those it is not in. */
    method Remove(t: Timer)
      requires Valid() && t in initTick
      modifies this`next, this`prev, this`rows, this`clock
      ensures Valid() && clock == Unlink(old(clock), t)
    {
      DeleteRepresents(rows, key, timeoutTick, clock.queue, t);
      UnlinkOk(clock, window, t);
      forall r | 0 <= r < levels ensures Distinct(rows[r]) { SortedDistinct(rows[r], key); }
      hide ClockOk, QueueOk, Represents, Stored, Threaded;
      var i := 0;
      while i < levels
        invariant 0 <= i <= levels && |next| == |prev| == levels && rows == old(rows) && clock == old(clock)
        invariant forall r {:trigger rows[r]} :: i <= r < levels ==> Threaded(next[r], prev[r], rows[r], initTick.Keys)
        invariant forall r {:trigger rows[r]} :: 0 <= r < i ==>
          Threaded(next[r], prev[r], Delete(rows[r], t), initTick.Keys)
      {
        RemoveThreaded(next[i], prev[i], rows[i], initTick.Keys, t);
        ListRemove(i, t);
        i := i + 1;
      }
      rows := DeleteAll(rows, t);
      clock := Unlink(clock, t);
    }

    /** Every linked timer is within half the tick range of now. */
    lemma WindowOf(r: nat, k: nat)
      requires Listed() && r < levels && k < |rows[r]|
      ensures var t := rows[r][k];
        && t in key && t in timeoutTick && timeoutTick[t] == Wrapped(key[t].deadline)
        && clock.now - 1 - window <= key[t].deadline && (clock.mode == Idle ==> clock.now - window <= key[t].deadline)
        && key[t].deadline + window < clock.now + HALF && key[t].order < clock.starts
    {
      InCompleteRow(rows, key, r, rows[r][k]);
      var i :| 0 <= i < |clock.queue| && rows[levels - 1][i] == rows[r][k];
      assert clock.queue[i].timer == rows[r][k];
      EntryWindow(clock, window, i);
    }

    /** Walks one row from the node `from`, the `i`-th, past every timer not later than the tick
        `timeout`. */
    method SearchRow(r: nat, timeout: tick, from: int, ghost i: nat, ghost d: int) returns (node: int, ghost k: nat)
      requires Listed() && r < levels && timeout == Wrapped(d) && Reachable(clock, window, d)
      requires NotLater(rows[r], key, d, i) && from == NodeAt(rows[r], i)
      ensures IsRank(rows[r], key, d, k) && node == NodeAt(rows[r], k)
    {
      ghost var row := rows[r];
      assert SortedRow(row, key) && Threaded(next[r], prev[r], row, initTick.Keys);
      SortedDistinct(row, key);
      assert JoinedAt(next[r], prev[r], row, |row|);
      node, k := from, i;
      while node != prev[r][HEAD]
        invariant i <= k && NotLater(row, key, d, k) && node == NodeAt(row, k)
        decreases |row| - k
      {
        assert JoinedAt(next[r], prev[r], row, k);
        var u := next[r][node];
        WindowOf(r, k);
        SearchOrder(key[u].deadline, d);
        if Minus(timeoutTick[u], timeout) != 0 && Minus(timeoutTick[u], timeout) < HALF {
          forall j | k <= j < |row| ensures key[row[j]].deadline > d {
            assert j > k ==> Before(key[row[k]], key[row[j]]);
          }
          return;
        }
        node, k := u, k + 1;
      }
      if k < |row| { NodesDiffer(row, k, |row|); }
    }

    /** The nested search of rt_timer_start: the insertion point in every row, each search
        starting at the node the row above stopped at. */
    method Search(timeout: tick, ghost d: int) returns (rowHead: seq<int>, ghost at: seq<nat>)
      requires Listed() && timeout == Wrapped(d) && Reachable(clock, window, d)
      ensures Ranks(rows, key, d, at) && Heads(rowHead, rows, at)
    {
      rowHead, at := [], [];
      var r: nat, node := 0, HEAD;
      ghost var i: nat := 0;
      while r < levels
        invariant 0 <= r <= levels && |rowHead| == |at| == r
        invariant forall s {:trigger at[s]} {:trigger rowHead[s]} :: 0 <= s < r ==>
          at[s] <= |rows[s]| && IsRank(rows[s], key, d, at[s]) && rowHead[s] == NodeAt(rows[s], at[s])
        invariant r < levels ==> NotLater(rows[r], key, d, i) && node == NodeAt(rows[r], i)
      {
        ghost var k;
        node, k := SearchRow(r, timeout, node, i, d);
        rowHead, at := rowHead + [node], at + [k];
        if r + 1 < levels {
          assert Within(rows[r], rows[r + 1]);
          assert k > 0 ==> rows[r][k - 1] in rows[r + 1];
          i := if k == 0 then 0 else IndexOf(rows[r + 1], rows[r][k - 1]) + 1;
          assert node == NodeAt(rows[r + 1], i);
          StillNotLater(rows[r + 1], key, d, i);
        }
        r := r + 1;
      }
    }

    /** Links `t` into the complete row and, while the counter's low bits are zero, into the
        rows above it. */
    method Link(t: Timer, rowHead: seq<int>) returns (ghost h: nat)
      requires levels >= 1 && mask in {1, 3} && |next| == |prev| == |rowHead| == levels
      requires forall r {:trigger rowHead[r]} :: 0 <= r < levels ==> rowHead[r] in next[r]
      modifies this`next, this`prev, this`randomNr
      ensures randomNr == Wrapped(old(randomNr) + 1) && h == Height(randomNr, mask, levels)
      ensures Relinked(old(next), old(prev), rowHead, h, t, next, prev)
    {
      hide LinkAfter;
      randomNr := Wrapped(randomNr + 1);
      var tst: nat := randomNr;
      ListInsertAfter(levels - 1, rowHead[levels - 1], t);
      var n := 1;
      while n < levels && LowBits(tst, mask) == 0
        invariant 1 <= n <= levels && |next| == |prev| == levels && randomNr == Wrapped(old(randomNr) + 1)
        invariant n - 1 + Height(tst, mask, levels - n + 1) == Height(randomNr, mask, levels)
        invariant forall r {:trigger next[r]} {:trigger prev[r]} :: 0 <= r < levels - n ==>
          next[r] == old(next)[r] && prev[r] == old(prev)[r]
        invariant forall r {:trigger rowHead[r]} :: levels - n <= r < levels ==>
          (next[r], prev[r]) == LinkAfter(old(next)[r], old(prev)[r], rowHead[r], t)
      {
        var r := levels - 1 - n;
        assert rowHead[r] in next[r];
        ListInsertAfter(r, rowHead[r], t);
        tst := Shifted(tst, mask);
        n := n + 1;
      }
      h := n;
      forall r | 0 <= r < levels ensures RelinkedRow(old(next), old(prev), rowHead, h, t, next, prev, r) {
        assert rowHead[r] in old(next)[r];
      }
    }

    method LinkActive(t: Timer, rowHead: seq<int>, ghost c: Clock) returns (ghost h: nat)
      requires levels >= 1 && mask in {1, 3} && |next| == |prev| == |rowHead| == levels
      requires forall r {:trigger rowHead[r]} :: 0 <= r < levels ==> rowHead[r] in next[r]
      modifies this`next, this`prev, this`randomNr, this`active, this`clock
      ensures h == Height(Wrapped(old(randomNr) + 1), mask, levels) && active == old(active) + {t} && clock == c
      ensures Relinked(old(next), old(prev), rowHead, h, t, next, prev)
    {
      hide *;
      h := Link(t, rowHead);
      active := active + {t};
      clock := c;
    }

    /** The heads of the search are nodes of the rows. */
    lemma HeadsLinked(rowHead: seq<int>, at: seq<nat>)
      requires Wired(next, prev, rows, initTick.Keys) && Heads(rowHead, rows, at)
      ensures |next| == |prev| == |rowHead| == |rows|
      ensures forall r {:trigger rowHead[r]} :: 0 <= r < |rows| ==> rowHead[r] in next[r]
    {
      forall r | 0 <= r < |rows| ensures rowHead[r] in next[r] {
        assert Threaded(next[r], prev[r], rows[r], initTick.Keys) && JoinedAt(next[r], prev[r], rows[r], at[r]);
      }
    }

    /** The insertion points of a new start of a timer that is not linked, wherever the counter
        makes it end. */
    lemma Located(t: Timer, e: Entry, h: nat, at: seq<nat>)
      requires Listed() && h >= 1 && e.timer == t && e.order == clock.starts && Ranks(rows, key, e.deadline, at)
      requires !Linked(clock, t)
      ensures Absent(rows, t)
      ensures Represents(InsertRows(rows, at, h, t), key[t := e], timeoutTick[t := Wrapped(e.deadline)],
        Insert(clock.queue, e))
    {
      var last := rows[levels - 1];
      forall j | 0 <= j < |last| ensures last[j] in key && key[last[j]].order < e.order { WindowOf(levels - 1, j); }
      assert Latest(last, key, e);
      LatestEverywhere(rows, key, e);
      forall r | 0 <= r < levels ensures Distinct(rows[r]) && t !in rows[r] { SortedDistinct(rows[r], key); }
      InsertRepresents(rows, key, timeoutTick, clock.queue, e, at, h);
    }

    /** A linked timer is in the complete row, which holds timers only. */
    lemma LinkedRow(t: Timer)
      requires Listed() && Linked(clock, t)
      ensures t in rows[levels - 1] && Distinct(rows[levels - 1])
      ensures forall u {:trigger u in initTick.Keys} :: u in rows[levels - 1] ==> u in initTick.Keys
    {
      var i :| 0 <= i < |clock.queue| && clock.queue[i].timer == t;
      var last := rows[levels - 1];
      assert last[i] == t && SortedRow(last, key);
      SortedDistinct(last, key);
      forall u | u in last ensures u in initTick.Keys {
        var k :| 0 <= k < |last| && last[k] == u;
        assert Known(clock, k);
      }
    }

    /** rt_timer_start, first section: the timer is unlinked and its flag cleared. */
    method StartBegin(t: Timer)
      requires Valid() && t in initTick
      modifies this
      ensures Valid() && clock == Begin(old(clock), t) && initTick == old(initTick)
    {
      BeginOk(clock, window, t);
      ghost var c := Begin(clock, t);
      forall u ensures StoredAt(c.pending, timeoutTick, u) { assert StoredAt(clock.pending, timeoutTick, u); }
      hide ClockOk, QueueOk, Represents, Stored;
      Remove(t);
      active := active - {t};
      clock := c;
    }

    /** rt_timer_start between the sections: the deadline is computed. */
    method StartStamp(t: Timer)
      requires Valid() && t in initTick && initTick[t] + window < HALF && t in clock.pending.begun
      modifies this`timeoutTick, this`clock
      ensures Valid() && clock == Stamp(old(clock), t)
    {
      StampOk(clock, window, t);
      ghost var c := Stamp(clock, t);
      WrappedPlus(clock.now, initTick[t]);
      var timeout := Wrapped(rt_tick + initTick[t]);
      KeyedElsewhere(rows, key, timeoutTick, clock.queue, t, timeout);
      ghost var stored := timeoutTick[t := timeout];
      forall u ensures StoredAt(c.pending, stored, u) { assert StoredAt(clock.pending, timeoutTick, u); }
      hide ClockOk, QueueOk, Represents;
      timeoutTick := timeoutTick[t := timeout];
      clock := c;
    }

    /** rt_timer_start, second section: the timer is linked where it belongs. The links are lists
        after it exactly when the timer was not linked, and no start of a linked timer is in
        progress exactly when this was the only start of the timer. */
    method StartLink(t: Timer)
      requires Listed() && InWindow(clock, window, t)
      modifies this
      ensures clock == LinkUp(old(clock), t) && initTick == old(initTick)
      ensures Sane() <==> !Linked(old(clock), t)
      ensures Listed() <==> !Linked(old(clock), t)
      ensures old(Valid()) ==> Listed() && (Valid() <==> !Contended(old(clock).pending, t))
    {
      hide Represents, Wired, QueueOk, ClockOk, Stored, Wrapped, Insert, InsertRows, Fits, Absent, Heads,
        Relinked, Ranks, Reachable, Linked, OneEach;
      ghost var e, c, h := NewEntry(clock, t), LinkUp(clock, t), Height(Wrapped(randomNr + 1), mask, levels);
      LinkReaches(clock, window, t);
      LinkOk(clock, window, t);
      LinkStored(clock, timeoutTick, t);
      ghost var at;
      var rowHead;
      rowHead, at := Search(timeoutTick[t], e.deadline);
      HeadsLinked(rowHead, at);
      if Linked(clock, t) { LinkedRow(t); } else { Located(t, e, h, at); }
      h := LinkActive(t, rowHead, c);
      if !Linked(old(clock), t) {
        RelinkedWired(old(next), old(prev), rows, initTick.Keys, rowHead, at, h, t, next, prev);
        rows, key := InsertRows(rows, at, h, t), key[t := e];
        assert Wired(next, prev, rows, initTick.Keys);
      } else {
        forall after ensures !Wired(next, prev, after, initTick.Keys) {
          RelinkedTwice(old(next), old(prev), rows, initTick.Keys, rowHead, at, h, t, next, prev, after);
        }
      }
    }

    /** rt_timer_start by a caller that has interrupts disabled. */
    method Start(t: Timer)
      requires Valid() && t in initTick && initTick[t] + window < HALF
      modifies this
      ensures Listed() && clock == TimerSpec.Start(old(clock), t) && initTick == old(initTick)
      ensures Valid() <==> !InProgress(old(clock).pending, t)
    {
      hide Represents, ClockOk, QueueOk, Stored;
      StartBegin(t);
      StartStamp(t);
      StartLink(t);
    }

    /** rt_timer_stop, the section. */
    method StopSection(t: Timer)
      requires Valid() && t in initTick
      modifies this
      ensures Valid() && clock == StopRemove(old(clock), t) && initTick == old(initTick)
    {
      ghost var c := StopRemove(clock, t);
      UnlinkOk(clock, window, t);
      QuietOk(Unlink(clock, t), c, window);
      hide ClockOk, QueueOk, Represents, Stored, Wired;
      Remove(t);
      clock := c;
    }

    /** rt_timer_stop behind the section: the flag is cleared. */
    method StopFlag(t: Timer)
      requires Valid() && t in initTick
      modifies this`active, this`clock
      ensures Valid() && clock == StopClear(old(clock), t)
    {
      QuietOk(clock, StopClear(clock, t), window);
      hide ClockOk, QueueOk, Represents, Stored, Wired;
      active := active - {t};
      clock := StopClear(clock, t);
    }

    /** rt_timer_stop by a caller that has interrupts disabled: fails for a timer that is not
        flagged active. */
    method Stop(t: Timer) returns (ok: bool)
      requires Valid() && t in initTick
      modifies this
      ensures Valid() && ok == (t in old(active)) && clock == TimerSpec.Stop(old(clock), t)
    {
      ok := t in active;
      if ok {
        StopIsBoth(clock, t);
        hide ClockOk, QueueOk, Represents, Stored, Wired;
        StopSection(t);
        StopFlag(t);
      }
    }

    /** The tick interrupt up to the timer check. */
    method TickIncrease()
      requires Valid() && clock.mode == Idle
      modifies this`rt_tick, this`clock
      ensures Valid() && clock == Next(old(clock), TickEvent)
    {
      TickOk(clock, window);
      ghost var c := Next(clock, TickEvent);
      forall u ensures StoredAt(c.pending, timeoutTick, u) { assert StoredAt(clock.pending, timeoutTick, u); }
      hide ClockOk, QueueOk, Represents;
      rt_tick := Wrapped(rt_tick + 1);
      clock := c;
    }

    /** One turn of the loop of rt_timer_check: unlinks the first timer if its tick has
        passed and says whose callback is to be called. */
    method Poll() returns (fired: bool, t: Timer)
      requires Valid() && clock.mode == Checking
      modifies this`next, this`prev, this`rows, this`clock
      ensures Valid() && clock == TimerSpec.Poll(old(clock))
      ensures fired == clock.mode.InCallback? && (fired ==> clock.mode == InCallback(t))
    {
      PollOk(clock, window);
      fired, t := false, 0;
      var last := levels - 1;
      assert Threaded(next[last], prev[last], rows[last], initTick.Keys)
        && JoinedAt(next[last], prev[last], rows[last], 0);
      if next[last][HEAD] != HEAD {
        t := next[last][HEAD];
        assert Known(clock, 0);
        WindowOf(last, 0);
        ExpiryTest(clock.now, key[t].deadline);
        if Minus(rt_tick, timeoutTick[t]) < HALF {
          ghost var c := clock;
          FirstOnly(c.queue);
          Remove(t);
          fired := true;
          clock := TimerSpec.Poll(c);
          return;
        }
      }
      clock := TimerSpec.Poll(clock);
    }

    /** What follows the callback of `t`: a periodic timer still active is started again. */
    method Return(t: Timer)
      requires Valid() && clock.mode == InCallback(t) && t in initTick
        && (Restarts(clock) ==> initTick[t] + window < HALF)
      modifies this
      ensures Valid() && clock == TimerSpec.Return(old(clock)) && initTick == old(initTick)
    {
      ghost var c := clock.(active := clock.active - {t});
      QuietOk(clock, c, window);
      if t in periodic && t in active {
        assert PendingOk(clock, t);
        RestartIsStart(clock);
        hide ClockOk, QueueOk, Represents, Stored;
        active := active - {t};
        clock := c;
        Start(t);
        QuietOk(clock, clock.(mode := Checking), window);
        clock := clock.(mode := Checking);
      } else {
        QuietOk(clock, c.(mode := Checking), window);
        hide ClockOk, QueueOk, Represents, Stored;
        active := active - {t};
        clock := c.(mode := Checking);
      }
    }

    /** rt_timer_control, set commands */
    method Control(e: Event)
      requires Valid() && (e.SetTime? || e.SetPeriodic?) && Legal(clock, e)
      modifies this`initTick, this`periodic, this`clock
      ensures Valid() && clock == Next(old(clock), e)
      ensures e.SetTime? ==> initTick == old(initTick)[e.t := e.delay] && periodic == old(periodic)
      ensures e.SetPeriodic? ==>
        initTick == old(initTick) && forall u :: u in periodic <==> if u == e.t then e.on else u in old(periodic)
    {
      QuietOk(clock, Next(clock, e), window);
      hide ClockOk, QueueOk, Represents, Stored, Wired;
      if e.SetTime? {
        initTick := initTick[e.t := e.delay];
        assert initTick.Keys == old(initTick.Keys);
      } else {
        periodic := if e.on then periodic + {e.t} else periodic - {e.t};
      }
      clock := Next(clock, e);
    }

    /** The timers `s`, which may be started during a check, have a delay of at least one tick
        that passes the assertion of rt_timer_start; active periodic timers are among them. */
    ghost predicate Delaying(s: set<Timer>)
      reads this`initTick, this`periodic, this`active
    {
      && (forall t {:trigger t in s} :: t in s ==> t in initTick && 0 < initTick[t] && initTick[t] + window < HALF)
      && (forall t {:trigger t in periodic} :: t in periodic && t in active ==> t in s)
    }

    /** A call a callback may make, see `Call`. */
    ghost predicate MayCall(e: Event, s: set<Timer>)
      reads this`initTick, this`clock
    {
      Call(e, initTick.Keys, s, window) && (e.StartEvent? ==> !InProgress(clock.pending, e.t))
    }

    method Perform(e: Event, ghost s: set<Timer>)
      requires Valid() && Delaying(s) && clock.mode.InCallback? && MayCall(e, s)
      modifies this
      ensures Valid() && Delaying(s) && initTick.Keys == old(initTick.Keys) && clock.pending == old(clock.pending)
      ensures Legal(old(clock), e) && clock == Next(old(clock), e)
    {
      hide Represents, ClockOk, QueueOk, Stored;
      if e.StartEvent? {
        NotStamped(clock, window, e.t);
        StartKeepsPending(clock, e.t);
        Start(e.t);
      } else if e.StopEvent? {
        var _ := Stop(e.t);
      } else {
        Control(e);
      }
    }

    /** What a callback does: timer calls on existing timers. */
    method Callback(script: seq<Event>, ghost s: set<Timer>)
      requires Valid() && Delaying(s) && clock.mode.InCallback?
        && forall i :: 0 <= i < |script| ==> MayCall(script[i], s)
      modifies this
      ensures Valid() && Delaying(s) && initTick.Keys == old(initTick.Keys) && clock.pending == old(clock.pending)
      ensures clock.now == old(clock.now) && clock.mode == old(clock.mode)
      ensures Reaches(old(clock), script, clock)
      ensures DueCount(clock.queue, clock.now) <= old(DueCount(clock.queue, clock.now))
    {
      hide Represents, ClockOk, QueueOk, Stored, DueCount;
      var i := 0;
      while i < |script|
        invariant 0 <= i <= |script| && Valid() && Delaying(s)
        invariant initTick.Keys == old(initTick.Keys) && clock.pending == old(clock.pending)
        invariant clock.now == old(clock.now) && clock.mode == old(clock.mode)
        invariant Reaches(old(clock), script[..i], clock)
        invariant DueCount(clock.queue, clock.now) <= old(DueCount(clock.queue, clock.now))
      {
        var e := script[i];
        assert MayCall(e, s);
        ghost var c := clock;
        Perform(e, s);
        CheckShrinks(c, e);
        OneMore(old(clock), script[..i], c, e);
        assert script[..i + 1] == script[..i] + [e];
        i := i + 1;
      }
      assert script[..i] == script;
    }

    /** One turn of the loop of rt_timer_check, callback included. */
    method CheckTurn(script: seq<Event>, ghost s: set<Timer>) returns (fired: bool, ghost es: seq<Event>)
      requires Valid() && Delaying(s) && clock.mode == Checking
        && forall i :: 0 <= i < |script| ==> MayCall(script[i], s)
      modifies this
      ensures Valid() && Delaying(s) && initTick.Keys == old(initTick.Keys) && clock.pending == old(clock.pending)
        && Reaches(old(clock), es, clock)
      ensures fired ==>
        clock.mode == Checking && DueCount(clock.queue, clock.now) < old(DueCount(clock.queue, clock.now))
      ensures !fired ==> clock.mode == Idle && NothingDue(clock)
    {
      PollIsExact(clock);
      CheckShrinks(clock, PollEvent);
      assert Reaches(clock, [], clock);
      OneMore(clock, [], clock, PollEvent);
      hide Represents, ClockOk, QueueOk, Stored, DueCount;
      es := [] + [PollEvent];
      var t;
      fired, t := Poll();
      if fired {
        ghost var c := clock;
        CallbackKnown(c, window);
        Callback(script, s);
        Concatenated(old(clock), es, c, script, clock);
        es := es + script;
        CheckShrinks(clock, ReturnEvent);
        OneMore(old(clock), es, clock, ReturnEvent);
        es := es + [ReturnEvent];
        ReturnKeepsPending(clock, window);
        Return(t);
      }
    }

    /** rt_timer_check, with what the k-th callback does given by `script(k)`: a run of the
        unbounded clock that ends with nothing due. */
    method Check(script: nat -> seq<Event>, ghost s: set<Timer>) returns (ghost es: seq<Event>)
      requires Valid() && Delaying(s) && clock.mode == Checking
      requires forall k, i :: 0 <= i < |script(k)| ==> MayCall(script(k)[i], s)
      modifies this
      ensures Valid() && clock.mode == Idle && Reaches(old(clock), es, clock) && NothingDue(clock)
    {
      es := [];
      var k, fired := 0, true;
      while fired
        invariant Valid() && Delaying(s) && initTick.Keys == old(initTick.Keys) && clock.pending == old(clock.pending)
          && Reaches(old(clock), es, clock)
        invariant if fired then clock.mode == Checking else clock.mode == Idle && NothingDue(clock)
        decreases fired, DueCount(clock.queue, clock.now)
      {
        ghost var c, fs := clock, [];
        assert forall i :: 0 <= i < |script(k)| ==> MayCall(script(k)[i], s);
        fired, fs := CheckTurn(script(k), s);
        Concatenated(old(clock), es, c, fs, clock);
        es := es + fs;
        k := k + 1;
      }
    }
  }

  lemma {:induction false} StopIsBoth(c: Clock, t: Timer)
    requires t in c.active
    ensures StopClear(StopRemove(c, t), t) == TimerSpec.Stop(c, t)
  {
    assert c.stopping + multiset{t} - multiset{t} == c.stopping;
  }

  lemma {:induction false} NotStamped(c: Clock, w: nat, t: Timer)
    requires ClockOk(c, w) && !InProgress(c.pending, t)
    ensures t !in c.pending.stamp
  {
    assert PendingOk(c, t);
  }

  lemma {:induction false} ReturnKeepsPending(c: Clock, w: nat)
    requires ClockOk(c, w) && c.mode.InCallback?
    ensures c.mode.timer in c.delay && Return(c).pending == c.pending && Return(c).active <= c.active
  {
    var t := c.mode.timer;
    assert PendingOk(c, t);
    if Restarts(c) {
      StartKeepsPending(c, t);
      assert c.active + {t} == c.active;
    }
  }

  lemma {:induction false} CallbackKnown(c: Clock, w: nat)
    requires ClockOk(c, w) && c.mode.InCallback?
    ensures c.mode.timer in c.delay
  {
  }

  ghost predicate NothingDue(c: Clock) {
    forall i :: 0 <= i < |c.queue| ==> c.queue[i].deadline > c.now
  }

  /** What callbacks may call when the timers `s` may be started: calls on existing timers that
      keep `Delaying`. */
  predicate Call(e: Event, timers: set<Timer>, s: set<Timer>, w: nat) {
    match e
    case StartEvent(t) => t in s
    case StopEvent(t) => t in timers
    case SetTime(t, d) => t in timers && (t in s ==> 0 < d && d + w < HALF)
    case SetPeriodic(t, on) => t in timers && (on ==> t in s)
    case _ => false
  }

  lemma {:induction false} Concatenated(c: Clock, es: seq<Event>, d: Clock, fs: seq<Event>, f: Clock)
    requires Reaches(c, es, d) && Reaches(d, fs, f)
    ensures Reaches(c, es + fs, f)
    decreases |es|
  {
    if es == [] {
      assert es + fs == fs;
    } else {
      Concatenated(Next(c, es[0]), es[1..], d, fs, f);
      assert (es + fs)[1..] == es[1..] + fs;
    }
  }

  lemma {:induction false} OneMore(c: Clock, es: seq<Event>, d: Clock, e: Event)
    requires Reaches(c, es, d) && Legal(d, e)
    ensures Reaches(c, es + [e], Next(d, e))
  {
    assert Reaches(Next(d, e), [], Next(d, e));
    assert [e][1..] == [];
    Concatenated(c, es, d, [e], Next(d, e));
  }

  lemma RestartIsStart(c: Clock)
    requires Restarts(c) && c.mode.timer in c.delay
    ensures Start(c.(active := c.active - {c.mode.timer}), c.mode.timer).(mode := Checking) == Return(c)
  {
    var t := c.mode.timer;
    assert c.active - {t} - {t} == c.active - {t};
  }

  function IndexOf(row: Row, t: Timer): (k: nat)
    requires t in row
    ensures k < |row| && row[k] == t
  {
    if row[0] == t then 0 else 1 + IndexOf(row[1..], t)
  }

  /** With one entry per timer, deleting the first entry's timer deletes only that entry. */
  lemma {:induction false} FirstOnly(q: seq<Entry>)
    requires q != [] && OneEach(q)
    ensures Without(q, q[0].timer) == q[1..]
  {
    forall i | 1 <= i < |q| ensures q[i].timer != q[0].timer { assert OtherTimer(q[0], q[i]); }
    NoneDeleted(q[1..], q[0].timer);
  }

  lemma {:induction false} NoneDeleted(q: seq<Entry>, t: Timer)
    requires forall i :: 0 <= i < |q| ==> q[i].timer != t
    ensures Without(q, t) == q
  {
    if q != [] { NoneDeleted(q[1..], t); }
  }

  /** A timer that is being started is started once more: the run of `StartedTwice`, behind which
      the links are no lists. */
  method LinkTwice() returns (s: TimerList)
    ensures fresh(s) && Reaches(Initial(ONE, {}), TWICE, s.clock) && !s.Sane()
  {
    hide Doubling, Represents, Wired, QueueOk, ClockOk, Stored, Reaches, Next;
    StartedTwice(TWICE, Doubling(4));
    DoublingFacts();
    s := new TimerList(1, 1, ONE, {}, 0);
    s.StartBegin(0);
    s.StartStamp(0);
    s.Start(0);
    s.StartLink(0);
  }

  lemma {:induction false} DoublingFacts()
    ensures Doubling(0) == Initial(ONE, {}) && 0 in Doubling(1).pending.begun && InWindow(Doubling(3), 0, 0)
    ensures Linked(Doubling(3), 0)
    ensures Doubling(1) == Begin(Doubling(0), 0) && 0 in Doubling(1).delay && Doubling(2) == Stamp(Doubling(1), 0)
    ensures 0 in Doubling(2).delay && Doubling(3) == Start(Doubling(2), 0)
    ensures 0 in Doubling(3).pending.stamp && Doubling(4) == LinkUp(Doubling(3), 0)
  {
    forall k: nat | k < 4 ensures Steps(Doubling(k), TWICE[k], Doubling(k + 1)) { DoublingStep(k); }
    assert Steps(Doubling(0), TWICE[0], Doubling(1)) && Steps(Doubling(1), TWICE[1], Doubling(2));
    assert Steps(Doubling(2), TWICE[2], Doubling(3)) && Steps(Doubling(3), TWICE[3], Doubling(4));
    assert Doubling(3).queue[0].timer == 0;
  }
}
