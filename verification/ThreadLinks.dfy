/** The lists of threads as circular doubly linked lists: the ready queues, the wait lists and
    the defunct list. A thread has one node for all of them; a thread in no list has its node
    linked to itself. */
module ThreadLinks {
  import opened IpcList
  import opened Links
  import opened Lists
  import opened SchedulerSpec

  /** The node of a list itself. */
  function Head(p: nat): int { -1 - p }

  /** The `k`-th node of list `p`; the head is the 0-th. */
  function NodeAt(q: seq<Thread>, p: nat, k: nat): int
    requires k <= |q|
  {
    if k == 0 then Head(p) else q[k - 1]
  }

  function Behind(q: seq<Thread>, k: nat): (s: nat)
    requires k <= |q|
    ensures s <= |q|
  {
    if k == |q| then 0 else k + 1
  }

  predicate JoinedAt(next: map<int, int>, prev: map<int, int>, lists: seq<seq<Thread>>, p: nat, k: nat)
    requires p < |lists| && k <= |lists[p]|
  {
    Joined(next, prev, NodeAt(lists[p], p, k), NodeAt(lists[p], p, Behind(lists[p], k)))
  }

  predicate Listed(lists: seq<seq<Thread>>, t: Thread) { exists p :: 0 <= p < |lists| && t in lists[p] }

  ghost predicate Wired(next: map<int, int>, prev: map<int, int>, lists: seq<seq<Thread>>, threads: set<Thread>) {
    && (forall p: nat, k: nat {:trigger JoinedAt(next, prev, lists, p, k)} :: p < |lists| && k <= |lists[p]| ==>
       JoinedAt(next, prev, lists, p, k))
    && (forall t {:trigger Joined(next, prev, t, t)} :: t in threads && !Listed(lists, t) ==> Joined(next, prev, t, t))
  }

  predicate Shared(lists: seq<seq<Thread>>, p: nat, q: nat, t: Thread) {
    p < |lists| && q < |lists| && t in lists[p] && t in lists[q]
  }

  /** Every thread is in at most one list, once. */
  ghost predicate Apart(lists: seq<seq<Thread>>) {
    && (forall p {:trigger lists[p]} :: 0 <= p < |lists| ==> Distinct(lists[p]))
    && (forall p: nat, q: nat, t {:trigger Shared(lists, p, q, t)} :: p != q ==> !Shared(lists, p, q, t))
  }

  lemma {:induction false} NodesDiffer(lists: seq<seq<Thread>>, p: nat, j: nat, q: nat, k: nat)
    requires Apart(lists) && p < |lists| && q < |lists| && j <= |lists[p]| && k <= |lists[q]| && (p != q || j != k)
    ensures NodeAt(lists[p], p, j) != NodeAt(lists[q], q, k)
  {
    if j > 0 && k > 0 {
      if p == q {
        var a, b := if j < k then j else k, if j < k then k else j;
        assert Distinct(lists[p]) && Differ(lists[p][a - 1], lists[p][b - 1]);
      } else {
        assert !Shared(lists, p, q, lists[p][j - 1]);
      }
    }
  }

  // ---- insertion ----

  function InsertAt(q: seq<Thread>, k: nat, t: Thread): seq<Thread>
    requires k <= |q|
  {
    q[..k] + [t] + q[k..]
  }

  /** A thread in no list, inserted behind the `k`-th node of list `p`, is in that place of it,
      and every other list is as before. */
  lemma {:induction false} InsertWired(next: map<int, int>, prev: map<int, int>, lists: seq<seq<Thread>>,
      threads: set<Thread>, p: nat, k: nat, t: Thread)
    requires Wired(next, prev, lists, threads) && Apart(lists) && p < |lists| && k <= |lists[p]| && !Listed(lists, t)
    ensures NodeAt(lists[p], p, Behind(lists[p], k)) in prev
    ensures var links := LinkBefore(next, prev, NodeAt(lists[p], p, Behind(lists[p], k)), t);
      Wired(links.0, links.1, lists[p := InsertAt(lists[p], k, t)], threads)
  {
    var a, l, after := NodeAt(lists[p], p, k), NodeAt(lists[p], p, Behind(lists[p], k)),
      lists[p := InsertAt(lists[p], k, t)];
    assert JoinedAt(next, prev, lists, p, k);
    var links := LinkBefore(next, prev, l, t);
    forall q: nat, j: nat | q < |after| && j <= |after[q]| ensures JoinedAt(links.0, links.1, after, q, j) {
      if q != p || (j != k && j != k + 1) {
        var i := if q != p || j < k then j else j - 1;
        assert JoinedAt(next, prev, lists, q, i);
        NodesDiffer(lists, q, i, p, k);
        NodesDiffer(lists, q, Behind(lists[q], i), p, Behind(lists[p], k));
        NodeListed(lists, q, i, t);
        NodeListed(lists, q, Behind(lists[q], i), t);
      } else {
        NodeListed(lists, p, k, t);
        NodeListed(lists, p, Behind(lists[p], k), t);
      }
    }
    forall u | u in threads && !Listed(after, u) ensures Joined(links.0, links.1, u, u) {
      assert t in after[p];
      StillUnlisted(lists, after, p, k, t, u);
      NodeListed(lists, p, k, u);
      NodeListed(lists, p, Behind(lists[p], k), u);
      assert Joined(next, prev, u, u);
    }
  }

  lemma {:induction false} NodeListed(lists: seq<seq<Thread>>, p: nat, k: nat, t: Thread)
    requires p < |lists| && k <= |lists[p]| && !Listed(lists, t)
    ensures NodeAt(lists[p], p, k) != t
  {
    if k > 0 { assert lists[p][k - 1] in lists[p]; }
  }

  lemma {:induction false} StillUnlisted(lists: seq<seq<Thread>>, after: seq<seq<Thread>>, p: nat, k: nat, t: Thread,
      u: Thread)
    requires p < |lists| && k <= |lists[p]| && after == lists[p := InsertAt(lists[p], k, t)]
    ensures Listed(after, u) <==> Listed(lists, u) || u == t
  {
    assert lists[p] == lists[p][..k] + lists[p][k..];
    assert u in after[p] <==> u in lists[p] || u == t;
    if q :| 0 <= q < |lists| && u in lists[q] { assert u in after[q]; }
    if q :| 0 <= q < |after| && u in after[q] { assert q != p ==> u in lists[q]; }
  }

  lemma {:induction false} InsertApart(lists: seq<seq<Thread>>, p: nat, k: nat, t: Thread)
    requires Apart(lists) && p < |lists| && k <= |lists[p]| && !Listed(lists, t)
    ensures Apart(lists[p := InsertAt(lists[p], k, t)])
  {
    var q, r := lists[p], InsertAt(lists[p], k, t);
    var after := lists[p := r];
    assert Distinct(q) && t !in q;
    forall i, j | 0 <= i < j < |r| ensures Differ(r[i], r[j]) {
      var x, y := if i < k then i else i - 1, if j < k then j else j - 1;
      if i == k { assert q[y] in q; } else if j == k { assert q[x] in q; } else { assert Differ(q[x], q[y]); }
    }
    assert q == q[..k] + q[k..];
    forall m: nat, n: nat, u | m != n ensures !Shared(after, m, n, u) {
      assert u in r <==> u in q || u == t;
      assert !Shared(lists, m, n, u);
    }
  }

  // ---- removal ----

  function WithoutAll(lists: seq<seq<Thread>>, t: Thread): (after: seq<seq<Thread>>)
    ensures |after| == |lists| && forall p :: 0 <= p < |lists| ==> after[p] == Without(lists[p], t)
  {
    seq(|lists|, p requires 0 <= p < |lists| => Without(lists[p], t))
  }

  lemma {:induction false} WithoutAt(q: seq<Thread>, i: nat)
    requires Distinct(q) && i < |q|
    ensures Without(q, q[i]) == q[..i] + q[i + 1..]
  {
    TailWithout(q);
    if i == 0 {
      WithoutAbsent(q[1..], q[0]);
    } else {
      assert Differ(q[0], q[i]);
      WithoutAt(q[1..], i - 1);
      assert q[..i] + q[i + 1..] == [q[0]] + (q[1..][..i - 1] + q[1..][i..]);
    }
  }

  lemma {:induction false} WithoutAllApart(lists: seq<seq<Thread>>, t: Thread)
    requires Apart(lists)
    ensures Apart(WithoutAll(lists, t)) && !Listed(WithoutAll(lists, t), t)
  {
    var after := WithoutAll(lists, t);
    forall p | 0 <= p < |after| ensures Distinct(after[p]) {
      assert Distinct(lists[p]);
      WithoutDistinct(lists[p], t);
    }
    forall m: nat, n: nat, u | m != n ensures !Shared(after, m, n, u) { assert !Shared(lists, m, n, u); }
  }

  /** Removing a thread takes it out of whichever list it is in. */
  lemma {:induction false} RemoveWired(next: map<int, int>, prev: map<int, int>, lists: seq<seq<Thread>>,
      threads: set<Thread>, t: Thread)
    requires Wired(next, prev, lists, threads) && Apart(lists) && t in threads
    ensures t in next && t in prev
    ensures var links := UnlinkNode(next, prev, t); Wired(links.0, links.1, WithoutAll(lists, t), threads)
  {
    if Listed(lists, t) {
      var p :| 0 <= p < |lists| && t in lists[p];
      var i :| 0 <= i < |lists[p]| && lists[p][i] == t;
      RemovedAt(next, prev, lists, threads, p, i);
    } else {
      assert Joined(next, prev, t, t);
      assert next[t := t] == next && prev[t := t] == prev;
      forall p | 0 <= p < |lists| ensures Without(lists[p], t) == lists[p] { WithoutAbsent(lists[p], t); }
      assert WithoutAll(lists, t) == lists;
    }
  }

  lemma {:induction false} RemovedAt(next: map<int, int>, prev: map<int, int>, lists: seq<seq<Thread>>,
      threads: set<Thread>, p: nat, i: nat)
    requires Wired(next, prev, lists, threads) && Apart(lists) && p < |lists| && i < |lists[p]|
    ensures lists[p][i] in next && lists[p][i] in prev
    ensures var links := UnlinkNode(next, prev, lists[p][i]);
      Wired(links.0, links.1, WithoutAll(lists, lists[p][i]), threads)
  {
    var row, t := lists[p], lists[p][i];
    var after := WithoutAll(lists, t);
    assert Distinct(row);
    WithoutAt(row, i);
    forall q | 0 <= q < |lists| && q != p ensures after[q] == lists[q] {
      assert !Shared(lists, p, q, t);
      WithoutAbsent(lists[q], t);
    }
    assert JoinedAt(next, prev, lists, p, i) && JoinedAt(next, prev, lists, p, i + 1);
    var links := UnlinkNode(next, prev, t);
    NodesDiffer(lists, p, i, p, i + 1);
    NodesDiffer(lists, p, Behind(row, i + 1), p, i + 1);
    forall q: nat, j: nat | q < |after| && j <= |after[q]| ensures JoinedAt(links.0, links.1, after, q, j) {
      if q != p || j != i {
        var k := if q != p || j < i then j else j + 1;
        assert JoinedAt(next, prev, lists, q, k);
        NodesDiffer(lists, q, k, p, i);
        NodesDiffer(lists, q, k, p, i + 1);
        NodesDiffer(lists, q, Behind(lists[q], k), p, Behind(row, i + 1));
        NodesDiffer(lists, q, Behind(lists[q], k), p, i + 1);
      }
    }
    forall u | u in threads && !Listed(after, u) ensures Joined(links.0, links.1, u, u) {
      if u != t {
        forall q | 0 <= q < |lists| ensures u !in lists[q] { assert u !in after[q]; }
        assert !Listed(lists, u) && Joined(next, prev, u, u);
        NodeListed(lists, p, i, u);
        NodeListed(lists, p, Behind(row, i + 1), u);
      }
    }
  }

  // ---- insertion of a thread that is in a list ----

  lemma {:induction false} WiredCoherent(next: map<int, int>, prev: map<int, int>, lists: seq<seq<Thread>>,
      threads: set<Thread>, n: int)
    requires Wired(next, prev, lists, threads) && (if n < 0 then -1 - n < |lists| else n in threads)
    ensures Coherent(next, prev, n)
  {
    if n < 0 {
      assert JoinedAt(next, prev, lists, -1 - n, 0);
    } else if Listed(lists, n) {
      var p :| 0 <= p < |lists| && n in lists[p];
      var i :| 0 <= i < |lists[p]| && lists[p][i] == n;
      assert JoinedAt(next, prev, lists, p, i + 1);
    } else {
      assert Joined(next, prev, n, n);
    }
  }

  /** Only threads are in the lists. */
  ghost predicate Within(lists: seq<seq<Thread>>, threads: set<Thread>) {
    forall p, t {:trigger t in lists[p]} :: 0 <= p < |lists| && t in lists[p] ==> t in threads
  }

  /** The links are these lists, whatever they contain. */
  ghost predicate Sane(next: map<int, int>, prev: map<int, int>, n: nat, threads: set<Thread>) {
    exists after {:trigger Wired(next, prev, after, threads)} :: |after| == n && Wired(next, prev, after, threads)
  }

  /** Inserting a thread that is in a list leaves links that are no lists at all. */
  lemma {:induction false} InsertedTwice(next: map<int, int>, prev: map<int, int>, lists: seq<seq<Thread>>,
      threads: set<Thread>, p: nat, k: nat, q: nat, i: nat, after: seq<seq<Thread>>)
    requires Wired(next, prev, lists, threads) && Apart(lists) && Within(lists, threads) && |after| == |lists|
    requires p < |lists| && k <= |lists[p]| && q < |lists| && i < |lists[q]|
    ensures NodeAt(lists[p], p, Behind(lists[p], k)) in prev
    ensures var links := LinkBefore(next, prev, NodeAt(lists[p], p, Behind(lists[p], k)), lists[q][i]);
      !Wired(links.0, links.1, after, threads)
  {
    var l, t, b := NodeAt(lists[p], p, Behind(lists[p], k)), lists[q][i], NodeAt(lists[q], q, i);
    assert JoinedAt(next, prev, lists, p, k) && JoinedAt(next, prev, lists, q, i);
    NodesDiffer(lists, q, i, q, i + 1);
    var links := LinkBefore(next, prev, l, t);
    assert !Coherent(links.0, links.1, b);
    if Wired(links.0, links.1, after, threads) {
      assert i > 0 ==> lists[q][i - 1] in lists[q];
      WiredCoherent(links.0, links.1, after, threads, b);
    }
  }

  /** The links are lists after an insertion exactly when the thread was in none. */
  lemma {:induction false} LinkExactly(next: map<int, int>, prev: map<int, int>, lists: seq<seq<Thread>>,
      threads: set<Thread>, p: nat, k: nat, t: Thread)
    requires Wired(next, prev, lists, threads) && Apart(lists) && Within(lists, threads)
    requires p < |lists| && k <= |lists[p]|
    ensures NodeAt(lists[p], p, Behind(lists[p], k)) in prev
    ensures var links := LinkBefore(next, prev, NodeAt(lists[p], p, Behind(lists[p], k)), t);
      Sane(links.0, links.1, |lists|, threads) <==> !Listed(lists, t)
  {
    assert JoinedAt(next, prev, lists, p, k);
    var links := LinkBefore(next, prev, NodeAt(lists[p], p, Behind(lists[p], k)), t);
    if Listed(lists, t) {
      var q :| 0 <= q < |lists| && t in lists[q];
      var i :| 0 <= i < |lists[q]| && lists[q][i] == t;
      forall after | |after| == |lists| ensures !Wired(links.0, links.1, after, threads) {
        InsertedTwice(next, prev, lists, threads, p, k, q, i, after);
      }
    } else {
      InsertWired(next, prev, lists, threads, p, k, t);
      assert Wired(links.0, links.1, lists[p := InsertAt(lists[p], k, t)], threads);
    }
  }

  lemma {:induction false} InsertWithin(lists: seq<seq<Thread>>, threads: set<Thread>, p: nat, k: nat, t: Thread)
    requires Within(lists, threads) && p < |lists| && k <= |lists[p]| && t in threads
    ensures Within(lists[p := InsertAt(lists[p], k, t)], threads)
  {
    var after := lists[p := InsertAt(lists[p], k, t)];
    assert lists[p] == lists[p][..k] + lists[p][k..];
    forall q, u | 0 <= q < |after| && u in after[q] ensures u in threads { assert u == t || u in lists[q]; }
  }

  /** rt_list_init on every node. */
  function SelfLinked(n: nat, threads: set<Thread>): (m: map<int, int>)
    ensures forall x {:trigger m[x]} :: x in m ==> m[x] == x
    ensures forall p: nat {:trigger Head(p)} :: p < n ==> Head(p) in m
    ensures forall t {:trigger t in threads} :: t in threads ==> t in m
  {
    var all: set<int> := threads;
    var heads := set p: nat | p < n :: Head(p);
    map x | x in all + heads :: x
  }

  /** The nodes of threads and list heads. */
  class ThreadLists {
    var next: map<int, int>
    var prev: map<int, int>
    ghost const threads: set<Thread>
    ghost var lists: seq<seq<Thread>>

    ghost predicate Valid()
      reads this
    {
      Apart(lists) && Within(lists, threads) && Wired(next, prev, lists, threads)
    }

    constructor (n: nat, threads: set<Thread>)
      ensures Valid() && this.threads == threads && lists == seq(n, p => [])
    {
      this.threads := threads;
      next, prev, lists := SelfLinked(n, threads), SelfLinked(n, threads), seq(n, p => []);
    }

    /** rt_list_insert_before */
    method ListInsertBefore(l: int, n: int)
      requires l in prev
      modifies `next, `prev
      ensures (next, prev) == LinkBefore(old(next), old(prev), l, n)
    {
      next := next[prev[l] := n];
      prev := prev[n := prev[l]];
      prev := prev[l := n];
      next := next[n := l];
    }

    /** rt_list_remove */
    method ListRemove(n: int)
      requires n in next && n in prev
      modifies `next, `prev
      ensures (next, prev) == UnlinkNode(old(next), old(prev), n)
    {
      prev := prev[next[n] := prev[n]];
      next := next[prev[n] := next[n]];
      prev := prev[n := n];
      next := next[n := n];
    }

    /** Takes a thread out of whichever list it is in. */
    method Remove(t: Thread)
      requires Valid() && t in threads
      modifies this
      ensures Valid() && lists == WithoutAll(old(lists), t)
    {
      RemoveWired(next, prev, lists, threads, t);
      WithoutAllApart(lists, t);
      ListRemove(t);
      lists := WithoutAll(lists, t);
    }

    /** Inserts a thread before the node that follows the `k`-th of list `p`. */
    method Insert(l: int, t: Thread, ghost p: nat, ghost k: nat)
      requires Valid() && p < |lists| && k <= |lists[p]| && l == NodeAt(lists[p], p, Behind(lists[p], k))
        && t in threads
      modifies this
      ensures Sane(next, prev, |lists|, threads) <==> !Listed(old(lists), t)
      ensures !Listed(old(lists), t) ==> Valid() && lists == old(lists)[p := InsertAt(old(lists)[p], k, t)]
      ensures |lists| == |old(lists)|
    {
      LinkExactly(next, prev, lists, threads, p, k, t);
      ListInsertBefore(l, t);
      if !Listed(lists, t) {
        InsertWired(old(next), old(prev), lists, threads, p, k, t);
        InsertApart(lists, p, k, t);
        InsertWithin(lists, threads, p, k, t);
        lists := lists[p := InsertAt(lists[p], k, t)];
      }
    }

    /** The list part of rt_schedule_insert_thread: the thread goes to the end of a queue. */
    method Append(p: nat, t: Thread)
      requires Valid() && p < |lists| && t in threads
      modifies this
      ensures Sane(next, prev, |lists|, threads) <==> !Listed(old(lists), t)
      ensures !Listed(old(lists), t) ==> Valid() && lists == old(lists)[p := old(lists)[p] + [t]]
    {
      ghost var q := lists[p];
      assert InsertAt(q, |q|, t) == q + [t];
      Insert(Head(p), t, p, |q|);
    }

    /** The list part of rt_ipc_list_suspend: the walk along the links to the first thread less
        urgent, and the insertion before it. */
    method Suspend(p: nat, flag: Flag, prio: map<Thread, nat>, t: Thread)
      requires Valid() && p < |lists| && t in threads
      modifies this
      ensures Sane(next, prev, |lists|, threads) <==> !Listed(old(lists), t)
      ensures !Listed(old(lists), t) ==> Valid() && lists == old(lists)[p := Enqueue(flag, old(lists)[p], prio, t)]
    {
      ghost var q, k := lists[p], Place(flag, lists[p], prio, t);
      EnqueueAt(flag, q, prio, t);
      assert InsertAt(q, k, t) == Enqueue(flag, q, prio, t);
      var l := Head(p);
      if flag.Prio? {
        PlaceUrgency(q, prio, t);
        assert JoinedAt(next, prev, lists, p, 0);
        l := next[l];
        ghost var i := 0;
        while l != Head(p) && !(Urgency(prio, t) < Urgency(prio, l))
          invariant i <= k && l == NodeAt(q, p, Behind(q, i))
          decreases |q| - i
        {
          i := i + 1;
          assert JoinedAt(next, prev, lists, p, i);
          l := next[l];
        }
      }
      Insert(l, t, p, k);
    }
  }

  // ---- the lists of the scheduler ----

  /** The ready queues, the defunct list and the wait lists. */
  function AllLists(s: System, waits: seq<seq<Thread>>): seq<seq<Thread>> {
    s.queues + [s.defunct] + waits
  }

  /** In a right state every thread is in at most one ready queue or on the defunct list, once. */
  lemma {:induction false} RightApart(s: System, idle: Thread)
    requires SchedulerSpec.Inv(s, idle)
    ensures Apart(AllLists(s, []))
  {
    var lists, n := AllLists(s, []), |s.queues|;
    forall p | 0 <= p < |lists| ensures Distinct(lists[p]) { assert p < n ==> Distinct(s.queues[p]); }
    forall p: nat, q: nat, t | p != q ensures !Shared(lists, p, q, t) {
      assert Gone(s, t) && (t in s.stat ==> Filed(s, t));
      assert p < n ==> (Member(s, p, t) <==> t in lists[p]);
      assert q < n ==> (Member(s, q, t) <==> t in lists[q]);
    }
  }

  /** rt_list_remove is the unlinking of the scheduler, whatever list the thread waits in. */
  lemma {:induction false} RemoveIsUnlink(s: System, idle: Thread, waits: seq<seq<Thread>>, t: Thread)
    requires SchedulerSpec.Inv(s, idle) && t in s.stat
    ensures t in s.prio && s.prio[t] < |s.queues|
    ensures WithoutAll(AllLists(s, waits), t) == AllLists(SchedulerSpec.Unlink(s, t), WithoutAll(waits, t))
  {
    assert Sound(s, t);
    var r := SchedulerSpec.Unlink(s, t);
    forall p | 0 <= p < |s.queues| ensures Without(s.queues[p], t) == r.queues[p] {
      if p != s.prio[t] {
        assert !Member(s, p, t);
        WithoutAbsent(s.queues[p], t);
      }
    }
  }

  /** The insertion at the end of its queue is that of the scheduler. */
  lemma {:induction false} AppendIsInsert(s: System, waits: seq<seq<Thread>>, t: Thread)
    requires t in s.prio && s.prio[t] < |s.queues|
    ensures var lists, p := AllLists(s, waits), s.prio[t];
      lists[p := lists[p] + [t]] == AllLists(SchedulerSpec.Insert(s, t), waits)
  {
  }
}
