/** A message queue in place: nodes in a pool, linked through their first word into a free
    list and a queue with head and tail pointers. */
module MessageQueue {
  import opened IpcList
  import opened Lists
  import opened MessageQueueSpec

  const NULL: int := -1

  /** A singly linked list from `h` through exactly the nodes `s`. */
  ghost predicate Chain(next: seq<int>, h: int, s: seq<Node>)
    decreases |s|
  {
    if s == [] then h == NULL else h == s[0] && s[0] < |next| && Chain(next, next[s[0]], s[1..])
  }

  /** Links of other nodes do not matter. */
  lemma {:induction false} ChainFrame(next: seq<int>, now: seq<int>, h: int, s: seq<Node>)
    requires Chain(next, h, s) && |now| == |next|
      && forall i :: 0 <= i < |s| && s[i] < |next| ==> now[s[i]] == next[s[i]]
    ensures Chain(now, h, s)
    decreases |s|
  {
    if s != [] { ChainFrame(next, now, next[s[0]], s[1..]); }
  }

  /** Writing the link of a node that is not in the list. */
  lemma {:induction false} ChainElsewhere(next: seq<int>, n: Node, x: int, h: int, s: seq<Node>)
    requires Chain(next, h, s) && n < |next| && n !in s
    ensures Chain(next[n := x], h, s)
  {
    ChainFrame(next, next[n := x], h, s);
  }

  lemma {:induction false} ChainInRange(next: seq<int>, h: int, s: seq<Node>)
    requires Chain(next, h, s)
    ensures forall i :: 0 <= i < |s| ==> s[i] < |next|
    decreases |s|
  {
    if s != [] {
      ChainInRange(next, next[s[0]], s[1..]);
      forall i | 0 <= i < |s| ensures s[i] < |next| { assert i > 0 ==> s[i] == s[1..][i - 1]; }
    }
  }

  /** Linking a node behind the last one. */
  lemma {:induction false} ChainAppend(next: seq<int>, h: int, s: seq<Node>, n: Node)
    requires Chain(next, h, s) && s != [] && n < |next| && next[n] == NULL && Distinct(s + [n])
    ensures s[|s| - 1] < |next| && Chain(next[s[|s| - 1] := n], h, s + [n])
    decreases |s|
  {
    ChainInRange(next, h, s);
    var last := s[|s| - 1];
    var now := next[last := n];
    var all := s + [n];
    assert Differ(all[|s| - 1], all[|s|]);
    if |s| == 1 {
      assert all[1..] == [n] && [n][1..] == [];
      assert Chain(now, NULL, []);
      assert Chain(now, n, [n]);
    } else {
      var tail := s[1..];
      forall i, j | 0 <= i < j < |tail + [n]| ensures Differ((tail + [n])[i], (tail + [n])[j]) {
        assert Differ(all[i + 1], all[j + 1]);
      }
      ChainAppend(next, next[s[0]], tail, n);
      assert Differ(all[0], all[|s| - 1]);
      assert all[1..] == tail + [n];
    }
  }

  function Nodes(items: seq<Item>): (r: seq<Node>)
    ensures |r| == |items| && forall i :: 0 <= i < |items| ==> r[i] == items[i].node
  {
    if items == [] then [] else [items[0].node] + Nodes(items[1..])
  }

  lemma {:induction false} NodesAppend(items: seq<Item>, item: Item)
    ensures Nodes(items + [item]) == Nodes(items) + [item.node] && Nodes([item] + items) == [item.node] + Nodes(items)
  {
  }

  lemma {:induction false} QueueNodes(q: Queue)
    requires Conserved(q)
    ensures Distinct(Nodes(q.queue)) && forall n :: n in Nodes(q.queue) <==> n in q.place && q.place[n] == InQueue
  {
    var s := Nodes(q.queue);
    forall i, j | 0 <= i < j < |s| ensures Differ(s[i], s[j]) { assert OtherNode(q.queue[i], q.queue[j]); }
    forall n ensures n in s <==> n in q.place && q.place[n] == InQueue {
      assert Placed(q, n);
      if n in s { var i :| 0 <= i < |s| && s[i] == n; assert q.queue[i].node == n; }
      if i :| 0 <= i < |q.queue| && q.queue[i].node == n { assert s[i] == n; }
    }
  }

  /** The free list and the queue as they are linked, with the tail pointer and the count. */
  ghost predicate Linked(next: seq<int>, freeHead: int, head: int, tail: int, entry: int, free: seq<Node>,
      items: seq<Item>) {
    && Chain(next, freeHead, free) && Chain(next, head, Nodes(items))
    && tail == (if items == [] then NULL else items[|items| - 1].node) && entry == |items|
  }

  /** Writing the link of a node in neither list. */
  lemma {:induction false} LinkedElsewhere(next: seq<int>, freeHead: int, head: int, tail: int, entry: int, q: Queue,
      n: Node, x: int)
    requires Linked(next, freeHead, head, tail, entry, q.free, q.queue) && Conserved(q) && n < |next|
    requires n in q.place && q.place[n].HeldBy?
    ensures Linked(next[n := x], freeHead, head, tail, entry, q.free, q.queue)
  {
    assert Placed(q, n);
    QueueNodes(q);
    ChainElsewhere(next, n, x, freeHead, q.free);
    ChainElsewhere(next, n, x, head, Nodes(q.queue));
  }

  lemma {:induction false} LinkUrgent(next: seq<int>, freeHead: int, head: int, tail: int, entry: int, q: Queue,
      item: Item)
    requires Linked(next, freeHead, head, tail, entry, q.free, q.queue) && Conserved(q) && item.node < |next|
    requires item.node in q.place && q.place[item.node].HeldBy?
    ensures Linked(next[item.node := head], freeHead, item.node, if tail == NULL then item.node else tail, entry + 1,
      q.free, [item] + q.queue)
  {
    LinkedElsewhere(next, freeHead, head, tail, entry, q, item.node, head);
    NodesAppend(q.queue, item);
    assert ([item.node] + Nodes(q.queue))[1..] == Nodes(q.queue);
  }

  lemma {:induction false} LinkPlain(next: seq<int>, freeHead: int, head: int, tail: int, entry: int, q: Queue,
      item: Item)
    requires Linked(next, freeHead, head, tail, entry, q.free, q.queue) && Conserved(q) && item.node < |next|
      && next[item.node] == NULL
    requires item.node in q.place && q.place[item.node].HeldBy?
    ensures tail != NULL ==> 0 <= tail < |next| && tail in q.place && q.place[tail] == InQueue
    ensures Linked(if tail != NULL then next[tail := item.node] else next, freeHead,
      if head == NULL then item.node else head, item.node, entry + 1, q.free, q.queue + [item])
  {
    var s, m := Nodes(q.queue), item.node;
    QueueNodes(q);
    assert Placed(q, m);
    NodesAppend(q.queue, item);
    if tail != NULL {
      AppendDistinct(s, m);
      ChainAppend(next, head, s, m);
      assert tail == s[|s| - 1];
      var n := s[|s| - 1];
      assert n in s && Placed(q, n);
      ChainElsewhere(next, n, m, freeHead, q.free);
    } else {
      assert s + [m] == [m] && [m][1..] == [] && Chain(next, NULL, []);
    }
  }

  lemma {:induction false} UnlinkFirst(next: seq<int>, freeHead: int, head: int, tail: int, entry: int, q: Queue)
    requires Linked(next, freeHead, head, tail, entry, q.free, q.queue) && Conserved(q) && q.queue != []
    ensures head == q.queue[0].node && 0 <= head < |next|
    ensures Linked(next, freeHead, next[head], if tail == head then NULL else tail, entry - 1, q.free, q.queue[1..])
  {
    var s := Nodes(q.queue);
    QueueNodes(q);
    assert |s| > 1 ==> Differ(s[0], s[|s| - 1]);
    assert s[1..] == Nodes(q.queue[1..]);
  }

  lemma {:induction false} PopFree(next: seq<int>, freeHead: int, head: int, tail: int, entry: int, q: Queue)
    requires Linked(next, freeHead, head, tail, entry, q.free, q.queue)
    ensures freeHead == NULL <==> q.free == []
    ensures q.free != [] ==>
      freeHead == q.free[0] && 0 <= freeHead < |next|
      && Linked(next, next[freeHead], head, tail, entry, q.free[1..], q.queue)
  {
  }

  lemma {:induction false} PushFree(next: seq<int>, freeHead: int, head: int, tail: int, entry: int, q: Queue, n: Node)
    requires Linked(next, freeHead, head, tail, entry, q.free, q.queue) && Conserved(q) && n < |next|
    requires n in q.place && q.place[n].HeldBy?
    ensures Linked(next[n := freeHead], n, head, tail, entry, [n] + q.free, q.queue)
  {
    LinkedElsewhere(next, freeHead, head, tail, entry, q, n, freeHead);
    assert ([n] + q.free)[1..] == q.free;
  }

  /** Moving the head of one list to the front of the other. */
  lemma {:induction false} MoveToFree(next: seq<int>, freeHead: int, head: int, free: seq<Node>, s: seq<Node>)
    requires Chain(next, freeHead, free) && Chain(next, head, s) && s != [] && Distinct(s)
      && forall n :: n in s ==> n !in free
    ensures head == s[0] && 0 <= head < |next|
    ensures Chain(next[head := freeHead], head, [s[0]] + free) && Chain(next[head := freeHead], next[head], s[1..])
    ensures Distinct(s[1..]) && forall n :: n in s[1..] ==> n !in [s[0]] + free
    ensures s[0] in s && forall n {:trigger n in s} :: n in s[1..] ==> n in s
  {
    var m := s[0];
    assert m in s;
    forall k | 1 <= k < |s| ensures s[k] != m { assert Differ(s[0], s[k]); }
    ChainElsewhere(next, m, freeHead, freeHead, free);
    ChainElsewhere(next, m, freeHead, next[m], s[1..]);
    assert ([m] + free)[1..] == free;
    forall i, j | 0 <= i < j < |s[1..]| ensures Differ(s[1..][i], s[1..][j]) { assert Differ(s[i + 1], s[j + 1]); }
  }

  /** The queue on its way to the free list: `rest` is still linked, `acc` is free. */
  ghost predicate Emptying(start: seq<int>, next: seq<int>, freeHead: int, head: int, tail: int, acc: seq<Node>,
      rest: seq<Item>) {
    && |next| == |start| && Chain(next, freeHead, acc) && Chain(next, head, Nodes(rest)) && Distinct(Nodes(rest))
    && tail == (if rest == [] then NULL else rest[|rest| - 1].node) && forall n :: n in Nodes(rest) ==> n !in acc
  }

  lemma {:induction false} EmptyStart(next: seq<int>, freeHead: int, head: int, tail: int, entry: int, q: Queue)
    requires Linked(next, freeHead, head, tail, entry, q.free, q.queue) && Conserved(q)
    ensures Emptying(next, next, freeHead, head, tail, q.free, q.queue)
  {
    QueueNodes(q);
    forall n | n in Nodes(q.queue) ensures n !in q.free { assert Placed(q, n); }
  }

  lemma {:induction false} EmptyEnd(start: seq<int>, next: seq<int>, freeHead: int, tail: int, acc: seq<Node>,
      rest: seq<Item>)
    requires Emptying(start, next, freeHead, NULL, tail, acc, rest)
    ensures tail == NULL && Chain(next, freeHead, NodesOf(rest) + acc)
  {
    assert rest == [];
    assert NodesOf(rest) + acc == acc;
  }

  lemma {:induction false} EmptyStep(start: seq<int>, next: seq<int>, freeHead: int, head: int, tail: int,
      acc: seq<Node>, rest: seq<Item>)
    requires Emptying(start, next, freeHead, head, tail, acc, rest) && head != NULL
    ensures rest != [] && head == rest[0].node && 0 <= head < |next| && head in Nodes(rest)
    ensures Emptying(start, next[head := freeHead], head, next[head], if tail == head then NULL else tail,
      [rest[0].node] + acc, rest[1..])
    ensures NodesOf(rest[1..]) + ([rest[0].node] + acc) == NodesOf(rest) + acc
    ensures forall n {:trigger n in Nodes(rest)} {:trigger n in Nodes(rest[1..])} :: n in Nodes(rest[1..]) ==>
      n in Nodes(rest)
  {
    var s := Nodes(rest);
    MoveToFree(next, freeHead, head, acc, s);
    assert |s| > 1 ==> Differ(s[0], s[|s| - 1]);
    assert s[1..] == Nodes(rest[1..]);
  }

  lemma AppendDistinct(s: seq<Node>, m: Node)
    requires Distinct(s) && m !in s
    ensures Distinct(s + [m])
  {
    var r := s + [m];
    forall i, j | 0 <= i < j < |r| ensures Differ(r[i], r[j]) { assert j < |s| ==> Differ(s[i], s[j]); }
  }

  ghost predicate Bodies(body: seq<seq<byte>>, b: map<Node, seq<byte>>) {
    forall n: Node {:trigger n in b} :: n < |body| ==> n in b && b[n] == body[n]
  }

  class MessageQueue {
    const msgSize: nat
    const max: nat
    const flag: Flag
    var next: seq<int>
    var body: seq<seq<byte>>
    var head: int
    var tail: int
    var freeHead: int
    var entry: nat
    const waiters: WaitList
    ghost var q: Queue

    ghost predicate Valid()
      reads this, waiters
    {
      && |next| == |body| == max == q.nodes && q.flag == flag && q.msgSize == msgSize
      && Linked(next, freeHead, head, tail, entry, q.free, q.queue)
      && waiters.threads == q.wait && Bodies(body, q.body)
      && Inv(q)
    }

    /** rt_mq_init: the pool is cut into nodes, pushed one by one onto the free list. */
    constructor (msgSize: nat, max: nat, flag: Flag, contexts: set<Thread>, prio: map<Thread, nat>)
      ensures Valid() && fresh(waiters)
      ensures exists b :: q == Initial(msgSize, max, flag, b, contexts, prio)
    {
      this.msgSize, this.max, this.flag := msgSize, max, flag;
      head, tail, freeHead, entry := NULL, NULL, NULL, 0;
      waiters := new WaitList();
      body := seq(max, _ => seq(msgSize, _ => 0));
      next := seq(max, _ => NULL);
      ghost var bodies := map n: Node | n in CountDown(max) :: seq(msgSize, _ => 0);
      q := Initial(msgSize, max, flag, bodies, contexts, prio);
      new;
      forall n: Node | n < max ensures n in bodies { assert CountDown(max)[max - 1 - n] == n; }
      InitialInv(msgSize, max, flag, bodies, contexts, prio);
      assert Bodies(body, bodies);
      PushAll();
      assert Linked(next, freeHead, head, tail, entry, q.free, q.queue);
      hide Linked, Bodies, Inv, Initial;
    }

    method PushAll()
      requires |next| == max && freeHead == NULL
      modifies this`next, this`freeHead
      ensures |next| == max && Chain(next, freeHead, CountDown(max))
    {
      var temp := 0;
      while temp < max
        invariant 0 <= temp <= max && |next| == max && Chain(next, freeHead, CountDown(temp))
      {
        ChainElsewhere(next, temp, freeHead, freeHead, CountDown(temp));
        next := next[temp := freeHead];
        freeHead := temp;
        temp := temp + 1;
        assert CountDown(temp)[1..] == CountDown(temp - 1);
      }
    }

    /** No section touches the link word of a node another context holds. */
    twostate predicate HeldUntouched(t: Thread)
      reads this
    {
      |next| == |old(next)| &&
      forall n: Node {:trigger next[n]} ::
        n < |next| && n in old(q.place) && old(q.place)[n].HeldBy? && old(q.place)[n].t != t ==> next[n] == old(next)[n]
    }

    /** rt_mq_send and rt_mq_urgent, first section: take a node off the free list. */
    method SendBeginSection(t: Thread, buf: seq<byte>, urgent: bool) returns (node: int)
      requires Valid() && Legal(q, SendBegin(t, buf, urgent))
      modifies this`freeHead, this`q
      ensures Valid() && q == Next(old(q), SendBegin(t, buf, urgent)) && HeldUntouched(t)
      ensures node == NULL <==> |buf| > msgSize || old(q).free == []
      ensures node != NULL ==> node == old(q).free[0] && q.calls[t] == Sending(node, buf, 0, urgent)
    {
      hide Conserved, Ordered, Intact, NoLostWakeup, Fair, Accounted, Once;
      NextInv(q, SendBegin(t, buf, urgent));
      PopFree(next, freeHead, head, tail, entry, q);
      if |buf| > msgSize { return NULL; }
      node := freeHead;
      if node == NULL { return; }
      freeHead := next[node];
      q := Next(q, SendBegin(t, buf, urgent));
    }

    /** Between the sections: the node of a plain send gets a null link. */
    method ClearLink(t: Thread, node: Node)
      requires Valid() && t in q.calls && Holds(q.calls[t], node)
      modifies this`next
      ensures Valid() && HeldUntouched(t) && node < max && next[node] == NULL
    {
      hide Conserved, Ordered, Intact, NoLostWakeup, Fair, Accounted, Once;
      HeldNode(q, t, node);
      LinkedElsewhere(next, freeHead, head, tail, entry, q, node, NULL);
      next := next[node := NULL];
    }

    /** Between the sections: one byte of the message is copied in. */
    method CopyIn(t: Thread, node: Node, k: nat, b: byte)
      requires Valid() && Legal(q, SendCopy(t)) && q.calls[t].node == node && q.calls[t].k == k
        && q.calls[t].buf[k] == b
      modifies this`body, this`q
      ensures Valid() && q == Next(old(q), SendCopy(t)) && HeldUntouched(t)
    {
      hide Conserved, Ordered, Intact, NoLostWakeup, Fair, Accounted, Once;
      ghost var after := Next(q, SendCopy(t));
      NextInv(q, SendCopy(t));
      HeldNode(q, t, node);
      assert node in q.body;
      body := body[node := body[node][k := b]];
      q := after;
    }

    /** Between the sections: one byte of the message is copied out. */
    method CopyOut(t: Thread, node: Node, k: nat) returns (b: byte)
      requires Valid() && Legal(q, RecvCopy(t)) && q.calls[t].item.node == node && |q.calls[t].got| == k
      modifies this`q
      ensures Valid() && q == Next(old(q), RecvCopy(t)) && q.calls[t].got == old(q).calls[t].got + [b]
    {
      hide Conserved, Ordered, Intact, NoLostWakeup, Fair, Accounted, Once;
      NextInv(q, RecvCopy(t));
      HeldNode(q, t, node);
      assert node in q.body;
      b := body[node][k];
      q := Next(q, RecvCopy(t));
    }

    /** The linking part of rt_mq_send and rt_mq_urgent. */
    method Link(node: Node, urgent: bool, ghost item: Item)
      requires Linked(next, freeHead, head, tail, entry, q.free, q.queue) && Conserved(q) && node < |next|
        && item.node == node
      requires node in q.place && q.place[node].HeldBy? && (!urgent ==> next[node] == NULL)
      modifies this`next, this`head, this`tail, this`entry
      ensures Linked(next, freeHead, head, tail, entry, q.free, if urgent then [item] + q.queue else q.queue + [item])
      ensures |next| == |old(next)|
      ensures forall n: Node {:trigger next[n]} ::
        n < |next| && n != node && !(n in q.place && q.place[n] == InQueue) ==> next[n] == old(next)[n]
    {
      if urgent {
        LinkUrgent(next, freeHead, head, tail, entry, q, item);
        next := next[node := head];
        head := node;
        if tail == NULL { tail := node; }
      } else {
        LinkPlain(next, freeHead, head, tail, entry, q, item);
        if tail != NULL { next := next[tail := node]; }
        tail := node;
        if head == NULL { head := node; }
      }
      entry := entry + 1;
    }

    /** Links the node and wakes a receiver; `after` is the state this leads to. */
    method LinkAndWake(node: Node, urgent: bool, ghost item: Item, ghost after: Queue)
      requires Valid() && node < max && (!urgent ==> next[node] == NULL) && item.node == node && node in q.place
        && q.place[node].HeldBy?
      requires Inv(after) && SameRest(q, after) && after.queue == if urgent then [item] + q.queue else q.queue + [item]
      requires after.wait == if q.wait == [] then [] else q.wait[1..]
      modifies this, waiters
      ensures Valid() && q == after && |next| == |old(next)|
      ensures forall n: Node {:trigger next[n]} ::
        n < |next| && n != node && !(n in old(q.place) && old(q.place)[n] == InQueue) ==> next[n] == old(next)[n]
    {
      hide Conserved, Ordered, Intact, NoLostWakeup, Fair, Accounted, Once, Linked, Bodies;
      Link(node, urgent, item);
      if waiters.threads != [] { waiters.threads := waiters.threads[1..]; }
      q := after;
    }

    /** rt_mq_send and rt_mq_urgent, last section: link the node, wake a receiver. */
    method SendLinkSection(t: Thread, node: Node, urgent: bool)
      requires Valid() && Legal(q, SendLink(t)) && q.calls[t].node == node && q.calls[t].urgent == urgent
      requires node < max && (!urgent ==> next[node] == NULL)
      modifies this, waiters
      ensures Valid() && q == Next(old(q), SendLink(t)) && HeldUntouched(t)
    {
      hide Conserved, Ordered, Intact, NoLostWakeup, Fair, Accounted, Once;
      NextInv(q, SendLink(t));
      HeldNode(q, t, node);
      SendLinkFields(q, t);
      LinkAndWake(node, urgent, Item(node, q.links, urgent, q.calls[t].buf), Next(q, SendLink(t)));
    }

    /** rt_thread_timeout on a receiver waiting here. */
    method TimeoutSection(t: Thread)
      requires Valid() && Legal(q, Timeout(t))
      modifies this`q, waiters
      ensures Valid() && q == Next(old(q), Timeout(t)) && HeldUntouched(t)
    {
      hide Conserved, Ordered, Intact, NoLostWakeup, Fair, Accounted, Once;
      NextInv(q, Timeout(t));
      waiters.threads := Without(waiters.threads, t);
      q := Next(q, Timeout(t));
    }

    /** rt_mq_control, reset command: the waiting calls fail and the queue is emptied node by
        node into the free list. */
    method ResetSection()
      requires Valid()
      modifies this, waiters
      ensures Valid() && q == Next(old(q), Reset) && |next| == |old(next)|
      ensures forall n: Node {:trigger next[n]} :: n < |next| && n in old(q.place) && old(q.place)[n].HeldBy? ==>
        next[n] == old(next)[n]
    {
      hide Conserved, Ordered, Intact, NoLostWakeup, Fair, Accounted, Once;
      ghost var after := Next(q, Reset);
      NextInv(q, Reset);
      QueueNodes(q);
      while waiters.threads != []
        invariant unchanged(this)
        decreases |waiters.threads|
      {
        waiters.threads := waiters.threads[1..];
      }
      EmptyQueue(q.free, q.queue);
      entry := 0;
      q := after;
    }

    method EmptyQueue(ghost free: seq<Node>, ghost items: seq<Item>)
      requires Linked(next, freeHead, head, tail, entry, free, items) && Conserved(q) && free == q.free
        && items == q.queue
      modifies this`next, this`head, this`tail, this`freeHead
      ensures |next| == |old(next)| && head == NULL && tail == NULL && Chain(next, freeHead, NodesOf(items) + free)
      ensures forall n: Node {:trigger next[n]} :: n < |next| && n !in Nodes(items) ==> next[n] == old(next)[n]
    {
      ghost var rest, acc := items, free;
      EmptyStart(next, freeHead, head, tail, entry, q);
      hide Emptying, Nodes, NodesOf, Linked, Conserved, Chain;
      while head != NULL
        invariant Emptying(old(next), next, freeHead, head, tail, acc, rest)
          && NodesOf(rest) + acc == NodesOf(items) + free
        invariant forall n {:trigger n in Nodes(rest)} :: n in Nodes(rest) ==> n in Nodes(items)
        invariant |next| == |old(next)|
          && forall n: Node {:trigger next[n]} :: n < |next| && n !in Nodes(items) ==> next[n] == old(next)[n]
        decreases |rest|
      {
        var msg := head;
        EmptyStep(old(next), next, freeHead, head, tail, acc, rest);
        head := next[msg];
        if tail == msg { tail := NULL; }
        next := next[msg := freeHead];
        freeHead := msg;
        rest, acc := rest[1..], [rest[0].node] + acc;
      }
      EmptyEnd(old(next), next, freeHead, tail, acc, rest);
    }

    /** rt_mq_recv up to the first suspension or to the copy. */
    method RecvBeginSection(t: Thread, size: nat, blocking: bool, forever: bool, prio: map<Thread, nat>)
        returns (node: int)
      requires Valid() && Legal(q, RecvBegin(t, size, blocking, forever)) && prio == q.prio
      modifies this, waiters
      ensures Valid() && q == Next(old(q), RecvBegin(t, size, blocking, forever)) && HeldUntouched(t)
      ensures if old(q).queue == [] then node == NULL else node == old(q).queue[0].node
    {
      hide Conserved, Ordered, Intact, NoLostWakeup, Fair, Accounted, Once;
      ghost var after := Next(q, RecvBegin(t, size, blocking, forever));
      NextInv(q, RecvBegin(t, size, blocking, forever));
      node := NULL;
      if entry == 0 {
        if blocking { waiters.Suspend(t, flag, prio); }
      } else {
        node := Unlink();
      }
      q := after;
    }

    /** rt_mq_recv from a wake-up on. */
    method RecvAgainSection(t: Thread, expired: bool, prio: map<Thread, nat>) returns (node: int)
      requires Valid() && Legal(q, RecvAgain(t, expired)) && prio == q.prio
      modifies this, waiters
      ensures Valid() && q == Next(old(q), RecvAgain(t, expired)) && HeldUntouched(t)
      ensures if old(q).queue == [] then node == NULL else node == old(q).queue[0].node
    {
      hide Conserved, Ordered, Intact, NoLostWakeup, Fair, Accounted, Once;
      ghost var after := Next(q, RecvAgain(t, expired));
      NextInv(q, RecvAgain(t, expired));
      node := NULL;
      if entry == 0 {
        if !expired { waiters.Suspend(t, flag, prio); }
      } else {
        node := Unlink();
      }
      q := after;
    }

    /** The head message leaves the queue. */
    method Unlink() returns (node: Node)
      requires Linked(next, freeHead, head, tail, entry, q.free, q.queue) && Conserved(q) && entry > 0
      modifies this`head, this`tail, this`entry
      ensures node == q.queue[0].node && Linked(next, freeHead, head, tail, entry, q.free, q.queue[1..])
    {
      UnlinkFirst(next, freeHead, head, tail, entry, q);
      node := head;
      head := next[node];
      if tail == node { tail := NULL; }
      entry := entry - 1;
    }

    /** rt_mq_recv, last section: the node goes back to the free list. */
    method RecvEndSection(t: Thread, node: Node)
      requires Valid() && Legal(q, RecvEnd(t)) && q.calls[t].item.node == node
      modifies this`next, this`freeHead, this`q
      ensures Valid() && q == Next(old(q), RecvEnd(t)) && HeldUntouched(t)
    {
      hide Conserved, Ordered, Intact, NoLostWakeup, Fair, Accounted, Once;
      ghost var after := Next(q, RecvEnd(t));
      NextInv(q, RecvEnd(t));
      HeldNode(q, t, node);
      PushFree(next, freeHead, head, tail, entry, q, node);
      next := next[node := freeHead];
      freeHead := node;
      q := after;
    }
  }

  lemma {:induction false} HeldNode(q: Queue, t: Thread, n: Node)
    requires Conserved(q) && t in q.calls && Holds(q.calls[t], n)
    ensures n < q.nodes && n in q.place && q.place[n] == HeldBy(t)
  {
    assert HeldRight(q, t, n) && Placed(q, n);
  }

  /** Everything but the queue and the calls. */
  predicate SameRest(q: Queue, r: Queue) {
    r.free == q.free && r.body == q.body && r.nodes == q.nodes && r.flag == q.flag && r.msgSize == q.msgSize
  }

  lemma {:induction false} SendLinkFields(q: Queue, t: Thread)
    requires Inv(q) && Legal(q, SendLink(t))
    ensures var r, c := Next(q, SendLink(t)), q.calls[t];
      var item := Item(c.node, q.links, c.urgent, c.buf);
      && SameRest(q, r) && r.queue == (if c.urgent then [item] + q.queue else q.queue + [item])
      && r.wait == if q.wait == [] then [] else q.wait[1..]
  {
    WakeFirst(q);
  }

  lemma {:induction false} WakeFirst(q: Queue)
    requires NoLostWakeup(q)
    ensures q.wait != [] ==> q.wait[0] in q.calls && q.calls[q.wait[0]].RecvSuspended?
  {
    if q.wait != [] { assert Waits(q, q.wait[0]); }
  }
}
