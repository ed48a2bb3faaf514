/** Message queues as a protocol of atomic sections. The copies in and out of the message
    nodes run with interrupts enabled, one byte at a time, interleaved with everything else. */
module MessageQueueSpec {
  import opened IpcList
  import opened Lists

  type Node = nat
  type byte = int

  /** A linked message: its node, its number in link order, and what was sent. */
  datatype Item = Item(node: Node, id: nat, urgent: bool, msg: seq<byte>)

  /** A message that left the queue: delivered, with the number of messages linked by then, or
      dropped by a reset, with the number of deliveries by then. */
  datatype Logged = Logged(item: Item, mark: nat)

  /** Where a context (a thread, or an interrupt that sends) is in a call. */
  datatype Call =
    | Idle
    | Sending(node: Node, buf: seq<byte>, k: nat, urgent: bool)
    | RecvSuspended(size: nat, forever: bool)
    | RecvWoken(size: nat, forever: bool)
    | Receiving(item: Item, size: nat, got: seq<byte>)

  /** The one place a node is in: the free list, the queue, or the call of a context. */
  datatype Place = InFree | InQueue | HeldBy(t: Thread)

  datatype QueueOf<Nodes, Items, Threads, Buffers, Log> = Queue(
    msgSize: nat,
    nodes: nat,
    flag: Flag,
    place: map<Node, Place>,
    free: Nodes,
    queue: Items,
    body: map<Node, seq<byte>>,
    calls: map<Thread, Call>,
    wait: Threads,
    prio: map<Thread, nat>,
    links: nat,
    received: Buffers,
    delivered: Log,
    dropped: Log)

  type Queue = QueueOf<seq<Node>, seq<Item>, seq<Thread>, seq<(Item, seq<byte>)>, seq<Logged>>

  datatype Event =
    | SendBegin(t: Thread, buf: seq<byte>, urgent: bool)
    | SendCopy(t: Thread)
    | SendLink(t: Thread)
    | RecvBegin(t: Thread, size: nat, blocking: bool, forever: bool)
    | RecvAgain(t: Thread, expired: bool)
    | RecvCopy(t: Thread)
    | RecvEnd(t: Thread)
    | Timeout(t: Thread)
    | Reset

  function Min(a: nat, b: nat): nat { if a < b then a else b }

  predicate Legal(q: Queue, e: Event) {
    e.Reset? || (e.t in q.calls && var c := q.calls[e.t];
      match e
      case SendBegin(_, buf, _) => c.Idle? && buf != []
      case SendCopy(_) => c.Sending? && c.k < |c.buf| && c.node in q.body && |c.buf| <= |q.body[c.node]|
      case SendLink(_) => c.Sending? && c.k == |c.buf|
      case RecvBegin(_, size, _, _) => c.Idle? && size != 0
      case RecvAgain(_, expired) => c.RecvWoken? && (expired ==> !c.forever)
      case RecvCopy(_) => c.Receiving? && |c.got| < Min(c.size, q.msgSize) && c.item.node in q.body
        && |c.got| < |q.body[c.item.node]|
      case RecvEnd(_) => c.Receiving? && |c.got| == Min(c.size, q.msgSize)
      case Timeout(_) => c.RecvSuspended? && !c.forever)
  }

  function SetCall(q: Queue, t: Thread, c: Call): Queue { q.(calls := q.calls[t := c]) }

  /** The first suspended receiver is woken. */
  function Wake(q: Queue): Queue {
    if q.wait == [] || q.wait[0] !in q.calls || !q.calls[q.wait[0]].RecvSuspended? then q
    else
      var c := q.calls[q.wait[0]];
      q.(wait := q.wait[1..], calls := q.calls[q.wait[0] := RecvWoken(c.size, c.forever)])
  }

  /** The head message leaves the queue for `t`. */
  function Detach(q: Queue, t: Thread, size: nat): Queue
    requires q.queue != []
  {
    var item := q.queue[0];
    SetCall(q.(queue := q.queue[1..], place := q.place[item.node := HeldBy(t)],
      delivered := q.delivered + [Logged(item, q.links)]),
            t, Receiving(item, size, []))
  }

  function Suspend(q: Queue, t: Thread, size: nat, forever: bool): Queue {
    SetCall(q.(wait := Enqueue(q.flag, q.wait, q.prio, t)), t, RecvSuspended(size, forever))
  }

  function NodesOf(items: seq<Item>): seq<Node> {
    if items == [] then [] else NodesOf(items[1..]) + [items[0].node]
  }

  function Marked(items: seq<Item>, mark: nat): (r: seq<Logged>)
    ensures |r| == |items| && forall i :: 0 <= i < |items| ==> r[i] == Logged(items[i], mark)
  {
    seq(|items|, i requires 0 <= i < |items| => Logged(items[i], mark))
  }

  function Next(q: Queue, e: Event): Queue
    requires Legal(q, e)
  {
    match e
    case SendBegin(t, buf, urgent) =>
      if |buf| > q.msgSize || q.free == [] then q
      else SetCall(q.(free := q.free[1..], place := q.place[q.free[0] := HeldBy(t)]), t,
         Sending(q.free[0], buf, 0, urgent))
    case SendCopy(t) =>
      var c := q.calls[t];
      SetCall(q.(body := q.body[c.node := q.body[c.node][c.k := c.buf[c.k]]]), t, c.(k := c.k + 1))
    case SendLink(t) =>
      var c := q.calls[t];
      var item := Item(c.node, q.links, c.urgent, c.buf);
      Wake(SetCall(q.(queue := if c.urgent then [item] + q.queue else q.queue + [item],
                      place := q.place[c.node := InQueue], links := q.links + 1), t, Idle))
    case RecvBegin(t, size, blocking, forever) =>
      if q.queue != [] then Detach(q, t, size) else if blocking then Suspend(q, t, size, forever) else q
    case RecvAgain(t, expired) =>
      var c := q.calls[t];
      if q.queue != [] then Detach(q, t, c.size) else if expired then SetCall(q, t, Idle)
        else Suspend(q, t, c.size, c.forever)
    case RecvCopy(t) =>
      var c := q.calls[t];
      SetCall(q, t, c.(got := c.got + [q.body[c.item.node][|c.got|]]))
    case RecvEnd(t) =>
      var c := q.calls[t];
      SetCall(q.(free := [c.item.node] + q.free, place := q.place[c.item.node := InFree],
        received := q.received + [(c.item, c.got)]), t, Idle)
    case Timeout(t) => SetCall(q.(wait := Without(q.wait, t)), t, Idle)
    case Reset =>
      q.(wait := [], queue := [], dropped := q.dropped + Marked(q.queue, |q.delivered|),
        free := NodesOf(q.queue) + q.free,
         place := map n | n in q.place :: if q.place[n] == InQueue then InFree else q.place[n],
         calls := map t | t in q.calls :: if q.calls[t].RecvSuspended? then Idle else q.calls[t])
  }

  // ---- every node is in exactly one place ----

  predicate Holds(c: Call, n: Node) {
    (c.Sending? && c.node == n) || (c.Receiving? && c.item.node == n)
  }

  predicate Queued(items: seq<Item>, n: Node) { exists i :: 0 <= i < |items| && items[i].node == n }

  /** The free list and the queue hold exactly the nodes placed there. */
  predicate Placed(q: Queue, n: Node) {
    && (n in q.place <==> n < q.nodes)
    && (n in q.free <==> n in q.place && q.place[n] == InFree)
    && (Queued(q.queue, n) <==> n in q.place && q.place[n] == InQueue)
  }

  /** A call holds exactly the node placed with it. */
  predicate HeldRight(q: Queue, t: Thread, n: Node)
    requires t in q.calls
  {
    Holds(q.calls[t], n) <==> n in q.place && q.place[n] == HeldBy(t)
  }

  /** Conservation: every node is in exactly one place, and there only once. */
  ghost predicate Conserved(q: Queue) {
    && Distinct(q.free)
    && (forall i, j {:trigger OtherNode(q.queue[i], q.queue[j])} :: 0 <= i < j < |q.queue| ==>
       OtherNode(q.queue[i], q.queue[j]))
    && (forall n {:trigger Placed(q, n)} :: Placed(q, n))
    && (forall t, n {:trigger HeldRight(q, t, n)} :: t in q.calls ==> HeldRight(q, t, n))
  }

  predicate OtherNode(a: Item, b: Item) { a.node != b.node }

  // ---- order ----

  /** Which of two linked messages is delivered first: urgent ones newest first, then the
      others oldest first. */
  predicate Ahead(a: Item, b: Item) {
    if a.urgent then !b.urgent || a.id > b.id else !b.urgent && a.id < b.id
  }

  predicate Numbered(a: Item, links: nat) { a.id < links }

  ghost predicate Ordered(q: Queue) {
    && (forall i, j {:trigger Ahead(q.queue[i], q.queue[j])} :: 0 <= i < j < |q.queue| ==>
       Ahead(q.queue[i], q.queue[j]))
    && (forall i {:trigger Numbered(q.queue[i], q.links)} :: 0 <= i < |q.queue| ==> Numbered(q.queue[i], q.links))
  }

  // ---- deliveries ----

  /** When `d` was delivered, `x` was not linked yet or had to wait. */
  predicate InTurn(d: Logged, x: Item) { x.id >= d.mark || Ahead(d.item, x) }

  predicate LoggedOk(d: Logged, links: nat) { d.item.id < d.mark <= links }

  predicate DropOk(q: Queue, k: nat)
    requires k < |q.dropped|
  {
    q.dropped[k].mark <= |q.delivered|
  }

  predicate LaterDelivered(q: Queue, i: nat, j: nat) {
    i < j < |q.delivered| ==> InTurn(q.delivered[i], q.delivered[j].item)
  }

  predicate LaterQueued(q: Queue, i: nat, k: nat) {
    i < |q.delivered| && k < |q.queue| ==> InTurn(q.delivered[i], q.queue[k])
  }

  predicate LaterDropped(q: Queue, i: nat, k: nat) {
    k < |q.dropped| && i < q.dropped[k].mark && i < |q.delivered| ==> InTurn(q.delivered[i], q.dropped[k].item)
  }

  /** Nothing that had to go first was queued when a message was delivered: not what was
      delivered later, not what is still queued, and not what was dropped later. */
  ghost predicate Fair(q: Queue) {
    && (forall i {:trigger LoggedOk(q.delivered[i], q.links)} :: 0 <= i < |q.delivered| ==>
       LoggedOk(q.delivered[i], q.links))
    && (forall k: nat {:trigger DropOk(q, k)} :: k < |q.dropped| ==> DropOk(q, k))
    && (forall i: nat, j: nat {:trigger LaterDelivered(q, i, j)} :: LaterDelivered(q, i, j))
    && (forall i: nat, k: nat {:trigger LaterQueued(q, i, k)} :: LaterQueued(q, i, k))
    && (forall i: nat, k: nat {:trigger LaterDropped(q, i, k)} :: LaterDropped(q, i, k))
  }

  function Ids(items: seq<Item>): (r: seq<nat>)
    ensures |r| == |items| && forall i :: 0 <= i < |items| ==> r[i] == items[i].id
  {
    seq(|items|, i requires 0 <= i < |items| => items[i].id)
  }

  function LogIds(log: seq<Logged>): (r: seq<nat>)
    ensures |r| == |log| && forall i :: 0 <= i < |log| ==> r[i] == log[i].item.id
  {
    seq(|log|, i requires 0 <= i < |log| => log[i].item.id)
  }

  function UpTo(n: nat): (r: seq<nat>)
    ensures |r| == n && forall i :: 0 <= i < n ==> r[i] == i
  {
    seq(n, i requires 0 <= i < n => i)
  }

  /** Every message linked so far is queued, delivered or dropped, one of them and once. */
  ghost predicate Accounted(q: Queue) { Total(q.queue, q.delivered, q.dropped) == multiset(UpTo(q.links)) }

  ghost function Total(items: seq<Item>, delivered: seq<Logged>, dropped: seq<Logged>): multiset<nat> {
    multiset(Ids(items)) + multiset(LogIds(delivered)) + multiset(LogIds(dropped))
  }

  predicate Was(log: seq<Logged>, item: Item) { exists k :: 0 <= k < |log| && log[k].item == item }

  predicate OtherId(a: Item, b: Item) { a.id != b.id }

  /** What a call is receiving was delivered, and nobody else has it. */
  ghost predicate Claimed(q: Queue, t: Thread)
    requires t in q.calls && q.calls[t].Receiving?
  {
    && Was(q.delivered, q.calls[t].item)
    && (forall i {:trigger OtherId(q.received[i].0, q.calls[t].item)} :: 0 <= i < |q.received| ==>
       OtherId(q.received[i].0, q.calls[t].item))
  }

  predicate Apart(q: Queue, t: Thread, u: Thread) {
    t in q.calls && u in q.calls && q.calls[t].Receiving? && q.calls[u].Receiving? ==>
      OtherId(q.calls[t].item, q.calls[u].item)
  }

  /** No message is received twice, and only delivered ones are. */
  ghost predicate Once(q: Queue) {
    && (forall i, j {:trigger OtherId(q.received[i].0, q.received[j].0)} :: 0 <= i < j < |q.received| ==>
       OtherId(q.received[i].0, q.received[j].0))
    && (forall i {:trigger Was(q.delivered, q.received[i].0)} :: 0 <= i < |q.received| ==>
       Was(q.delivered, q.received[i].0))
    && (forall t {:trigger Claimed(q, t)} :: t in q.calls && q.calls[t].Receiving? ==> Claimed(q, t))
    && (forall t, u {:trigger Apart(q, t, u)} :: t != u ==> Apart(q, t, u))
  }

  // ---- contents ----

  /** Node `n` holds `msg` in its first bytes. */
  predicate Stores(q: Queue, n: Node, msg: seq<byte>) {
    n in q.body && |q.body[n]| == q.msgSize && |msg| <= q.msgSize && q.body[n][..|msg|] == msg
  }

  /** What a call in progress has done so far is right. */
  predicate CallOk(q: Queue, c: Call) {
    match c
    case Sending(n, buf, k, _) => k <= |buf| <= q.msgSize && Stores(q, n, buf[..k])
    case Receiving(item, size, got) =>
      && Stores(q, item.node, item.msg)
      && |got| <= Min(size, q.msgSize) && got == q.body[item.node][..|got|]
    case _ => true
  }

  /** A delivered buffer starts with the message that was sent, cut to the receiver's size. */
  predicate Delivered(r: (Item, seq<byte>)) {
    var n := Min(|r.0.msg|, |r.1|);
    r.1[..n] == r.0.msg[..n]
  }

  predicate BodyOk(q: Queue, n: Node) { n in q.body && |q.body[n]| == q.msgSize }

  ghost predicate Intact(q: Queue) {
    && (forall n: Node {:trigger BodyOk(q, n)} :: n < q.nodes ==> BodyOk(q, n))
    && (forall i {:trigger Stores(q, q.queue[i].node, q.queue[i].msg)} :: 0 <= i < |q.queue| ==>
       Stores(q, q.queue[i].node, q.queue[i].msg))
    && (forall t {:trigger CallOk(q, q.calls[t])} :: t in q.calls ==> CallOk(q, q.calls[t]))
    && (forall i {:trigger Delivered(q.received[i])} :: 0 <= i < |q.received| ==> Delivered(q.received[i]))
  }

  // ---- waiting ----

  ghost function Woken(calls: map<Thread, Call>): set<Thread> { set t | t in calls && calls[t].RecvWoken? }

  predicate Waits(q: Queue, t: Thread) { t in q.wait <==> t in q.calls && q.calls[t].RecvSuspended? }

  ghost predicate NoLostWakeup(q: Queue) {
    && Distinct(q.wait) && (forall t {:trigger Waits(q, t)} :: Waits(q, t))
    && (q.wait != [] ==> |q.queue| <= |Woken(q.calls)|)
  }

  ghost predicate Inv(q: Queue) {
    Conserved(q) && Ordered(q) && Intact(q) && NoLostWakeup(q) && Fair(q) && Accounted(q) && Once(q)
  }

  // ---- conservation ----

  /** Nodes change hands one at a time. */
  lemma {:induction false} SendBeginConserves(q: Queue, e: Event)
    requires Conserved(q) && Legal(q, e) && e.SendBegin?
    ensures Conserved(Next(q, e))
  {
    var r := Next(q, e);
    if |e.buf| <= q.msgSize && q.free != [] {
      var m := q.free[0];
      assert Placed(q, m);
      forall k | 1 <= k < |q.free| ensures q.free[k] != m { assert Differ(q.free[0], q.free[k]); }
      forall i, j | 0 <= i < j < |r.free| ensures Differ(r.free[i], r.free[j]) {
        assert Differ(q.free[i + 1], q.free[j + 1]);
      }
      forall n ensures Placed(r, n) { assert Placed(q, n); }
      forall t, n | t in r.calls ensures HeldRight(r, t, n) { assert HeldRight(q, t, n) && HeldRight(q, t, m); }
    }
  }

  lemma {:induction false} KeepsPlaces(q: Queue, r: Queue)
    requires Conserved(q) && r.free == q.free && r.queue == q.queue && r.place == q.place && r.nodes == q.nodes
      && r.calls.Keys == q.calls.Keys
    requires forall t, n :: t in q.calls ==> (Holds(r.calls[t], n) <==> Holds(q.calls[t], n))
    ensures Conserved(r)
  {
    forall n ensures Placed(r, n) { assert Placed(q, n); }
    forall t, n | t in r.calls ensures HeldRight(r, t, n) { assert HeldRight(q, t, n); }
  }

  lemma {:induction false} LinkConserves(q: Queue, t: Thread, r: Queue)
    requires Conserved(q) && t in q.calls && q.calls[t].Sending?
    requires var c := q.calls[t]; var item := Item(c.node, q.links, c.urgent, c.buf);
      r == SetCall(q.(queue := if c.urgent then [item] + q.queue else q.queue + [item],
        place := q.place[c.node := InQueue], links := q.links + 1), t, Idle)
    ensures Conserved(r)
  {
    var c := q.calls[t];
    var m, item := c.node, Item(c.node, q.links, c.urgent, c.buf);
    assert HeldRight(q, t, m) && Placed(q, m);
    forall k | 0 <= k < |q.queue| ensures q.queue[k].node != m {}
    forall i, j | 0 <= i < j < |r.queue| ensures OtherNode(r.queue[i], r.queue[j]) {
      if c.urgent { assert i > 0 ==> OtherNode(q.queue[i - 1], q.queue[j - 1]); }
      else if j < |q.queue| { assert OtherNode(q.queue[i], q.queue[j]); }
    }
    forall n ensures Placed(r, n) {
      assert Placed(q, n);
      LinkedNode(q.queue, item, n);
    }
    forall u, n | u in r.calls ensures HeldRight(r, u, n) { assert HeldRight(q, u, n) && HeldRight(q, u, m); }
  }

  lemma {:induction false} LinkedNode(items: seq<Item>, item: Item, n: Node)
    ensures Queued([item] + items, n) <==> Queued(items, n) || n == item.node
    ensures Queued(items + [item], n) <==> Queued(items, n) || n == item.node
  {
    if Queued(items, n) {
      var i :| 0 <= i < |items| && items[i].node == n;
      assert ([item] + items)[i + 1].node == n && (items + [item])[i].node == n;
    }
    if n == item.node { assert ([item] + items)[0].node == n && (items + [item])[|items|].node == n; }
    if i :| 0 <= i < |[item] + items| && ([item] + items)[i].node == n { assert i > 0 ==> items[i - 1].node == n; }
    if i :| 0 <= i < |items + [item]| && (items + [item])[i].node == n { assert i < |items| ==> items[i].node == n; }
  }

  lemma {:induction false} DetachConserves(q: Queue, t: Thread, size: nat)
    requires Conserved(q) && q.queue != [] && t in q.calls && (forall n :: !Holds(q.calls[t], n))
    ensures Conserved(Detach(q, t, size))
  {
    var r, m := Detach(q, t, size), q.queue[0].node;
    assert Placed(q, m) && Queued(q.queue, m);
    forall i, j | 0 <= i < j < |r.queue| ensures OtherNode(r.queue[i], r.queue[j]) {
      assert OtherNode(q.queue[i + 1], q.queue[j + 1]);
    }
    forall n ensures Placed(r, n) {
      assert Placed(q, n);
      if i :| 0 <= i < |q.queue| && q.queue[i].node == n && n != m { assert r.queue[i - 1].node == n; }
      if i :| 0 <= i < |r.queue| && r.queue[i].node == n {
        assert q.queue[i + 1].node == n && OtherNode(q.queue[0], q.queue[i + 1]);
      }
    }
    forall u, n | u in r.calls ensures HeldRight(r, u, n) { assert HeldRight(q, u, n) && HeldRight(q, u, m); }
  }

  lemma {:induction false} RecvEndConserves(q: Queue, e: Event)
    requires Conserved(q) && Legal(q, e) && e.RecvEnd?
    ensures Conserved(Next(q, e))
  {
    var r, m := Next(q, e), q.calls[e.t].item.node;
    assert HeldRight(q, e.t, m) && Placed(q, m);
    forall i, j | 0 <= i < j < |r.free| ensures Differ(r.free[i], r.free[j]) {
      assert i > 0 ==> Differ(q.free[i - 1], q.free[j - 1]);
    }
    forall n ensures Placed(r, n) { assert Placed(q, n); }
    forall u, n | u in r.calls ensures HeldRight(r, u, n) { assert HeldRight(q, u, n) && HeldRight(q, u, m); }
  }

  lemma {:induction false} NodesOfContents(items: seq<Item>)
    requires forall i, j {:trigger OtherNode(items[i], items[j])} :: 0 <= i < j < |items| ==>
      OtherNode(items[i], items[j])
    ensures Distinct(NodesOf(items)) && forall n :: n in NodesOf(items) <==> Queued(items, n)
  {
    if items != [] {
      var tail, r := items[1..], NodesOf(items[1..]);
      forall i, j | 0 <= i < j < |tail| ensures OtherNode(tail[i], tail[j]) {
        assert OtherNode(items[i + 1], items[j + 1]);
      }
      NodesOfContents(tail);
      forall n ensures n in NodesOf(items) <==> Queued(items, n) {
        if i :| 0 <= i < |tail| && tail[i].node == n { assert items[i + 1].node == n; }
        if i :| 0 <= i < |items| && items[i].node == n { assert i > 0 ==> tail[i - 1].node == n; }
      }
      forall k | 0 <= k < |r| ensures Differ(r[k], items[0].node) {
        var n := r[k];
        assert n in r;
        var i :| 0 <= i < |tail| && tail[i].node == n;
        assert OtherNode(items[0], items[i + 1]);
      }
      var s := NodesOf(items);
      forall i, j | 0 <= i < j < |s| ensures Differ(s[i], s[j]) { assert j < |r| ==> Differ(r[i], r[j]); }
    }
  }

  lemma {:induction false} ResetConserves(q: Queue)
    requires Conserved(q)
    ensures Conserved(Next(q, Reset))
  {
    var r, back := Next(q, Reset), NodesOf(q.queue);
    NodesOfContents(q.queue);
    forall i, j | 0 <= i < j < |r.free| ensures Differ(r.free[i], r.free[j]) {
      if j < |back| { assert Differ(back[i], back[j]); }
      else if i >= |back| { assert Differ(q.free[i - |back|], q.free[j - |back|]); }
      else {
        var n := back[i];
        assert n in back && Queued(q.queue, n) && Placed(q, n);
      }
    }
    forall n ensures Placed(r, n) { assert Placed(q, n); }
    forall u, n | u in r.calls ensures HeldRight(r, u, n) { assert HeldRight(q, u, n); }
  }

  lemma {:induction false} WakeSame(q: Queue)
    ensures var r := Wake(q);
      && r.free == q.free && r.queue == q.queue && r.place == q.place && r.nodes == q.nodes
      && r.calls.Keys == q.calls.Keys
      && r.body == q.body && r.msgSize == q.msgSize && r.links == q.links && r.received == q.received
      && (forall t :: t in q.calls && r.calls[t] != q.calls[t] ==> r.calls[t].RecvWoken? && q.calls[t].RecvSuspended?)
  {
  }

  lemma {:induction false} NextConserves(q: Queue, e: Event)
    requires Conserved(q) && Legal(q, e)
    ensures Conserved(Next(q, e))
  {
    match e
    case SendBegin(_, _, _) => SendBeginConserves(q, e);
    case SendCopy(_) => KeepsPlaces(q, Next(q, e));
    case SendLink(t) =>
      var c := q.calls[t];
      var item := Item(c.node, q.links, c.urgent, c.buf);
      var m := SetCall(q.(queue := if c.urgent then [item] + q.queue else q.queue + [item],
        place := q.place[c.node := InQueue], links := q.links + 1), t, Idle);
      LinkConserves(q, t, m);
      WakeSame(m);
      KeepsPlaces(m, Wake(m));
    case RecvBegin(t, size, _, _) =>
      if q.queue != [] { DetachConserves(q, t, size); } else { KeepsPlaces(q, Next(q, e)); }
    case RecvAgain(t, _) =>
      if q.queue != [] { DetachConserves(q, t, q.calls[t].size); } else { KeepsPlaces(q, Next(q, e)); }
    case RecvCopy(_) => KeepsPlaces(q, Next(q, e));
    case RecvEnd(_) => RecvEndConserves(q, e);
    case Timeout(_) => KeepsPlaces(q, Next(q, e));
    case Reset => ResetConserves(q);
  }

  // ---- order ----

  lemma {:induction false} NextOrdered(q: Queue, e: Event)
    requires Ordered(q) && Legal(q, e)
    ensures Ordered(Next(q, e))
  {
    var r := Next(q, e);
    if e.SendLink? {
      var c := q.calls[e.t];
      forall k | 0 <= k < |q.queue| ensures Numbered(q.queue[k], q.links) {}
      forall i, j | 0 <= i < j < |r.queue| ensures Ahead(r.queue[i], r.queue[j]) {
        if c.urgent {
          assert if i > 0 then Ahead(q.queue[i - 1], q.queue[j - 1]) else Numbered(q.queue[j - 1], q.links);
        }
        else { assert if j < |q.queue| then Ahead(q.queue[i], q.queue[j]) else Numbered(q.queue[i], q.links); }
      }
      forall k | 0 <= k < |r.queue| ensures Numbered(r.queue[k], r.links) {
        if c.urgent {
          assert k > 0 ==> Numbered(q.queue[k - 1], q.links);
        } else {
          assert k < |q.queue| ==> Numbered(q.queue[k], q.links);
        }
      }
    } else if (e.RecvBegin? || e.RecvAgain?) && q.queue != [] {
      forall i, j | 0 <= i < j < |r.queue| ensures Ahead(r.queue[i], r.queue[j]) {
        assert Ahead(q.queue[i + 1], q.queue[j + 1]);
      }
      forall k | 0 <= k < |r.queue| ensures Numbered(r.queue[k], r.links) { assert Numbered(q.queue[k + 1], q.links); }
    }
  }

  // ---- deliveries ----

  /** The step takes the head of the queue. */
  predicate Delivers(q: Queue, e: Event) { (e.RecvBegin? || e.RecvAgain?) && q.queue != [] }

  /** A step delivers at most one message, and then one that no queued message is ahead of. */
  lemma {:induction false} DeliversFirst(q: Queue, e: Event)
    requires Ordered(q) && Legal(q, e)
    ensures if Delivers(q, e) then Next(q, e).delivered == q.delivered + [Logged(q.queue[0], q.links)]
      else Next(q, e).delivered == q.delivered
    ensures Delivers(q, e) ==>
      forall k {:trigger q.queue[k]} :: 0 < k < |q.queue| ==>
      Ahead(q.queue[0], q.queue[k]) && !Ahead(q.queue[k], q.queue[0])
  {
    if Delivers(q, e) {
      forall k | 0 < k < |q.queue| ensures Ahead(q.queue[0], q.queue[k]) && !Ahead(q.queue[k], q.queue[0]) {
        assert Ahead(q.queue[0], q.queue[k]);
      }
    }
  }

  lemma {:induction false} DetachFair(q: Queue, e: Event)
    requires Ordered(q) && Fair(q) && Legal(q, e) && Delivers(q, e)
    ensures Fair(Next(q, e))
  {
    var r, n := Next(q, e), |q.delivered|;
    assert Numbered(q.queue[0], q.links);
    forall i | 0 <= i < |r.delivered| ensures LoggedOk(r.delivered[i], r.links) {
      assert i < n ==> LoggedOk(q.delivered[i], q.links);
    }
    forall k: nat | k < |r.dropped| ensures DropOk(r, k) { assert DropOk(q, k); }
    forall i: nat, j: nat ensures LaterDelivered(r, i, j) { assert LaterDelivered(q, i, j) && LaterQueued(q, i, 0); }
    forall i: nat, k: nat ensures LaterQueued(r, i, k) {
      assert LaterQueued(q, i, k + 1);
      if i == n && k < |r.queue| { assert Ahead(q.queue[0], q.queue[k + 1]); }
    }
    forall i: nat, k: nat ensures LaterDropped(r, i, k) {
      assert LaterDropped(q, i, k) && (k < |q.dropped| ==> DropOk(q, k));
    }
  }

  lemma {:induction false} LinkFair(q: Queue, t: Thread)
    requires Fair(q) && Legal(q, SendLink(t))
    ensures Fair(Next(q, SendLink(t)))
  {
    var r, c := Next(q, SendLink(t)), q.calls[t];
    forall i | 0 <= i < |r.delivered| ensures LoggedOk(r.delivered[i], r.links) {
      assert LoggedOk(q.delivered[i], q.links);
    }
    forall k: nat | k < |r.dropped| ensures DropOk(r, k) { assert DropOk(q, k); }
    forall i: nat, j: nat ensures LaterDelivered(r, i, j) { assert LaterDelivered(q, i, j); }
    forall i: nat, k: nat ensures LaterQueued(r, i, k) {
      assert i < |q.delivered| ==> LoggedOk(q.delivered[i], q.links);
      if c.urgent { assert k > 0 ==> LaterQueued(q, i, k - 1); } else { assert LaterQueued(q, i, k); }
    }
    forall i: nat, k: nat ensures LaterDropped(r, i, k) { assert LaterDropped(q, i, k); }
  }

  lemma {:induction false} ResetFair(q: Queue)
    requires Fair(q)
    ensures Fair(Next(q, Reset))
  {
    var r, n := Next(q, Reset), |q.dropped|;
    forall i | 0 <= i < |r.delivered| ensures LoggedOk(r.delivered[i], r.links) {
      assert LoggedOk(q.delivered[i], q.links);
    }
    forall k: nat | k < |r.dropped| ensures DropOk(r, k) { assert k < n ==> DropOk(q, k); }
    forall i: nat, j: nat ensures LaterDelivered(r, i, j) { assert LaterDelivered(q, i, j); }
    forall i: nat, k: nat ensures LaterQueued(r, i, k) {}
    forall i: nat, k: nat ensures LaterDropped(r, i, k) {
      assert LaterDropped(q, i, k) && (k >= n ==> LaterQueued(q, i, k - n));
    }
  }

  lemma {:induction false} NextFair(q: Queue, e: Event)
    requires Ordered(q) && Fair(q) && Legal(q, e)
    ensures Fair(Next(q, e))
  {
    if Delivers(q, e) {
      DetachFair(q, e);
    } else if e.SendLink? {
      LinkFair(q, e.t);
    } else if e.Reset? {
      ResetFair(q);
    } else {
      var r := Next(q, e);
      forall i | 0 <= i < |r.delivered| ensures LoggedOk(r.delivered[i], r.links) {
        assert LoggedOk(q.delivered[i], q.links);
      }
      forall k: nat | k < |r.dropped| ensures DropOk(r, k) { assert DropOk(q, k); }
      forall i: nat, j: nat ensures LaterDelivered(r, i, j) { assert LaterDelivered(q, i, j); }
      forall i: nat, k: nat ensures LaterQueued(r, i, k) { assert LaterQueued(q, i, k); }
      forall i: nat, k: nat ensures LaterDropped(r, i, k) { assert LaterDropped(q, i, k); }
    }
  }

  lemma {:induction false} NextAccounted(q: Queue, e: Event)
    requires Accounted(q) && Legal(q, e)
    ensures Accounted(Next(q, e))
  {
    hide Total, UpTo;
    var r := Next(q, e);
    if Delivers(q, e) {
      DetachTotal(q.queue, q.delivered, q.dropped, q.links);
    } else if e.SendLink? {
      LinkTotal(q.queue, q.delivered, q.dropped,
        Item(q.calls[e.t].node, q.links, q.calls[e.t].urgent, q.calls[e.t].buf));
    } else if e.Reset? {
      ResetTotal(q.queue, q.delivered, q.dropped);
    } else {
      assert r.queue == q.queue && r.delivered == q.delivered && r.dropped == q.dropped && r.links == q.links;
    }
  }

  lemma {:induction false} DetachTotal(items: seq<Item>, delivered: seq<Logged>, dropped: seq<Logged>, mark: nat)
    requires items != []
    ensures Total(items[1..], delivered + [Logged(items[0], mark)], dropped) == Total(items, delivered, dropped)
  {
    assert Ids(items) == [items[0].id] + Ids(items[1..]);
    assert LogIds(delivered + [Logged(items[0], mark)]) == LogIds(delivered) + [items[0].id];
  }

  lemma {:induction false} LinkTotal(items: seq<Item>, delivered: seq<Logged>, dropped: seq<Logged>, item: Item)
    requires Total(items, delivered, dropped) == multiset(UpTo(item.id))
    ensures Total([item] + items, delivered, dropped) == multiset(UpTo(item.id + 1)) ==
      Total(items + [item], delivered, dropped)
  {
    assert Ids([item] + items) == [item.id] + Ids(items) && Ids(items + [item]) == Ids(items) + [item.id];
    assert UpTo(item.id + 1) == UpTo(item.id) + [item.id];
  }

  lemma {:induction false} ResetTotal(items: seq<Item>, delivered: seq<Logged>, dropped: seq<Logged>)
    ensures Total([], delivered, dropped + Marked(items, |delivered|)) == Total(items, delivered, dropped)
  {
    assert LogIds(dropped + Marked(items, |delivered|)) == LogIds(dropped) + Ids(items);
    assert Ids([]) == [];
  }

  lemma {:induction false} CountedTwice(s: seq<nat>, i: nat, j: nat)
    requires i < j < |s| && s[i] == s[j]
    ensures multiset(s)[s[i]] >= 2
  {
    assert s == s[..j] + s[j..];
    assert s[..j][i] == s[i] && s[j..][0] == s[j];
    assert s[i] in s[..j] && s[i] in s[j..];
  }

  lemma {:induction false} UpToOnce(n: nat, x: nat)
    ensures multiset(UpTo(n))[x] == if x < n then 1 else 0
  {
    if n > 0 {
      UpToOnce(n - 1, x);
      assert UpTo(n) == UpTo(n - 1) + [n - 1];
    } else {
      assert UpTo(0) == [];
    }
  }

  /** No number is delivered twice, and none that was delivered is queued or dropped. */
  lemma {:induction false} DeliveredOnce(q: Queue, i: nat)
    requires Accounted(q) && i < |q.delivered|
    ensures forall j :: 0 <= j < |q.delivered| && j != i ==> OtherId(q.delivered[i].item, q.delivered[j].item)
    ensures forall k :: 0 <= k < |q.queue| ==> OtherId(q.delivered[i].item, q.queue[k])
    ensures forall k :: 0 <= k < |q.dropped| ==> OtherId(q.delivered[i].item, q.dropped[k].item)
  {
    var ids, x := LogIds(q.delivered), q.delivered[i].item.id;
    UpToOnce(q.links, x);
    assert ids[i] == x && x in multiset(ids);
    assert multiset(Ids(q.queue))[x] == 0 && multiset(LogIds(q.dropped))[x] == 0;
    forall j | 0 <= j < |q.delivered| && j != i ensures OtherId(q.delivered[i].item, q.delivered[j].item) {
      if ids[j] == x { CountedTwice(ids, if i < j then i else j, if i < j then j else i); }
    }
    forall k | 0 <= k < |q.queue| ensures OtherId(q.delivered[i].item, q.queue[k]) {
      assert Ids(q.queue)[k] in multiset(Ids(q.queue));
    }
    forall k | 0 <= k < |q.dropped| ensures OtherId(q.delivered[i].item, q.dropped[k].item) {
      assert LogIds(q.dropped)[k] in multiset(LogIds(q.dropped));
    }
  }

  /** Plain messages are delivered in the order they were linked in. */
  lemma {:induction false} PlainInOrder(q: Queue, i: nat, j: nat)
    requires Fair(q) && i < j < |q.delivered| && !q.delivered[i].item.urgent && !q.delivered[j].item.urgent
    ensures q.delivered[i].item.id < q.delivered[j].item.id
  {
    assert LaterDelivered(q, i, j) && LoggedOk(q.delivered[i], q.links);
  }

  lemma {:induction false} WasMore(log: seq<Logged>, d: Logged, item: Item)
    ensures Was(log + [d], item) <==> Was(log, item) || item == d.item
  {
    if k :| 0 <= k < |log| && log[k].item == item { assert (log + [d])[k].item == item; }
    if item == d.item { assert (log + [d])[|log|].item == item; }
    if k :| 0 <= k < |log + [d]| && (log + [d])[k].item == item { assert k < |log| ==> log[k].item == item; }
  }

  /** What is still queued was not delivered. */
  lemma {:induction false} HeadIsNew(q: Queue, item: Item)
    requires Accounted(q) && q.queue != [] && Was(q.delivered, item)
    ensures OtherId(item, q.queue[0])
  {
    var k :| 0 <= k < |q.delivered| && q.delivered[k].item == item;
    DeliveredOnce(q, k);
  }

  lemma {:induction false} DetachOnce(q: Queue, e: Event)
    requires Accounted(q) && Once(q) && Legal(q, e) && Delivers(q, e)
    ensures Once(Next(q, e))
  {
    var r, t, d := Next(q, e), e.t, Logged(q.queue[0], q.links);
    var x := q.queue[0];
    WasMore(q.delivered, d, x);
    forall i | 0 <= i < |r.received| ensures Was(r.delivered, r.received[i].0) && OtherId(r.received[i].0, x) {
      var y := q.received[i].0;
      assert Was(q.delivered, y);
      WasMore(q.delivered, d, y);
      HeadIsNew(q, y);
    }
    forall u | u in r.calls && r.calls[u].Receiving? ensures Claimed(r, u) && (u != t ==> OtherId(r.calls[u].item, x)) {
      if u != t {
        assert Claimed(q, u);
        WasMore(q.delivered, d, q.calls[u].item);
        HeadIsNew(q, q.calls[u].item);
        forall i | 0 <= i < |r.received| ensures OtherId(r.received[i].0, r.calls[u].item) {
          assert OtherId(q.received[i].0, q.calls[u].item);
        }
      }
    }
    forall u, v | u != v ensures Apart(r, u, v) { assert Apart(q, u, v); }
  }

  lemma {:induction false} RecvEndOnce(q: Queue, t: Thread)
    requires Once(q) && Legal(q, RecvEnd(t))
    ensures Once(Next(q, RecvEnd(t)))
  {
    var r, x := Next(q, RecvEnd(t)), q.calls[t].item;
    assert Claimed(q, t);
    forall i, j | 0 <= i < j < |r.received| ensures OtherId(r.received[i].0, r.received[j].0) {
      if j < |q.received| {
        assert OtherId(q.received[i].0, q.received[j].0);
      } else {
        assert OtherId(q.received[i].0, x);
      }
    }
    forall i | 0 <= i < |r.received| ensures Was(r.delivered, r.received[i].0) {
      assert i < |q.received| ==> Was(q.delivered, q.received[i].0);
    }
    forall u | u in r.calls && r.calls[u].Receiving? ensures Claimed(r, u) {
      assert Claimed(q, u) && Apart(q, t, u);
      forall i | 0 <= i < |r.received| ensures OtherId(r.received[i].0, r.calls[u].item) {
        assert i < |q.received| ==> OtherId(q.received[i].0, q.calls[u].item);
      }
    }
    forall u, v | u != v ensures Apart(r, u, v) { assert Apart(q, u, v); }
  }

  lemma {:induction false} NextOnce(q: Queue, e: Event)
    requires Accounted(q) && Once(q) && Legal(q, e)
    ensures Once(Next(q, e))
  {
    if Delivers(q, e) {
      DetachOnce(q, e);
    } else if e.RecvEnd? {
      RecvEndOnce(q, e.t);
    } else {
      KeepsOnce(q, Next(q, e));
    }
  }

  /** Steps that deliver nothing and end no receive. */
  lemma {:induction false} KeepsOnce(q: Queue, r: Queue)
    requires Once(q) && r.delivered == q.delivered && r.received == q.received
    requires forall t :: t in r.calls && r.calls[t].Receiving? ==>
      t in q.calls && q.calls[t].Receiving? && q.calls[t].item == r.calls[t].item
    ensures Once(r)
  {
    forall i, j | 0 <= i < j < |r.received| ensures OtherId(r.received[i].0, r.received[j].0) {
      assert OtherId(q.received[i].0, q.received[j].0);
    }
    forall i | 0 <= i < |r.received| ensures Was(r.delivered, r.received[i].0) {
      assert Was(q.delivered, q.received[i].0);
    }
    forall t | t in r.calls && r.calls[t].Receiving? ensures Claimed(r, t) {
      assert Claimed(q, t);
      forall i | 0 <= i < |r.received| ensures OtherId(r.received[i].0, r.calls[t].item) {
        assert OtherId(q.received[i].0, q.calls[t].item);
      }
    }
    forall t, u | t != u ensures Apart(r, t, u) { assert Apart(q, t, u); }
  }

  // ---- contents ----

  /** Calls and queued items only look at their own nodes. */
  lemma {:induction false} SendCopyIntact(q: Queue, t: Thread)
    requires Conserved(q) && Intact(q) && Legal(q, SendCopy(t))
    ensures Intact(Next(q, SendCopy(t)))
  {
    var r, c := Next(q, SendCopy(t)), q.calls[t];
    assert CallOk(q, c);
    forall n: Node | n < r.nodes ensures BodyOk(r, n) { assert BodyOk(q, n); }
    assert HeldRight(q, t, c.node) && Placed(q, c.node);
    forall i | 0 <= i < |r.queue| ensures Stores(r, r.queue[i].node, r.queue[i].msg) {
      assert Stores(q, q.queue[i].node, q.queue[i].msg) && Queued(q.queue, q.queue[i].node);
    }
    forall u | u in r.calls ensures CallOk(r, r.calls[u]) {
      assert CallOk(q, q.calls[u]);
      if u == t {
        assert c.buf[..c.k + 1] == c.buf[..c.k] + [c.buf[c.k]];
      } else {
        assert HeldRight(q, u, c.node);
      }
    }
  }

  lemma {:induction false} RecvCopyIntact(q: Queue, t: Thread)
    requires Intact(q) && Legal(q, RecvCopy(t))
    ensures Intact(Next(q, RecvCopy(t)))
  {
    var r, c := Next(q, RecvCopy(t)), q.calls[t];
    assert CallOk(q, c);
    forall n: Node | n < r.nodes ensures BodyOk(r, n) { assert BodyOk(q, n); }
    forall i | 0 <= i < |r.queue| ensures Stores(r, r.queue[i].node, r.queue[i].msg) {
      assert Stores(q, q.queue[i].node, q.queue[i].msg);
    }
    forall u | u in r.calls ensures CallOk(r, r.calls[u]) {
      assert CallOk(q, q.calls[u]);
      if u == t {
        assert q.body[c.item.node][..|c.got| + 1] == q.body[c.item.node][..|c.got|] + [q.body[c.item.node][|c.got|]];
      }
    }
  }

  lemma {:induction false} RecvEndIntact(q: Queue, t: Thread)
    requires Intact(q) && Legal(q, RecvEnd(t))
    ensures Intact(Next(q, RecvEnd(t)))
  {
    var r, c := Next(q, RecvEnd(t)), q.calls[t];
    assert CallOk(q, c);
    forall n: Node | n < r.nodes ensures BodyOk(r, n) { assert BodyOk(q, n); }
    var n := Min(|c.item.msg|, |c.got|);
    assert c.got[..n] == q.body[c.item.node][..n] == c.item.msg[..n];
    forall i | 0 <= i < |r.queue| ensures Stores(r, r.queue[i].node, r.queue[i].msg) {
      assert Stores(q, q.queue[i].node, q.queue[i].msg);
    }
    forall u | u in r.calls ensures CallOk(r, r.calls[u]) { assert CallOk(q, q.calls[u]); }
    forall i | 0 <= i < |r.received| ensures Delivered(r.received[i]) {
      assert i < |q.received| ==> Delivered(q.received[i]);
    }
  }

  lemma {:induction false} SendLinkIntact(q: Queue, t: Thread)
    requires Intact(q) && Legal(q, SendLink(t))
    ensures Intact(Next(q, SendLink(t)))
  {
    var r, c := Next(q, SendLink(t)), q.calls[t];
    assert CallOk(q, c);
    forall n: Node | n < r.nodes ensures BodyOk(r, n) { assert BodyOk(q, n); }
    assert c.buf[..c.k] == c.buf;
    forall i | 0 <= i < |r.queue| ensures Stores(r, r.queue[i].node, r.queue[i].msg) {
      if c.urgent { assert i > 0 ==> Stores(q, q.queue[i - 1].node, q.queue[i - 1].msg); }
      else { assert i < |q.queue| ==> Stores(q, q.queue[i].node, q.queue[i].msg); }
    }
    forall u | u in r.calls ensures CallOk(r, r.calls[u]) { assert CallOk(q, q.calls[u]); }
    forall i | 0 <= i < |r.received| ensures Delivered(r.received[i]) { assert Delivered(q.received[i]); }
  }

  /** With the same bodies, right calls and fewer queued items everything is still intact. */
  lemma {:induction false} SameBodies(q: Queue, r: Queue)
    requires Intact(q) && r.body == q.body && r.msgSize == q.msgSize && r.nodes == q.nodes && r.received == q.received
    requires r.queue == q.queue || r.queue == [] || (q.queue != [] && r.queue == q.queue[1..])
    requires forall u :: u in r.calls ==> CallOk(q, r.calls[u])
    ensures Intact(r)
  {
    forall i | 0 <= i < |r.queue| ensures Stores(r, r.queue[i].node, r.queue[i].msg) {
      var j := if |r.queue| == |q.queue| then i else i + 1;
      assert Stores(q, q.queue[j].node, q.queue[j].msg);
    }
    forall u | u in r.calls ensures CallOk(r, r.calls[u]) { assert CallOk(q, r.calls[u]); }
    forall i | 0 <= i < |r.received| ensures Delivered(r.received[i]) { assert Delivered(q.received[i]); }
    forall n: Node | n < r.nodes ensures BodyOk(r, n) { assert BodyOk(q, n); }
  }

  lemma {:induction false} DetachIntact(q: Queue, t: Thread, size: nat)
    requires Intact(q) && q.queue != [] && t in q.calls
    ensures Intact(Detach(q, t, size))
  {
    var r := Detach(q, t, size);
    assert Stores(q, q.queue[0].node, q.queue[0].msg);
    forall u | u in r.calls ensures CallOk(q, r.calls[u]) { assert u != t ==> CallOk(q, q.calls[u]); }
    SameBodies(q, r);
  }

  lemma {:induction false} SendBeginIntact(q: Queue, e: Event)
    requires Conserved(q) && Intact(q) && Legal(q, e) && e.SendBegin?
    ensures Intact(Next(q, e))
  {
    var r := Next(q, e);
    if |e.buf| <= q.msgSize && q.free != [] {
      assert Placed(q, q.free[0]);
      var n := q.free[0];
      assert BodyOk(q, n);
      assert Stores(q, n, e.buf[..0]);
      forall u | u in r.calls ensures CallOk(q, r.calls[u]) { assert u != e.t ==> CallOk(q, q.calls[u]); }
      SameBodies(q, r);
    }
  }

  lemma {:induction false} OtherIntact(q: Queue, e: Event)
    requires Intact(q) && Legal(q, e) && (e.RecvBegin? || e.RecvAgain? || e.Timeout? || e.Reset?)
    ensures Intact(Next(q, e))
  {
    if e.RecvBegin? && q.queue != [] {
      DetachIntact(q, e.t, e.size);
    } else if e.RecvAgain? && q.queue != [] {
      DetachIntact(q, e.t, q.calls[e.t].size);
    } else {
      var r := Next(q, e);
      forall u | u in r.calls ensures CallOk(q, r.calls[u]) { assert CallOk(q, q.calls[u]); }
      SameBodies(q, r);
    }
  }

  // ---- wake-ups ----

  lemma {:induction false} WokenAfter(calls: map<Thread, Call>, t: Thread, c: Call)
    ensures Woken(calls[t := c]) == if c.RecvWoken? then Woken(calls) + {t} else Woken(calls) - {t}
  {
  }

  /** One context that is not and does not become suspended takes a step. */
  lemma {:induction false} StepWakes(q: Queue, t: Thread, c: Call, r: Queue)
    requires NoLostWakeup(q) && t in q.calls && !q.calls[t].RecvSuspended? && !c.RecvSuspended? && !c.RecvWoken?
    requires r.wait == q.wait && r.calls == q.calls[t := c]
    requires |r.queue| <= |q.queue| && (q.calls[t].RecvWoken? ==> |r.queue| < |q.queue| || r.queue == [])
    ensures NoLostWakeup(r)
  {
    WokenAfter(q.calls, t, c);
    forall u ensures Waits(r, u) { assert Waits(q, u); }
  }

  lemma {:induction false} SuspendWakes(q: Queue, t: Thread, size: nat, forever: bool)
    requires NoLostWakeup(q) && t in q.calls && !q.calls[t].RecvSuspended? && q.queue == []
    ensures NoLostWakeup(Suspend(q, t, size, forever))
  {
    var r := Suspend(q, t, size, forever);
    assert Waits(q, t);
    EnqueueContents(q.flag, q.wait, q.prio, t);
    forall u ensures Waits(r, u) { assert Waits(q, u); }
  }

  lemma {:induction false} TimeoutWakes(q: Queue, t: Thread)
    requires NoLostWakeup(q) && Legal(q, Timeout(t))
    ensures NoLostWakeup(Next(q, Timeout(t)))
  {
    var r := Next(q, Timeout(t));
    WithoutKeeps(q.wait, t, q.prio);
    WokenAfter(q.calls, t, Idle);
    assert t !in Woken(q.calls);
    assert Woken(r.calls) == Woken(q.calls);
    forall u ensures Waits(r, u) { assert Waits(q, u); }
  }

  lemma {:induction false} NextWakes(q: Queue, e: Event)
    requires NoLostWakeup(q) && Legal(q, e)
    ensures NoLostWakeup(Next(q, e))
  {
    var r := Next(q, e);
    match e
    case Reset => forall t ensures Waits(r, t) { assert Waits(q, t); }
    case SendLink(t) => LinkWakes(q, t);
    case Timeout(t) => TimeoutWakes(q, t);
    case RecvBegin(t, size, blocking, forever) =>
      if q.queue != [] { StepWakes(q, t, r.calls[t], r); } else if blocking { SuspendWakes(q, t, size, forever); }
    case RecvAgain(t, expired) =>
      if q.queue != [] || expired {
        StepWakes(q, t, r.calls[t], r);
      } else {
        SuspendWakes(q, t, q.calls[t].size, q.calls[t].forever);
      }
    case SendBegin(t, buf, _) => if |buf| <= q.msgSize && q.free != [] { StepWakes(q, t, r.calls[t], r); }
    case SendCopy(t) => StepWakes(q, t, r.calls[t], r);
    case RecvCopy(t) => StepWakes(q, t, r.calls[t], r);
    case RecvEnd(t) => StepWakes(q, t, r.calls[t], r);
  }

  lemma {:induction false} LinkWakes(q: Queue, t: Thread)
    requires NoLostWakeup(q) && Legal(q, SendLink(t))
    ensures NoLostWakeup(Next(q, SendLink(t)))
  {
    var r := Next(q, SendLink(t));
    WokenAfter(q.calls, t, Idle);
    if q.wait != [] {
      var h := q.wait[0];
      assert Waits(q, h) && Waits(q, t);
      WokenAfter(q.calls[t := Idle], h, RecvWoken(q.calls[h].size, q.calls[h].forever));
      forall i, j | 0 <= i < j < |r.wait| ensures Differ(r.wait[i], r.wait[j]) {
        assert Differ(q.wait[i + 1], q.wait[j + 1]);
      }
      forall k | 1 <= k < |q.wait| ensures q.wait[k] != h { assert Differ(q.wait[0], q.wait[k]); }
    }
    forall u ensures Waits(r, u) { assert Waits(q, u); }
  }

  // ---- runs ----

  lemma {:induction false} NextInv(q: Queue, e: Event)
    requires Inv(q) && Legal(q, e)
    ensures Inv(Next(q, e))
  {
    NextConserves(q, e);
    NextOrdered(q, e);
    NextWakes(q, e);
    NextFair(q, e);
    NextAccounted(q, e);
    NextOnce(q, e);
    hide Conserved, Ordered, NoLostWakeup, Fair, Accounted, Once;
    match e
    case SendCopy(t) => SendCopyIntact(q, t);
    case RecvCopy(t) => RecvCopyIntact(q, t);
    case RecvEnd(t) => RecvEndIntact(q, t);
    case SendLink(t) => SendLinkIntact(q, t);
    case SendBegin(_, _, _) => SendBeginIntact(q, e);
    case RecvBegin(_, _, _, _) => OtherIntact(q, e);
    case RecvAgain(_, _) => OtherIntact(q, e);
    case Timeout(_) => OtherIntact(q, e);
    case Reset => OtherIntact(q, e);
  }

  ghost predicate Reaches(q: Queue, es: seq<Event>, r: Queue)
    decreases |es|
  {
    if es == [] then q == r else Legal(q, es[0]) && Reaches(Next(q, es[0]), es[1..], r)
  }

  /** Over every interleaving: no node is lost or shared, no message is delivered while one that
      goes first is queued, every message linked is queued, delivered or dropped once, every
      buffer received is the message sent, and no wake-up is lost. */
  lemma {:induction false} EveryRun(q: Queue, es: seq<Event>, r: Queue)
    requires Inv(q) && Reaches(q, es, r)
    ensures Inv(r)
    decreases |es|
  {
    if es != [] {
      NextInv(q, es[0]);
      EveryRun(Next(q, es[0]), es[1..], r);
    }
  }

  /** The state rt_mq_init leaves: every node free, the last one first. */
  function Initial(msgSize: nat, nodes: nat, flag: Flag, body: map<Node, seq<byte>>, contexts: set<Thread>,
      prio: map<Thread, nat>): Queue {
    Queue(msgSize, nodes, flag, map n | n in CountDown(nodes) :: InFree, CountDown(nodes), [], body,
      map t | t in contexts :: Idle, [], prio, 0, [], [], [])
  }

  function CountDown(n: nat): (s: seq<Node>)
    ensures |s| == n && forall i :: 0 <= i < n ==> s[i] == n - 1 - i
  {
    if n == 0 then [] else [n - 1] + CountDown(n - 1)
  }

  lemma {:induction false} InitialInv(msgSize: nat, nodes: nat, flag: Flag, body: map<Node, seq<byte>>,
      contexts: set<Thread>, prio: map<Thread, nat>)
    requires forall n: nat :: n < nodes ==> n in body && |body[n]| == msgSize
    ensures Inv(Initial(msgSize, nodes, flag, body, contexts, prio))
  {
    var q := Initial(msgSize, nodes, flag, body, contexts, prio);
    forall n: Node ensures Placed(q, n) {
      if n < nodes { assert CountDown(nodes)[nodes - 1 - n] == n; }
    }
    forall i, j | 0 <= i < j < |q.free| ensures Differ(q.free[i], q.free[j]) {}
    forall t ensures Waits(q, t) {}
    forall n: Node | n < q.nodes ensures BodyOk(q, n) {}
  }
}
