/** The messages of a run, read off the calls alone: what a sender called with is what is linked,
    delivered and received under the number of its link. */
module MessageQueueRuns {
  import opened IpcList
  import opened Lists
  import opened MessageQueueSpec

  /** What a sender called with. */
  datatype Message = Message(msg: seq<byte>, urgent: bool)

  /** What context `t` last began to send. */
  function MessageOf(es: seq<Event>, t: Thread): Message {
    if es == [] then Message([], false)
    else
      var n := |es| - 1;
      if es[n].SendBegin? && es[n].t == t then Message(es[n].buf, es[n].urgent) else MessageOf(es[..n], t)
  }

  /** The size of the buffer context `t` last began to receive into. */
  function SizeOf(es: seq<Event>, t: Thread): nat {
    if es == [] then 0
    else
      var n := |es| - 1;
      if es[n].RecvBegin? && es[n].t == t then es[n].size else SizeOf(es[..n], t)
  }

  /** The messages in the order they were linked. */
  function Linked(es: seq<Event>): seq<Message> {
    if es == [] then []
    else
      var n := |es| - 1;
      if es[n].SendLink? then Linked(es[..n]) + [MessageOf(es[..n], es[n].t)] else Linked(es[..n])
  }

  ghost predicate Observed(first: Queue, es: seq<Event>, q: Queue)
    decreases |es|
  {
    if es == [] then q == first
    else
      var n := |es| - 1;
      exists m {:trigger Follows(m, es[n], q)} :: Observed(first, es[..n], m) && Follows(m, es[n], q)
  }

  ghost predicate Follows(m: Queue, e: Event, q: Queue) { Legal(m, e) && q == Next(m, e) }

  /** An item is the message linked under its number. */
  predicate Genuine(es: seq<Event>, item: Item) {
    item.id < |Linked(es)| && Linked(es)[item.id] == Message(item.msg, item.urgent)
  }

  /** A call in progress sends what it was called with, or receives a genuine message into the
      buffer it was called with. */
  predicate CallGenuine(q: Queue, es: seq<Event>, t: Thread) {
    t in q.calls ==>
      && (q.calls[t].Sending? ==> Message(q.calls[t].buf, q.calls[t].urgent) == MessageOf(es, t))
      && (q.calls[t].Receiving? ==> Genuine(es, q.calls[t].item))
      && (q.calls[t].Receiving? || q.calls[t].RecvSuspended? || q.calls[t].RecvWoken? ==>
         q.calls[t].size == SizeOf(es, t))
  }

  ghost predicate AllGenuine(q: Queue, es: seq<Event>) {
    && q.links == |Linked(es)|
    && (forall t {:trigger CallGenuine(q, es, t)} :: CallGenuine(q, es, t))
    && (forall i {:trigger Genuine(es, q.queue[i])} :: 0 <= i < |q.queue| ==> Genuine(es, q.queue[i]))
    && (forall i {:trigger Genuine(es, q.delivered[i].item)} :: 0 <= i < |q.delivered| ==>
       Genuine(es, q.delivered[i].item))
    && (forall i {:trigger Genuine(es, q.dropped[i].item)} :: 0 <= i < |q.dropped| ==> Genuine(es, q.dropped[i].item))
    && (forall i {:trigger Genuine(es, q.received[i].0)} :: 0 <= i < |q.received| ==> Genuine(es, q.received[i].0))
  }

  lemma {:induction false} StillGenuine(es: seq<Event>, e: Event, item: Item)
    requires Genuine(es, item)
    ensures Genuine(es + [e], item)
  {
    var after, n := es + [e], |es|;
    assert after[..n] == es && after[n] == e;
  }

  /** What one more event adds to what is read off the events. */
  lemma {:induction false} OneMore(es: seq<Event>, e: Event, t: Thread)
    ensures var after := es + [e];
      && MessageOf(after, t) == (if e.SendBegin? && e.t == t then Message(e.buf, e.urgent) else MessageOf(es, t))
      && SizeOf(after, t) == (if e.RecvBegin? && e.t == t then e.size else SizeOf(es, t))
      && Linked(after) == (if e.SendLink? then Linked(es) + [MessageOf(es, e.t)] else Linked(es))
  {
    var after, n := es + [e], |es|;
    assert after[..n] == es && after[n] == e;
  }

  /** Every call that is not the linking of a message keeps what is linked. */
  lemma {:induction false} OtherGenuine(q: Queue, es: seq<Event>, e: Event)
    requires AllGenuine(q, es) && Legal(q, e) && !e.SendLink?
    ensures AllGenuine(Next(q, e), es + [e])
  {
    hide MessageOf, SizeOf, Linked, CallGenuine;
    var r, after := Next(q, e), es + [e];
    OneMore(es, e, 0);
    forall t ensures CallGenuine(r, after, t) { OtherCall(q, es, e, t); }
    forall i | 0 <= i < |r.queue| ensures Genuine(after, r.queue[i]) {
      assert Genuine(es, if |r.queue| == |q.queue| then q.queue[i] else q.queue[i + 1]);
    }
    forall i | 0 <= i < |r.delivered| ensures Genuine(after, r.delivered[i].item) {
      if i < |q.delivered| { assert Genuine(es, q.delivered[i].item); } else { assert Genuine(es, q.queue[0]); }
    }
    forall i | 0 <= i < |r.dropped| ensures Genuine(after, r.dropped[i].item) {
      if i < |q.dropped| {
        assert Genuine(es, q.dropped[i].item);
      } else {
        assert Genuine(es, q.queue[i - |q.dropped|]);
      }
    }
    forall i | 0 <= i < |r.received| ensures Genuine(after, r.received[i].0) {
      if i < |q.received| { assert Genuine(es, q.received[i].0); } else { Received(q, es, e.t); }
    }
  }

  lemma {:induction false} Received(q: Queue, es: seq<Event>, t: Thread)
    requires AllGenuine(q, es) && t in q.calls && q.calls[t].Receiving?
    ensures Genuine(es, q.calls[t].item)
  {
    assert CallGenuine(q, es, t);
  }

  lemma {:induction false} OtherCall(q: Queue, es: seq<Event>, e: Event, t: Thread)
    requires AllGenuine(q, es) && Legal(q, e) && !e.SendLink?
    ensures CallGenuine(Next(q, e), es + [e], t)
  {
    hide MessageOf, SizeOf, Linked;
    OneMore(es, e, t);
    assert CallGenuine(q, es, t);
    if q.queue != [] { assert Genuine(es, q.queue[0]); }
    if !e.Reset? { assert CallGenuine(q, es, e.t); }
  }

  lemma {:induction false} LinkGenuine(q: Queue, es: seq<Event>, e: Event)
    requires AllGenuine(q, es) && Legal(q, e) && e.SendLink?
    ensures AllGenuine(Next(q, e), es + [e])
  {
    hide MessageOf, SizeOf, Linked;
    var r, after, c := Next(q, e), es + [e], q.calls[e.t];
    OneMore(es, e, e.t);
    assert CallGenuine(q, es, e.t);
    var item := Item(c.node, q.links, c.urgent, c.buf);
    assert Genuine(after, item);
    forall t ensures CallGenuine(r, after, t) {
      OneMore(es, e, t);
      assert CallGenuine(q, es, t);
      if t in q.calls && q.calls[t].Receiving? { StillGenuine(es, e, q.calls[t].item); }
    }
    forall i | 0 <= i < |r.queue| ensures Genuine(after, r.queue[i]) {
      var k := if c.urgent then i - 1 else i;
      if 0 <= k < |q.queue| {
        assert Genuine(es, q.queue[k]);
        StillGenuine(es, e, q.queue[k]);
      }
    }
    forall i | 0 <= i < |r.delivered| ensures Genuine(after, r.delivered[i].item) {
      assert Genuine(es, q.delivered[i].item);
      StillGenuine(es, e, q.delivered[i].item);
    }
    forall i | 0 <= i < |r.dropped| ensures Genuine(after, r.dropped[i].item) {
      assert Genuine(es, q.dropped[i].item);
      StillGenuine(es, e, q.dropped[i].item);
    }
    forall i | 0 <= i < |r.received| ensures Genuine(after, r.received[i].0) {
      assert Genuine(es, q.received[i].0);
      StillGenuine(es, e, q.received[i].0);
    }
  }

  /** Over every run from the initial queue: what is queued, delivered, dropped or received under
      the number of a link is the message the sender that linked it called with, urgent or not. */
  lemma {:induction false} EveryRunGenuine(msgSize: nat, nodes: nat, flag: Flag, body: map<Node, seq<byte>>,
      contexts: set<Thread>, prio: map<Thread, nat>, es: seq<Event>, q: Queue)
    requires Observed(Initial(msgSize, nodes, flag, body, contexts, prio), es, q)
    ensures AllGenuine(q, es)
    decreases |es|
  {
    hide Follows, AllGenuine;
    if es == [] {
      FirstGenuine(msgSize, nodes, flag, body, contexts, prio, es, q);
    } else {
      var n := |es| - 1;
      var m :| Observed(Initial(msgSize, nodes, flag, body, contexts, prio), es[..n], m) && Follows(m, es[n], q);
      EveryRunGenuine(msgSize, nodes, flag, body, contexts, prio, es[..n], m);
      assert es[..n] + [es[n]] == es;
      StepGenuine(m, es[..n], es[n], q);
    }
  }

  lemma {:induction false} FirstGenuine(msgSize: nat, nodes: nat, flag: Flag, body: map<Node, seq<byte>>,
      contexts: set<Thread>, prio: map<Thread, nat>, es: seq<Event>, q: Queue)
    requires q == Initial(msgSize, nodes, flag, body, contexts, prio) && es == []
    ensures AllGenuine(q, es)
  {
    forall t ensures CallGenuine(q, es, t) {}
  }

  lemma {:induction false} StepGenuine(q: Queue, es: seq<Event>, e: Event, r: Queue)
    requires AllGenuine(q, es) && Follows(q, e, r)
    ensures AllGenuine(r, es + [e])
  {
    if e.SendLink? { LinkGenuine(q, es, e); } else { OtherGenuine(q, es, e); }
  }

  /** A receive ends with its buffer full, or with all of a node copied. */
  lemma {:induction false} EndsFull(q: Queue, es: seq<Event>, t: Thread)
    requires AllGenuine(q, es) && Legal(q, RecvEnd(t))
    ensures var r := Next(q, RecvEnd(t)).received;
      |r| == |q.received| + 1 && |r[|q.received|].1| == Min(SizeOf(es, t), q.msgSize)
  {
    assert CallGenuine(q, es, t);
  }

  /** What a receiver gets is the message with that number, as far as its buffer reaches. */
  lemma {:induction false} ReceivedIsSent(q: Queue, es: seq<Event>, i: nat)
    requires Inv(q) && AllGenuine(q, es) && i < |q.received|
    ensures var item, got := q.received[i].0, q.received[i].1;
      && item.id < |Linked(es)|
      && var sent := Linked(es)[item.id].msg; var n := Min(|sent|, |got|); got[..n] == sent[..n]
  {
    assert Genuine(es, q.received[i].0) && Delivered(q.received[i]);
  }
}
