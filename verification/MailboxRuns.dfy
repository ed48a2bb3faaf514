/** What callers of a mailbox see over a run: the values they sent, in the order they were
    accepted, are the values that are received. Everything here is read off the calls and their
    results. */
module MailboxRuns {
  import opened IpcList
  import opened Lists
  import opened MailboxSpec

  /** What a section tells its caller. */
  datatype Result = Accepted | Delivered(v: int) | Refused | Waiting | Silent

  datatype Call = Call(e: Event, r: Result)

  /** A mail is accepted while there is room, and delivered while there is one: the oldest. */
  function Answer(b: Box, e: Event): Result {
    match e
    case Send(_, _, wait) => if |b.mails| < b.size then Accepted else if wait.NoWait? then Refused else Waiting
    case SendAgain(_, expired) => if |b.mails| < b.size then Accepted else if expired then Refused else Waiting
    case Recv(_, wait) => if b.mails != [] then Delivered(b.mails[0]) else if wait.NoWait? then Refused else Waiting
    case RecvAgain(_, expired) => if b.mails != [] then Delivered(b.mails[0]) else if expired then Refused else Waiting
    case _ => Silent
  }

  /** The run from `b` with these calls and results ends in `c`. */
  ghost predicate Observed(b: Box, calls: seq<Call>, c: Box)
    decreases |calls|
  {
    if calls == [] then b == c
    else
      var n := |calls| - 1;
      exists m {:trigger Observed(b, calls[..n], m)} :: Observed(b, calls[..n], m)
        && Legal(m, calls[n].e) && calls[n].r == Answer(m, calls[n].e) && c == Next(m, calls[n].e)
  }

  /** The value of the last send thread `t` called. */
  function ValueOf(calls: seq<Call>, t: Thread): int {
    if calls == [] then 0
    else
      var n := |calls| - 1;
      if calls[n].e.Send? && calls[n].e.t == t then calls[n].e.v else ValueOf(calls[..n], t)
  }

  /** The values of the accepted sends, in the order they were accepted; a send that had to wait
      brings the value it was called with. */
  function Sent(calls: seq<Call>): seq<int> {
    if calls == [] then []
    else
      var n := |calls| - 1;
      var c, before := calls[n], calls[..n];
      if c.r != Accepted then Sent(before)
      else if c.e.Send? then Sent(before) + [c.e.v]
      else if c.e.SendAgain? then Sent(before) + [ValueOf(before, c.e.t)]
      else Sent(before)
  }

  /** The values received, in order. */
  function Received(calls: seq<Call>): seq<int> {
    if calls == [] then []
    else
      var n := |calls| - 1;
      if calls[n].r.Delivered? then Received(calls[..n]) + [calls[n].r.v] else Received(calls[..n])
  }

  /** How many of the sent mails left the mailbox, received or dropped by a reset. */
  function Left(calls: seq<Call>): nat {
    if calls == [] then 0
    else
      var n := |calls| - 1;
      if calls[n].r.Delivered? then Left(calls[..n]) + 1
      else if calls[n].e.Reset? then |Sent(calls[..n])|
      else Left(calls[..n])
  }

  /** Every delivery is of the oldest mail that was accepted and has not left. */
  ghost predicate Fifo(calls: seq<Call>)
    decreases |calls|
  {
    calls != [] ==>
      var n := |calls| - 1;
      && Fifo(calls[..n])
      && (calls[n].r.Delivered? ==>
        Left(calls[..n]) < |Sent(calls[..n])| && calls[n].r.v == Sent(calls[..n])[Left(calls[..n])])
  }

  // ---- the mailbox against what was observed ----

  /** A thread that waits to send has the value it was called with. */
  predicate Carries(b: Box, calls: seq<Call>, t: Thread) {
    t in b.pc && (b.pc[t].SendSuspended? || b.pc[t].SendWoken?) ==> b.pc[t].v == ValueOf(calls, t)
  }

  /** The mails are those accepted that have not left. */
  ghost predicate Agrees(b: Box, calls: seq<Call>) {
    && Left(calls) <= |Sent(calls)| && b.mails == Sent(calls)[Left(calls)..] && b.sent == Sent(calls)
    && (forall t {:trigger Carries(b, calls, t)} :: Carries(b, calls, t))
  }

  lemma {:induction false} PutIs(b: Box, v: int)
    requires WaitersRight(b)
    ensures Put(b, v).mails == b.mails + [v] && Put(b, v).sent == b.sent + [v]
    ensures forall t :: t in Put(b, v).pc && (Put(b, v).pc[t].SendSuspended? || Put(b, v).pc[t].SendWoken?) ==>
      t in b.pc && Put(b, v).pc[t] == b.pc[t]
  {
    HeadWaits(b);
  }

  lemma {:induction false} TakeIs(b: Box, t: Thread)
    requires WaitersRight(b) && b.mails != []
    ensures Take(b, t).mails == b.mails[1..] && Take(b, t).sent == b.sent
    ensures forall u :: u in Take(b, t).pc && (Take(b, t).pc[u].SendSuspended? || Take(b, t).pc[u].SendWoken?) ==>
      u in b.pc && (b.pc[u].SendSuspended? || b.pc[u].SendWoken?) && Take(b, t).pc[u].v == b.pc[u].v
  {
    HeadWaits(b);
  }

  /** One more call: what it does to the mails and to what is sent is what its result says. */
  lemma {:induction false} StepAgrees(b: Box, calls: seq<Call>, c: Call)
    requires Inv(b) && Agrees(b, calls) && Legal(b, c.e) && c.r == Answer(b, c.e)
    ensures Agrees(Next(b, c.e), calls + [c])
  {
    var r, after, n := Next(b, c.e), calls + [c], |calls|;
    assert after[..n] == calls && after[n] == c;
    var s, k := Sent(calls), Left(calls);
    if c.e.SendAgain? || c.e.RecvAgain? { IdleLists(b, c.e.t); }
    if c.r == Accepted {
      var v := if c.e.Send? then c.e.v else b.pc[c.e.t].v;
      assert c.e.SendAgain? ==> Carries(b, calls, c.e.t);
      PutIs(if c.e.Send? then b else b.(pc := b.pc[c.e.t := Idle]), v);
      assert (s + [v])[k..] == s[k..] + [v];
    } else if c.r.Delivered? {
      TakeIs(if c.e.Recv? then b else b.(pc := b.pc[c.e.t := Idle]), c.e.t);
    }
    forall t ensures Carries(r, after, t) { assert Carries(b, calls, t); }
  }

  /** Over every run from an empty mailbox, with waiting sends and receives, timeouts, resets and
      changes of priority: what is in the mailbox is what callers sent and has not left, every
      delivery is of the oldest such mail, and the mailbox's own record of what was sent is what
      callers sent. */
  lemma {:induction false} EveryRunDelivers(size: nat, flag: Flag, threads: set<Thread>, prio: map<Thread, nat>,
      calls: seq<Call>, b: Box)
    requires Observed(Initial(size, flag, threads, prio), calls, b)
    ensures Inv(b) && Agrees(b, calls) && Fifo(calls)
    decreases |calls|
  {
    hide Legal, Next, Answer;
    if calls == [] {
      InitialInv(size, flag, threads, prio);
      forall t ensures Carries(b, calls, t) {}
    } else {
      var m := LastCall(Initial(size, flag, threads, prio), calls, b);
      var before, last := calls[..|calls| - 1], calls[|calls| - 1];
      EveryRunDelivers(size, flag, threads, prio, before, m);
      NextInv(m, last.e);
      StepAgrees(m, before, last);
      StepFifo(m, before, last);
    }
  }

  lemma {:induction false} StepFifo(b: Box, calls: seq<Call>, c: Call)
    requires Agrees(b, calls) && Fifo(calls) && c.r == Answer(b, c.e)
    ensures Fifo(calls + [c])
  {
    var after, n := calls + [c], |calls|;
    assert after[..n] == calls && after[n] == c;
  }

  /** Without resets, what was received and what is in the mailbox is what was sent, in order. */
  lemma {:induction false} ReceivedIsSent(size: nat, flag: Flag, threads: set<Thread>, prio: map<Thread, nat>,
      calls: seq<Call>, b: Box)
    requires Observed(Initial(size, flag, threads, prio), calls, b)
    requires forall i :: 0 <= i < |calls| ==> !calls[i].e.Reset?
    ensures Received(calls) + b.mails == Sent(calls)
  {
    EveryRunDelivers(size, flag, threads, prio, calls, b);
    ReceivedFirst(calls);
    assert Sent(calls) == Sent(calls)[..Left(calls)] + Sent(calls)[Left(calls)..];
  }

  lemma {:induction false} SentGrows(calls: seq<Call>)
    requires calls != []
    ensures |Sent(calls[..|calls| - 1])| <= |Sent(calls)|
    ensures forall i :: 0 <= i < |Sent(calls[..|calls| - 1])| ==> Sent(calls)[i] == Sent(calls[..|calls| - 1])[i]
  {
  }

  lemma {:induction false} ReceivedFirst(calls: seq<Call>)
    requires Fifo(calls) && forall i :: 0 <= i < |calls| ==> !calls[i].e.Reset?
    ensures Left(calls) <= |Sent(calls)| && Received(calls) == Sent(calls)[..Left(calls)]
    decreases |calls|
  {
    if calls != [] {
      var n := |calls| - 1;
      forall i | 0 <= i < n ensures !calls[..n][i].e.Reset? { assert calls[..n][i] == calls[i]; }
      ReceivedFirst(calls[..n]);
      SentGrows(calls);
    }
  }

  // ---- who is woken ----

  /** An accepted mail wakes the first waiting receiver and no other; a delivered one wakes the
      first waiting sender and no other. */
  lemma {:induction false} WakesFirst(b: Box, e: Event, u: Thread)
    requires Inv(b) && Legal(b, e) && u in b.pc
    ensures u in Next(b, e).pc
    ensures b.pc[u].RecvSuspended? ==>
      (Next(b, e).pc[u].RecvWoken? <==> Answer(b, e) == Accepted && b.waitR != [] && u == b.waitR[0])
    ensures b.pc[u].SendSuspended? ==>
      (Next(b, e).pc[u].SendWoken? <==> Answer(b, e).Delivered? && b.waitS != [] && u == b.waitS[0])
  {
    HeadWaits(b);
    assert Listed(b, u);
  }

  /** The priorities after a run: the first ones with those set since. */
  function PrioAfter(prio: map<Thread, nat>, calls: seq<Call>): map<Thread, nat> {
    if calls == [] then prio
    else
      var n := |calls| - 1;
      var e, before := calls[n].e, PrioAfter(prio, calls[..n]);
      if e.SetPriority? then before[e.t := e.p] else before
  }

  /** The receivers that wait, read off the calls: one that is told to wait is put where the flag
      of the mailbox says, an accepted mail takes the first away. */
  function Receivers(flag: Flag, prio: map<Thread, nat>, calls: seq<Call>): seq<Thread> {
    if calls == [] then []
    else
      var n := |calls| - 1;
      var c, before := calls[n], Receivers(flag, prio, calls[..n]);
      if c.r == Accepted then (if before == [] then [] else before[1..])
      else if (c.e.Recv? || c.e.RecvAgain?) && c.r == Waiting then
        Enqueue(flag, before, PrioAfter(prio, calls[..n]), c.e.t)
      else if c.e.Timeout? then Without(before, c.e.t)
      else if c.e.Reset? then [] else before
  }

  /** The senders that wait. */
  function Senders(flag: Flag, prio: map<Thread, nat>, calls: seq<Call>): seq<Thread> {
    if calls == [] then []
    else
      var n := |calls| - 1;
      var c, before := calls[n], Senders(flag, prio, calls[..n]);
      if c.r.Delivered? then (if before == [] then [] else before[1..])
      else if (c.e.Send? || c.e.SendAgain?) && c.r == Waiting then
        Enqueue(flag, before, PrioAfter(prio, calls[..n]), c.e.t)
      else if c.e.Timeout? then Without(before, c.e.t)
      else if c.e.Reset? then [] else before
  }

  predicate Queued(b: Box, flag: Flag, prio: map<Thread, nat>, calls: seq<Call>) {
    && b.flag == flag && b.prio == PrioAfter(prio, calls)
    && b.waitR == Receivers(flag, prio, calls) && b.waitS == Senders(flag, prio, calls)
  }

  lemma {:induction false} StepQueues(b: Box, flag: Flag, prio: map<Thread, nat>, calls: seq<Call>, c: Call)
    requires Inv(b) && Legal(b, c.e) && c.r == Answer(b, c.e) && Queued(b, flag, prio, calls)
    ensures Queued(Next(b, c.e), flag, prio, calls + [c])
  {
    var after, n := calls + [c], |calls|;
    assert after[..n] == calls && after[n] == c;
    HeadWaits(b);
    if c.e.SendAgain? || c.e.RecvAgain? { IdleLists(b, c.e.t); HeadWaits(b.(pc := b.pc[c.e.t := Idle])); }
  }

  lemma {:induction false} NoQueues(size: nat, flag: Flag, threads: set<Thread>, prio: map<Thread, nat>)
    ensures Queued(Initial(size, flag, threads, prio), flag, prio, [])
  {
  }

  /** The state before the last call of a run. */
  lemma {:induction false} LastCall(b: Box, calls: seq<Call>, c: Box) returns (m: Box)
    requires calls != [] && Observed(b, calls, c)
    ensures var n := |calls| - 1;
      && calls[..n] + [calls[n]] == calls && Observed(b, calls[..n], m)
      && Legal(m, calls[n].e) && calls[n].r == Answer(m, calls[n].e) && c == Next(m, calls[n].e)
  {
    hide Legal, Answer, Next;
    var n := |calls| - 1;
    m :| Observed(b, calls[..n], m) && Legal(m, calls[n].e) && calls[n].r == Answer(m, calls[n].e)
      && c == Next(m, calls[n].e);
  }

  /** Over every run threads wait in the order of the mailbox: as they came, or by the priorities
      they had when they came. */
  lemma {:induction false} EveryRunQueues(size: nat, flag: Flag, threads: set<Thread>, prio: map<Thread, nat>,
      calls: seq<Call>, b: Box)
    requires Observed(Initial(size, flag, threads, prio), calls, b)
    ensures Queued(b, flag, prio, calls)
    decreases |calls|
  {
    hide Inv, Legal, Next, Answer, Agrees, Fifo, Queued;
    if calls == [] {
      NoQueues(size, flag, threads, prio);
    } else {
      var m := LastCall(Initial(size, flag, threads, prio), calls, b);
      var n := |calls| - 1;
      EveryRunQueues(size, flag, threads, prio, calls[..n], m);
      EveryRunDelivers(size, flag, threads, prio, calls[..n], m);
      StepQueues(m, flag, prio, calls[..n], calls[n]);
    }
  }
}
