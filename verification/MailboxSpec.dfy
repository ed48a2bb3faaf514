/** Mailboxes as a protocol of atomic sections: a thread enters a call, is suspended, is woken
    and later re-runs, or times out. */
module MailboxSpec {
  import opened IpcList
  import opened Lists

  /** Where a thread is in a mailbox call. `forever` calls have no timeout. */
  datatype Pc =
    | Idle
    | RecvSuspended(forever: bool)
    | RecvWoken(forever: bool)
    | SendSuspended(v: int, forever: bool)
    | SendWoken(v: int, forever: bool)

  /** A mail that left the mailbox. */
  datatype Gone = Got(v: int, to: Thread) | Dropped(v: int)

  datatype Box = Box(
    size: nat,
    flag: Flag,
    mails: seq<int>,
    waitR: seq<Thread>,
    waitS: seq<Thread>,
    pc: map<Thread, Pc>,
    prio: map<Thread, nat>,
    sent: seq<int>,
    gone: seq<Gone>)

  datatype Wait = NoWait | Blocking(forever: bool)

  datatype Event =
    | Send(t: Thread, v: int, wait: Wait)
    | SendAgain(t: Thread, expired: bool)
    | Recv(t: Thread, wait: Wait)
    | RecvAgain(t: Thread, expired: bool)
    | Timeout(t: Thread)
    | Reset
    | SetPriority(t: Thread, p: nat)

  predicate Legal(b: Box, e: Event) {
    match e
    case Send(t, _, _) => t in b.pc && b.pc[t].Idle?
    case Recv(t, _) => t in b.pc && b.pc[t].Idle?
    case SendAgain(t, expired) => t in b.pc && b.pc[t].SendWoken? && (expired ==> !b.pc[t].forever)
    case RecvAgain(t, expired) => t in b.pc && b.pc[t].RecvWoken? && (expired ==> !b.pc[t].forever)
    case Timeout(t) => t in b.pc && (b.pc[t].RecvSuspended? || b.pc[t].SendSuspended?) && !b.pc[t].forever
    case Reset => true
    case SetPriority(t, _) => t in b.pc
  }

  // ---- the atomic sections ----

  function WakeReceiver(b: Box): Box {
    if b.waitR == [] || b.waitR[0] !in b.pc || !b.pc[b.waitR[0]].RecvSuspended? then b
    else b.(waitR := b.waitR[1..], pc := b.pc[b.waitR[0] := RecvWoken(b.pc[b.waitR[0]].forever)])
  }

  function WakeSender(b: Box): Box {
    if b.waitS == [] || b.waitS[0] !in b.pc || !b.pc[b.waitS[0]].SendSuspended? then b
    else
      var p := b.pc[b.waitS[0]];
      b.(waitS := b.waitS[1..], pc := b.pc[b.waitS[0] := SendWoken(p.v, p.forever)])
  }

  /** The mail goes in and one suspended receiver is woken. */
  function Put(b: Box, v: int): Box {
    WakeReceiver(b.(mails := b.mails + [v], sent := b.sent + [v]))
  }

  /** The oldest mail goes out and one suspended sender is woken. */
  function Take(b: Box, t: Thread): Box
    requires b.mails != []
  {
    WakeSender(b.(mails := b.mails[1..], gone := b.gone + [Got(b.mails[0], t)]))
  }

  function SuspendSender(b: Box, t: Thread, v: int, forever: bool): Box {
    b.(waitS := Enqueue(b.flag, b.waitS, b.prio, t), pc := b.pc[t := SendSuspended(v, forever)])
  }

  function SuspendReceiver(b: Box, t: Thread, forever: bool): Box {
    b.(waitR := Enqueue(b.flag, b.waitR, b.prio, t), pc := b.pc[t := RecvSuspended(forever)])
  }

  function Drops(mails: seq<int>): seq<Gone> {
    seq(|mails|, i requires 0 <= i < |mails| => Dropped(mails[i]))
  }

  /** rt_mb_control with RT_IPC_CMD_RESET: every suspended call fails, the mails are dropped. */
  function Clear(b: Box): Box {
    b.(waitR := [], waitS := [], mails := [], gone := b.gone + Drops(b.mails),
       pc := map t | t in b.pc :: if b.pc[t].RecvSuspended? || b.pc[t].SendSuspended? then Idle else b.pc[t])
  }

  function Next(b: Box, e: Event): Box
    requires Legal(b, e)
  {
    match e
    case Send(t, v, wait) =>
      if |b.mails| < b.size then Put(b, v) else if wait.NoWait? then b else SuspendSender(b, t, v, wait.forever)
    case SendAgain(t, expired) =>
      var p, idle := b.pc[t], b.(pc := b.pc[t := Idle]);
      if |b.mails| < b.size then Put(idle, p.v) else if expired then idle else SuspendSender(b, t, p.v, p.forever)
    case Recv(t, wait) =>
      if b.mails != [] then Take(b, t) else if wait.NoWait? then b else SuspendReceiver(b, t, wait.forever)
    case RecvAgain(t, expired) =>
      var p, idle := b.pc[t], b.(pc := b.pc[t := Idle]);
      if b.mails != [] then Take(idle, t) else if expired then idle else SuspendReceiver(b, t, p.forever)
    case Timeout(t) =>
      b.(waitR := Without(b.waitR, t), waitS := Without(b.waitS, t), pc := b.pc[t := Idle])
    case Reset => Clear(b)
    case SetPriority(t, p) => b.(prio := b.prio[t := p])
  }

  // ---- invariant ----

  ghost function WokenReceivers(pc: map<Thread, Pc>): set<Thread> { set t | t in pc && pc[t].RecvWoken? }
  ghost function WokenSenders(pc: map<Thread, Pc>): set<Thread> { set t | t in pc && pc[t].SendWoken? }

  function Values(gone: seq<Gone>): seq<int> {
    seq(|gone|, i requires 0 <= i < |gone| => gone[i].v)
  }

  predicate Listed(b: Box, t: Thread) {
    && (t in b.waitR <==> t in b.pc && b.pc[t].RecvSuspended?)
    && (t in b.waitS <==> t in b.pc && b.pc[t].SendSuspended?)
  }

  ghost predicate WaitersRight(b: Box) {
    Distinct(b.waitR) && Distinct(b.waitS) && forall t {:trigger Listed(b, t)} :: Listed(b, t)
  }

  /** First in, first out: what went out, followed by what is in, is what was sent. */
  ghost predicate InOrder(b: Box) {
    |b.mails| <= b.size && b.sent == Values(b.gone) + b.mails
  }

  /** No lost wake-up: while a receiver is suspended, every mail has a receiver on its way to
      it; while a sender is suspended, every free place has a sender on its way. */
  ghost predicate NoLostWakeup(b: Box) {
    && (b.waitR != [] ==> |b.mails| <= |WokenReceivers(b.pc)|)
    && (b.waitS != [] ==> b.size - |b.mails| <= |WokenSenders(b.pc)|)
  }

  ghost predicate Inv(b: Box) {
    WaitersRight(b) && InOrder(b) && NoLostWakeup(b)
  }

  // ---- list bookkeeping ----

  lemma {:induction false} HeadWaits(b: Box)
    requires WaitersRight(b)
    ensures b.waitR != [] ==> b.waitR[0] in b.pc && b.pc[b.waitR[0]].RecvSuspended? && b.waitR[0] !in b.waitR[1..]
    ensures b.waitS != [] ==> b.waitS[0] in b.pc && b.pc[b.waitS[0]].SendSuspended? && b.waitS[0] !in b.waitS[1..]
  {
    if b.waitR != [] {
      assert Listed(b, b.waitR[0]);
      forall k | 1 <= k < |b.waitR| ensures b.waitR[k] != b.waitR[0] { assert Differ(b.waitR[0], b.waitR[k]); }
    }
    if b.waitS != [] {
      assert Listed(b, b.waitS[0]);
      forall k | 1 <= k < |b.waitS| ensures b.waitS[k] != b.waitS[0] { assert Differ(b.waitS[0], b.waitS[k]); }
    }
  }

  lemma {:induction false} WakeReceiverLists(b: Box)
    requires WaitersRight(b)
    ensures WaitersRight(WakeReceiver(b))
  {
    HeadWaits(b);
    var r := WakeReceiver(b);
    if b.waitR != [] {
      TailWithout(b.waitR);
      forall t ensures Listed(r, t) { assert Listed(b, t); }
    }
  }

  lemma {:induction false} WakeSenderLists(b: Box)
    requires WaitersRight(b)
    ensures WaitersRight(WakeSender(b))
  {
    HeadWaits(b);
    var r := WakeSender(b);
    if b.waitS != [] {
      TailWithout(b.waitS);
      forall t ensures Listed(r, t) { assert Listed(b, t); }
    }
  }

  lemma {:induction false} SuspendLists(b: Box, t: Thread, v: int, forever: bool)
    requires WaitersRight(b) && t in b.pc && !b.pc[t].RecvSuspended? && !b.pc[t].SendSuspended?
    ensures WaitersRight(SuspendSender(b, t, v, forever)) && WaitersRight(SuspendReceiver(b, t, forever))
  {
    assert Listed(b, t);
    EnqueueContents(b.flag, b.waitS, b.prio, t);
    EnqueueContents(b.flag, b.waitR, b.prio, t);
    var s, r := SuspendSender(b, t, v, forever), SuspendReceiver(b, t, forever);
    forall u ensures Listed(s, u) && Listed(r, u) { assert Listed(b, u); }
  }

  lemma {:induction false} IdleLists(b: Box, t: Thread)
    requires WaitersRight(b) && t in b.pc && !b.pc[t].RecvSuspended? && !b.pc[t].SendSuspended?
    ensures WaitersRight(b.(pc := b.pc[t := Idle]))
  {
    var r := b.(pc := b.pc[t := Idle]);
    forall u ensures Listed(r, u) { assert Listed(b, u); }
  }

  lemma {:induction false} DropLists(b: Box)
    requires WaitersRight(b)
    ensures WaitersRight(Clear(b))
  {
    var r := Clear(b);
    forall u ensures Listed(r, u) { assert Listed(b, u); }
  }

  // ---- counting ----

  lemma {:induction false} WokenAfter(pc: map<Thread, Pc>, t: Thread, p: Pc)
    ensures WokenReceivers(pc[t := p]) == if p.RecvWoken? then WokenReceivers(pc) + {t} else WokenReceivers(pc) - {t}
    ensures WokenSenders(pc[t := p]) == if p.SendWoken? then WokenSenders(pc) + {t} else WokenSenders(pc) - {t}
  {
  }

  lemma {:induction false} ValuesAppend(g: seq<Gone>, h: seq<Gone>)
    ensures Values(g + h) == Values(g) + Values(h)
  {
  }

  lemma {:induction false} DropValues(m: seq<int>)
    ensures Values(Drops(m)) == m
  {
  }

  lemma {:induction false} PutKeeps(b: Box, v: int)
    requires WaitersRight(b) && InOrder(b) && |b.mails| < b.size
    requires b.waitR != [] ==> |b.mails| <= |WokenReceivers(b.pc)|
    requires b.waitS != [] ==> b.size - |b.mails| <= |WokenSenders(b.pc)| + 1
    ensures Inv(Put(b, v))
  {
    var m := b.(mails := b.mails + [v], sent := b.sent + [v]);
    forall t ensures Listed(m, t) { assert Listed(b, t); }
    WakeReceiverLists(m);
    HeadWaits(b);
    if b.waitR != [] { WokenAfter(b.pc, b.waitR[0], RecvWoken(b.pc[b.waitR[0]].forever)); }
    assert Values(b.gone) + (b.mails + [v]) == Values(b.gone) + b.mails + [v];
  }

  lemma {:induction false} TakeKeeps(b: Box, t: Thread)
    requires WaitersRight(b) && InOrder(b) && b.mails != []
    requires b.waitR != [] ==> |b.mails| <= |WokenReceivers(b.pc)| + 1
    requires b.waitS != [] ==> b.size - |b.mails| <= |WokenSenders(b.pc)|
    ensures Inv(Take(b, t))
  {
    var m := b.(mails := b.mails[1..], gone := b.gone + [Got(b.mails[0], t)]);
    forall u ensures Listed(m, u) { assert Listed(b, u); }
    WakeSenderLists(m);
    HeadWaits(b);
    if b.waitS != [] { WokenAfter(b.pc, b.waitS[0], SendWoken(b.pc[b.waitS[0]].v, b.pc[b.waitS[0]].forever)); }
    TakenInOrder(b.gone, b.mails, t);
  }

  lemma {:induction false} TakenInOrder(gone: seq<Gone>, mails: seq<int>, t: Thread)
    requires mails != []
    ensures Values(gone + [Got(mails[0], t)]) + mails[1..] == Values(gone) + mails
  {
    ValuesAppend(gone, [Got(mails[0], t)]);
    assert Values([Got(mails[0], t)]) == [mails[0]];
    assert mails == [mails[0]] + mails[1..];
  }

  /** Every step keeps the mailbox in order and loses no wake-up. */
  lemma {:induction false} NextInv(b: Box, e: Event)
    requires Inv(b) && Legal(b, e)
    ensures Inv(Next(b, e))
  {
    match e
    case Send(t, v, wait) =>
      if |b.mails| < b.size { PutKeeps(b, v); }
      else if wait.Blocking? {
        SuspendLists(b, t, v, wait.forever);
        WokenAfter(b.pc, t, SendSuspended(v, wait.forever));
      }
    case SendAgain(t, expired) => SendAgainInv(b, t, expired);
    case Recv(t, wait) =>
      if b.mails != [] { TakeKeeps(b, t); }
      else if wait.Blocking? {
        SuspendLists(b, t, 0, wait.forever);
        WokenAfter(b.pc, t, RecvSuspended(wait.forever));
      }
    case RecvAgain(t, expired) => RecvAgainInv(b, t, expired);
    case Timeout(t) => TimeoutInv(b, t);
    case Reset =>
      DropLists(b);
      ValuesAppend(b.gone, Drops(b.mails));
      DropValues(b.mails);
    case SetPriority(_, _) =>
      var r := Next(b, e);
      forall u ensures Listed(r, u) { assert Listed(b, u); }
  }

  lemma {:induction false} SendAgainInv(b: Box, t: Thread, expired: bool)
    requires Inv(b) && Legal(b, SendAgain(t, expired))
    ensures Inv(Next(b, SendAgain(t, expired)))
  {
    var p, idle := b.pc[t], b.(pc := b.pc[t := Idle]);
    IdleLists(b, t);
    WokenAfter(b.pc, t, Idle);
    if |b.mails| < b.size { PutKeeps(idle, p.v); }
    else if !expired {
      SuspendLists(b, t, p.v, p.forever);
      WokenAfter(b.pc, t, SendSuspended(p.v, p.forever));
    }
  }

  lemma {:induction false} RecvAgainInv(b: Box, t: Thread, expired: bool)
    requires Inv(b) && Legal(b, RecvAgain(t, expired))
    ensures Inv(Next(b, RecvAgain(t, expired)))
  {
    var p, idle := b.pc[t], b.(pc := b.pc[t := Idle]);
    IdleLists(b, t);
    WokenAfter(b.pc, t, Idle);
    if b.mails != [] { TakeKeeps(idle, t); }
    else if !expired {
      SuspendLists(b, t, 0, p.forever);
      WokenAfter(b.pc, t, RecvSuspended(p.forever));
    }
  }

  lemma {:induction false} TimeoutInv(b: Box, t: Thread)
    requires Inv(b) && Legal(b, Timeout(t))
    ensures Inv(Next(b, Timeout(t)))
  {
    var r := Next(b, Timeout(t));
    WithoutKeeps(b.waitR, t, b.prio);
    WithoutKeeps(b.waitS, t, b.prio);
    forall u ensures Listed(r, u) { assert Listed(b, u); }
    WokenAfter(b.pc, t, Idle);
    assert WokenReceivers(r.pc) == WokenReceivers(b.pc) && WokenSenders(r.pc) == WokenSenders(b.pc);
  }

  ghost predicate Reaches(b: Box, es: seq<Event>, c: Box)
    decreases |es|
  {
    if es == [] then b == c else Legal(b, es[0]) && Reaches(Next(b, es[0]), es[1..], c)
  }

  function Initial(size: nat, flag: Flag, threads: set<Thread>, prio: map<Thread, nat>): Box {
    Box(size, flag, [], [], [], map t | t in threads :: Idle, prio, [], [])
  }

  /** Over every run from an empty mailbox: delivery is exactly the sent sequence, in order,
      and a suspended receiver never faces mail, nor a suspended sender a free place, without
      somebody woken for it. */
  lemma {:induction false} EveryRun(b: Box, es: seq<Event>, c: Box)
    requires Inv(b) && Reaches(b, es, c)
    ensures Inv(c)
    decreases |es|
  {
    if es != [] {
      NextInv(b, es[0]);
      EveryRun(Next(b, es[0]), es[1..], c);
    }
  }

  lemma {:induction false} InitialInv(size: nat, flag: Flag, threads: set<Thread>, prio: map<Thread, nat>)
    ensures Inv(Initial(size, flag, threads, prio))
  {
    var b := Initial(size, flag, threads, prio);
    forall t ensures Listed(b, t) {}
  }

  /** Once every woken thread has re-run, no receiver waits for mail that is there and no
      sender waits for a place that is free. */
  lemma {:induction false} Quiescent(b: Box)
    requires Inv(b) && WokenReceivers(b.pc) == {} && WokenSenders(b.pc) == {}
    ensures b.mails != [] ==> b.waitR == []
    ensures |b.mails| < b.size ==> b.waitS == []
  {
  }
}
