/** A mailbox in place: the ring of mails and its two wait lists. Each method is one section
    with interrupts disabled. */
module Mailbox {
  import opened IpcList
  import opened MailboxSpec
  import opened MailboxRuns

  datatype Status = Ok | Full | TimedOut | Suspended

  /** The results of a send and of a receive. */
  function SendResult(r: Status): Result {
    match r
    case Ok => Accepted
    case Suspended => Waiting
    case _ => Refused
  }

  function RecvResult(r: Status, v: int): Result {
    match r
    case Ok => Delivered(v)
    case Suspended => Waiting
    case _ => Refused
  }

  class Mailbox {
    const size: nat
    const pool: array<int>
    const flag: Flag
    var inOffset: nat
    var outOffset: nat
    var entry: nat
    const receivers: WaitList
    const senders: WaitList
    /** The protocol state this mailbox is in, thread positions included. */
    ghost var box: Box

    function Wrap(x: nat): nat { if x >= size then x - size else x }

    /** The ring holds the mails: `entry` of them from the output offset on. */
    ghost predicate RingHolds(mails: seq<int>)
      reads this`inOffset, this`outOffset, this`entry, pool
    {
      && pool.Length == size && entry == |mails| <= size
      && (outOffset < size || outOffset == 0)
      && inOffset == Wrap(outOffset + entry)
      && forall k {:trigger Cell(k, mails[k])} :: 0 <= k < entry ==> Cell(k, mails[k])
    }

    /** The `k`-th mail behind the output offset is `v`. */
    ghost predicate Cell(k: nat, v: int)
      requires pool.Length == size
      reads this`outOffset, pool
    {
      Wrap(outOffset + k) < size && pool[Wrap(outOffset + k)] == v
    }

    ghost predicate Valid()
      reads this, pool, receivers, senders
    {
      && receivers != senders && receivers.threads == box.waitR && senders.threads == box.waitS
      && box.size == size && box.flag == flag
      && RingHolds(box.mails) && Inv(box)
    }

    constructor (size: nat, flag: Flag, threads: set<Thread>, prio: map<Thread, nat>)
      ensures Valid() && box == Initial(size, flag, threads, prio) && fresh(pool) && fresh(receivers) && fresh(senders)
    {
      this.size, this.flag := size, flag;
      pool := new int[size](_ => 0);
      inOffset, outOffset, entry := 0, 0, 0;
      receivers := new WaitList();
      senders := new WaitList();
      box := Initial(size, flag, threads, prio);
      InitialInv(size, flag, threads, prio);
    }

    /** Stores a mail at the input offset. */
    method Store(v: int, ghost mails: seq<int>)
      requires RingHolds(mails) && entry < size
      modifies this`inOffset, this`entry, pool
      ensures RingHolds(mails + [v])
    {
      pool[inOffset] := v;
      inOffset := inOffset + 1;
      if inOffset >= size { inOffset := 0; }
      entry := entry + 1;
      forall k | 0 <= k < entry ensures Cell(k, (mails + [v])[k]) {
        assert k < entry - 1 ==> old(Cell(k, mails[k]));
      }
    }

    /** Takes the mail at the output offset. */
    method Fetch(ghost mails: seq<int>) returns (v: int)
      requires RingHolds(mails) && entry > 0
      modifies this`outOffset, this`entry
      ensures v == mails[0] && RingHolds(mails[1..])
    {
      assert Cell(0, mails[0]);
      v := pool[outOffset];
      outOffset := outOffset + 1;
      if outOffset >= size { outOffset := 0; }
      entry := entry - 1;
      forall k | 0 <= k < entry ensures Cell(k, mails[1..][k]) { assert old(Cell(k + 1, mails[k + 1])); }
    }

    method PutMail(v: int, ghost before: Box)
      requires receivers != senders && receivers.threads == before.waitR && senders.threads == before.waitS
      requires before.size == size && before.flag == flag && RingHolds(before.mails) && entry < size
      requires WaitersRight(before) && Inv(Put(before, v))
      modifies this, pool, receivers
      ensures Valid() && box == Put(before, v)
    {
      HeadWaits(before);
      Store(v, before.mails);
      if receivers.threads != [] { receivers.threads := receivers.threads[1..]; }
      box := Put(before, v);
    }

    method TakeMail(t: Thread, ghost before: Box) returns (v: int)
      requires receivers != senders && receivers.threads == before.waitR && senders.threads == before.waitS
      requires before.size == size && before.flag == flag && RingHolds(before.mails) && entry > 0
      requires WaitersRight(before) && Inv(Take(before, t))
      modifies this, senders
      ensures Valid() && box == Take(before, t) && v == before.mails[0]
    {
      HeadWaits(before);
      v := Fetch(before.mails);
      if senders.threads != [] { senders.threads := senders.threads[1..]; }
      box := Take(before, t);
    }

    /** rt_mb_send_wait up to the first suspension. */
    method SendSection(t: Thread, v: int, wait: Wait, prio: map<Thread, nat>) returns (r: Status)
      requires Valid() && Legal(box, Send(t, v, wait)) && prio == box.prio
      modifies this, pool, receivers, senders
      ensures Valid() && box == Next(old(box), Send(t, v, wait))
      ensures SendResult(r) == Answer(old(box), Send(t, v, wait))
      ensures box.mails == if r == Ok then old(box.mails) + [v] else old(box.mails)
      ensures r == if old(entry) < size then Ok else if wait.NoWait? then Full else Suspended
    {
      NextInv(box, Send(t, v, wait));
      if entry == size {
        if wait.NoWait? { return Full; }
        senders.Suspend(t, flag, prio);
        box := Next(box, Send(t, v, wait));
        return Suspended;
      }
      PutMail(v, box);
      r := Ok;
    }

    /** rt_mb_send_wait from a wake-up on; `expired` says that no waiting time is left. */
    method SendAgainSection(t: Thread, v: int, expired: bool, prio: map<Thread, nat>) returns (r: Status)
      requires Valid() && Legal(box, SendAgain(t, expired)) && prio == box.prio && box.pc[t].v == v
      modifies this, pool, receivers, senders
      ensures Valid() && box == Next(old(box), SendAgain(t, expired))
      ensures SendResult(r) == Answer(old(box), SendAgain(t, expired))
      ensures box.mails == if r == Ok then old(box.mails) + [v] else old(box.mails)
      ensures r == if old(entry) < size then Ok else if expired then Full else Suspended
    {
      NextInv(box, SendAgain(t, expired));
      if entry == size {
        if !expired { senders.Suspend(t, flag, prio); }
        box := Next(box, SendAgain(t, expired));
        return if expired then Full else Suspended;
      }
      IdleLists(box, t);
      PutMail(v, box.(pc := box.pc[t := Idle]));
      r := Ok;
    }

    /** rt_mb_recv up to the first suspension. */
    method RecvSection(t: Thread, wait: Wait, prio: map<Thread, nat>) returns (r: Status, v: int)
      requires Valid() && Legal(box, Recv(t, wait)) && prio == box.prio
      modifies this, receivers, senders
      ensures Valid() && box == Next(old(box), Recv(t, wait))
      ensures RecvResult(r, v) == Answer(old(box), Recv(t, wait))
      ensures r == if old(entry) > 0 then Ok else if wait.NoWait? then TimedOut else Suspended
      ensures r == Ok ==> old(box).mails == [v] + box.mails
    {
      NextInv(box, Recv(t, wait));
      v := 0;
      if entry == 0 {
        if wait.NoWait? { return TimedOut, v; }
        receivers.Suspend(t, flag, prio);
        box := Next(box, Recv(t, wait));
        return Suspended, v;
      }
      v := TakeMail(t, box);
      r := Ok;
    }

    /** rt_mb_recv from a wake-up on. */
    method RecvAgainSection(t: Thread, expired: bool, prio: map<Thread, nat>) returns (r: Status, v: int)
      requires Valid() && Legal(box, RecvAgain(t, expired)) && prio == box.prio
      modifies this, receivers, senders
      ensures Valid() && box == Next(old(box), RecvAgain(t, expired))
      ensures RecvResult(r, v) == Answer(old(box), RecvAgain(t, expired))
      ensures r == if old(entry) > 0 then Ok else if expired then TimedOut else Suspended
      ensures r == Ok ==> old(box).mails == [v] + box.mails
    {
      NextInv(box, RecvAgain(t, expired));
      v := 0;
      if entry == 0 {
        if !expired { receivers.Suspend(t, flag, prio); }
        box := Next(box, RecvAgain(t, expired));
        return if expired then TimedOut else Suspended, v;
      }
      IdleLists(box, t);
      v := TakeMail(t, box.(pc := box.pc[t := Idle]));
      r := Ok;
    }

    /** rt_thread_timeout on a thread waiting here: it leaves whichever list it is in. */
    method TimeoutSection(t: Thread)
      requires Valid() && Legal(box, Timeout(t))
      modifies this, receivers, senders
      ensures Valid() && box == Next(old(box), Timeout(t))
    {
      NextInv(box, Timeout(t));
      receivers.threads := Without(receivers.threads, t);
      senders.threads := Without(senders.threads, t);
      box := Next(box, Timeout(t));
    }

    /** rt_mb_control, reset command. */
    method ResetSection()
      requires Valid()
      modifies this, receivers, senders
      ensures Valid() && box == Next(old(box), Reset)
    {
      NextInv(box, Reset);
      while receivers.threads != []
        invariant receivers != senders && senders.threads == old(senders.threads) && box == old(box)
          && RingHolds(box.mails)
        decreases |receivers.threads|
      {
        receivers.threads := receivers.threads[1..];
      }
      while senders.threads != []
        invariant receivers.threads == [] && receivers != senders && box == old(box) && RingHolds(box.mails)
        decreases |senders.threads|
      {
        senders.threads := senders.threads[1..];
      }
      entry, inOffset, outOffset := 0, 0, 0;
      box := Next(box, Reset);
    }
  }
}
