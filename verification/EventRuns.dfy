/** What users of an event object see over a run: the set of events, who waits for what and what
    everybody gets, read off the calls and their results. */
module EventRuns {
  import opened IpcList
  import opened Lists
  import opened Event

  /** What a section tells: the threads that a send wakes with what they get; the bits received. */
  datatype Told = Woke(woken: map<Thread, Bits>) | Got(bits: Bits) | Waiting | Refused | Silent

  datatype Call = Call(e: Step, r: Told)

  function Answer(s: State, e: Step): Told {
    match e
    case Send(bits) => Woke(Replay(s.have + bits, s.waiting, s.want).got)
    case Recv(_, w, blocking) =>
      if Satisfied(s.have, w) then Got(Received(s.have, w)) else if blocking then Waiting else Refused
    case PickUp(t) => if t in s.got then Got(s.got[t]) else Silent
    case _ => Silent
  }

  function Initial(flag: Flag, prio: map<Thread, nat>): State { State({}, flag, [], map[], map[], prio) }

  /** The run from `first` with these calls and results ends in `s`. */
  ghost predicate Observed(first: State, calls: seq<Call>, s: State)
    decreases |calls|
  {
    if calls == [] then s == first
    else
      var n := |calls| - 1;
      exists m {:trigger Follows(m, calls[n], s)} :: Observed(first, calls[..n], m) && Follows(m, calls[n], s)
  }

  ghost predicate Follows(m: State, c: Call, s: State) {
    Legal(m, c.e) && c.r == Answer(m, c.e) && s == Next(m, c.e)
  }

  /** What thread `t` last asked for. */
  function Asked(calls: seq<Call>, t: Thread): Want {
    if calls == [] then Want({}, false, false)
    else
      var n := |calls| - 1;
      if calls[n].e.Recv? && calls[n].e.t == t then calls[n].e.w else Asked(calls[..n], t)
  }

  /** A woken thread that asked for the bits to be cleared got bit `b`. */
  predicate Consumed(calls: seq<Call>, woken: map<Thread, Bits>, b: nat) {
    exists t | t in woken :: Asked(calls, t).clear && b in woken[t]
  }

  /** The events that are there: sent, and neither consumed nor reset since then. */
  function Pending(calls: seq<Call>): Bits {
    if calls == [] then {}
    else
      var n := |calls| - 1;
      var c, before := calls[n], Pending(calls[..n]);
      if c.e.Send? && c.r.Woke? then set b | b in before + c.e.bits && !Consumed(calls[..n], c.r.woken, b)
      else if c.e.Recv? && c.r.Got? && c.e.w.clear then before - c.r.bits
      else if c.e.Reset? then {} else before
  }

  /** The threads that wait, in the order of the list. */
  function Waiters(flag: Flag, prio: map<Thread, nat>, calls: seq<Call>): seq<Thread> {
    if calls == [] then []
    else
      var n := |calls| - 1;
      var c, before := calls[n], Waiters(flag, prio, calls[..n]);
      if c.e.Send? && c.r.Woke? then Except(before, c.r.woken.Keys)
      else if c.e.Recv? && c.r.Waiting? then Enqueue(flag, before, prio, c.e.t)
      else if c.e.Timeout? then Without(before, c.e.t)
      else if c.e.Reset? then [] else before
  }

  /** What woken threads were given and have not picked up. */
  function Given(calls: seq<Call>): map<Thread, Bits> {
    if calls == [] then map[]
    else
      var n := |calls| - 1;
      var c, before := calls[n], Given(calls[..n]);
      if c.e.Send? && c.r.Woke? then before + c.r.woken
      else if c.e.PickUp? then before - {c.e.t} else before
  }

  /** A woken thread gets some of what it asked for and is there, all of it if it asked for all. */
  predicate Gets(calls: seq<Call>, have: Bits, t: Thread, got: Bits) {
    got != {} && got <= Asked(calls, t).bits && got <= have && (Asked(calls, t).all ==> got == Asked(calls, t).bits)
  }

  /** A call is answered as the calls before it promise. */
  ghost predicate Fair(flag: Flag, prio: map<Thread, nat>, calls: seq<Call>, c: Call) {
    match c.e
    case Send(bits) =>
      && c.r.Woke?
      && (forall t :: t in c.r.woken ==>
         t in Waiters(flag, prio, calls) && Gets(calls, Pending(calls) + bits, t, c.r.woken[t]))
    case Recv(_, w, blocking) =>
      c.r == if Satisfied(Pending(calls), w) then Got(Pending(calls) * w.bits) else if blocking then Waiting
        else Refused
    case PickUp(t) => t in Given(calls) && c.r == Got(Given(calls)[t])
    case _ => c.r == Silent
  }

  ghost predicate AllFair(flag: Flag, prio: map<Thread, nat>, calls: seq<Call>)
    decreases |calls|
  {
    calls != [] ==>
      var n := |calls| - 1; AllFair(flag, prio, calls[..n]) && Fair(flag, prio, calls[..n], calls[n])
  }

  // ---- the event object against what was observed ----

  predicate WantIs(s: State, calls: seq<Call>, t: Thread) {
    t in s.waiting ==> t in s.want && s.want[t] == Asked(calls, t)
  }

  ghost predicate Agrees(s: State, flag: Flag, prio: map<Thread, nat>, calls: seq<Call>) {
    && s.flag == flag && s.prio == prio && NoneReady(s)
    && s.have == Pending(calls) && s.waiting == Waiters(flag, prio, calls) && s.got == Given(calls)
    && (forall t {:trigger WantIs(s, calls, t)} :: WantIs(s, calls, t))
  }

  /** A send: what is there afterwards, and what everybody gets. */
  lemma {:induction false} SendAgrees(s: State, flag: Flag, prio: map<Thread, nat>, calls: seq<Call>, bits: Bits)
    requires Agrees(s, flag, prio, calls) && Legal(s, Send(bits))
    ensures var c := Call(Send(bits), Answer(s, Send(bits)));
      Agrees(Next(s, c.e), flag, prio, calls + [c]) && Fair(flag, prio, calls, c)
  {
    var c := Call(Send(bits), Answer(s, Send(bits)));
    var r, after, n := Next(s, c.e), calls + [c], |calls|;
    assert after[..n] == calls && after[n] == c;
    NextNoneReady(s, c.e);
    var woken := SendGives(s, bits);
    forall t | t in woken ensures s.want[t] == Asked(calls, t) { assert WantIs(s, calls, t); }
    forall b ensures Consumed(calls, woken, b) <==> Cleared(woken, s.want, b) {
      if Consumed(calls, woken, b) {
        var t :| t in woken && Asked(calls, t).clear && b in woken[t];
        assert s.want[t].clear;
      }
    }
    assert Pending(after) == r.have;
    ExceptKeeps(s.waiting, woken.Keys);
    forall t ensures WantIs(r, after, t) { assert WantIs(s, calls, t); }
  }

  lemma {:induction false} ExceptKeeps(list: seq<Thread>, gone: set<Thread>)
    ensures forall t :: t in Except(list, gone) <==> t in list && t !in gone
  {
    if list != [] { ExceptKeeps(list[1..], gone); }
  }

  /** Every other call. */
  lemma {:induction false} OtherAgrees(s: State, flag: Flag, prio: map<Thread, nat>, calls: seq<Call>, c: Call)
    requires Agrees(s, flag, prio, calls) && Legal(s, c.e) && c.r == Answer(s, c.e) && !c.e.Send?
    ensures Agrees(Next(s, c.e), flag, prio, calls + [c]) && Fair(flag, prio, calls, c)
  {
    var r, after, n := Next(s, c.e), calls + [c], |calls|;
    assert after[..n] == calls && after[n] == c;
    NextNoneReady(s, c.e);
    if c.e.Recv? { EnqueueContents(s.flag, s.waiting, s.prio, c.e.t); }
    if c.e.Recv? && c.r.Got? && c.e.w.clear { assert s.have - c.e.w.bits == s.have - s.have * c.e.w.bits; }
    forall t ensures WantIs(r, after, t) { assert WantIs(s, calls, t); }
  }

  /** Over every run from an empty set, with either flag: the set holds the events that were sent
      and neither consumed by a thread that asked for it nor reset; the threads that wait are those
      that were told to, and each of them for what it asked for; no call waits for what is there;
      and every call gets what it asked for. */
  lemma {:induction false} EveryRunGives(flag: Flag, prio: map<Thread, nat>, calls: seq<Call>, s: State)
    requires Observed(Initial(flag, prio), calls, s)
    ensures Agrees(s, flag, prio, calls) && AllFair(flag, prio, calls)
    decreases |calls|
  {
    hide Agrees, Fair, Follows;
    if calls == [] {
      FirstAgrees(flag, prio);
    } else {
      var n := |calls| - 1;
      var m :| Observed(Initial(flag, prio), calls[..n], m) && Follows(m, calls[n], s);
      EveryRunGives(flag, prio, calls[..n], m);
      assert calls[..n] + [calls[n]] == calls;
      StepAgrees(m, flag, prio, calls[..n], calls[n], s);
    }
  }

  lemma {:induction false} FirstAgrees(flag: Flag, prio: map<Thread, nat>)
    ensures Agrees(Initial(flag, prio), flag, prio, [])
  {
    var s := Initial(flag, prio);
    forall t ensures WantIs(s, [], t) {}
  }

  lemma {:induction false} StepAgrees(m: State, flag: Flag, prio: map<Thread, nat>, calls: seq<Call>, c: Call, s: State)
    requires Agrees(m, flag, prio, calls) && Follows(m, c, s)
    ensures Agrees(s, flag, prio, calls + [c]) && Fair(flag, prio, calls, c)
  {
    hide Agrees, Fair, Next, Answer, Legal;
    match c.e
    case Send(bits) => SendAgrees(m, flag, prio, calls, bits);
    case _ => OtherAgrees(m, flag, prio, calls, c);
  }
}
