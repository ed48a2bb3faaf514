/** Event objects. A 32-bit event mask is the set of the numbers of its bits. */
module Event {
  import opened IpcList
  import opened Lists

  type Bits = set<nat>

  /** RT_EVENT_FLAG_AND or RT_EVENT_FLAG_OR, with or without RT_EVENT_FLAG_CLEAR. */
  datatype Want = Want(bits: Bits, all: bool, clear: bool)

  predicate Satisfied(have: Bits, w: Want) {
    if w.all then have * w.bits == w.bits else have * w.bits != {}
  }

  // ---- receiving without waiting ----

  function Received(have: Bits, w: Want): Bits { have * w.bits }

  function AfterRecv(have: Bits, w: Want): Bits { if w.clear then have - w.bits else have }

  // ---- sending, as an independent receive of each waiter in turn ----

  datatype Sent = Sent(have: Bits, still: seq<Thread>, got: map<Thread, Bits>)

  /** Each waiter in list order receives without waiting, or stays. */
  function Replay(have: Bits, waiting: seq<Thread>, want: map<Thread, Want>): Sent {
    if waiting == [] then Sent(have, [], map[])
    else
      var t := waiting[0];
      if t in want && Satisfied(have, want[t]) then
        var r := Replay(AfterRecv(have, want[t]), waiting[1..], want);
        r.(got := r.got[t := Received(have, want[t])])
      else
        var r := Replay(have, waiting[1..], want);
        r.(still := [t] + r.still)
  }

  // ---- the protocol ----

  /** `waiting` are the suspended threads with what they want; `got` is what woken threads
      have received and not yet picked up. */
  datatype State = State(have: Bits, flag: Flag, waiting: seq<Thread>, want: map<Thread, Want>, got: map<Thread, Bits>,
    prio: map<Thread, nat>)

  datatype Step =
    | Send(bits: Bits)
    | Recv(t: Thread, w: Want, blocking: bool)
    | PickUp(t: Thread)
    | Timeout(t: Thread)
    | Reset

  predicate Legal(s: State, e: Step) {
    match e
    case Send(bits) => bits != {}
    case Recv(t, w, _) => w.bits != {} && t !in s.waiting && t !in s.got
    case PickUp(t) => t in s.got
    case Timeout(t) => t in s.waiting
    case Reset => true
  }

  function Next(s: State, e: Step): State
    requires Legal(s, e)
  {
    match e
    case Send(bits) =>
      var r := Replay(s.have + bits, s.waiting, s.want);
      s.(have := r.have, waiting := r.still, got := s.got + r.got)
    case Recv(t, w, blocking) =>
      if Satisfied(s.have, w) then s.(have := AfterRecv(s.have, w))
      else if blocking then s.(waiting := Enqueue(s.flag, s.waiting, s.prio, t), want := s.want[t := w])
      else s
    case PickUp(t) => s.(got := s.got - {t})
    case Timeout(t) => s.(waiting := Without(s.waiting, t))
    case Reset => s.(have := {}, waiting := [])
  }

  /** No suspended thread's condition is met by the current set, and every one wants something. */
  ghost predicate NoneReady(s: State) {
    && Distinct(s.waiting)
    && forall t {:trigger t in s.waiting} :: t in s.waiting ==>
       t in s.want && s.want[t].bits != {} && !Satisfied(s.have, s.want[t])
  }

  /** Fewer bits satisfy fewer conditions. */
  lemma SatisfiedMonotone(have: Bits, less: Bits, w: Want)
    requires less <= have && Satisfied(less, w)
    ensures Satisfied(have, w)
  {
    if w.all {
      assert w.bits == less * w.bits <= have * w.bits;
    } else {
      var b :| b in less * w.bits;
      assert b in have * w.bits;
    }
  }

  /** The list without some threads, in its order. */
  function Except(s: seq<Thread>, gone: set<Thread>): seq<Thread> {
    if s == [] then [] else if s[0] in gone then Except(s[1..], gone) else [s[0]] + Except(s[1..], gone)
  }

  lemma {:induction false} ExceptElsewhere(s: seq<Thread>, gone: set<Thread>, t: Thread)
    requires t !in s
    ensures Except(s, gone + {t}) == Except(s, gone)
  {
    if s != [] { ExceptElsewhere(s[1..], gone, t); }
  }

  /** What a replay leaves: fewer bits, the list without those who got something, in its order,
      and nobody in it whose condition is met by what is left. */
  lemma {:induction false} ReplayLeaves(have: Bits, waiting: seq<Thread>, want: map<Thread, Want>)
    requires Distinct(waiting) && forall i :: 0 <= i < |waiting| ==> waiting[i] in want
    ensures var r := Replay(have, waiting, want);
      && r.have <= have && Distinct(r.still) && r.still == Except(waiting, r.got.Keys)
      && (forall t :: t in r.still ==> t in waiting && t in want && !Satisfied(r.have, want[t]))
      && (forall t :: t in waiting <==> t in r.still || t in r.got) && (forall t :: t in r.still ==> t !in r.got)
  {
    if waiting != [] {
      var t, tail := waiting[0], waiting[1..];
      forall i, j | 0 <= i < j < |tail| ensures Differ(tail[i], tail[j]) {
        assert Differ(waiting[i + 1], waiting[j + 1]);
      }
      forall k | 1 <= k < |waiting| ensures waiting[k] != t { assert Differ(waiting[0], waiting[k]); }
      assert forall u :: u in waiting <==> u == t || u in tail;
      var next := if Satisfied(have, want[t]) then AfterRecv(have, want[t]) else have;
      ReplayLeaves(next, tail, want);
      var m, r := Replay(next, tail, want), Replay(have, waiting, want);
      ExceptElsewhere(tail, m.got.Keys, t);
      assert r.got.Keys == if Satisfied(have, want[t]) then m.got.Keys + {t} else m.got.Keys;
      if !Satisfied(have, want[t]) {
        if Satisfied(m.have, want[t]) { SatisfiedMonotone(have, m.have, want[t]); }
        forall k | 0 <= k < |m.still| ensures Differ(t, m.still[k]) { var x := m.still[k]; assert x in m.still; }
        forall i, j | 0 <= i < j < |r.still| ensures Differ(r.still[i], r.still[j]) {
          assert i > 0 ==> Differ(m.still[i - 1], m.still[j - 1]);
        }
      }
    }
  }

  /** A condition is met by every bit, or by some bit, being there. */
  lemma {:induction false} SatisfiedIs(have: Bits, w: Want)
    ensures w.all ==> (Satisfied(have, w) <==> forall b :: b in w.bits ==> b in have)
    ensures !w.all ==> (Satisfied(have, w) <==> exists b :: b in w.bits && b in have)
  {
    if w.all && Satisfied(have, w) {
      forall b | b in w.bits ensures b in have { assert b in have * w.bits; }
    }
    if !w.all && Satisfied(have, w) {
      var b :| b in have * w.bits;
      assert b in w.bits && b in have;
    }
    if b :| b in w.bits && b in have { assert b in have * w.bits; }
  }

  /** Some woken thread with the clear flag got the bit. */
  ghost predicate Cleared(got: map<Thread, Bits>, want: map<Thread, Want>, b: nat) {
    exists t {:trigger want[t]} :: t in got && t in want && want[t].clear && b in got[t]
  }

  /** What a woken thread gets: something of what it asked for and was there, everything it asked
      for if it wanted all. A bit leaves the set exactly when a woken thread with the clear flag
      got it. */
  lemma {:induction false} ReplayGives(have: Bits, waiting: seq<Thread>, want: map<Thread, Want>)
    requires Distinct(waiting) && forall i :: 0 <= i < |waiting| ==> waiting[i] in want && want[waiting[i]].bits != {}
    ensures var r := Replay(have, waiting, want);
      && (forall t :: t in r.got ==>
         && t in want && t in waiting && r.got[t] != {} && r.got[t] <= have && r.got[t] <= want[t].bits
         && (want[t].all ==> r.got[t] == want[t].bits) && r.have * want[t].bits <= r.got[t])
      && (forall b :: b in r.have <==> b in have && !Cleared(r.got, want, b))
  {
    if waiting != [] {
      var t, tail := waiting[0], waiting[1..];
      TailWithout(waiting);
      forall i | 0 <= i < |tail| ensures tail[i] in want && want[tail[i]].bits != {} {
        assert tail[i] == waiting[i + 1];
      }
      var hit := Satisfied(have, want[t]);
      var next := if hit then AfterRecv(have, want[t]) else have;
      ReplayGives(next, tail, want);
      var m, r := Replay(next, tail, want), Replay(have, waiting, want);
      assert t !in m.got;
      if hit { HitGives(have, want, t, m, r); }
    }
  }

  lemma {:induction false} HitGives(have: Bits, want: map<Thread, Want>, t: Thread, m: Sent, r: Sent)
    requires t in want && Satisfied(have, want[t]) && want[t].bits != {} && t !in m.got
    requires r.have == m.have && r.got == m.got[t := Received(have, want[t])]
    requires forall b :: b in m.have <==> b in AfterRecv(have, want[t]) && !Cleared(m.got, want, b)
    ensures r.got[t] != {} && r.got[t] <= have && r.got[t] <= want[t].bits && r.have * want[t].bits <= r.got[t]
    ensures want[t].all ==> r.got[t] == want[t].bits
    ensures forall b :: b in r.have <==> b in have && !Cleared(r.got, want, b)
  {
    forall b ensures Cleared(r.got, want, b) <==>
      Cleared(m.got, want, b) || (want[t].clear && b in have * want[t].bits) {
      if Cleared(r.got, want, b) {
        var u :| u in r.got && u in want && want[u].clear && b in r.got[u];
        assert u != t ==> u in m.got && b in m.got[u];
      }
      if Cleared(m.got, want, b) {
        var u :| u in m.got && u in want && want[u].clear && b in m.got[u];
        assert u in r.got && b in r.got[u];
      }
      if want[t].clear && b in have * want[t].bits { assert t in r.got && b in r.got[t]; }
    }
    forall b ensures b in r.have <==> b in have && !Cleared(r.got, want, b) {
      assert b in AfterRecv(have, want[t]) ==> b in have;
    }
  }

  /** A send adds its bits, and takes away exactly what woken threads with the clear flag got; it
      gives every woken thread what it asked for. The first in the list is woken exactly when the
      bits meet its condition, and without clear flags so is everybody. */
  lemma {:induction false} SendGives(s: State, bits: Bits) returns (woken: map<Thread, Bits>)
    requires NoneReady(s) && Legal(s, Send(bits))
    ensures var r := Next(s, Send(bits));
      && woken == Replay(s.have + bits, s.waiting, s.want).got
      && r.got == s.got + woken && r.waiting == Except(s.waiting, woken.Keys)
      && (forall b :: b in r.have <==> (b in s.have || b in bits) && !Cleared(woken, s.want, b))
      && (forall t :: t in woken ==>
         && t in s.waiting && t in s.want && woken[t] != {} && woken[t] <= s.want[t].bits
         && woken[t] <= s.have + bits && (s.want[t].all ==> woken[t] == s.want[t].bits))
    ensures s.waiting != [] ==>
      var t := s.waiting[0]; t in s.want && (t in woken <==> Satisfied(s.have + bits, s.want[t]))
    ensures (forall t :: t in s.waiting ==> !s.want[t].clear) ==>
      forall t :: t in s.waiting ==> (t in woken <==> Satisfied(s.have + bits, s.want[t]))
  {
    var have := s.have + bits;
    forall i | 0 <= i < |s.waiting| ensures s.waiting[i] in s.want && s.want[s.waiting[i]].bits != {} {
      var t := s.waiting[i];
      assert t in s.waiting;
    }
    ReplayLeaves(have, s.waiting, s.want);
    ReplayGives(have, s.waiting, s.want);
    woken := Replay(have, s.waiting, s.want).got;
    if s.waiting != [] {
      assert s.waiting[0] in s.want;
      FirstWoken(have, s.waiting, s.want);
    }
    if forall t :: t in s.waiting ==> !s.want[t].clear { AllWoken(have, s.waiting, s.want); }
  }

  lemma {:induction false} FirstWoken(have: Bits, waiting: seq<Thread>, want: map<Thread, Want>)
    requires Distinct(waiting) && waiting != [] && forall i :: 0 <= i < |waiting| ==> waiting[i] in want
    ensures waiting[0] in Replay(have, waiting, want).got <==> Satisfied(have, want[waiting[0]])
  {
    TailWithout(waiting);
    var tail := waiting[1..];
    forall i | 0 <= i < |tail| ensures tail[i] in want { assert tail[i] == waiting[i + 1]; }
    ReplayLeaves(have, tail, want);
  }

  lemma {:induction false} AllWoken(have: Bits, waiting: seq<Thread>, want: map<Thread, Want>)
    requires Distinct(waiting) && forall i :: 0 <= i < |waiting| ==> waiting[i] in want && !want[waiting[i]].clear
    ensures forall t :: t in waiting ==>
      t in want && (t in Replay(have, waiting, want).got <==> Satisfied(have, want[t]))
  {
    if waiting != [] {
      var tail := waiting[1..];
      TailWithout(waiting);
      forall i | 0 <= i < |tail| ensures tail[i] in want && !want[tail[i]].clear { assert tail[i] == waiting[i + 1]; }
      AllWoken(have, tail, want);
      FirstWoken(have, waiting, want);
    }
  }

  /** In every reachable state no suspended thread is waiting for events that are there. */
  lemma {:induction false} NextNoneReady(s: State, e: Step)
    requires NoneReady(s) && Legal(s, e)
    ensures NoneReady(Next(s, e))
  {
    var r := Next(s, e);
    match e
    case Send(bits) =>
      forall i | 0 <= i < |s.waiting| ensures s.waiting[i] in s.want { var t := s.waiting[i]; assert t in s.waiting; }
      ReplayLeaves(s.have + bits, s.waiting, s.want);
    case Recv(t, w, blocking) =>
      if Satisfied(s.have, w) {
        forall u | u in r.waiting ensures !Satisfied(r.have, r.want[u]) {
          if Satisfied(r.have, r.want[u]) { SatisfiedMonotone(s.have, r.have, r.want[u]); }
        }
      } else if blocking {
        EnqueueContents(s.flag, s.waiting, s.prio, t);
      }
    case PickUp(_) =>
    case Timeout(t) => WithoutKeeps(s.waiting, t, s.prio);
    case Reset =>
  }

  ghost predicate Reaches(s: State, es: seq<Step>, r: State)
    decreases |es|
  {
    if es == [] then s == r else Legal(s, es[0]) && Reaches(Next(s, es[0]), es[1..], r)
  }

  lemma {:induction false} EveryRun(s: State, es: seq<Step>, r: State)
    requires NoneReady(s) && Reaches(s, es, r)
    ensures NoneReady(r)
    decreases |es|
  {
    if es != [] {
      NextNoneReady(s, es[0]);
      EveryRun(Next(s, es[0]), es[1..], r);
    }
  }

  // ---- the object in place ----

  class Event {
    const flag: Flag
    var have: Bits
    const waiters: WaitList
    /** The event_set and event_info fields of the threads that use this event. */
    var eventSet: map<Thread, Bits>
    var all: map<Thread, bool>
    var clear: map<Thread, bool>
    ghost var state: State

    ghost predicate Valid()
      reads this, waiters
    {
      && state.flag == flag && have == state.have && waiters.threads == state.waiting && NoneReady(state)
      && Fields(state.waiting, state.want)
      && (forall t {:trigger t in state.got} :: t in state.got ==>
         t !in state.waiting && t in eventSet && eventSet[t] == state.got[t])
    }

    /** The thread fields of the waiting threads say what they want. */
    ghost predicate Fields(waiting: seq<Thread>, want: map<Thread, Want>)
      reads this
    {
      forall t {:trigger t in waiting} :: t in waiting ==>
        t in want && t in eventSet && t in all && t in clear && want[t] == Want(eventSet[t], all[t], clear[t])
    }

    constructor (flag: Flag, prio: map<Thread, nat>)
      ensures Valid() && state == State({}, flag, [], map[], map[], prio) && fresh(waiters)
    {
      this.flag := flag;
      have := {};
      waiters := new WaitList();
      eventSet, all, clear := map[], map[], map[];
      state := State({}, flag, [], map[], map[], prio);
    }

    /** One turn of the loop of rt_event_send, literally: a satisfied AND waiter keeps its
        whole mask as received, an OR waiter the part that is there; clearing takes off the
        received mask. */
    method Visit(t: Thread) returns (woken: bool)
      requires t in eventSet && t in all && t in clear
      modifies this`have, this`eventSet
      ensures var w := Want(old(eventSet)[t], all[t], clear[t]);
        && woken == Satisfied(old(have), w)
        && have == (if woken then AfterRecv(old(have), w) else old(have))
        && eventSet == if woken then old(eventSet)[t := Received(old(have), w)] else old(eventSet)
    {
      woken := false;
      if all[t] {
        if eventSet[t] * have == eventSet[t] { woken := true; }
      } else if eventSet[t] * have != {} {
        eventSet := eventSet[t := eventSet[t] * have];
        woken := true;
      }
      if woken && clear[t] { have := have - eventSet[t]; }
      ghost var w := Want(old(eventSet)[t], all[t], clear[t]);
      assert w.bits * old(have) == old(have) * w.bits;
      if woken && w.all { assert old(eventSet)[t := w.bits] == old(eventSet); }
    }

    /** rt_event_recv up to the suspension: `received` is what the caller gets at once. */
    method RecvSection(t: Thread, w: Want, blocking: bool, prio: map<Thread, nat>) returns (ok: bool, received: Bits)
      requires Valid() && Legal(state, Recv(t, w, blocking)) && prio == state.prio
      modifies this, waiters
      ensures Valid() && state == Next(old(state), Recv(t, w, blocking))
      ensures ok == Satisfied(old(have), w) && (ok ==> received == old(have) * w.bits)
      ensures have == if ok && w.clear then old(have) - w.bits else old(have)
      ensures !ok && blocking ==> waiters.threads == Enqueue(flag, old(waiters.threads), prio, t)
      ensures ok || !blocking ==> waiters.threads == old(waiters.threads)
    {
      NextNoneReady(state, Recv(t, w, blocking));
      ghost var after := Next(state, Recv(t, w, blocking));
      received := {};
      ok := if w.all then have * w.bits == w.bits else have * w.bits != {};
      if ok {
        received := have * w.bits;
        if w.clear { have := have - w.bits; }
      } else if blocking {
        EnqueueContents(flag, waiters.threads, prio, t);
        eventSet, all, clear := eventSet[t := w.bits], all[t := w.all], clear[t := w.clear];
        waiters.Suspend(t, flag, prio);
      }
      state := after;
    }

    /** rt_event_recv after a wake-up: the thread picks up what it was given. */
    method PickUpSection(t: Thread) returns (received: Bits)
      requires Valid() && Legal(state, PickUp(t))
      modifies this`state
      ensures Valid() && state == Next(old(state), PickUp(t)) && received == old(state).got[t]
    {
      NextNoneReady(state, PickUp(t));
      received := eventSet[t];
      state := Next(state, PickUp(t));
    }

    /** rt_thread_timeout on a thread waiting here. */
    method TimeoutSection(t: Thread)
      requires Valid() && Legal(state, Timeout(t))
      modifies this`state, waiters
      ensures Valid() && state == Next(old(state), Timeout(t))
    {
      NextNoneReady(state, Timeout(t));
      waiters.threads := Without(waiters.threads, t);
      state := Next(state, Timeout(t));
    }

    /** rt_event_control, reset command: every waiting call fails and the set is cleared. */
    method ResetSection()
      requires Valid()
      modifies this`have, this`state, waiters
      ensures Valid() && state == Next(old(state), Reset)
    {
      NextNoneReady(state, Reset);
      while waiters.threads != []
        invariant unchanged(this)
        decreases |waiters.threads|
      {
        waiters.threads := waiters.threads[1..];
      }
      have := {};
      state := Next(state, Reset);
    }

    /** rt_event_send: sets the bits and walks the wait list once. It acts exactly like a
        receive without waiting by each waiting thread in list order. */
    method SendSection(bits: Bits) returns (ok: bool)
      requires Valid()
      modifies this, waiters
      ensures Valid() && ok == (bits != {})
      ensures ok ==> state == Next(old(state), Send(bits))
      ensures !ok ==> state == old(state)
    {
      ok := bits != {};
      if !ok { return; }
      ghost var after := Next(state, Send(bits));
      NextNoneReady(state, Send(bits));
      forall i | 0 <= i < |state.waiting| ensures state.waiting[i] in state.want {
        var t := state.waiting[i];
        assert t in state.waiting;
      }
      ReplayLeaves(have + bits, state.waiting, state.want);
      have := have + bits;
      ghost var woken := Walk(state.waiting, state.want, state.got);
      state := after;
    }

    /** The loop of rt_event_send: every waiting thread is visited once, in order, and stays or
        leaves the list. */
    method Walk(ghost waiting: seq<Thread>, ghost want: map<Thread, Want>, ghost got: map<Thread, Bits>)
        returns (ghost woken: map<Thread, Bits>)
      requires waiters.threads == waiting && Distinct(waiting) && Fields(waiting, want)
      requires forall t {:trigger t in got} :: t in got ==> t !in waiting && t in eventSet && eventSet[t] == got[t]
      modifies this`have, this`eventSet, waiters
      ensures var r := Replay(old(have), waiting, want);
        && have == r.have && waiters.threads == r.still && woken == r.got && Fields(r.still, want)
      ensures forall t {:trigger t in got} :: t in got ==> t in eventSet && eventSet[t] == got[t]
      ensures forall t {:trigger t in woken} :: t in woken ==>
        t in waiting && t !in waiters.threads && t in eventSet && eventSet[t] == woken[t]
    {
      var kept: seq<Thread>, rest := [], waiters.threads;
      woken := map[];
      ghost var whole := Replay(have, waiting, want);
      while rest != []
        invariant Distinct(rest) && Fields(rest, want) && Fields(kept, want)
        invariant forall t {:trigger t in got} :: t in got ==> t !in rest && t in eventSet && eventSet[t] == got[t]
        invariant forall t {:trigger t in woken} :: t in woken ==>
          t in waiting && t !in rest && t !in kept && t in eventSet && eventSet[t] == woken[t]
        invariant forall t :: t in kept ==> t !in rest
        invariant forall t :: t in rest ==> t in waiting
        invariant Continues(whole, kept, woken, Replay(have, rest, want))
        decreases |rest|
      {
        var t := rest[0];
        assert t in rest;
        TailWithout(rest);
        Walked(whole, kept, woken, have, rest, want);
        ghost var was := have;
        var hit := Visit(t);
        rest := rest[1..];
        if hit {
          woken := woken[t := Received(was, want[t])];
        } else {
          kept := kept + [t];
        }
      }
      waiters.threads := kept;
      assert kept + [] == kept;
      assert woken == whole.got;
    }
  }

  /** `whole` is what has been kept and woken so far followed by `rest`. */
  ghost predicate Continues(whole: Sent, kept: seq<Thread>, woken: map<Thread, Bits>, rest: Sent) {
    && whole.have == rest.have && whole.still == kept + rest.still
    && (forall t :: t in whole.got <==> t in woken || t in rest.got)
    && (forall t :: t in woken ==> whole.got[t] == woken[t])
    && (forall t :: t in rest.got && t !in woken ==> whole.got[t] == rest.got[t])
  }

  lemma {:induction false} Walked(whole: Sent, kept: seq<Thread>, woken: map<Thread, Bits>, have: Bits,
      rest: seq<Thread>, want: map<Thread, Want>)
    requires rest != [] && rest[0] in want && rest[0] !in woken
      && Continues(whole, kept, woken, Replay(have, rest, want))
    ensures var t := rest[0];
      if Satisfied(have, want[t])
      then Continues(whole, kept, woken[t := Received(have, want[t])],
        Replay(AfterRecv(have, want[t]), rest[1..], want))
      else Continues(whole, kept + [t], woken, Replay(have, rest[1..], want))
  {
    var t := rest[0];
    if !Satisfied(have, want[t]) {
      var m := Replay(have, rest[1..], want);
      assert kept + ([t] + m.still) == kept + [t] + m.still;
    }
  }
}
