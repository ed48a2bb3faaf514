/** Mutual exclusion as callers see it: how deep a thread is inside a mutex, counted on the calls
    and their results. */
module MutexRuns {
  import opened IpcList
  import opened Lists
  import opened Mutex

  /** What a section tells: the result of a take; that a release was not the owner's, or that the
      mutex stays with its owner, becomes free, or is handed to a waiting thread. */
  datatype Told = TakeTold(r: Result) | Denied | Kept | Freed | Handed(to: Thread) | Silent

  datatype Call = Call(e: Event, r: Told)

  function Answer(s: System, e: Event): Told
    requires e.m in s.locks
  {
    var l := s.locks[e.m];
    match e
    case Take(_, t, wait) => TakeTold(if l.owner == t || l.value > 0 then Granted else if wait then Waits else Refused)
    case Release(_, t) =>
      if l.owner != t || l.hold == 0 then Denied
      else if l.hold > 1 then Kept
      else if l.waiters != [] then Handed(l.waiters[0])
      else Freed
    case Timeout(_, _) => Silent
  }

  /** The run from `s` with these calls and results ends in `r`. */
  ghost predicate Observed(s: System, calls: seq<Call>, r: System)
    decreases |calls|
  {
    if calls == [] then s == r
    else
      var n := |calls| - 1;
      exists m {:trigger Observed(s, calls[..n], m)} :: Observed(s, calls[..n], m)
        && Possible(m, calls[n].e) && calls[n].r == Answer(m, calls[n].e) && r == Next(m, calls[n].e)
  }

  /** How often thread `t` is inside mutex `m`: takes that were granted and hand-overs to it, minus
      its releases. */
  function Depth(calls: seq<Call>, m: Mtx, t: Thread): int {
    if calls == [] then 0
    else
      var n := |calls| - 1;
      var c, d := calls[n], Depth(calls[..n], m, t);
      if c.e.m != m then d
      else if c.e.Take? then (if c.e.t == t && c.r == TakeTold(Granted) then d + 1 else d)
      else if c.e.Release? then
        (if c.e.t == t && c.r != Denied then d - 1 else d) + (if c.r == Handed(t) then 1 else 0)
      else d
  }

  /** A release leaves the mutex with its owner, or is refused, exactly by the owner's depth; a
      take is granted exactly when no other thread is inside. */
  ghost predicate Fair(calls: seq<Call>)
    decreases |calls|
  {
    calls != [] ==>
      var n := |calls| - 1;
      var c, before := calls[n], calls[..n];
      && Fair(before)
      && (c.e.Release? ==> (c.r == Denied <==> Depth(before, c.e.m, c.e.t) == 0))
      && (c.e.Release? ==> (c.r == Kept <==> Depth(before, c.e.m, c.e.t) > 1))
      && (c.e.Take? ==> (c.r == TakeTold(Granted) <==> forall u: Thread :: u != c.e.t ==> Depth(before, c.e.m, u) == 0))
  }

  /** At most one thread is inside a mutex. */
  ghost predicate Exclusive(calls: seq<Call>) {
    forall m, t: Thread, u: Thread {:trigger Depth(calls, m, t), Depth(calls, m, u)} ::
      Depth(calls, m, t) > 0 && Depth(calls, m, u) > 0 ==> t == u
  }

  // ---- the mutexes against what was observed ----

  /** The count of a mutex is the depth of its owner, and nobody else is inside. */
  predicate Counts(s: System, calls: seq<Call>, m: Mtx, t: Thread) {
    Depth(calls, m, t) == if m in s.locks && s.locks[m].owner == t then s.locks[m].hold else 0
  }

  ghost predicate Counted(s: System, calls: seq<Call>) {
    forall m, t: Thread {:trigger Counts(s, calls, m, t)} :: Counts(s, calls, m, t)
  }

  lemma {:induction false} StepCounts(s: System, calls: seq<Call>, c: Call)
    requires AllSound(s) && Counted(s, calls) && Possible(s, c.e) && c.r == Answer(s, c.e)
    ensures Counted(Next(s, c.e), calls + [c])
  {
    var r, after, n := Next(s, c.e), calls + [c], |calls|;
    assert after[..n] == calls && after[n] == c;
    assert Sound(s, c.e.m);
    var l := s.locks[c.e.m];
    if l.waiters != [] { assert l.waiters[0] in l.waiters; }
    forall m, t: Thread ensures Counts(r, after, m, t) { assert Counts(s, calls, m, t); }
  }

  lemma {:induction false} StepFair(s: System, calls: seq<Call>, c: Call)
    requires AllSound(s) && Counted(s, calls) && Fair(calls) && Possible(s, c.e) && c.r == Answer(s, c.e)
    ensures Fair(calls + [c])
  {
    var after, n := calls + [c], |calls|;
    assert after[..n] == calls && after[n] == c;
    assert Sound(s, c.e.m) && Counts(s, calls, c.e.m, c.e.t);
    var l := s.locks[c.e.m];
    if l.owner >= 0 && l.owner != c.e.t {
      var o: Thread := l.owner;
      assert Counts(s, calls, c.e.m, o) && Depth(calls, c.e.m, o) != 0;
    } else {
      forall u: Thread | u != c.e.t ensures Depth(calls, c.e.m, u) == 0 { assert Counts(s, calls, c.e.m, u); }
    }
  }

  /** The state before the last call of a run. */
  lemma {:induction false} LastCall(s: System, calls: seq<Call>, r: System) returns (m: System)
    requires calls != [] && Observed(s, calls, r)
    ensures var n := |calls| - 1;
      && calls[..n] + [calls[n]] == calls && Observed(s, calls[..n], m)
      && Possible(m, calls[n].e) && calls[n].r == Answer(m, calls[n].e) && r == Next(m, calls[n].e)
  {
    hide Answer, Next;
    var n := |calls| - 1;
    m :| Observed(s, calls[..n], m) && Possible(m, calls[n].e) && calls[n].r == Answer(m, calls[n].e)
      && r == Next(m, calls[n].e);
  }

  /** Over every run from free mutexes, with any nesting and either flag: the count of a mutex is
      how often its owner took it, or was handed it, and did not release it yet; nobody else is
      inside; so a mutex changes hands exactly at the release that balances the first take. */
  lemma {:induction false} EveryRunExcludes(flag: map<Mtx, Flag>, prio: map<Thread, nat>, calls: seq<Call>, s: System)
    requires Observed(Initial(flag, prio), calls, s)
    ensures AllSound(s) && Counted(s, calls) && Fair(calls) && Exclusive(calls)
    decreases |calls|
  {
    hide Possible, Answer, Next;
    if calls == [] {
      InitialSound(flag, prio);
      forall m, t: Thread ensures Counts(s, calls, m, t) {}
    } else {
      var m := LastCall(Initial(flag, prio), calls, s);
      var before, last := calls[..|calls| - 1], calls[|calls| - 1];
      EveryRunExcludes(flag, prio, before, m);
      PossibleSound(m, last.e);
      StepCounts(m, before, last);
      StepFair(m, before, last);
    }
    CountedExclusive(s, calls);
  }

  lemma {:induction false} CountedExclusive(s: System, calls: seq<Call>)
    requires Counted(s, calls)
    ensures Exclusive(calls)
  {
    forall m, t: Thread, u: Thread ensures Depth(calls, m, t) > 0 && Depth(calls, m, u) > 0 ==> t == u {
      assert Counts(s, calls, m, t) && Counts(s, calls, m, u);
    }
  }

  // ---- who waits ----

  /** The threads that wait for mutex `m`, in the order they came: those told to wait that were
      neither handed the mutex nor timed out. */
  function Line(calls: seq<Call>, m: Mtx): seq<Thread> {
    if calls == [] then []
    else
      var n := |calls| - 1;
      var c, before := calls[n], Line(calls[..n], m);
      if c.e.m != m then before
      else if c.e.Take? && c.r == TakeTold(Waits) then before + [c.e.t]
      else if c.e.Release? && c.r.Handed? then Without(before, c.r.to)
      else if c.e.Timeout? then Without(before, c.e.t)
      else before
  }

  /** These threads wait, and in that order if the mutex has the FIFO flag. */
  ghost predicate InLine(s: System, calls: seq<Call>, m: Mtx) {
    m in s.locks && m in s.flag ==>
      && (forall t :: t in s.locks[m].waiters <==> t in Line(calls, m))
      && (s.flag[m].Fifo? ==> s.locks[m].waiters == Line(calls, m))
  }

  ghost predicate AllInLine(s: System, calls: seq<Call>) {
    forall m {:trigger InLine(s, calls, m)} :: InLine(s, calls, m)
  }

  lemma {:induction false} StepLine(s: System, calls: seq<Call>, c: Call)
    requires AllSound(s) && AllInLine(s, calls) && Possible(s, c.e) && c.r == Answer(s, c.e)
    ensures AllInLine(Next(s, c.e), calls + [c])
  {
    var r, after, n := Next(s, c.e), calls + [c], |calls|;
    assert after[..n] == calls && after[n] == c;
    assert Sound(s, c.e.m) && InLine(s, calls, c.e.m);
    var l := s.locks[c.e.m];
    if c.r == TakeTold(Waits) {
      EnqueueContents(s.flag[c.e.m], l.waiters, s.prio, c.e.t);
      if s.flag[c.e.m].Fifo? { EnqueueLast(l.waiters, s.prio, c.e.t); }
    }
    if c.r.Handed? {
      TailWithout(l.waiters);
      HeadWithout(l.waiters);
    }
    forall m ensures InLine(r, after, m) { assert InLine(s, calls, m); }
  }

  lemma {:induction false} HeadWithout(list: seq<Thread>)
    requires list != [] && Distinct(list)
    ensures Without(list, list[0]) == list[1..]
  {
    TailWithout(list);
    WithoutAbsent(list[1..], list[0]);
  }

  /** Over every run the threads that wait for a mutex are those that were told to, and were
      neither handed the mutex nor timed out since; with the FIFO flag in the order they came, and
      so it is handed to the one that came first. */
  lemma {:induction false} EveryRunWaits(flag: map<Mtx, Flag>, prio: map<Thread, nat>, calls: seq<Call>, s: System)
    requires Observed(Initial(flag, prio), calls, s)
    ensures AllInLine(s, calls)
    decreases |calls|
  {
    hide Possible, Answer, Next, AllSound, Fair, Exclusive, Counted;
    if calls == [] {
      forall m ensures InLine(s, calls, m) {}
    } else {
      var m := LastCall(Initial(flag, prio), calls, s);
      var before, last := calls[..|calls| - 1], calls[|calls| - 1];
      EveryRunWaits(flag, prio, before, m);
      EveryRunExcludes(flag, prio, before, m);
      StepLine(m, before, last);
    }
  }
}
