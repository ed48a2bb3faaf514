/** What the calls on threads do, read off the calls alone: the state, the priorities, the time
    slice and the ticks left of every thread after any run, the defunct list, and the depth of the
    scheduler lock. */
module SchedulerRuns {
  import opened IpcList
  import opened Lists
  import opened SchedulerSpec

  /** A call, and the thread that was running. */
  datatype Mark = Mark(e: Event, runner: Thread)

  /** The run from the initial state with these calls ends in `s`. */
  ghost predicate Observed(first: System, idle: Thread, marks: seq<Mark>, s: System)
    decreases |marks|
  {
    if marks == [] then s == first
    else
      var n := |marks| - 1;
      exists m {:trigger Follows(m, idle, marks[n], s)} ::
        Observed(first, idle, marks[..n], m) && Follows(m, idle, marks[n], s)
  }

  ghost predicate Follows(m: System, idle: Thread, k: Mark, s: System) {
    Base(m, idle) && k.runner == m.current && Legal(m, idle, k.e) && Ok(m, k.e) && s == Next(m, k.e)
  }

  /** The priority a thread was created with. */
  function FirstPriority(marks: seq<Mark>, t: Thread, p: nat): nat {
    if marks == [] then p
    else
      var n := |marks| - 1;
      if marks[n].e.Create? && marks[n].e.t == t then marks[n].e.p else FirstPriority(marks[..n], t, p)
  }

  /** The time slice it was created with. */
  function SliceOf(marks: seq<Mark>, t: Thread, slice: nat): nat {
    if marks == [] then slice
    else
      var n := |marks| - 1;
      if marks[n].e.Create? && marks[n].e.t == t then marks[n].e.slice else SliceOf(marks[..n], t, slice)
  }

  /** The priority of a thread: the one it was last given, or was created with if it was started
      since then. */
  function PriorityOf(marks: seq<Mark>, t: Thread, p: nat): nat {
    if marks == [] then p
    else
      var n := |marks| - 1;
      var e, before := marks[n].e, marks[..n];
      if e.Create? && e.t == t then e.p
      else if e.ChangePriority? && e.t == t then e.p
      else if (e.Startup? || e.StartupSet?) && e.t == t then FirstPriority(before, t, p)
      else PriorityOf(before, t, p)
  }

  /** The state of a thread. A suspension that is tested and carried out at once, and such a
      resumption, do something only in the right state. */
  function StateOf(marks: seq<Mark>, t: Thread): Stat {
    if marks == [] then Ready
    else
      var n := |marks| - 1;
      var e, before := marks[n].e, StateOf(marks[..n], t);
      if e.Exit? then (if marks[n].runner == t then Closed else before)
      else if !Aimed(e) && !e.Create? then before
      else if e.t != t then before
      else if e.Create? then Init
      else if e.Startup? || e.ResumeInsert? || e.Timeout? then Ready
      else if e.StartupSet? || e.SuspendSection? then Suspended
      else if e.Suspend? then (if before == Ready then Suspended else before)
      else if e.Resume? then (if before == Suspended then Ready else before)
      else if e.Delete? || e.DeleteClose? then Closed
      else before
  }

  /** The ticks a thread has left: it starts with its slice, a tick that finds it running takes one
      away, and after the last it has its slice again. */
  function TicksLeft(marks: seq<Mark>, t: Thread, slice: nat): nat {
    if marks == [] then slice
    else
      var n := |marks| - 1;
      var e, before := marks[n].e, TicksLeft(marks[..n], t, slice);
      if e.Create? && e.t == t then e.slice
      else if e.Tick? && marks[n].runner == t then (if before <= 1 then SliceOf(marks[..n], t, slice) else before - 1)
      else before
  }

  /** The call takes its thread off every list it is in. */
  predicate TakesOff(e: Event, was: Stat) {
    || e.Startup? || e.SuspendSection? || e.ResumeUnlink? || e.Timeout? || e.DeleteRemove? || e.Delete?
    || (e.Suspend? && was == Ready) || (e.Resume? && was == Suspended) || (e.ChangePriority? && was == Ready)
  }

  /** The threads whose memory is to be freed, the last one first. */
  function DefunctOf(marks: seq<Mark>): seq<Thread> {
    if marks == [] then []
    else
      var n := |marks| - 1;
      var e, before := marks[n].e, DefunctOf(marks[..n]);
      if e.Reap? then (if before == [] then [] else before[1..])
      else if e.Exit? then (if e.kept then [marks[n].runner] else []) + Without(before, marks[n].runner)
      else if e.DeleteKeep? then [e.t] + before
      else if !Aimed(e) || !TakesOff(e, StateOf(marks[..n], e.t)) then before
      else (if e.Delete? && e.kept then [e.t] else []) + Without(before, e.t)
  }

  /** How deep the scheduler is locked; unlocking what is not locked does nothing. */
  function LockDepth(marks: seq<Mark>): nat {
    if marks == [] then 0
    else
      var n := |marks| - 1;
      var d := LockDepth(marks[..n]);
      if marks[n].e.EnterCritical? then d + 1
      else if marks[n].e.ExitCritical? then (if d == 0 then 0 else d - 1)
      else d
  }

  /** A thread is as the calls left it. */
  predicate Told(s: System, marks: seq<Mark>, t: Thread, p: nat, slice: nat) {
    t in s.stat ==>
      && t in s.prio && t in s.initial && t in s.slice
      && s.stat[t] == StateOf(marks, t) && s.prio[t] == PriorityOf(marks, t, p)
      && s.initial[t] == FirstPriority(marks, t, p) && s.slice[t] == SliceOf(marks, t, slice)
      && t in s.left && s.left[t] == TicksLeft(marks, t, slice)
  }

  ghost predicate AllTold(s: System, marks: seq<Mark>, p: nat, slice: nat) {
    && s.nest == LockDepth(marks) && s.defunct == DefunctOf(marks)
    && forall t {:trigger Told(s, marks, t, p, slice)} :: Told(s, marks, t, p, slice)
  }

  lemma {:induction false} DispatchOnly(s: System)
    ensures Dispatch(s) == s.(current := Dispatch(s).current) && (s.nest != 0 ==> Dispatch(s) == s)
  {
  }

  /** The running thread's time slice part and the lock change nothing of this. */
  lemma {:induction false} YieldOnly(s: System)
    requires Sound(s, s.current)
    ensures var r := YieldNow(s);
      && r.stat == s.stat && r.prio == s.prio && r.initial == s.initial && r.slice == s.slice && r.nest == s.nest
      && r.left == s.left && r.defunct == s.defunct
    ensures s.nest != 0 ==> YieldNow(s).current == s.current
  {
  }

  lemma {:induction false} OthersTold(s: System, marks: seq<Mark>, k: Mark, p: nat, slice: nat)
    requires AllTold(s, marks, p, slice) && Ok(s, k.e) && k.runner == s.current && !Aimed(k.e)
    ensures AllTold(Step(s, k.e), marks + [k], p, slice)
  {
    var r, after, n := Step(s, k.e), marks + [k], |marks|;
    assert after[..n] == marks && after[n] == k;
    if k.e.Yield? { YieldOnly(s); }
    if k.e.Tick? {
      var t := s.current;
      YieldOnly(s.(left := s.left[t := s.slice[t]]));
    }
    forall t ensures Told(r, after, t, p, slice) { assert Told(s, marks, t, p, slice); }
  }

  lemma {:induction false} AimedTold(s: System, idle: Thread, marks: seq<Mark>, k: Mark, p: nat, slice: nat)
    requires AllTold(s, marks, p, slice) && Base(s, idle) && Legal(s, idle, k.e) && Aimed(k.e)
    ensures Ok(s, k.e) && AllTold(Step(s, k.e), marks + [k], p, slice)
  {
    LegalOk(s, idle, k.e);
    AimedTouches(s, idle, k.e);
    var r, after, n := Step(s, k.e), marks + [k], |marks|;
    assert after[..n] == marks && after[n] == k;
    assert Told(s, marks, k.e.t, p, slice);
    AimedDefunct(s, marks, k, p, slice);
    forall t ensures Told(r, after, t, p, slice) {
      assert Told(s, marks, t, p, slice);
      if t != k.e.t { assert Same(s, r, t); } else { OwnTold(s, marks, k, p, slice); }
    }
  }

  lemma {:induction false} AimedDefunct(s: System, marks: seq<Mark>, k: Mark, p: nat, slice: nat)
    requires Ok(s, k.e) && Aimed(k.e) && Told(s, marks, k.e.t, p, slice) && s.defunct == DefunctOf(marks)
    ensures Step(s, k.e).defunct == DefunctOf(marks + [k])
  {
    hide StateOf, PriorityOf, FirstPriority, SliceOf, TicksLeft;
    var after, n := marks + [k], |marks|;
    assert after[..n] == marks && after[n] == k;
  }

  lemma {:induction false} OwnTold(s: System, marks: seq<Mark>, k: Mark, p: nat, slice: nat)
    requires Ok(s, k.e) && Aimed(k.e) && Told(s, marks, k.e.t, p, slice)
    ensures Told(Step(s, k.e), marks + [k], k.e.t, p, slice)
  {
    var after, n := marks + [k], |marks|;
    assert after[..n] == marks && after[n] == k;
  }

  /** After every run from the initial state, interrupted calls and all: every thread is in the
      state and has the priority, the time slice and the ticks left that the calls gave it, the
      defunct list is as they left it, and the scheduler is locked as deep as they locked it. */
  lemma {:induction false} EveryRunTells(levels: nat, idle: Thread, slice: nat, marks: seq<Mark>, s: System)
    requires 1 <= levels <= 256 && slice >= 1 && Observed(Initial(levels, idle, slice), idle, marks, s)
    ensures AllTold(s, marks, levels - 1, slice)
    decreases |marks|
  {
    hide Base, Legal, Ok, Next, AllTold, Observed, Initial;
    if marks == [] {
      FirstTold(levels, idle, slice, marks, s);
    } else {
      var before, k, m := LastMark(Initial(levels, idle, slice), idle, marks, s);
      EveryRunTells(levels, idle, slice, before, m);
      StepTold(m, idle, before, k, levels - 1, slice);
    }
  }

  lemma {:induction false} FirstTold(levels: nat, idle: Thread, slice: nat, marks: seq<Mark>, s: System)
    requires levels >= 1 && Observed(Initial(levels, idle, slice), idle, marks, s) && marks == []
    ensures AllTold(s, marks, levels - 1, slice)
  {
    var p: nat := levels - 1;
    forall t ensures Told(s, marks, t, p, slice) {}
  }

  lemma {:induction false} LastMark(first: System, idle: Thread, marks: seq<Mark>, s: System)
      returns (before: seq<Mark>, k: Mark, m: System)
    requires Observed(first, idle, marks, s) && marks != []
    ensures marks == before + [k] && Observed(first, idle, before, m) && Follows(m, idle, k, s)
  {
    hide Follows;
    var n := |marks| - 1;
    before, k := marks[..n], marks[n];
    var last :| Observed(first, idle, before, last) && Follows(last, idle, k, s);
    m := last;
  }

  lemma {:induction false} StepTold(s: System, idle: Thread, marks: seq<Mark>, k: Mark, p: nat, slice: nat)
    requires AllTold(s, marks, p, slice) && Base(s, idle) && Legal(s, idle, k.e) && Ok(s, k.e) && k.runner == s.current
    ensures AllTold(Next(s, k.e), marks + [k], p, slice)
  {
    hide Base, Legal, Step, AllTold;
    if Aimed(k.e) { AimedTold(s, idle, marks, k, p, slice); } else { OthersTold(s, marks, k, p, slice); }
    DispatchTold(Step(s, k.e), marks + [k], p, slice);
  }

  lemma {:induction false} DispatchTold(s: System, marks: seq<Mark>, p: nat, slice: nat)
    requires AllTold(s, marks, p, slice)
    ensures AllTold(Dispatch(s), marks, p, slice)
  {
    DispatchOnly(s);
    forall t ensures Told(Dispatch(s), marks, t, p, slice) { assert Told(s, marks, t, p, slice); }
  }

  /** While the scheduler is locked the running thread stays, whatever happens but the call that
      unlocks it. */
  lemma {:induction false} LockedStays(s: System, e: Event)
    requires Ok(s, e) && s.nest > 0 && !(e.ExitCritical? && s.nest == 1)
    ensures Next(s, e).current == s.current
  {
    DispatchOnly(Step(s, e));
    if e.Yield? { YieldOnly(s); }
    if e.Tick? { YieldOnly(s.(left := s.left[s.current := s.slice[s.current]])); }
  }

  // ---- the order in the queues ----

  /** The call queues its thread. */
  predicate Queues(s: System, e: Event) {
    || e.Startup? || e.Timeout? || e.ResumeInsert?
    || (e.Resume? && e.t in s.stat && s.stat[e.t] == Suspended)
    || (e.ChangePriority? && e.t in s.stat && s.stat[e.t] == Ready)
  }

  lemma {:induction false} WithoutOnce(q: seq<Thread>, t: Thread)
    ensures Without(Without(q, t), t) == Without(q, t) && Without(q + [t], t) == Without(q, t)
    ensures Without(Without(q, t) + [t], t) == Without(q, t)
  {
    WithoutAbsent(Without(q, t), t);
    AppendedWithout(q, t);
    AppendedWithout(Without(q, t), t);
  }

  lemma {:induction false} AppendedWithout(q: seq<Thread>, t: Thread)
    ensures Without(q + [t], t) == Without(q, t)
  {
    if q == [] {
      assert [t][1..] == [] && q + [t] == [t];
    } else {
      AppendedWithout(q[1..], t);
      assert (q + [t])[1..] == q[1..] + [t];
    }
  }

  /** A call on a thread keeps the order of all other threads in every queue, and a thread that it
      queues goes last. */
  lemma {:induction false} QueuesLast(s: System, idle: Thread, e: Event)
    requires Base(s, idle) && Legal(s, idle, e) && Aimed(e)
    ensures Ok(s, e) && |Step(s, e).queues| == |s.queues|
    ensures forall p :: 0 <= p < |s.queues| ==> Without(Step(s, e).queues[p], e.t) == Without(s.queues[p], e.t)
    ensures Queues(s, e) ==>
      var r := Step(s, e);
      && e.t in r.prio && r.prio[e.t] < |r.queues|
      && var q := r.queues[r.prio[e.t]]; q != [] && q[|q| - 1] == e.t
  {
    LegalOk(s, idle, e);
    assert Sound(s, e.t);
    var r, t := Step(s, e), e.t;
    forall p | 0 <= p < |s.queues| ensures Without(r.queues[p], t) == Without(s.queues[p], t) {
      WithoutOnce(s.queues[p], t);
    }
  }
}
