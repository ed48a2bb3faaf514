/** The ready queues and the thread states, as a machine over the operations of the scheduler
    and the thread module. Smaller numbers are more urgent priorities. A call that has
    interrupts enabled between its sections is several steps; called with interrupts disabled
    it is one. */
module SchedulerSpec {
  import opened IpcList
  import opened Lists

  datatype Stat = Init | Ready | Suspended | Closed

  /** The calls in progress by how far they are. Past the test of the state: `starting` of
      rt_thread_startup, `suspending` of rt_thread_suspend, `passed` of rt_thread_resume.
      `unlinked` are resumed threads that are still to be inserted. `removed` are threads being
      deleted that are off their queue and still have their state, `closing` those that are
      closed and still to be put on the defunct list. */
  datatype Calls = Calls(
    starting: multiset<Thread>,
    suspending: multiset<Thread>,
    passed: multiset<Thread>,
    unlinked: multiset<Thread>,
    removed: multiset<Thread>,
    closing: multiset<Thread>)

  const NO_CALLS: Calls := Calls(multiset{}, multiset{}, multiset{}, multiset{}, multiset{}, multiset{})

  /** `slice` is the initial time slice of a thread and `left` what remains of it. `dead` are the
      threads closed since they were initialised. */
  datatype SystemOf<S, P, Q, L> =
    System(stat: S, prio: P, initial: P, slice: P, left: P, queues: Q, current: Thread, nest: int,
           defunct: L, dead: set<Thread>, calls: Calls)
  type System = SystemOf<map<Thread, Stat>, map<Thread, nat>, seq<seq<Thread>>, seq<Thread>>

  /** The last argument of Exit and Delete says whether the thread goes on the defunct list. */
  datatype Event =
    | Create(t: Thread, p: nat, slice: nat)
    | Startup(t: Thread)
    | StartupTest(t: Thread)
    | StartupSet(t: Thread)
    | Suspend(t: Thread)
    | SuspendTest(t: Thread)
    | SuspendSection(t: Thread)
    | Resume(t: Thread)
    | ResumeTest(t: Thread)
    | ResumeUnlink(t: Thread)
    | ResumeInsert(t: Thread)
    | Timeout(t: Thread)
    | Exit(kept: bool)
    | Delete(t: Thread, kept: bool)
    | DeleteRemove(t: Thread)
    | DeleteClose(t: Thread)
    | DeleteKeep(t: Thread)
    | DeleteEnd(t: Thread)
    | Reap
    | ChangePriority(t: Thread, p: nat)
    | Yield
    | Tick
    | Schedule
    | EnterCritical
    | ExitCritical

  predicate InCall(c: Calls, t: Thread) {
    t in c.starting || t in c.suspending || t in c.passed || t in c.unlinked || t in c.removed || t in c.closing
  }

  predicate Sound(s: System, t: Thread) {
    && t in s.stat && t in s.prio && t in s.initial && t in s.slice && t in s.left
    && s.prio[t] < |s.queues| && s.initial[t] < |s.queues| && 1 <= s.left[t] <= s.slice[t]
  }

  /** A thread is in the queue of its priority when it is ready and not being deleted. */
  predicate Filed(s: System, t: Thread) {
    && t in s.stat && t in s.prio && s.prio[t] < |s.queues|
    && (t in s.queues[s.prio[t]] <==> s.stat[t] == Ready && t !in s.calls.removed)
  }

  /** A thread that was closed stays so, and only such threads are on the defunct list. */
  predicate Gone(s: System, t: Thread) {
    && (t in s.dead ==> t in s.stat && s.stat[t] == Closed)
    && (t in s.calls.closing || t in s.defunct ==> t in s.dead)
  }

  predicate Member(s: System, p: int, t: Thread) {
    0 <= p < |s.queues| && t in s.queues[p]
  }

  /** The idle thread is ready at the lowest priority. */
  predicate IdleReady(s: System, idle: Thread) {
    && idle in s.stat && s.stat[idle] == Ready && idle in s.prio && s.prio[idle] == |s.queues| - 1
    && Member(s, |s.queues| - 1, idle) && idle !in s.dead
  }

  /** Only threads that exist are anywhere, with numbers in range. */
  ghost predicate Base(s: System, idle: Thread) {
    && 1 <= |s.queues| <= 256 && s.nest >= 0 && s.current in s.stat && IdleReady(s, idle)
    && (forall t {:trigger Sound(s, t)} :: t in s.stat ==> Sound(s, t))
    && (forall p, t {:trigger Member(s, p, t)} :: Member(s, p, t) ==> t in s.stat)
    && (forall t {:trigger InCall(s.calls, t)} :: InCall(s.calls, t) ==> t in s.stat && t != idle)
    && (forall t {:trigger t in s.defunct} :: t in s.defunct ==> t in s.stat && t != idle)
  }

  ghost predicate AllDistinct(queues: seq<seq<Thread>>) {
    forall p {:trigger queues[p]} :: 0 <= p < |queues| ==> Distinct(queues[p])
  }

  /** Every thread is in at most one list, once, and in the ready queue it should be in. */
  ghost predicate Right(s: System) {
    && (forall t {:trigger Filed(s, t)} :: t in s.stat ==> Filed(s, t))
    && (forall p, t {:trigger Member(s, p, t)} :: Member(s, p, t) ==> t in s.prio && s.prio[t] == p)
    && (forall t {:trigger Gone(s, t)} :: Gone(s, t))
    && AllDistinct(s.queues) && Distinct(s.defunct)
  }

  ghost predicate Inv(s: System, idle: Thread) { Base(s, idle) && Right(s) }

  /** The most urgent queue that is not empty. */
  function Top(queues: seq<seq<Thread>>): (p: nat)
    ensures p <= |queues| && (p < |queues| ==> queues[p] != [])
    ensures forall q :: 0 <= q < p ==> queues[q] == []
  {
    if queues == [] || queues[0] != [] then 0 else 1 + Top(queues[1..])
  }

  /** rt_schedule_insert_thread */
  function Insert(s: System, t: Thread): System
    requires t in s.prio && s.prio[t] < |s.queues|
  {
    s.(stat := s.stat[t := Ready], queues := s.queues[s.prio[t] := s.queues[s.prio[t]] + [t]])
  }

  /** rt_list_remove on the list node of a thread, in a ready queue or on the defunct list. */
  function Unlink(s: System, t: Thread): System
    requires t in s.prio && s.prio[t] < |s.queues|
  {
    s.(queues := s.queues[s.prio[t] := Without(s.queues[s.prio[t]], t)], defunct := Without(s.defunct, t))
  }

  /** rt_schedule_remove_thread with the state its callers set. */
  function Remove(s: System, t: Thread, stat: Stat): System
    requires t in s.prio && s.prio[t] < |s.queues|
  {
    Unlink(s, t).(stat := s.stat[t := stat])
  }

  /** rt_schedule */
  function Dispatch(s: System): System {
    if s.nest == 0 && Top(s.queues) < |s.queues| then s.(current := s.queues[Top(s.queues)][0]) else s
  }

  function Rotated(s: System, t: Thread): System
    requires t in s.prio && s.prio[t] < |s.queues|
  {
    s.(queues := s.queues[s.prio[t] := Without(s.queues[s.prio[t]], t) + [t]])
  }

  /** The running thread goes to the end of its queue, unless it is in none or alone there. */
  function YieldNow(s: System): System
    requires Sound(s, s.current)
  {
    var q := s.queues[s.prio[s.current]];
    if s.stat[s.current] == Ready && s.current in q && |q| > 1 then Dispatch(Rotated(s, s.current)) else s
  }

  function TickNow(s: System): System
    requires Sound(s, s.current)
  {
    var t := s.current;
    if s.left[t] == 1 then YieldNow(s.(left := s.left[t := s.slice[t]]))
    else s.(left := s.left[t := s.left[t] - 1])
  }

  /** What callers may do: threads are created with a time slice and a priority in range, in
      memory that no thread and no call uses, only created threads are started, waiting threads
      time out, and the idle thread stays ready. A test of the state that fails ends the call. */
  ghost predicate Legal(s: System, idle: Thread, e: Event) {
    match e
    case Create(t, p, slice) =>
      && p < |s.queues| && slice >= 1 && !InCall(s.calls, t) && t !in s.defunct
      && (t in s.stat ==> s.stat[t] in {Closed, Init} && t != s.current)
    case Startup(t) => t in s.stat && s.stat[t] == Init
    case StartupTest(t) => t in s.stat && s.stat[t] == Init
    case StartupSet(t) => t in s.calls.starting
    case Suspend(t) => t in s.stat && t != idle
    case SuspendTest(t) => t in s.stat && t != idle && s.stat[t] == Ready
    case SuspendSection(t) => t in s.calls.suspending
    case Resume(t) => t in s.stat
    case ResumeTest(t) => t in s.stat && s.stat[t] == Suspended
    case ResumeUnlink(t) => t in s.calls.passed
    case ResumeInsert(t) => t in s.calls.unlinked
    case Timeout(t) => t in s.stat && s.stat[t] == Suspended
    case Exit(_) => s.current != idle && s.current in s.stat
    case Delete(t, _) => t in s.stat && t != idle
    case DeleteRemove(t) => t in s.stat && t != idle
    case DeleteClose(t) => t in s.calls.removed
    case DeleteKeep(t) => t in s.calls.closing
    case DeleteEnd(t) => t in s.calls.closing
    case Reap => s.defunct != []
    case ChangePriority(t, p) => t in s.stat && t != idle && p < |s.queues|
    case _ => true
  }

  /** _rt_thread_init */
  function Created(s: System, t: Thread, p: nat, slice: nat): System {
    s.(stat := s.stat[t := Init], prio := s.prio[t := p], initial := s.initial[t := p], slice := s.slice[t := slice],
      left := s.left[t := slice], dead := s.dead - {t})
  }

  /** A removed thread is closed, and put on the defunct list if it is kept there. */
  function Buried(s: System, t: Thread, kept: bool): System {
    s.(dead := s.dead + {t}, defunct := if kept then [t] + s.defunct else s.defunct)
  }

  /** Operations on a given thread that exists. */
  predicate Aimed(e: Event) {
    || e.Startup? || e.StartupTest? || e.StartupSet? || e.Suspend? || e.SuspendTest? || e.SuspendSection?
    || e.Resume? || e.ResumeTest? || e.ResumeUnlink? || e.ResumeInsert? || e.Timeout?
    || e.Delete? || e.DeleteRemove? || e.DeleteClose? || e.DeleteKeep? || e.DeleteEnd? || e.ChangePriority?
  }

  predicate Ok(s: System, e: Event) {
    && Sound(s, s.current) && (Aimed(e) ==> Sound(s, e.t))
    && (e.ChangePriority? ==> e.p < |s.queues|) && (e.Reap? ==> s.defunct != [])
  }

  /** The call ends with rt_schedule. */
  predicate Reschedules(e: Event) {
    e.Startup? || e.Timeout? || e.Exit? || e.Schedule?
  }

  function Next(s: System, e: Event): System
    requires Ok(s, e)
  {
    if Reschedules(e) then Dispatch(Step(s, e)) else Step(s, e)
  }

  /** The operation without the rescheduling at its end. */
  function Step(s: System, e: Event): System
    requires Ok(s, e)
  {
    var c := s.calls;
    match e
    case Create(t, p, slice) => Created(s, t, p, slice)
    case Startup(t) => Insert(Unlink(s.(prio := s.prio[t := s.initial[t]]), t), t)
    case StartupTest(t) => s.(calls := c.(starting := c.starting + multiset{t}))
    case StartupSet(t) =>
      s.(prio := s.prio[t := s.initial[t]], stat := s.stat[t := Suspended],
        calls := c.(starting := c.starting - multiset{t}))
    case Suspend(t) => if s.stat[t] == Ready then Remove(s, t, Suspended) else s
    case SuspendTest(t) => s.(calls := c.(suspending := c.suspending + multiset{t}))
    case SuspendSection(t) => Remove(s, t, Suspended).(calls := c.(suspending := c.suspending - multiset{t}))
    case Resume(t) => if s.stat[t] == Suspended then Insert(Unlink(s, t), t) else s
    case ResumeTest(t) => s.(calls := c.(passed := c.passed + multiset{t}))
    case ResumeUnlink(t) =>
      Unlink(s, t).(calls := c.(passed := c.passed - multiset{t}, unlinked := c.unlinked + multiset{t}))
    case ResumeInsert(t) => Insert(s, t).(calls := c.(unlinked := c.unlinked - multiset{t}))
    case Timeout(t) => Insert(Unlink(s, t), t)
    case Exit(kept) => Buried(Remove(s, s.current, Closed), s.current, kept)
    case Delete(t, kept) => Buried(Remove(s, t, Closed), t, kept)
    case DeleteRemove(t) => Unlink(s, t).(calls := c.(removed := c.removed + multiset{t}))
    case DeleteClose(t) =>
      s.(stat := s.stat[t := Closed], dead := s.dead + {t},
        calls := c.(removed := c.removed - multiset{t}, closing := c.closing + multiset{t}))
    case DeleteKeep(t) => s.(defunct := [t] + s.defunct, calls := c.(closing := c.closing - multiset{t}))
    case DeleteEnd(t) => s.(calls := c.(closing := c.closing - multiset{t}))
    case Reap => s.(defunct := s.defunct[1..])
    case ChangePriority(t, p) =>
      if s.stat[t] == Ready then Insert(Remove(s, t, Ready).(prio := s.prio[t := p]), t)
      else s.(prio := s.prio[t := p])
    case Yield => YieldNow(s)
    case Tick => TickNow(s)
    case Schedule => s
    case EnterCritical => s.(nest := s.nest + 1)
    case ExitCritical => if s.nest <= 1 then Dispatch(s.(nest := 0)) else s.(nest := s.nest - 1)
  }

  /** What must not have happened to a thread since its call was begun: a start finds it queued
      or closed; a suspension closed; a resumption, when it unlinks, queued, and when it inserts,
      ready, closed or being deleted; the end of a deletion on the defunct list already. A thread
      that is being deleted must not be made ready in one step or moved to another queue. */
  predicate Safe(s: System, e: Event)
    requires Ok(s, e)
  {
    match e
    case StartupSet(t) => t !in s.dead && (s.stat[t] != Ready || t in s.calls.removed)
    case SuspendSection(t) => t !in s.dead
    case ResumeUnlink(t) => s.stat[t] != Ready || t in s.calls.removed
    case ResumeInsert(t) => s.stat[t] != Ready && t !in s.dead && t !in s.calls.removed
    case DeleteKeep(t) => t !in s.defunct
    case Startup(t) => t !in s.calls.removed
    case Resume(t) => s.stat[t] != Suspended || t !in s.calls.removed
    case Timeout(t) => t !in s.calls.removed
    case ChangePriority(t, _) => s.stat[t] != Ready || t !in s.calls.removed
    case _ => true
  }

  // --- what a step does not touch

  predicate Kept<T(==)>(m: map<Thread, T>, n: map<Thread, T>, u: Thread) {
    (u in n <==> u in m) && (u in m ==> n[u] == m[u])
  }

  /** Nothing about thread `u` changed, apart from its place in the queues. */
  predicate Same(s: System, r: System, u: Thread) {
    && Kept(s.stat, r.stat, u) && Kept(s.prio, r.prio, u) && Kept(s.initial, r.initial, u)
    && Kept(s.slice, r.slice, u) && Kept(s.left, r.left, u)
    && (u in r.dead <==> u in s.dead) && (u in r.defunct <==> u in s.defunct)
    && (u in r.calls.removed <==> u in s.calls.removed) && (u in r.calls.closing <==> u in s.calls.closing)
    && (InCall(r.calls, u) <==> InCall(s.calls, u))
  }

  predicate SamePlace(s: System, r: System, p: int, u: Thread) { Member(r, p, u) <==> Member(s, p, u) }

  /** Only thread `t` changed. */
  ghost predicate Touches(s: System, r: System, t: Thread) {
    && |r.queues| == |s.queues| && r.nest >= 0 && r.current in r.stat && t in r.stat
    && (forall u {:trigger Same(s, r, u)} :: u != t ==> Same(s, r, u))
    && (forall p, u {:trigger SamePlace(s, r, p, u)} :: u != t ==> SamePlace(s, r, p, u))
  }

  lemma {:induction false} TouchedBase(s: System, r: System, idle: Thread, t: Thread)
    requires Base(s, idle) && Touches(s, r, t) && Sound(r, t) && t != idle
    ensures Base(r, idle)
  {
    assert Same(s, r, idle) && SamePlace(s, r, |s.queues| - 1, idle);
    forall u | u in r.stat ensures Sound(r, u) { assert u != t ==> Same(s, r, u) && Sound(s, u); }
    forall p, u | Member(r, p, u) ensures u in r.stat { assert u != t ==> Same(s, r, u) && SamePlace(s, r, p, u); }
    forall u | InCall(r.calls, u) ensures u in r.stat && u != idle { assert u != t ==> Same(s, r, u); }
    forall u | u in r.defunct ensures u in r.stat && u != idle { assert u != t ==> Same(s, r, u); }
  }

  /** What is to be shown of the one thread that changed. */
  ghost predicate Own(r: System, t: Thread) {
    && Filed(r, t) && Gone(r, t) && AllDistinct(r.queues) && Distinct(r.defunct)
    && forall p {:trigger Member(r, p, t)} :: Member(r, p, t) ==> r.prio[t] == p
  }

  lemma {:induction false} TouchedInv(s: System, r: System, idle: Thread, t: Thread)
    requires Inv(s, idle) && Base(r, idle) && Touches(s, r, t)
    ensures Inv(r, idle) <==> Own(r, t)
  {
    if Own(r, t) {
      forall u | u in r.stat ensures Filed(r, u) {
        if u != t { assert Same(s, r, u) && Filed(s, u) && SamePlace(s, r, s.prio[u], u); }
      }
      forall p, u | Member(r, p, u) ensures u in r.prio && r.prio[u] == p {
        assert u != t ==> Same(s, r, u) && SamePlace(s, r, p, u);
      }
      forall u ensures Gone(r, u) { assert u != t ==> Same(s, r, u) && Gone(s, u); }
    }
    if Inv(r, idle) { assert Filed(r, t) && Gone(r, t); }
  }

  // --- the parts of the steps

  lemma {:induction false} WithoutDistinct(s: seq<Thread>, t: Thread)
    requires Distinct(s)
    ensures Distinct(Without(s, t))
  {
    WithoutKeeps(s, t, map[]);
  }

  lemma {:induction false} UnlinkTouches(s: System, idle: Thread, t: Thread)
    requires Inv(s, idle) && t in s.stat
    ensures Sound(s, t) && Filed(s, t) && Gone(s, t) && Touches(s, Unlink(s, t), t)
    ensures AllDistinct(Unlink(s, t).queues) && Distinct(Unlink(s, t).defunct)
    ensures forall p {:trigger Member(Unlink(s, t), p, t)} :: !Member(Unlink(s, t), p, t)
  {
    assert Sound(s, t) && Filed(s, t) && Gone(s, t);
    var r, p := Unlink(s, t), s.prio[t];
    WithoutDistinct(s.queues[p], t);
    WithoutDistinct(s.defunct, t);
    forall q, u | u != t ensures SamePlace(s, r, q, u) {}
    forall q ensures !Member(r, q, t) { assert Member(r, q, t) ==> q != p && Member(s, q, t); }
  }

  lemma {:induction false} AppendDistinct(s: seq<Thread>, t: Thread)
    requires Distinct(s)
    ensures Distinct(s + [t]) <==> t !in s
  {
    var r := s + [t];
    if t in s {
      var i :| 0 <= i < |s| && s[i] == t;
      assert !Differ(r[i], r[|s|]);
    } else {
      forall i, j | 0 <= i < j < |r| ensures Differ(r[i], r[j]) { assert j < |s| ==> Differ(s[i], s[j]); }
    }
  }

  lemma {:induction false} PrependDistinct(s: seq<Thread>, t: Thread)
    requires Distinct(s)
    ensures Distinct([t] + s) <==> t !in s
  {
    var r := [t] + s;
    if t in s {
      var i :| 0 <= i < |s| && s[i] == t;
      assert !Differ(r[0], r[i + 1]);
    } else {
      forall i, j | 0 <= i < j < |r| ensures Differ(r[i], r[j]) { assert i > 0 ==> Differ(s[i - 1], s[j - 1]); }
    }
  }

  lemma {:induction false} DispatchKeeps(s: System, idle: Thread)
    requires s.current in s.stat
    ensures Base(s, idle) ==> Base(Dispatch(s), idle)
    ensures Base(s, idle) ==> (Inv(Dispatch(s), idle) <==> Inv(s, idle))
  {
    var r, p := Dispatch(s), Top(s.queues);
    if Base(s, idle) {
      if p < |s.queues| { assert Member(s, p, s.queues[p][0]); }
      forall u | u in r.stat ensures Sound(r, u) { assert Sound(s, u); }
      forall q, u | Member(r, q, u) ensures u in r.stat { assert Member(s, q, u); }
      forall u ensures Filed(r, u) == Filed(s, u) && Gone(r, u) == Gone(s, u) {}
      forall q, u ensures Member(r, q, u) == Member(s, q, u) {}
      if Inv(s, idle) { forall u | u in r.stat ensures Filed(r, u) { assert Filed(s, u); } }
      if Inv(r, idle) {
        forall u | u in s.stat ensures Filed(s, u) { assert Filed(r, u); }
        forall q, u | Member(s, q, u) ensures u in s.prio && s.prio[u] == q { assert Member(r, q, u); }
        forall u ensures Gone(s, u) { assert Gone(r, u); }
      }
    }
  }

  /** The queues keep their members, and the threads everything but the running thread's ticks. */
  lemma {:induction false} ReorderedKeeps(s: System, r: System, idle: Thread)
    requires |r.queues| == |s.queues| && forall p, u {:trigger Member(r, p, u)} :: Member(r, p, u) <==> Member(s, p, u)
    requires r.stat == s.stat && r.prio == s.prio && r.initial == s.initial && r.slice == s.slice && r.nest == s.nest
    requires r.current == s.current && r.dead == s.dead && r.defunct == s.defunct && r.calls == s.calls
    requires s.current in s.slice && s.current in r.left && 1 <= r.left[s.current] <= s.slice[s.current]
    requires forall u :: u != s.current ==> Kept(s.left, r.left, u)
    ensures Base(s, idle) ==> Base(r, idle)
    ensures Inv(s, idle) && AllDistinct(r.queues) ==> Inv(r, idle)
  {
    if Base(s, idle) {
      forall u | u in r.stat ensures Sound(r, u) { assert Sound(s, u) && (u != s.current ==> Kept(s.left, r.left, u)); }
      assert Member(r, |r.queues| - 1, idle);
    }
    if Inv(s, idle) && AllDistinct(r.queues) {
      forall u | u in r.stat ensures Filed(r, u) {
        assert Filed(s, u) && (Member(r, s.prio[u], u) <==> Member(s, s.prio[u], u));
      }
      forall u ensures Gone(r, u) { assert Gone(s, u); }
    }
  }

  lemma {:induction false} YieldKeeps(s: System, idle: Thread)
    requires Base(s, idle)
    ensures Sound(s, s.current) && Base(YieldNow(s), idle) && (Inv(s, idle) ==> Inv(YieldNow(s), idle))
  {
    assert Sound(s, s.current);
    var t := s.current;
    var q := s.queues[s.prio[t]];
    if s.stat[t] == Ready && t in q && |q| > 1 {
      var r, w := Rotated(s, t), Without(q, t);
      forall p, u ensures Member(r, p, u) <==> Member(s, p, u) {}
      if Inv(s, idle) {
        WithoutDistinct(q, t);
        AppendDistinct(w, t);
      }
      ReorderedKeeps(s, r, idle);
      DispatchKeeps(r, idle);
    }
  }

  lemma {:induction false} TickKeeps(s: System, idle: Thread)
    requires Base(s, idle)
    ensures Sound(s, s.current) && Base(TickNow(s), idle) && (Inv(s, idle) ==> Inv(TickNow(s), idle))
  {
    assert Sound(s, s.current);
    var t := s.current;
    var r := s.(left := s.left[t := if s.left[t] == 1 then s.slice[t] else s.left[t] - 1]);
    forall p, u ensures Member(r, p, u) <==> Member(s, p, u) {}
    ReorderedKeeps(s, r, idle);
    YieldKeeps(r, idle);
  }

  lemma {:induction false} NestKeeps(s: System, idle: Thread, n: nat)
    requires Base(s, idle)
    ensures Base(s.(nest := n), idle) && (Inv(s, idle) ==> Inv(s.(nest := n), idle))
  {
    var r := s.(nest := n);
    forall u | u in r.stat ensures Sound(r, u) { assert Sound(s, u); }
    forall p, u ensures Member(r, p, u) <==> Member(s, p, u) {}
    if Inv(s, idle) {
      forall u | u in r.stat ensures Filed(r, u) { assert Filed(s, u); }
      forall u ensures Gone(r, u) { assert Gone(s, u); }
    }
  }

  lemma {:induction false} LegalOk(s: System, idle: Thread, e: Event)
    requires Base(s, idle) && Legal(s, idle, e)
    ensures Ok(s, e) && (Aimed(e) ==> e.t != idle || e.Resume?)
  {
    assert Sound(s, s.current);
    if Aimed(e) {
      assert InCall(s.calls, e.t) ==> e.t in s.stat && e.t != idle;
      assert Sound(s, e.t);
    }
  }

  // --- every step, from any state

  /** The step changes the queues. */
  predicate Moves(e: Event) {
    || e.Startup? || e.Suspend? || e.SuspendSection? || e.Resume? || e.ResumeUnlink? || e.ResumeInsert?
    || e.Timeout? || e.Delete? || e.DeleteRemove? || e.ChangePriority?
  }

  lemma {:induction false} MovesTouch(s: System, idle: Thread, e: Event)
    requires Base(s, idle) && Legal(s, idle, e) && Moves(e)
    ensures Ok(s, e) && Touches(s, Step(s, e), e.t) && Sound(Step(s, e), e.t)
  {
    LegalOk(s, idle, e);
    var r := Step(s, e);
    forall p, u | u != e.t ensures SamePlace(s, r, p, u) {}
    forall u | u != e.t ensures Same(s, r, u) {}
  }

  lemma {:induction false} QuietTouches(s: System, idle: Thread, e: Event)
    requires Base(s, idle) && Legal(s, idle, e) && Aimed(e) && !Moves(e)
    ensures Ok(s, e) && Touches(s, Step(s, e), e.t) && Sound(Step(s, e), e.t)
  {
    LegalOk(s, idle, e);
    var r := Step(s, e);
    forall p, u | u != e.t ensures SamePlace(s, r, p, u) {}
    forall u | u != e.t ensures Same(s, r, u) {}
  }

  lemma {:induction false} AimedTouches(s: System, idle: Thread, e: Event)
    requires Base(s, idle) && Legal(s, idle, e) && Aimed(e)
    ensures Ok(s, e) && Touches(s, Step(s, e), e.t) && Sound(Step(s, e), e.t)
  {
    if Moves(e) { MovesTouch(s, idle, e); } else { QuietTouches(s, idle, e); }
  }

  lemma {:induction false} ExitTouches(s: System, idle: Thread, kept: bool)
    requires Base(s, idle) && Legal(s, idle, Exit(kept))
    ensures Ok(s, Exit(kept)) && Touches(s, Step(s, Exit(kept)), s.current) && Sound(Step(s, Exit(kept)), s.current)
  {
    LegalOk(s, idle, Exit(kept));
    var r := Step(s, Exit(kept));
    forall p, u | u != s.current ensures SamePlace(s, r, p, u) {}
    forall u | u != s.current ensures Same(s, r, u) {}
  }

  lemma {:induction false} CreateTouches(s: System, idle: Thread, t: Thread, p: nat, slice: nat)
    requires Base(s, idle) && Legal(s, idle, Create(t, p, slice))
    ensures Ok(s, Create(t, p, slice)) && Touches(s, Step(s, Create(t, p, slice)), t)
    ensures Sound(Step(s, Create(t, p, slice)), t) && t != idle
  {
    LegalOk(s, idle, Create(t, p, slice));
    var r := Step(s, Create(t, p, slice));
    forall q, u | u != t ensures SamePlace(s, r, q, u) {}
    forall u | u != t ensures Same(s, r, u) {}
  }

  /** Threads, numbers and the idle thread stay as they should whatever is done. */
  lemma {:induction false} NextBase(s: System, idle: Thread, e: Event)
    requires Base(s, idle) && Legal(s, idle, e)
    ensures Ok(s, e) && Base(Step(s, e), idle) && Base(Next(s, e), idle)
  {
    LegalOk(s, idle, e);
    var r := Step(s, e);
    if Aimed(e) {
      if e.t != idle {
        AimedTouches(s, idle, e);
        TouchedBase(s, r, idle, e.t);
      }
    } else {
      OthersBase(s, idle, e);
    }
    DispatchKeeps(r, idle);
  }

  lemma {:induction false} OthersBase(s: System, idle: Thread, e: Event)
    requires Base(s, idle) && Legal(s, idle, e) && !Aimed(e)
    ensures Ok(s, e) && Base(Step(s, e), idle)
  {
    LegalOk(s, idle, e);
    var r := Step(s, e);
    match e
    case Create(t, p, slice) =>
      CreateTouches(s, idle, t, p, slice);
      TouchedBase(s, r, idle, t);
    case Exit(kept) =>
      ExitTouches(s, idle, kept);
      TouchedBase(s, r, idle, s.current);
    case Reap =>
      forall u | u in r.stat ensures Sound(r, u) { assert Sound(s, u); }
      forall p, u ensures Member(r, p, u) == Member(s, p, u) {}
      forall u | u in r.defunct ensures u in s.defunct {}
    case Yield => YieldKeeps(s, idle);
    case Tick => TickKeeps(s, idle);
    case Schedule =>
    case EnterCritical => NestKeeps(s, idle, s.nest + 1);
    case ExitCritical =>
      NestKeeps(s, idle, if s.nest <= 1 then 0 else s.nest - 1);
      DispatchKeeps(s.(nest := 0), idle);
  }

  // --- the invariant, exactly

  /** A thread off its queue, appended to a queue. */
  lemma {:induction false} InsertOwn(s: System, t: Thread)
    requires Sound(s, t) && Gone(s, t) && AllDistinct(s.queues) && Distinct(s.defunct)
    requires forall p {:trigger Member(s, p, t)} :: Member(s, p, t) ==> s.prio[t] == p
    ensures Own(Insert(s, t), t) <==>
      t !in s.queues[s.prio[t]] && t !in s.calls.removed && t !in s.dead
  {
    var r, p := Insert(s, t), s.prio[t];
    AppendDistinct(s.queues[p], t);
    assert t in r.queues[p] by { assert r.queues[p][|s.queues[p]|] == t; }
    forall q ensures Member(r, q, t) ==> q == p { assert q != p && Member(r, q, t) ==> Member(s, q, t); }
    if Own(r, t) { assert Distinct(r.queues[p]); }
  }

  lemma {:induction false} ResumeExactly(s: System, idle: Thread, e: Event)
    requires Inv(s, idle) && Legal(s, idle, e) && (e.ResumeUnlink? || e.ResumeInsert?)
    ensures Ok(s, e) && (Own(Step(s, e), e.t) <==> Safe(s, e))
  {
    LegalOk(s, idle, e);
    UnlinkTouches(s, idle, e.t);
    var r, t := Step(s, e), e.t;
    if e.ResumeUnlink? {
      assert forall p {:trigger Member(r, p, t)} :: Member(r, p, t) <==> Member(Unlink(s, t), p, t);
    } else {
      var d := s.(calls := r.calls);
      forall p {:trigger Member(d, p, t)} | Member(d, p, t) ensures d.prio[t] == p { assert Member(s, p, t); }
      InsertOwn(d, t);
    }
  }

  /** Suspensions and deletions take the thread off its list. */
  lemma {:induction false} UnlinkExactly(s: System, idle: Thread, e: Event)
    requires Inv(s, idle) && Legal(s, idle, e)
    requires e.Suspend? || e.SuspendSection? || e.Delete? || e.DeleteRemove?
    ensures Ok(s, e) && (Own(Step(s, e), e.t) <==> Safe(s, e))
  {
    LegalOk(s, idle, e);
    UnlinkTouches(s, idle, e.t);
    var r, t, d := Step(s, e), e.t, Unlink(s, e.t);
    if e.Suspend? && s.stat[t] != Ready {
      forall p {:trigger Member(r, p, t)} | Member(r, p, t) ensures r.prio[t] == p { assert Member(s, p, t); }
    } else {
      forall p {:trigger Member(r, p, t)} ensures !Member(r, p, t) { assert !Member(d, p, t); }
      PrependDistinct(d.defunct, t);
    }
  }

  lemma {:induction false} ExitExactly(s: System, idle: Thread, kept: bool)
    requires Inv(s, idle) && Legal(s, idle, Exit(kept))
    ensures Ok(s, Exit(kept)) && Own(Step(s, Exit(kept)), s.current)
  {
    LegalOk(s, idle, Exit(kept));
    UnlinkTouches(s, idle, s.current);
    var r, t, d := Step(s, Exit(kept)), s.current, Unlink(s, s.current);
    forall p {:trigger Member(r, p, t)} ensures !Member(r, p, t) { assert !Member(d, p, t); }
    PrependDistinct(d.defunct, t);
  }

  /** Calls in one step that make a thread ready or move it to another queue. */
  lemma {:induction false} InsertExactly(s: System, idle: Thread, e: Event)
    requires Inv(s, idle) && Legal(s, idle, e) && (e.Startup? || e.Resume? || e.Timeout? || e.ChangePriority?)
    ensures Ok(s, e) && (Own(Step(s, e), e.t) <==> Safe(s, e))
  {
    LegalOk(s, idle, e);
    UnlinkTouches(s, idle, e.t);
    var r, t := Step(s, e), e.t;
    if e.Startup? {
      StartsQueued(s, idle, t);
    } else if (e.Resume? && s.stat[t] == Suspended) || e.Timeout? {
      InsertOwn(Unlink(s, t), t);
    } else if e.ChangePriority? && s.stat[t] == Ready {
      var d := Remove(s, t, Ready).(prio := s.prio[t := e.p]);
      forall p {:trigger Member(d, p, t)} ensures !Member(d, p, t) { assert !Member(Unlink(s, t), p, t); }
      assert !Member(d, e.p, t);
      InsertOwn(d, t);
    } else {
      forall p {:trigger Member(r, p, t)} | Member(r, p, t) ensures r.prio[t] == p { assert Member(s, p, t); }
      assert e.ChangePriority? && t in s.queues[e.p] ==> Member(s, e.p, t);
    }
  }

  lemma {:induction false} StartsQueued(s: System, idle: Thread, t: Thread)
    requires Inv(s, idle) && Legal(s, idle, Startup(t))
    ensures Ok(s, Startup(t)) && (Own(Step(s, Startup(t)), t) <==> Safe(s, Startup(t)))
  {
    LegalOk(s, idle, Startup(t));
    UnlinkTouches(s, idle, t);
    var c := s.(prio := s.prio[t := s.initial[t]]);
    var d := Unlink(c, t);
    assert t !in s.queues[s.prio[t]];
    forall p ensures !Member(s, p, t) {}
    forall p {:trigger Member(d, p, t)} ensures !Member(d, p, t) { assert !Member(s, p, t); }
    WithoutDistinct(s.queues[s.initial[t]], t);
    WithoutDistinct(s.defunct, t);
    InsertOwn(d, t);
  }

  lemma {:induction false} QuietExactly(s: System, idle: Thread, e: Event)
    requires Inv(s, idle) && Legal(s, idle, e) && Aimed(e) && !Moves(e)
    ensures Ok(s, e) && (Own(Step(s, e), e.t) <==> Safe(s, e))
  {
    LegalOk(s, idle, e);
    var r, t := Step(s, e), e.t;
    assert Filed(s, t) && Gone(s, t);
    assert forall p {:trigger Member(r, p, t)} :: Member(r, p, t) <==> Member(s, p, t);
    PrependDistinct(s.defunct, t);
    assert e.StartupSet? && s.stat[t] == Ready && t !in s.calls.removed ==> Member(r, s.prio[t], t);
    assert e.StartupSet? && t in r.queues[r.prio[t]] ==> Member(r, r.prio[t], t);
  }

  /** Every step keeps the invariant exactly when it is safe. */
  lemma {:induction false} NextExactly(s: System, idle: Thread, e: Event)
    requires Inv(s, idle) && Legal(s, idle, e)
    ensures Ok(s, e) && (Inv(Step(s, e), idle) <==> Safe(s, e)) && (Inv(Next(s, e), idle) <==> Safe(s, e))
  {
    NextBase(s, idle, e);
    var r := Step(s, e);
    if Aimed(e) {
      AimedTouches(s, idle, e);
      TouchedInv(s, r, idle, e.t);
      if !Moves(e) { QuietExactly(s, idle, e); }
      else if e.ResumeUnlink? || e.ResumeInsert? { ResumeExactly(s, idle, e); }
      else if e.Startup? || e.Resume? || e.Timeout? || e.ChangePriority? { InsertExactly(s, idle, e); }
      else { UnlinkExactly(s, idle, e); }
    } else {
      OthersInv(s, idle, e);
    }
    DispatchKeeps(r, idle);
  }

  lemma {:induction false} OthersInv(s: System, idle: Thread, e: Event)
    requires Inv(s, idle) && Legal(s, idle, e) && !Aimed(e)
    ensures Ok(s, e) && Inv(Step(s, e), idle)
  {
    OthersBase(s, idle, e);
    var r := Step(s, e);
    match e
    case Create(t, p, slice) =>
      CreateTouches(s, idle, t, p, slice);
      CreateOwn(s, idle, t, p, slice);
      TouchedInv(s, r, idle, t);
    case Exit(kept) =>
      ExitTouches(s, idle, kept);
      ExitExactly(s, idle, kept);
      TouchedInv(s, r, idle, s.current);
    case Reap => ReapInv(s, idle);
    case Yield => YieldKeeps(s, idle);
    case Tick => TickKeeps(s, idle);
    case Schedule =>
    case EnterCritical => NestKeeps(s, idle, s.nest + 1);
    case ExitCritical =>
      NestKeeps(s, idle, if s.nest <= 1 then 0 else s.nest - 1);
      DispatchKeeps(s.(nest := 0), idle);
  }

  lemma {:induction false} CreateOwn(s: System, idle: Thread, t: Thread, p: nat, slice: nat)
    requires Inv(s, idle) && Legal(s, idle, Create(t, p, slice))
    ensures Ok(s, Create(t, p, slice)) && Own(Step(s, Create(t, p, slice)), t)
  {
    LegalOk(s, idle, Create(t, p, slice));
    var r := Step(s, Create(t, p, slice));
    assert t in s.stat ==> Filed(s, t);
    assert Gone(s, t);
    forall q {:trigger Member(r, q, t)} ensures !Member(r, q, t) {
      assert Member(r, q, t) <==> Member(s, q, t);
    }
    assert t in r.queues[p] ==> Member(r, p, t);
  }

  lemma {:induction false} ReapInv(s: System, idle: Thread)
    requires Inv(s, idle) && Legal(s, idle, Reap)
    ensures Ok(s, Reap) && Inv(Step(s, Reap), idle)
  {
    OthersBase(s, idle, Reap);
    var r := Step(s, Reap);
    TailWithout(s.defunct);
    forall p, u ensures Member(r, p, u) == Member(s, p, u) {}
    forall u | u in r.stat ensures Filed(r, u) { assert Filed(s, u); }
    forall u ensures Gone(r, u) { assert Gone(s, u); }
  }

  // --- whole runs

  ghost predicate LegalRun(s: System, idle: Thread, run: seq<Event>)
    requires Base(s, idle)
    decreases |run|
  {
    run != [] ==> Legal(s, idle, run[0]) && (NextBase(s, idle, run[0]); LegalRun(Next(s, run[0]), idle, run[1..]))
  }

  ghost function After(s: System, idle: Thread, run: seq<Event>): System
    requires Base(s, idle) && LegalRun(s, idle, run)
    decreases |run|
  {
    if run == [] then s else (NextBase(s, idle, run[0]); After(Next(s, run[0]), idle, run[1..]))
  }

  /** The invariant holds in every state of the run. */
  ghost predicate InvThroughout(s: System, idle: Thread, run: seq<Event>)
    requires Base(s, idle) && LegalRun(s, idle, run)
    decreases |run|
  {
    Inv(s, idle) && (run != [] ==> (NextBase(s, idle, run[0]); InvThroughout(Next(s, run[0]), idle, run[1..])))
  }

  ghost predicate SafeRun(s: System, idle: Thread, run: seq<Event>)
    requires Base(s, idle) && LegalRun(s, idle, run)
    decreases |run|
  {
    run != [] ==>
      (NextBase(s, idle, run[0]); Safe(s, run[0]) && SafeRun(Next(s, run[0]), idle, run[1..]))
  }

  /** The invariant holds throughout a run exactly when every step of it is safe. */
  lemma {:induction false} EveryRun(s: System, idle: Thread, run: seq<Event>)
    requires Inv(s, idle) && LegalRun(s, idle, run)
    ensures InvThroughout(s, idle, run) <==> SafeRun(s, idle, run)
    ensures SafeRun(s, idle, run) ==> Inv(After(s, idle, run), idle)
    decreases |run|
  {
    if run != [] {
      NextBase(s, idle, run[0]);
      NextExactly(s, idle, run[0]);
      if Safe(s, run[0]) { EveryRun(Next(s, run[0]), idle, run[1..]); }
    }
  }

  /** A thread is in the queue of its priority, once, when it is ready, and in no other queue. */
  ghost predicate ReadyIffQueued(s: System) {
    && AllDistinct(s.queues)
    && forall t, p {:trigger Member(s, p, t)} :: t in s.stat ==>
       (Member(s, p, t) <==> s.stat[t] == Ready && t in s.prio && p == s.prio[t])
  }

  /** That is so in a state of such a run exactly while no ready thread is being deleted. */
  lemma {:induction false} ReadyExactly(s: System, idle: Thread)
    requires Inv(s, idle)
    ensures ReadyIffQueued(s) <==> forall t :: t in s.calls.removed && t in s.stat ==> s.stat[t] != Ready
  {
    if forall t :: t in s.calls.removed && t in s.stat ==> s.stat[t] != Ready {
      forall t, p | t in s.stat ensures Member(s, p, t) <==> s.stat[t] == Ready && t in s.prio && p == s.prio[t] {
        assert Filed(s, t);
      }
    }
    if ReadyIffQueued(s) {
      forall t | t in s.calls.removed && t in s.stat ensures s.stat[t] != Ready {
        assert Filed(s, t);
        assert Member(s, s.prio[t], t) <==> t in s.queues[s.prio[t]];
      }
    }
  }

  // --- calls that nobody disturbs

  /** The steps of a call after its first. */
  predicate Part(e: Event) {
    || e.StartupSet? || e.SuspendSection? || e.ResumeUnlink? || e.ResumeInsert?
    || e.DeleteClose? || e.DeleteKeep? || e.DeleteEnd?
  }

  /** Nothing else is done to a thread between the parts of a call on it. */
  predicate Undisturbed(s: System, e: Event) {
    (Aimed(e) && !Part(e) ==> !InCall(s.calls, e.t)) && (e.Exit? ==> !InCall(s.calls, s.current))
  }

  /** A thread with a call in progress has one, and is as that call left it. */
  predicate Steady(s: System, t: Thread) {
    var c := s.calls;
    InCall(c, t) ==>
      && t in s.stat
      && c.starting[t] + c.suspending[t] + c.passed[t] + c.unlinked[t] + c.removed[t] + c.closing[t] == 1
      && (t in c.starting ==> s.stat[t] == Init) && (t in c.suspending ==> s.stat[t] == Ready)
      && (t in c.passed || t in c.unlinked ==> s.stat[t] == Suspended)
      && (t in c.removed || t in c.closing ==> t !in s.defunct)
  }

  ghost predicate AllSteady(s: System) { forall t {:trigger Steady(s, t)} :: Steady(s, t) }

  lemma {:induction false} SteadySafe(s: System, idle: Thread, e: Event)
    requires Inv(s, idle) && AllSteady(s) && Legal(s, idle, e) && Undisturbed(s, e)
    ensures Ok(s, e) && Safe(s, e)
  {
    LegalOk(s, idle, e);
    if Aimed(e) { assert Steady(s, e.t) && Gone(s, e.t) && Filed(s, e.t); }
  }

  lemma {:induction false} StaysSteady(s: System, r: System, t: Thread)
    requires AllSteady(s) && Touches(s, r, t) && Steady(r, t)
    requires forall u :: u != t ==> SameCalls(s.calls, r.calls, u)
    ensures AllSteady(r)
  {
    forall u ensures Steady(r, u) { assert u != t ==> Steady(s, u) && Same(s, r, u) && SameCalls(s.calls, r.calls, u); }
  }

  predicate SameCalls(c: Calls, d: Calls, u: Thread) {
    && d.starting[u] == c.starting[u] && d.suspending[u] == c.suspending[u] && d.passed[u] == c.passed[u]
    && d.unlinked[u] == c.unlinked[u] && d.removed[u] == c.removed[u] && d.closing[u] == c.closing[u]
  }

  lemma {:induction false} MovesSteady(s: System, e: Event)
    requires Ok(s, e) && Moves(e) && Steady(s, e.t) && Undisturbed(s, e)
    requires e.ResumeUnlink? ==> e.t in s.calls.passed
    requires e.ResumeInsert? ==> e.t in s.calls.unlinked
    requires e.SuspendSection? ==> e.t in s.calls.suspending
    ensures Steady(Step(s, e), e.t) && forall u :: u != e.t ==> SameCalls(s.calls, Step(s, e).calls, u)
  {
  }

  lemma {:induction false} QuietSteady(s: System, idle: Thread, e: Event)
    requires Ok(s, e) && Aimed(e) && !Moves(e) && Legal(s, idle, e) && Steady(s, e.t) && Undisturbed(s, e)
    ensures Steady(Step(s, e), e.t) && forall u :: u != e.t ==> SameCalls(s.calls, Step(s, e).calls, u)
  {
  }

  lemma {:induction false} StepSteady(s: System, idle: Thread, e: Event)
    requires Inv(s, idle) && AllSteady(s) && Legal(s, idle, e) && Undisturbed(s, e) && Aimed(e)
    ensures Ok(s, e) && AllSteady(Step(s, e))
  {
    AimedTouches(s, idle, e);
    assert Steady(s, e.t);
    if Moves(e) { MovesSteady(s, e); } else { QuietSteady(s, idle, e); }
    hide *;
    StaysSteady(s, Step(s, e), e.t);
  }

  lemma {:induction false} OthersSteady(s: System, idle: Thread, e: Event)
    requires Inv(s, idle) && AllSteady(s) && Legal(s, idle, e) && Undisturbed(s, e) && !Aimed(e)
    ensures Ok(s, e) && AllSteady(Step(s, e))
  {
    LegalOk(s, idle, e);
    var r := Step(s, e);
    if e.Create? {
      CreateTouches(s, idle, e.t, e.p, e.slice);
      StaysSteady(s, r, e.t);
    } else if e.Exit? {
      ExitTouches(s, idle, e.kept);
      StaysSteady(s, r, s.current);
    } else {
      SameStates(s, e);
      forall u ensures Steady(r, u) { assert Steady(s, u); }
    }
  }

  lemma {:induction false} SameStates(s: System, e: Event)
    requires Ok(s, e) && !Aimed(e) && !e.Create? && !e.Exit?
    ensures Step(s, e).stat == s.stat && Step(s, e).calls == s.calls
    ensures forall u {:trigger u in Step(s, e).defunct} :: u in Step(s, e).defunct ==> u in s.defunct
  {
  }

  lemma {:induction false} NextSteady(s: System, idle: Thread, e: Event)
    requires Inv(s, idle) && AllSteady(s) && Legal(s, idle, e) && Undisturbed(s, e)
    ensures Ok(s, e) && AllSteady(Next(s, e))
  {
    if Aimed(e) { StepSteady(s, idle, e); } else { OthersSteady(s, idle, e); }
    var m, r := Step(s, e), Next(s, e);
    forall u ensures Steady(r, u) { assert Steady(m, u); }
  }

  ghost predicate UndisturbedRun(s: System, idle: Thread, run: seq<Event>)
    requires Base(s, idle) && LegalRun(s, idle, run)
    decreases |run|
  {
    run != [] ==>
      (NextBase(s, idle, run[0]); Undisturbed(s, run[0]) && UndisturbedRun(Next(s, run[0]), idle, run[1..]))
  }

  /** So the invariant holds throughout every run in which nothing else is done to a thread
      between the parts of a call on it. */
  lemma {:induction false} UndisturbedSafe(s: System, idle: Thread, run: seq<Event>)
    requires Inv(s, idle) && AllSteady(s) && LegalRun(s, idle, run) && UndisturbedRun(s, idle, run)
    ensures SafeRun(s, idle, run) && InvThroughout(s, idle, run)
    decreases |run|
  {
    if run != [] {
      NextBase(s, idle, run[0]);
      SteadySafe(s, idle, run[0]);
      NextExactly(s, idle, run[0]);
      NextSteady(s, idle, run[0]);
      UndisturbedSafe(Next(s, run[0]), idle, run[1..]);
    }
  }

  /** The state the scheduler starts from: the idle thread alone. */
  function Initial(levels: nat, idle: Thread, slice: nat): System
    requires levels >= 1
  {
    System(map[idle := Ready], map[idle := levels - 1], map[idle := levels - 1], map[idle := slice], map[idle := slice],
           seq(levels, p => if p == levels - 1 then [idle] else []), idle, 0, [], {}, NO_CALLS)
  }

  lemma {:induction false} InitialInv(levels: nat, idle: Thread, slice: nat)
    requires 1 <= levels <= 256 && slice >= 1
    ensures Inv(Initial(levels, idle, slice), idle) && AllSteady(Initial(levels, idle, slice))
  {
  }

  /** The running thread is ready, heads its queue, and no ready thread is more urgent, apart
      from those being deleted. */
  ghost predicate MostUrgent(s: System) {
    && Member(s, Top(s.queues), s.current) && s.queues[Top(s.queues)][0] == s.current
    && s.current in s.stat && s.stat[s.current] == Ready && s.current in s.prio
    && forall t {:trigger s.prio[t]} :: t in s.stat && s.stat[t] == Ready && t !in s.calls.removed ==>
       t in s.prio && s.prio[s.current] <= s.prio[t]
  }

  lemma {:induction false} DispatchMostUrgent(s: System, idle: Thread)
    requires Inv(s, idle) && s.nest == 0
    ensures MostUrgent(Dispatch(s))
  {
    var r, p := Dispatch(s), Top(s.queues);
    assert Filed(s, idle);
    assert p < |s.queues| by { assert idle in s.queues[s.prio[idle]]; }
    var c := s.queues[p][0];
    assert c in s.queues[p] && Member(s, p, c);
    assert Filed(s, c);
    forall t | t in s.stat && s.stat[t] == Ready && t !in s.calls.removed ensures t in s.prio && p <= s.prio[t] {
      assert Filed(s, t);
      var q := s.prio[t];
      assert s.queues[q] != [];
    }
  }

  /** With the scheduler unlocked, a safe operation that reschedules leaves a most urgent ready
      thread running. */
  lemma {:induction false} ReschedulesMostUrgent(s: System, idle: Thread, e: Event)
    requires Inv(s, idle) && Legal(s, idle, e)
    requires e.Startup? || e.Timeout? || e.Exit? || e.Schedule? || e.ExitCritical?
    requires s.nest == 0 || (e.ExitCritical? && s.nest == 1)
    ensures Ok(s, e) && (Safe(s, e) ==> MostUrgent(Next(s, e)))
  {
    NextExactly(s, idle, e);
    if e.ExitCritical? {
      NestKeeps(s, idle, 0);
      DispatchMostUrgent(s.(nest := 0), idle);
    } else if Safe(s, e) {
      DispatchMostUrgent(Step(s, e), idle);
    }
  }

  // --- round robin

  ghost function Ticks(s: System, idle: Thread, n: nat): (r: System)
    requires Inv(s, idle)
    ensures Inv(r, idle)
    decreases n
  {
    if n == 0 then s else (TickKeeps(s, idle); Ticks(TickNow(s), idle, n - 1))
  }

  /** The remaining ticks of a list of threads. */
  function Sum(left: map<Thread, nat>, list: seq<Thread>): nat {
    if list == [] then 0 else Urgency(left, list[0]) + Sum(left, list[1..])
  }

  lemma {:induction false} SumOthers(left: map<Thread, nat>, list: seq<Thread>, t: Thread, n: nat)
    requires t !in list
    ensures Sum(left[t := n], list) == Sum(left, list)
  {
    if list != [] {
      assert list[0] in list;
      SumOthers(left, list[1..], t, n);
    }
  }

  function Front(s: System): seq<Thread> {
    if Top(s.queues) < |s.queues| then s.queues[Top(s.queues)] else []
  }

  lemma {:induction false} TopIs(queues: seq<seq<Thread>>, p: nat)
    requires p < |queues| && queues[p] != [] && forall q :: 0 <= q < p ==> queues[q] == []
    ensures Top(queues) == p
  {
    var t := Top(queues);
    assert t < |queues| ==> queues[t] != [];
    var x := if p < |queues| then queues[p] else [];
    assert p < t ==> x == [];
  }

  /** The running thread heads the most urgent queue and the scheduler is unlocked. */
  ghost predicate Settled(s: System) {
    s.nest == 0 && Front(s) != [] && Front(s)[0] == s.current
  }

  lemma {:induction false} FrontFacts(s: System, idle: Thread)
    requires Inv(s, idle) && Settled(s)
    ensures var q := Front(s); s.current !in q[1..] && Filed(s, s.current) && Sound(s, s.current)
    ensures s.prio[s.current] == Top(s.queues) && s.stat[s.current] == Ready
  {
    var q, p := Front(s), Top(s.queues);
    assert Member(s, p, s.current) && Filed(s, s.current) && Sound(s, s.current);
    assert Distinct(s.queues[p]);
    forall j | 0 <= j < |q[1..]| ensures q[1..][j] != q[0] { assert Differ(q[0], q[j + 1]); }
  }

  /** A tick that does not end the slice. */
  lemma {:induction false} TickRuns(s: System, idle: Thread)
    requires Inv(s, idle) && Settled(s) && s.current in s.left && s.left[s.current] > 1
    ensures Filed(s, s.current) && Sound(s, s.current)
    ensures Settled(TickNow(s)) && Front(TickNow(s)) == Front(s)
      && TickNow(s).left == s.left[s.current := s.left[s.current] - 1]
  {
    FrontFacts(s, idle);
  }

  /** A tick that ends the slice passes the processor on and files the thread last. */
  lemma {:induction false} TickRotates(s: System, idle: Thread)
    requires Inv(s, idle) && Settled(s) && s.current in s.left && s.left[s.current] == 1
    ensures Filed(s, s.current) && Sound(s, s.current)
    ensures Settled(TickNow(s)) && Front(TickNow(s)) == Front(s)[1..] + [s.current]
    ensures TickNow(s).left == s.left[s.current := s.slice[s.current]]
  {
    FrontFacts(s, idle);
    var q, p := Front(s), Top(s.queues);
    WithoutAbsent(q[1..], s.current);
    assert Without(q, s.current) == q[1..];
    var r := TickNow(s);
    var queues := if |q| > 1 then s.queues[p := q[1..] + [s.current]] else s.queues;
    assert |q| == 1 ==> q == q[1..] + [s.current];
    assert r.queues == queues;
    TopIs(queues, p);
  }

  lemma {:induction false} SumFirst(left: map<Thread, nat>, q: seq<Thread>, i: nat, n: nat)
    requires 0 < i <= |q| && q[0] !in q[1..]
    ensures Sum(left, q[..i]) == Urgency(left, q[0]) + Sum(left, q[1..i])
    ensures Sum(left[q[0] := n], q[1..i]) == Sum(left, q[1..i])
  {
    assert q[..i][1..] == q[1..i];
    assert q[0] !in q[1..i] by { assert forall x :: x in q[1..i] ==> x in q[1..]; }
    SumOthers(left, q[1..i], q[0], n);
  }

  /** A tick within a slice takes one tick off every sum that counts the running thread. */
  lemma {:induction false} TickRunsSum(s: System, idle: Thread, i: nat)
    requires Inv(s, idle) && Settled(s) && s.current in s.left && s.left[s.current] > 1 && i <= |Front(s)|
    ensures Filed(s, s.current) && Sound(s, s.current)
    ensures Sum(TickNow(s).left, Front(s)[..i]) == Sum(s.left, Front(s)[..i]) - if i > 0 then 1 else 0
  {
    FrontFacts(s, idle);
    TickRuns(s, idle);
    if i > 0 {
      SumFirst(s.left, Front(s), i, s.left[s.current] - 1);
      SumFirst(TickNow(s).left, Front(s), i, s.left[s.current]);
    }
  }

  lemma {:induction false} TickRotatesSum(s: System, idle: Thread, i: nat)
    requires Inv(s, idle) && Settled(s) && s.current in s.left && s.left[s.current] == 1 && 0 < i <= |Front(s)|
    ensures Filed(s, s.current) && Sound(s, s.current)
    ensures |Front(TickNow(s))| == |Front(s)|
    ensures Sum(TickNow(s).left, Front(TickNow(s))[..i - 1]) == Sum(s.left, Front(s)[..i]) - 1
  {
    FrontFacts(s, idle);
    TickRotates(s, idle);
    SumFirst(s.left, Front(s), i, s.slice[s.current]);
    assert Front(TickNow(s))[..i - 1] == Front(s)[1..i];
  }

  /** Tick `n` is one of those the `i`-th thread of the front queue has for itself. */
  ghost predicate Share(s: System, i: int, n: int) {
    0 <= i < |Front(s)| && Sum(s.left, Front(s)[..i]) <= n < Sum(s.left, Front(s)[..i + 1])
  }

  lemma {:induction false} ShareRuns(s: System, idle: Thread, i: nat, n: nat)
    requires Inv(s, idle) && Settled(s) && s.current in s.left && s.left[s.current] > 1 && Share(s, i, n)
    ensures Sound(s, s.current)
    ensures if n > 0 then Settled(TickNow(s)) && Front(TickNow(s)) == Front(s)
      && Share(TickNow(s), i, n - 1) else i == 0
  {
    FrontFacts(s, idle);
    TickRuns(s, idle);
    TickRunsSum(s, idle, i);
    TickRunsSum(s, idle, i + 1);
    if i > 0 { SumFirst(s.left, Front(s), i, 0); }
  }

  lemma {:induction false} ShareRotates(s: System, idle: Thread, i: nat, n: nat)
    requires Inv(s, idle) && Settled(s) && s.current in s.left && s.left[s.current] == 1 && Share(s, i, n)
    ensures Sound(s, s.current)
    ensures if i > 0 then n > 0 && Settled(TickNow(s)) && Share(TickNow(s), i - 1, n - 1)
      && Front(TickNow(s))[i - 1] == Front(s)[i]
      else n == 0
  {
    FrontFacts(s, idle);
    TickRotates(s, idle);
    TickRotatesSum(s, idle, i + 1);
    if i > 0 { TickRotatesSum(s, idle, i); } else { assert Front(TickNow(s))[..0] == []; }
  }

  /** The i-th queued thread of the top priority runs from the tick when those ahead of it have
      used up their remaining ticks, for the ticks it has left itself. */
  lemma {:induction false} RoundRobin(s: System, idle: Thread, i: nat, n: nat)
    requires Inv(s, idle) && Settled(s) && i < |Front(s)|
    requires Sum(s.left, Front(s)[..i]) <= n < Sum(s.left, Front(s)[..i + 1])
    ensures Ticks(s, idle, n).current == Front(s)[i]
    decreases n
  {
    FrontFacts(s, idle);
    TickKeeps(s, idle);
    assert Share(s, i, n);
    hide Inv, TickNow;
    if s.left[s.current] > 1 {
      ShareRuns(s, idle, i, n);
      if n > 0 { RoundRobin(TickNow(s), idle, i, n - 1); }
    } else {
      ShareRotates(s, idle, i, n);
      if i > 0 { RoundRobin(TickNow(s), idle, i - 1, n - 1); }
    }
  }

  /** So it is dispatched after the remaining ticks of those ahead of it, not later. */
  lemma {:induction false} RoundRobinBound(s: System, idle: Thread, i: nat)
    requires Inv(s, idle) && Settled(s) && i < |Front(s)|
    ensures Ticks(s, idle, Sum(s.left, Front(s)[..i])).current == Front(s)[i]
  {
    var q := Front(s);
    var t := q[i];
    assert t in q && Member(s, Top(s.queues), t);
    assert Sound(s, t);
    SumLast(s.left, q, i);
    RoundRobin(s, idle, i, Sum(s.left, q[..i]));
  }

  lemma {:induction false} SumLast(left: map<Thread, nat>, q: seq<Thread>, i: nat)
    requires i < |q|
    ensures Sum(left, q[..i + 1]) == Sum(left, q[..i]) + Urgency(left, q[i])
  {
    if i > 0 {
      SumLast(left, q[1..], i - 1);
      assert q[..i + 1][1..] == q[1..][..i] && q[..i][1..] == q[1..][..i - 1];
    } else {
      assert q[..1][1..] == [] && q[..0] == [];
    }
  }

  // --- runs with an unsafe step, on two priorities with thread 1 at the more urgent one

  ghost predicate Steps(s: System, e: Event, r: System) { Legal(s, 0, e) && Ok(s, e) && Next(s, e) == r }

  lemma {:induction false} RunAgain(s: System, e: Event, r: System, es: seq<Event>)
    requires Base(s, 0) && Steps(s, e, r) && Base(r, 0) && LegalRun(r, 0, es)
    ensures LegalRun(s, 0, [e] + es) && After(s, 0, [e] + es) == After(r, 0, es)
  {
    hide Base, Legal, Ok, Next;
    assert ([e] + es)[1..] == es;
  }

  lemma {:induction false} StepBase(s: System, e: Event, r: System)
    requires Base(s, 0) && Steps(s, e, r)
    ensures Base(r, 0)
  {
    NextBase(s, 0, e);
  }

  /** States that follow each other make a run. */
  lemma {:induction false} Follow(es: seq<Event>, ss: seq<System>, k: nat)
    requires |ss| == |es| + 1 && k <= |es| && Base(ss[k], 0)
    requires forall i {:trigger ss[i]} :: 0 <= i < |es| ==> Steps(ss[i], es[i], ss[i + 1])
    ensures LegalRun(ss[k], 0, es[k..]) && After(ss[k], 0, es[k..]) == ss[|es|]
    decreases |es| - k
  {
    hide Base, Legal, Ok, Next, Steps;
    if k == |es| {
      assert es[k..] == [];
    } else {
      var s, r := ss[k], ss[k + 1];
      assert Steps(s, es[k], r);
      StepBase(s, es[k], r);
      Follow(es, ss, k + 1);
      RunAgain(s, es[k], r, es[k + 1..]);
      assert [es[k]] + es[k + 1..] == es[k..];
    }
  }

  /** Thread 1 in a state, with a ready queue, and the calls in progress. */
  function With(stat: Stat, queue: seq<Thread>, current: Thread, dead: set<Thread>, calls: Calls): System {
    System(map[0 := Ready, 1 := stat], map[0 := 1, 1 := 0], map[0 := 1, 1 := 0], map[0 := 1, 1 := 1],
      map[0 := 1, 1 := 1],
           [queue, [0]], current, 0, [], dead, calls)
  }

  lemma {:induction false} WithDispatch(stat: Stat, queue: seq<Thread>, current: Thread, dead: set<Thread>,
      calls: Calls)
    ensures Dispatch(With(stat, queue, current, dead, calls)) ==
      With(stat, queue, if queue == [] then 0 else queue[0], dead, calls)
  {
    TopIs(With(stat, queue, current, dead, calls).queues, if queue == [] then 1 else 0);
  }

  lemma {:induction false} WithInsert(stat: Stat, queue: seq<Thread>, current: Thread, dead: set<Thread>, calls: Calls)
    ensures Insert(With(stat, queue, current, dead, calls), 1) == With(Ready, queue + [1], current, dead, calls)
    ensures Unlink(With(stat, queue, current, dead, calls), 1) == With(stat, Without(queue, 1), current, dead, calls)
  {
    var s := With(stat, queue, current, dead, calls);
    assert s.stat[1 := Ready] == map[0 := Ready, 1 := Ready];
    assert s.queues[0 := queue + [1]] == [queue + [1], [0]];
    assert s.queues[0 := Without(queue, 1)] == [Without(queue, 1), [0]];
  }

  lemma {:induction false} WithState(stat: Stat, to: Stat, queue: seq<Thread>, current: Thread, dead: set<Thread>,
      calls: Calls)
    ensures var s := With(stat, queue, current, dead, calls);
      s.(stat := s.stat[1 := to]) == With(to, queue, current, dead, calls)
  {
    var s := With(stat, queue, current, dead, calls);
    assert s.stat[1 := to] == map[0 := Ready, 1 := to];
  }

  /** Thread 1 is created, started and suspended. */
  const SLEEPS: seq<Event> := [Create(1, 0, 1), Startup(1), Suspend(1), Schedule]

  function Sleeping(k: nat): System {
    if k == 0 then Initial(2, 0, 1)
    else if k == 1 then With(Init, [], 0, {}, NO_CALLS)
    else if k == 2 then With(Ready, [1], 1, {}, NO_CALLS)
    else if k == 3 then With(Suspended, [], 1, {}, NO_CALLS)
    else With(Suspended, [], 0, {}, NO_CALLS)
  }

  lemma {:induction false} CreateFirst()
    ensures Steps(Sleeping(0), SLEEPS[0], Sleeping(1))
  {
    var s := Sleeping(0);
    assert s.queues == [[], [0]];
    assert s.stat[1 := Init] == map[0 := Ready, 1 := Init] && s.prio[1 := 0] == map[0 := 1, 1 := 0];
    assert s.slice[1 := 1] == map[0 := 1, 1 := 1] && s.dead - {1} == {};
  }

  lemma {:induction false} SleepingStep(k: nat)
    requires k < 4
    ensures Steps(Sleeping(k), SLEEPS[k], Sleeping(k + 1))
  {
    if k == 0 {
      CreateFirst();
    } else if k == 1 {
      assert Sleeping(k).prio[1 := 0] == Sleeping(k).prio;
      WithInsert(Init, [], 0, {}, NO_CALLS);
      WithDispatch(Ready, [1], 0, {}, NO_CALLS);
      assert [] + [1] == [1];
    } else if k == 2 {
      WithInsert(Ready, [1], 1, {}, NO_CALLS);
      assert Without([1], 1) == [] by { assert [1][1..] == []; }
      WithState(Ready, Suspended, [], 1, {}, NO_CALLS);
    } else {
      WithDispatch(Suspended, [], 1, {}, NO_CALLS);
    }
  }

  /** Thread 1 is deleted while it sleeps, and its timeout comes after the first section. */
  const DELETES: seq<Event> := SLEEPS + [DeleteRemove(1), Timeout(1), DeleteClose(1)]

  function Deleting(k: nat): System {
    if k <= 4 then Sleeping(k)
    else if k == 5 then With(Suspended, [], 0, {}, NO_CALLS.(removed := multiset{1}))
    else if k == 6 then With(Ready, [1], 1, {}, NO_CALLS.(removed := multiset{1}))
    else With(Closed, [1], 1, {1}, NO_CALLS.(closing := multiset{1}))
  }

  lemma {:induction false} DeletingStep(k: nat)
    requires 4 <= k < 7
    ensures Steps(Deleting(k), DELETES[k], Deleting(k + 1))
  {
    if k == 4 {
      WithInsert(Suspended, [], 0, {}, NO_CALLS);
    } else if k == 5 {
      var c := NO_CALLS.(removed := multiset{1});
      WithInsert(Suspended, [], 0, {}, c);
      WithDispatch(Ready, [1], 0, {}, c);
      assert [] + [1] == [1];
    } else {
      WithState(Ready, Closed, [1], 1, {}, NO_CALLS.(removed := multiset{1}));
      assert {} + {1} == {1};
    }
  }

  /** The run ends with a closed thread in a ready queue. */
  lemma {:induction false} DeleteInterrupted(es: seq<Event>, s: System)
    requires es == DELETES && s == Deleting(7)
    ensures Base(Initial(2, 0, 1), 0) && LegalRun(Initial(2, 0, 1), 0, es) && After(Initial(2, 0, 1), 0, es) == s
    ensures s.stat[1] == Closed && Member(s, 0, 1) && !ReadyIffQueued(s) && !Right(s)
  {
    InitialInv(2, 0, 1);
    assert Member(s, 0, 1) && !Filed(s, 1) && |es| == 7 && s.stat[1] == Closed;
    assert Deleting(0) == Initial(2, 0, 1) && (forall k: nat :: k <= 4 ==> Deleting(k) == Sleeping(k));
    assert forall k :: 0 <= k < 4 ==> es[k] == SLEEPS[k];
    assert !ReadyIffQueued(s) && !Right(s);
    hide *;
    var ss := seq(8, k requires 0 <= k < 8 => Deleting(k));
    forall k | 0 <= k < 7 ensures Steps(ss[k], es[k], ss[k + 1]) {
      if k < 4 { SleepingStep(k); } else { DeletingStep(k); }
    }
    assert es[0..] == es && ss[7] == s;
    Follow(es, ss, 0);
  }

  /** Two calls that resume thread 1 both pass the test of its state. */
  const RESUMES: seq<Event> :=
    SLEEPS + [ResumeTest(1), ResumeTest(1), ResumeUnlink(1), ResumeUnlink(1), ResumeInsert(1), ResumeInsert(1)]

  function Resuming(k: nat): System {
    if k <= 4 then Sleeping(k)
    else if k == 5 then With(Suspended, [], 0, {}, NO_CALLS.(passed := multiset{1}))
    else if k == 6 then With(Suspended, [], 0, {}, NO_CALLS.(passed := multiset{1, 1}))
    else if k == 7 then With(Suspended, [], 0, {}, NO_CALLS.(passed := multiset{1}, unlinked := multiset{1}))
    else if k == 8 then With(Suspended, [], 0, {}, NO_CALLS.(unlinked := multiset{1, 1}))
    else if k == 9 then With(Ready, [1], 0, {}, NO_CALLS.(unlinked := multiset{1}))
    else With(Ready, [1, 1], 0, {}, NO_CALLS)
  }

  lemma {:induction false} ResumingFirst(k: nat)
    requires 4 <= k < 8
    ensures Steps(Resuming(k), RESUMES[k], Resuming(k + 1))
  {
    if k >= 6 { WithInsert(Suspended, [], 0, {}, Resuming(k).calls); }
  }

  lemma {:induction false} ResumingSecond(k: nat)
    requires 8 <= k < 10
    ensures Steps(Resuming(k), RESUMES[k], Resuming(k + 1))
  {
    var s := Resuming(k);
    WithInsert(s.stat[1], s.queues[0], 0, {}, s.calls);
    assert [] + [1] == [1] && [1] + [1] == [1, 1];
  }

  /** The run ends with the thread in the queue twice. */
  lemma {:induction false} ResumedTwice(es: seq<Event>, s: System)
    requires es == RESUMES && s == Resuming(10)
    ensures Base(Initial(2, 0, 1), 0) && LegalRun(Initial(2, 0, 1), 0, es) && After(Initial(2, 0, 1), 0, es) == s
    ensures |s.queues| > 0 && s.queues[0] == [1, 1] && !ReadyIffQueued(s) && !Right(s)
  {
    InitialInv(2, 0, 1);
    assert s.queues[0] == [1, 1] && !Differ(s.queues[0][0], s.queues[0][1]) && |es| == 10;
    assert !Distinct(s.queues[0]);
    assert Resuming(0) == Initial(2, 0, 1) && (forall k: nat :: k <= 4 ==> Resuming(k) == Sleeping(k));
    assert forall k :: 0 <= k < 4 ==> es[k] == SLEEPS[k];
    assert !ReadyIffQueued(s) && !Right(s);
    hide *;
    var ss := seq(11, k requires 0 <= k < 11 => Resuming(k));
    forall k | 0 <= k < 10 ensures Steps(ss[k], es[k], ss[k + 1]) {
      if k < 4 { SleepingStep(k); } else if k < 8 { ResumingFirst(k); } else { ResumingSecond(k); }
    }
    assert es[0..] == es && ss[10] == s;
    Follow(es, ss, 0);
  }
}
