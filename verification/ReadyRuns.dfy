/** When a thread is ready exactly while it is queued, over every run of the scheduler, with calls
    interrupted by others in any way. */
module ReadyRuns {
  import opened IpcList
  import opened Lists
  import opened SchedulerSpec

  /** A part of an interrupted start, resumption or deletion that is carried out on a thread that
      is ready: its state is set, it is taken off its queue, or it is inserted once more. */
  predicate Strikes(s: System, e: Event) {
    && (e.StartupSet? || e.ResumeUnlink? || e.ResumeInsert? || e.DeleteRemove? || e.DeleteClose?)
    && e.t in s.stat && s.stat[e.t] == Ready
  }

  /** The thread is queued as it should be. */
  ghost predicate Placed(s: System, t: Thread) {
    && t in s.stat && t in s.prio && s.prio[t] < |s.queues|
    && forall p {:trigger Member(s, p, t)} :: Member(s, p, t) <==> s.stat[t] == Ready && p == s.prio[t]
  }

  lemma {:induction false} ReadyPlaced(s: System, idle: Thread, t: Thread)
    requires Base(s, idle) && ReadyIffQueued(s) && t in s.stat
    ensures Sound(s, t) && Placed(s, t) && AllDistinct(s.queues)
    ensures t in s.queues[s.prio[t]] <==> s.stat[t] == Ready
  {
    assert Sound(s, t);
    assert Member(s, s.prio[t], t) <==> t in s.queues[s.prio[t]];
  }

  lemma {:induction false} TouchedReady(s: System, r: System, t: Thread)
    requires ReadyIffQueued(s) && Touches(s, r, t) && t in r.prio && r.prio[t] < |r.queues|
    ensures ReadyIffQueued(r) <==> AllDistinct(r.queues) && Placed(r, t)
  {
    if AllDistinct(r.queues) && Placed(r, t) {
      forall u, p | u in r.stat ensures Member(r, p, u) <==> r.stat[u] == Ready && u in r.prio && p == r.prio[u] {
        if u != t { assert Same(s, r, u) && SamePlace(s, r, p, u); }
      }
    }
  }

  /** The same queues, states and priorities. */
  lemma {:induction false} SameReady(s: System, r: System)
    requires r.stat == s.stat && r.prio == s.prio && |r.queues| == |s.queues|
    requires forall p, u {:trigger Member(r, p, u)} :: Member(r, p, u) <==> Member(s, p, u)
    requires ReadyIffQueued(s) && AllDistinct(r.queues)
    ensures ReadyIffQueued(r)
  {
  }

  lemma {:induction false} DispatchReady(s: System)
    ensures ReadyIffQueued(Dispatch(s)) <==> ReadyIffQueued(s)
  {
    var r := Dispatch(s);
    forall p, u ensures Member(r, p, u) <==> Member(s, p, u) {}
    if ReadyIffQueued(s) { SameReady(s, r); }
    if ReadyIffQueued(r) { SameReady(r, s); }
  }

  // --- the steps on one thread

  /** A queue loses the thread, or gets it at its end. */
  lemma {:induction false} UnlinkPlaces(s: System, t: Thread)
    requires Placed(s, t) && AllDistinct(s.queues)
    ensures AllDistinct(Unlink(s, t).queues)
    ensures forall p {:trigger Member(Unlink(s, t), p, t)} :: !Member(Unlink(s, t), p, t)
  {
    var r := Unlink(s, t);
    WithoutDistinct(s.queues[s.prio[t]], t);
    forall p ensures !Member(r, p, t) { assert Member(r, p, t) ==> Member(s, p, t); }
  }

  lemma {:induction false} InsertPlaces(s: System, t: Thread)
    requires AllDistinct(s.queues) && t in s.prio && s.prio[t] < |s.queues|
    requires forall p {:trigger Member(s, p, t)} :: Member(s, p, t) ==> p == s.prio[t]
    ensures AllDistinct(Insert(s, t).queues) <==> !Member(s, s.prio[t], t)
    ensures Placed(Insert(s, t), t)
  {
    var r, q := Insert(s, t), s.queues[s.prio[t]];
    AppendDistinct(q, t);
    forall p ensures Member(r, p, t) <==> p == r.prio[t] {
      assert p != s.prio[t] ==> (Member(r, p, t) <==> Member(s, p, t));
    }
    if AllDistinct(r.queues) { assert Distinct(r.queues[s.prio[t]]); }
  }

  lemma {:induction false} StartsPlaced(s: System, idle: Thread, t: Thread)
    requires Base(s, idle) && ReadyIffQueued(s) && t in s.stat && s.stat[t] == Init
    ensures Sound(s, t) && var r := Step(s, Startup(t)); AllDistinct(r.queues) && Placed(r, t)
  {
    ReadyPlaced(s, idle, t);
    assert Sound(s, s.current);
    var m := s.(prio := s.prio[t := s.initial[t]]);
    forall p ensures !Member(m, p, t) { assert Member(m, p, t) <==> Member(s, p, t); }
    UnlinkPlaces(m, t);
    InsertPlaces(Unlink(m, t), t);
  }

  lemma {:induction false} MovesReady(s: System, idle: Thread, e: Event)
    requires Base(s, idle) && ReadyIffQueued(s) && Legal(s, idle, e) && Moves(e) && !e.Startup? && !e.ChangePriority?
    ensures Ok(s, e) && (AllDistinct(Step(s, e).queues) && Placed(Step(s, e), e.t) <==> !Strikes(s, e))
  {
    LegalOk(s, idle, e);
    var r, t := Step(s, e), e.t;
    ReadyPlaced(s, idle, t);
    UnlinkPlaces(s, t);
    InsertPlaces(Unlink(s, t), t);
    InsertPlaces(s, t);
    if e.ResumeInsert? {
      MemberOf(Insert(s, t), r, t);
    } else if e.Resume? || e.Timeout? {
      MemberOf(if s.stat[t] == Suspended then Insert(Unlink(s, t), t) else s, r, t);
    } else {
      MemberOf(if e.Suspend? && s.stat[t] != Ready then s else Unlink(s, t), r, t);
      assert Member(r, r.prio[t], t) <==> t in r.queues[r.prio[t]];
    }
  }

  lemma {:induction false} MemberOf(s: System, r: System, t: Thread)
    requires r.queues == s.queues
    ensures forall p {:trigger Member(r, p, t)} {:trigger Member(s, p, t)} :: Member(r, p, t) <==> Member(s, p, t)
  {
  }

  lemma {:induction false} ChangesReady(s: System, idle: Thread, t: Thread, p: nat)
    requires Base(s, idle) && ReadyIffQueued(s) && Legal(s, idle, ChangePriority(t, p))
    ensures Ok(s, ChangePriority(t, p))
    ensures var r := Step(s, ChangePriority(t, p)); AllDistinct(r.queues) && Placed(r, t)
  {
    LegalOk(s, idle, ChangePriority(t, p));
    var r := Step(s, ChangePriority(t, p));
    ReadyPlaced(s, idle, t);
    UnlinkPlaces(s, t);
    if s.stat[t] == Ready {
      var m := Remove(s, t, Ready).(prio := s.prio[t := p]);
      MemberOf(Unlink(s, t), m, t);
      InsertPlaces(m, t);
    } else {
      MemberOf(s, r, t);
    }
  }

  lemma {:induction false} QuietReady(s: System, idle: Thread, e: Event)
    requires Base(s, idle) && ReadyIffQueued(s) && Legal(s, idle, e) && Aimed(e) && !Moves(e)
    ensures Ok(s, e) && (AllDistinct(Step(s, e).queues) && Placed(Step(s, e), e.t) <==> !Strikes(s, e))
  {
    LegalOk(s, idle, e);
    var r, t := Step(s, e), e.t;
    ReadyPlaced(s, idle, t);
    MemberOf(s, r, t);
    assert Member(r, s.prio[t], t) <==> Member(s, s.prio[t], t);
  }

  // --- the other steps

  lemma {:induction false} ExitReady(s: System, idle: Thread, kept: bool)
    requires Base(s, idle) && ReadyIffQueued(s) && Legal(s, idle, Exit(kept))
    ensures Ok(s, Exit(kept)) && ReadyIffQueued(Step(s, Exit(kept)))
  {
    var t := s.current;
    ExitTouches(s, idle, kept);
    var r := Step(s, Exit(kept));
    ReadyPlaced(s, idle, t);
    UnlinkPlaces(s, t);
    MemberOf(Unlink(s, t), r, t);
    TouchedReady(s, r, t);
  }

  lemma {:induction false} CreateReady(s: System, idle: Thread, t: Thread, p: nat, slice: nat)
    requires Base(s, idle) && ReadyIffQueued(s) && Legal(s, idle, Create(t, p, slice))
    ensures Ok(s, Create(t, p, slice)) && ReadyIffQueued(Step(s, Create(t, p, slice)))
  {
    CreateTouches(s, idle, t, p, slice);
    var r := Step(s, Create(t, p, slice));
    MemberOf(s, r, t);
    forall q ensures !Member(s, q, t) { assert Member(s, q, t) ==> t in s.stat; }
    TouchedReady(s, r, t);
  }

  lemma {:induction false} YieldReady(s: System, idle: Thread)
    requires Base(s, idle) && ReadyIffQueued(s)
    ensures Sound(s, s.current) && ReadyIffQueued(YieldNow(s))
  {
    var t := s.current;
    ReadyPlaced(s, idle, t);
    var q, r := s.queues[s.prio[t]], Rotated(s, t);
    if s.stat[t] == Ready && t in q && |q| > 1 {
      WithoutDistinct(q, t);
      AppendDistinct(Without(q, t), t);
      forall p, u ensures Member(r, p, u) <==> Member(s, p, u) {}
      SameReady(s, r);
      DispatchReady(r);
    }
  }

  lemma {:induction false} TickReady(s: System, idle: Thread)
    requires Base(s, idle) && ReadyIffQueued(s)
    ensures Sound(s, s.current) && ReadyIffQueued(TickNow(s))
  {
    assert Sound(s, s.current);
    var t := s.current;
    var r := s.(left := s.left[t := if s.left[t] == 1 then s.slice[t] else s.left[t] - 1]);
    forall p, u ensures Member(r, p, u) <==> Member(s, p, u) {}
    SameReady(s, r);
    ReorderedKeeps(s, r, idle);
    YieldReady(r, idle);
  }

  lemma {:induction false} OthersReady(s: System, idle: Thread, e: Event)
    requires Base(s, idle) && ReadyIffQueued(s) && Legal(s, idle, e) && !Aimed(e)
    ensures Ok(s, e) && ReadyIffQueued(Step(s, e))
  {
    LegalOk(s, idle, e);
    var r := Step(s, e);
    if e.Create? {
      CreateReady(s, idle, e.t, e.p, e.slice);
    } else if e.Exit? {
      ExitReady(s, idle, e.kept);
    } else if e.Yield? {
      YieldReady(s, idle);
    } else if e.Tick? {
      TickReady(s, idle);
    } else {
      forall p, u ensures Member(r, p, u) <==> Member(s, p, u) {}
      SameReady(s, r);
    }
  }

  /** A step keeps it exactly when it does not strike a ready thread. */
  lemma {:induction false} NextReady(s: System, idle: Thread, e: Event)
    requires Base(s, idle) && ReadyIffQueued(s) && Legal(s, idle, e)
    ensures Ok(s, e) && (ReadyIffQueued(Next(s, e)) <==> !Strikes(s, e))
  {
    LegalOk(s, idle, e);
    var r := Step(s, e);
    if Aimed(e) {
      AimedTouches(s, idle, e);
      TouchedReady(s, r, e.t);
      if e.Startup? { StartsPlaced(s, idle, e.t); }
      else if e.ChangePriority? { ChangesReady(s, idle, e.t, e.p); }
      else if Moves(e) { MovesReady(s, idle, e); }
      else { QuietReady(s, idle, e); }
    } else {
      OthersReady(s, idle, e);
    }
    DispatchReady(r);
  }

  ghost predicate ReadyThroughout(s: System, idle: Thread, run: seq<Event>)
    requires Base(s, idle) && LegalRun(s, idle, run)
    decreases |run|
  {
    ReadyIffQueued(s) && (run != [] ==> (NextBase(s, idle, run[0]); ReadyThroughout(Next(s, run[0]), idle, run[1..])))
  }

  ghost predicate NeverStrikes(s: System, idle: Thread, run: seq<Event>)
    requires Base(s, idle) && LegalRun(s, idle, run)
    decreases |run|
  {
    run != [] ==>
      (NextBase(s, idle, run[0]); !Strikes(s, run[0]) && NeverStrikes(Next(s, run[0]), idle, run[1..]))
  }

  /** A thread is ready exactly while it is queued, once, throughout a run, whatever calls
      overlap, exactly when no part of an interrupted start, resumption or deletion is carried out
      on a ready thread. */
  lemma {:induction false} ReadyOverRuns(s: System, idle: Thread, run: seq<Event>)
    requires Base(s, idle) && ReadyIffQueued(s) && LegalRun(s, idle, run)
    ensures ReadyThroughout(s, idle, run) <==> NeverStrikes(s, idle, run)
    decreases |run|
  {
    if run != [] {
      NextBase(s, idle, run[0]);
      NextReady(s, idle, run[0]);
      if ReadyIffQueued(Next(s, run[0])) { ReadyOverRuns(Next(s, run[0]), idle, run[1..]); }
    }
  }

  /** From the initial state on. */
  lemma {:induction false} EveryRunReady(levels: nat, idle: Thread, slice: nat, run: seq<Event>)
    requires 1 <= levels <= 256 && slice >= 1
    ensures Base(Initial(levels, idle, slice), idle)
    ensures LegalRun(Initial(levels, idle, slice), idle, run) ==>
      (ReadyThroughout(Initial(levels, idle, slice), idle, run) <==>
        NeverStrikes(Initial(levels, idle, slice), idle, run))
  {
    var s := Initial(levels, idle, slice);
    InitialInv(levels, idle, slice);
    ReadyExactly(s, idle);
    if LegalRun(s, idle, run) { ReadyOverRuns(s, idle, run); }
  }
}
