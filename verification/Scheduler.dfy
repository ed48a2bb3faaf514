/** The scheduler with its bitmap index, one level for up to 32 priorities and two above. */
module Scheduler {
  import opened Bits
  import opened IpcList
  import opened ReadyIndex
  import opened SchedulerSpec

  /** The thread carries the masks of its current priority. */
  predicate Masked(masks: map<Thread, Masks>, two: bool, prio: map<Thread, nat>, t: Thread) {
    t in masks && t in prio && masks[t] == MasksOf(two, prio[t])
  }

  /** Some masks, which select a byte of the table; a ready or suspended thread has been marked. */
  predicate Tracked(stat: map<Thread, Stat>, masks: map<Thread, Masks>, two: bool, marked: set<Thread>, t: Thread) {
    && t in stat && t in masks && (two ==> masks[t].number < 32)
    && (stat[t] == Ready || stat[t] == Suspended ==> t in marked)
  }

  ghost predicate AllMasked(masks: map<Thread, Masks>, two: bool, prio: map<Thread, nat>, marked: set<Thread>) {
    forall t {:trigger Masked(masks, two, prio, t)} :: t in marked ==> Masked(masks, two, prio, t)
  }

  ghost predicate AllTracked(stat: map<Thread, Stat>, masks: map<Thread, Masks>, two: bool, marked: set<Thread>) {
    forall t {:trigger Tracked(stat, masks, two, marked, t)} :: t in stat ==> Tracked(stat, masks, two, marked, t)
  }

  /** A new thread keeps the masks its memory held. */
  lemma {:induction false} CreateMasks(masks: map<Thread, Masks>, two: bool, prio: map<Thread, nat>,
      stat: map<Thread, Stat>,
                                       marked: set<Thread>, t: Thread, p: nat, raw: Masks)
    requires AllMasked(masks, two, prio, marked) && AllTracked(stat, masks, two, marked) && (two ==> raw.number < 32)
    ensures var m := if t in stat then masks else masks[t := raw];
      AllMasked(m, two, prio[t := p], marked - {t}) && AllTracked(stat[t := Init], m, two, marked - {t})
  {
    var m, prio2, stat2, marked2 := if t in stat then masks
      else masks[t := raw], prio[t := p], stat[t := Init], marked - {t};
    forall u | u in marked2 ensures Masked(m, two, prio2, u) { assert Masked(masks, two, prio, u); }
    forall u | u in stat2 ensures Tracked(stat2, m, two, marked2, u) {
      assert u in stat ==> Tracked(stat, masks, two, marked, u);
    }
  }

  lemma {:induction false} StatTracked(masks: map<Thread, Masks>, two: bool, stat: map<Thread, Stat>,
      marked: set<Thread>, t: Thread, to: Stat)
    requires AllTracked(stat, masks, two, marked) && t in stat && (to == Ready || to == Suspended ==> t in marked)
    ensures AllTracked(stat[t := to], masks, two, marked)
  {
    var stat2 := stat[t := to];
    forall u | u in stat2 ensures Tracked(stat2, masks, two, marked, u) { assert Tracked(stat, masks, two, marked, u); }
  }

  /** What rt_schedule_remove_thread does to the index: the masks go when the queue of the
      thread's priority is empty. */
  function RemovedIndex(x: Index, two: bool, queues: seq<seq<nat>>, p: nat, m: Masks): Index
    requires two ==> m.number < |x.table|
  {
    if Busy(queues, p) then x else Unmark(x, two, m)
  }

  /** Removing a thread of priority `p` that is in no queue, with whatever masks it has, keeps
      the index exactly when somebody is ready at `p` or no busy priority is in the masks. */
  lemma {:induction false} RemovedAgrees(x: Index, two: bool, queues: seq<seq<nat>>, p: nat, m: Masks)
    requires Agrees(x, two, queues) && |queues| <= (if two then 256 else 32) && (two ==> m.number < 32)
    ensures Agrees(RemovedIndex(x, two, queues, p, m), two, queues) <==> Busy(queues, p) || Harmless(queues, two, m)
  {
    if Harmless(queues, two, m) { UnmarkHarmless(x, two, queues, m); } else { UnmarkHarms(x, two, queues, m); }
  }

  lemma {:induction false} EmptyAgrees(two: bool, queues: seq<seq<nat>>)
    requires forall q :: 0 <= q < |queues| ==> queues[q] == []
    ensures Agrees(Index(0, seq(32, n => 0)), two, queues)
  {
    var x := Index(0, seq(32, n => 0));
    forall n: nat ensures !Bit(0, n) { ZeroHasNoBits(n); }
    forall p: nat | p < (if two then 256 else 32) ensures Recorded(x, two, p) <==> Busy(queues, p) {}
  }

  /** A cleared index with the lowest priority recorded. */
  function FirstIndex(levels: nat): Index
    requires 1 <= levels <= 256
  {
    Mark(Index(0, seq(32, n => 0)), levels > 32, MasksOf(levels > 32, levels - 1))
  }

  lemma {:induction false} FirstIndexAgrees(levels: nat, idle: Thread, ticks: nat)
    requires 1 <= levels <= 256
    ensures Agrees(FirstIndex(levels), levels > 32, Initial(levels, idle, ticks).queues)
  {
    var empty: seq<seq<nat>> := seq(levels, p => []);
    EmptyAgrees(levels > 32, empty);
    MarkAgrees(Index(0, seq(32, n => 0)), levels > 32, levels - 1, empty, Initial(levels, idle, ticks).queues);
  }

  /** A thread with a call in progress that needs its masks has them. */
  ghost predicate CallsMarked(calls: Calls, marked: set<Thread>) {
    forall t {:trigger t in marked} :: t in calls.suspending || t in calls.passed || t in calls.unlinked ==> t in marked
  }

  class Scheduler {
    const two: bool
    ghost const idle: Thread
    var stat: map<Thread, Stat>
    var prio: map<Thread, nat>
    var initial: map<Thread, nat>
    var slice: map<Thread, nat>
    var left: map<Thread, nat>
    var masks: map<Thread, Masks>
    var queues: seq<seq<Thread>>
    var index: Index
    var current: Thread
    var nest: int
    var defunct: seq<Thread>
    /** The threads whose masks were computed from their priority. */
    ghost var marked: set<Thread>
    ghost var dead: set<Thread>
    ghost var calls: Calls

    ghost function State(): System
      reads this
    {
      System(stat, prio, initial, slice, left, queues, current, nest, defunct, dead, calls)
    }

    ghost predicate Indexed()
      reads this
    {
      |queues| <= (if two then 256 else 32) && Agrees(index, two, queues)
    }

    /** The index and the masks are right. */
    ghost predicate Marked()
      reads this
    {
      && Indexed() && AllMasked(masks, two, prio, marked) && AllTracked(stat, masks, two, marked)
      && CallsMarked(calls, marked)
    }

    ghost predicate Valid()
      reads this
    {
      Inv(State(), idle) && Marked() && current in marked
    }

    /** rt_system_scheduler_init, with the idle thread started. */
    constructor (levels: nat, idle: Thread, ticks: nat)
      requires 1 <= levels <= 256 && ticks >= 1
      ensures Valid() && this.idle == idle && two == (levels > 32) && State() == Initial(levels, idle, ticks)
    {
      two, this.idle := levels > 32, idle;
      var first := Initial(levels, idle, ticks);
      stat, prio, initial, slice, left := first.stat, first.prio, first.initial, first.slice, first.left;
      queues, current, nest := first.queues, first.current, first.nest;
      defunct, dead, calls := [], {}, NO_CALLS;
      masks, marked := map[idle := MasksOf(levels > 32, levels - 1)], {idle};
      index := FirstIndex(levels);
      new;
      InitialInv(levels, idle, ticks);
      FirstIndexAgrees(levels, idle, ticks);
      assert Masked(masks, two, prio, idle);
      assert AllTracked(stat, masks, two, marked);
    }

    /** rt_schedule_insert_thread */
    method InsertThread(t: Thread)
      requires t in prio && prio[t] < |queues| && Masked(masks, two, prio, t) && Indexed()
      modifies `stat, `queues, `index
      ensures State() == Insert(old(State()), t) && Indexed()
    {
      stat := stat[t := Ready];
      queues := queues[prio[t] := queues[prio[t]] + [t]];
      MarkAgrees(index, two, prio[t], old(queues), queues);
      index := Mark(index, two, masks[t]);
    }

    /** rt_list_remove on the list node of a thread. */
    method UnlinkThread(t: Thread)
      requires t in prio && prio[t] < |queues|
      modifies `queues, `defunct
      ensures State() == Unlink(old(State()), t)
      ensures t !in old(queues)[prio[t]] ==> queues == old(queues)
    {
      WithoutAbsentOr(queues[prio[t]], t);
      queues := queues[prio[t] := Without(queues[prio[t]], t)];
      defunct := Without(defunct, t);
    }

    /** rt_schedule_remove_thread. The index stays right exactly when the queue is not empty or
        the masks hold no busy priority. */
    method RemoveThread(t: Thread)
      requires t in prio && prio[t] < |queues| && t in masks && (two ==> masks[t].number < 32) && Indexed()
      requires t in queues[prio[t]] ==> Masked(masks, two, prio, t)
      modifies `queues, `index, `defunct
      ensures State() == Unlink(old(State()), t)
      ensures Indexed() <==> Busy(queues, prio[t]) || Harmless(queues, two, masks[t])
      ensures Masked(masks, two, prio, t) ==> Indexed()
    {
      UnlinkThread(t);
      if queues[prio[t]] == [] {
        if t in old(queues)[prio[t]] {
          UnmarkAgrees(index, two, prio[t], old(queues), queues);
        } else {
          RemovedAgrees(index, two, queues, prio[t], masks[t]);
        }
        OwnHarmless(queues, two, prio[t]);
        index := Unmark(index, two, masks[t]);
      } else {
        SameBusy(index, two, old(queues), queues);
      }
    }

    /** rt_schedule: the head of the queue the bitmap search finds. */
    method Schedule()
      requires Base(State(), idle) && Marked()
      modifies `current
      ensures State() == Dispatch(old(State())) && Marked()
      ensures Inv(old(State()), idle) && old(current) in marked ==> current in marked
    {
      if nest == 0 {
        HighestIsTop(index, two, queues, prio[idle]);
        var p := Highest(index, two);
        forall q | 0 <= q < p ensures queues[q] == [] { assert !Busy(queues, q); }
        TopIs(queues, p);
        current := queues[p][0];
        assert Member(old(State()), p, current);
        assert Filed(old(State()), current) || !Inv(old(State()), idle);
        assert Tracked(stat, masks, two, marked, current);
      }
    }

    /** The priority of a thread and the masks computed from it. */
    method SetPriority(t: Thread, p: nat)
      requires AllMasked(masks, two, prio, marked) && AllTracked(stat, masks, two, marked)
        && p < (if two then 256 else 32)
      modifies `prio, `masks, `marked
      ensures prio == old(prio)[t := p] && masks == old(masks)[t := MasksOf(two, p)] && marked == old(marked) + {t}
      ensures AllMasked(masks, two, prio, marked) && AllTracked(stat, masks, two, marked)
      ensures Masked(masks, two, prio, t)
    {
      prio := prio[t := p];
      masks := masks[t := MasksOf(two, p)];
      marked := marked + {t};
      forall u | u in marked ensures Masked(masks, two, prio, u) {
        assert u != t ==> Masked(old(masks), two, old(prio), u);
      }
      forall u | u in stat ensures Tracked(stat, masks, two, marked, u) {
        assert Tracked(stat, old(masks), two, old(marked), u);
      }
    }

    /** _rt_thread_init leaves the masks: `raw` is what the memory of a new thread holds. */
    method Create(t: Thread, p: nat, ticks: nat, raw: Masks)
      requires Valid() && Legal(State(), idle, Event.Create(t, p, ticks)) && (two ==> raw.number < 32)
      modifies this
      ensures Valid() && Ok(old(State()), Event.Create(t, p, ticks))
        && State() == Next(old(State()), Event.Create(t, p, ticks))
      ensures masks == if t in old(stat) then old(masks) else old(masks)[t := raw]
    {
      hide Inv, Agrees, AllMasked, AllTracked, Legal, Ok, Next, MasksOf;
      CreatedInv(State(), idle, t, p, ticks);
      CreateMasks(masks, two, prio, stat, marked, t, p, raw);
      if t !in stat { masks := masks[t := raw]; }
      marked := marked - {t};
      SetFields(t, p, ticks);
    }

    method SetFields(t: Thread, p: nat, ticks: nat)
      modifies `initial, `prio, `slice, `left, `stat, `dead
      ensures State() == Created(old(State()), t, p, ticks)
    {
      initial, prio := initial[t := p], prio[t := p];
      slice, left := slice[t := ticks], left[t := ticks];
      stat := stat[t := Init];
      dead := dead - {t};
    }

    /** A state that is set, at the end of the part of a call that leaves `now`. */
    method SetStat(t: Thread, to: Stat, ghost now: Calls)
      requires AllTracked(stat, masks, two, marked) && t in stat && (to == Ready || to == Suspended ==> t in marked)
      modifies `stat, `calls
      ensures stat == old(stat)[t := to] && calls == now && AllTracked(stat, masks, two, marked)
    {
      StatTracked(masks, two, stat, marked, t, to);
      stat := stat[t := to];
      calls := now;
    }

    /** A thread is closed, and put on the defunct list if it is kept there. */
    method Close(t: Thread, kept: bool, ghost now: Calls)
      requires AllTracked(stat, masks, two, marked) && t in stat
      modifies `stat, `dead, `defunct, `calls
      ensures State() == Buried(old(State()).(stat := old(stat)[t := Closed], calls := now), t, kept)
      ensures AllTracked(stat, masks, two, marked)
    {
      StatTracked(masks, two, stat, marked, t, Closed);
      stat := stat[t := Closed];
      dead := dead + {t};
      if kept { defunct := [t] + defunct; }
      calls := now;
    }

    // --- calls with interrupts disabled by the caller, in one step

    /** rt_thread_startup */
    method Startup(t: Thread)
      requires Valid() && Legal(State(), idle, Event.Startup(t))
      modifies this
      ensures Ok(old(State()), Event.Startup(t)) && State() == Next(old(State()), Event.Startup(t))
      ensures Valid() <==> Safe(old(State()), Event.Startup(t))
      ensures masks == old(masks)[t := MasksOf(two, prio[t])]
    {
      hide Inv, Base, Agrees, AllMasked, AllTracked, MasksOf, Top;
      StepFacts(State(), idle, Event.Startup(t));
      NotQueued(State(), idle, t, initial[t]);
      SetPriority(t, initial[t]);
      UnlinkThread(t);
      StatTracked(masks, two, stat, marked, t, Ready);
      InsertThread(t);
      Schedule();
    }

    /** rt_thread_suspend */
    method Suspend(t: Thread) returns (ok: bool)
      requires Valid() && Legal(State(), idle, Event.Suspend(t))
      modifies this
      ensures Valid() && Ok(old(State()), Event.Suspend(t)) && State() == Next(old(State()), Event.Suspend(t))
      ensures ok <==> old(stat)[t] == Ready
    {
      hide Inv, Base, Agrees, AllMasked, AllTracked, MasksOf, Top;
      StepFacts(State(), idle, Event.Suspend(t));
      MaskFacts(stat, masks, two, prio, marked, t);
      ok := stat[t] == Ready;
      if ok {
        RemoveThread(t);
        SetStat(t, Suspended, calls);
      }
    }

    /** rt_thread_resume */
    method Resume(t: Thread) returns (ok: bool)
      requires Valid() && Legal(State(), idle, Event.Resume(t))
      modifies this
      ensures Ok(old(State()), Event.Resume(t)) && State() == Next(old(State()), Event.Resume(t))
      ensures Valid() <==> Safe(old(State()), Event.Resume(t))
      ensures ok <==> old(stat)[t] == Suspended
    {
      hide Inv, Base, Agrees, AllMasked, AllTracked, MasksOf, Top;
      StepFacts(State(), idle, Event.Resume(t));
      MaskFacts(stat, masks, two, prio, marked, t);
      ok := stat[t] == Suspended;
      if ok {
        NotQueued(State(), idle, t, prio[t]);
        UnlinkThread(t);
        StatTracked(masks, two, stat, marked, t, Ready);
        InsertThread(t);
      }
    }

    /** rt_thread_timeout */
    method Timeout(t: Thread)
      requires Valid() && Legal(State(), idle, Event.Timeout(t))
      modifies this
      ensures Ok(old(State()), Event.Timeout(t)) && State() == Next(old(State()), Event.Timeout(t))
      ensures Valid() <==> Safe(old(State()), Event.Timeout(t))
    {
      hide Inv, Base, Agrees, AllMasked, AllTracked, MasksOf, Top;
      StepFacts(State(), idle, Event.Timeout(t));
      MaskFacts(stat, masks, two, prio, marked, t);
      NotQueued(State(), idle, t, prio[t]);
      UnlinkThread(t);
      StatTracked(masks, two, stat, marked, t, Ready);
      InsertThread(t);
      Schedule();
    }

    /** rt_thread_exit; `kept` says whether the thread goes on the defunct list. */
    method Exit(kept: bool)
      requires Valid() && Legal(State(), idle, Event.Exit(kept))
      modifies this
      ensures Valid() && Ok(old(State()), Event.Exit(kept)) && State() == Next(old(State()), Event.Exit(kept))
    {
      hide Inv, Base, Agrees, AllMasked, AllTracked, MasksOf, Top;
      StepFacts(State(), idle, Event.Exit(kept));
      var t := current;
      MaskFacts(stat, masks, two, prio, marked, t);
      RemoveThread(t);
      Close(t, kept, calls);
      Schedule();
    }

    /** rt_thread_delete and rt_thread_detach. The thread need not have been started: the state
        stays right exactly when somebody is ready at its priority or no busy priority is in the
        masks it has. */
    method Delete(t: Thread, kept: bool)
      requires Valid() && Legal(State(), idle, Event.Delete(t, kept))
      modifies this
      ensures Ok(old(State()), Event.Delete(t, kept)) && State() == Next(old(State()), Event.Delete(t, kept))
      ensures masks == old(masks) && t in prio && t in masks && (Valid() <==> Indexed())
      ensures Indexed() <==> Busy(queues, prio[t]) || Harmless(queues, two, masks[t])
      ensures old(stat)[t] == Ready || old(stat)[t] == Suspended ==> Valid()
    {
      hide Inv, Base, Agrees, AllMasked, AllTracked, MasksOf, Top;
      StepFacts(State(), idle, Event.Delete(t, kept));
      MaskFacts(stat, masks, two, prio, marked, t);
      FiledFacts(State(), idle, t);
      RemoveThread(t);
      Close(t, kept, calls);
    }

    // --- the parts of calls that run with interrupts enabled in between

    /** rt_thread_startup: the test of the state. */
    method StartupTest(t: Thread)
      requires Valid() && Legal(State(), idle, Event.StartupTest(t))
      modifies `calls
      ensures Valid() && Ok(old(State()), Event.StartupTest(t)) && State() == Next(old(State()), Event.StartupTest(t))
    {
      hide Inv, Base, Agrees, AllMasked, AllTracked, MasksOf, Top;
      StepFacts(State(), idle, Event.StartupTest(t));
      calls := calls.(starting := calls.starting + multiset{t});
    }

    /** rt_thread_startup: priority, masks and state are set; a resumption follows. */
    method StartupSet(t: Thread)
      requires Valid() && Legal(State(), idle, Event.StartupSet(t))
      modifies this
      ensures Ok(old(State()), Event.StartupSet(t)) && State() == Next(old(State()), Event.StartupSet(t))
      ensures Valid() <==> Safe(old(State()), Event.StartupSet(t))
    {
      hide Inv, Base, Agrees, AllMasked, AllTracked, MasksOf, Top, Legal, Ok, Next, Step, Safe;
      StartupSetIs(State(), idle, t);
      SetPriority(t, initial[t]);
      SetStat(t, Suspended, calls.(starting := calls.starting - multiset{t}));
    }

    /** rt_thread_suspend: the test of the state. */
    method SuspendTest(t: Thread) returns (ok: bool)
      requires Valid() && t in stat && t != idle
      modifies `calls
      ensures Valid() && ok == (stat[t] == Ready)
      ensures ok ==> Ok(old(State()), Event.SuspendTest(t)) && State() == Next(old(State()), Event.SuspendTest(t))
      ensures !ok ==> State() == old(State())
    {
      ok := stat[t] == Ready;
      if ok {
        MaskFacts(stat, masks, two, prio, marked, t);
        hide Inv, Base, Agrees, AllMasked, AllTracked, MasksOf, Top;
      StepFacts(State(), idle, Event.SuspendTest(t));
        calls := calls.(suspending := calls.suspending + multiset{t});
      }
    }

    /** rt_thread_suspend: the section. */
    method SuspendSection(t: Thread)
      requires Valid() && Legal(State(), idle, Event.SuspendSection(t))
      modifies this
      ensures Ok(old(State()), Event.SuspendSection(t)) && State() == Next(old(State()), Event.SuspendSection(t))
      ensures Valid() <==> Safe(old(State()), Event.SuspendSection(t))
    {
      hide Inv, Base, Agrees, AllMasked, AllTracked, MasksOf, Top;
      StepFacts(State(), idle, Event.SuspendSection(t));
      MaskFacts(stat, masks, two, prio, marked, t);
      RemoveThread(t);
      SetStat(t, Suspended, calls.(suspending := calls.suspending - multiset{t}));
    }

    /** rt_thread_resume: the test of the state. */
    method ResumeTest(t: Thread) returns (ok: bool)
      requires Valid() && t in stat
      modifies `calls
      ensures Valid() && ok == (stat[t] == Suspended)
      ensures ok ==> Ok(old(State()), Event.ResumeTest(t)) && State() == Next(old(State()), Event.ResumeTest(t))
      ensures !ok ==> State() == old(State())
    {
      ok := stat[t] == Suspended;
      if ok {
        MaskFacts(stat, masks, two, prio, marked, t);
        hide Inv, Base, Agrees, AllMasked, AllTracked, MasksOf, Top;
      StepFacts(State(), idle, Event.ResumeTest(t));
        calls := calls.(passed := calls.passed + multiset{t});
      }
    }

    /** rt_thread_resume: the section that takes the thread off its wait list. */
    method ResumeUnlink(t: Thread)
      requires Valid() && Legal(State(), idle, Event.ResumeUnlink(t))
      modifies this
      ensures Ok(old(State()), Event.ResumeUnlink(t)) && State() == Next(old(State()), Event.ResumeUnlink(t))
      ensures Valid() <==> Safe(old(State()), Event.ResumeUnlink(t))
    {
      hide Inv, Base, Agrees, AllMasked, AllTracked, MasksOf, Top;
      StepFacts(State(), idle, Event.ResumeUnlink(t));
      FiledFacts(State(), idle, t);
      UnlinkThread(t);
      calls := calls.(passed := calls.passed - multiset{t}, unlinked := calls.unlinked + multiset{t});
    }

    /** rt_thread_resume: the insertion into the ready queue. */
    method ResumeInsert(t: Thread)
      requires Valid() && Legal(State(), idle, Event.ResumeInsert(t))
      modifies this
      ensures Ok(old(State()), Event.ResumeInsert(t)) && State() == Next(old(State()), Event.ResumeInsert(t))
      ensures Valid() <==> Safe(old(State()), Event.ResumeInsert(t))
    {
      hide Inv, Base, Agrees, AllMasked, AllTracked, MasksOf, Top;
      StepFacts(State(), idle, Event.ResumeInsert(t));
      MaskFacts(stat, masks, two, prio, marked, t);
      StatTracked(masks, two, stat, marked, t, Ready);
      InsertThread(t);
      calls := calls.(unlinked := calls.unlinked - multiset{t});
    }

    /** rt_thread_delete and rt_thread_detach: the section that takes the thread off its queue. */
    method DeleteRemove(t: Thread)
      requires Valid() && Legal(State(), idle, Event.DeleteRemove(t))
      modifies this
      ensures Ok(old(State()), Event.DeleteRemove(t)) && State() == Next(old(State()), Event.DeleteRemove(t))
      ensures t in prio && t in masks && (Valid() <==> Indexed())
      ensures Indexed() <==> Busy(queues, prio[t]) || Harmless(queues, two, masks[t])
      ensures stat[t] == Ready || stat[t] == Suspended ==> Valid()
    {
      hide Inv, Base, Agrees, AllMasked, AllTracked, MasksOf, Top;
      StepFacts(State(), idle, Event.DeleteRemove(t));
      MaskFacts(stat, masks, two, prio, marked, t);
      FiledFacts(State(), idle, t);
      RemoveThread(t);
      calls := calls.(removed := calls.removed + multiset{t});
    }

    /** rt_thread_delete and rt_thread_detach: the state is set outside of a section. */
    method DeleteClose(t: Thread)
      requires Valid() && Legal(State(), idle, Event.DeleteClose(t))
      modifies this
      ensures Valid() && Ok(old(State()), Event.DeleteClose(t)) && State() == Next(old(State()), Event.DeleteClose(t))
    {
      hide Inv, Base, Agrees, AllMasked, AllTracked, MasksOf, Top;
      StepFacts(State(), idle, Event.DeleteClose(t));
      Close(t, false, calls.(removed := calls.removed - multiset{t}, closing := calls.closing + multiset{t}));
    }

    /** rt_thread_delete: the section that puts the thread on the defunct list. */
    method DeleteKeep(t: Thread)
      requires Valid() && Legal(State(), idle, Event.DeleteKeep(t))
      modifies this
      ensures Ok(old(State()), Event.DeleteKeep(t)) && State() == Next(old(State()), Event.DeleteKeep(t))
      ensures Valid() <==> Safe(old(State()), Event.DeleteKeep(t))
    {
      hide Inv, Base, Agrees, AllMasked, AllTracked, MasksOf, Top;
      StepFacts(State(), idle, Event.DeleteKeep(t));
      defunct := [t] + defunct;
      calls := calls.(closing := calls.closing - multiset{t});
    }

    /** rt_thread_detach of a thread without a cleanup function: nothing is left to be done. */
    method DeleteEnd(t: Thread)
      requires Valid() && Legal(State(), idle, Event.DeleteEnd(t))
      modifies `calls
      ensures Valid() && Ok(old(State()), Event.DeleteEnd(t)) && State() == Next(old(State()), Event.DeleteEnd(t))
    {
      hide Inv, Base, Agrees, AllMasked, AllTracked, MasksOf, Top;
      StepFacts(State(), idle, Event.DeleteEnd(t));
      calls := calls.(closing := calls.closing - multiset{t});
    }

    /** rt_thread_idle_excute: a thread leaves the defunct list. */
    method Reap() returns (t: Thread)
      requires Valid() && Legal(State(), idle, Event.Reap)
      modifies `defunct
      ensures Valid() && Ok(old(State()), Event.Reap) && State() == Next(old(State()), Event.Reap)
      ensures t == old(defunct)[0]
    {
      hide Inv, Base, Agrees, AllMasked, AllTracked, MasksOf, Top;
      StepFacts(State(), idle, Event.Reap);
      t := defunct[0];
      defunct := defunct[1..];
    }

    // --- priorities, time slices and the lock

    /** rt_thread_control with the change of priority. */
    method ChangePriority(t: Thread, p: nat)
      requires Valid() && Legal(State(), idle, Event.ChangePriority(t, p))
      modifies this
      ensures Ok(old(State()), Event.ChangePriority(t, p)) && State() == Next(old(State()), Event.ChangePriority(t, p))
      ensures Valid() <==> Safe(old(State()), Event.ChangePriority(t, p))
    {
      hide Inv, Base, Agrees, AllMasked, AllTracked, MasksOf, Top;
      StepFacts(State(), idle, Event.ChangePriority(t, p));
      MaskFacts(stat, masks, two, prio, marked, t);
      if stat[t] == Ready {
        RemoveThread(t);
        SetPriority(t, p);
        StatTracked(masks, two, stat, marked, t, Ready);
        InsertThread(t);
        assert stat == old(stat);
      } else {
        SetPriority(t, p);
      }
    }

    /** rt_thread_yield */
    method Yield()
      requires Valid()
      modifies this
      ensures Valid() && Ok(old(State()), Event.Yield) && State() == Next(old(State()), Event.Yield)
    {
      hide Inv, Base, Agrees, AllMasked, AllTracked, MasksOf, Top;
      StepFacts(State(), idle, Event.Yield);
      RotateFacts(State(), idle);
      var t := current;
      if stat[t] == Ready && t in queues[prio[t]] && |queues[prio[t]]| > 1 {
        queues := queues[prio[t] := Without(queues[prio[t]], t)];
        queues := queues[prio[t] := queues[prio[t]] + [t]];
        assert queues == old(queues)[prio[t] := Without(old(queues)[prio[t]], t) + [t]];
        SameBusy(index, two, old(queues), queues);
        assert State() == Rotated(old(State()), t);
        Schedule();
      }
    }

    /** rt_tick_increase, without the timers. */
    method Tick()
      requires Valid()
      modifies this
      ensures Valid() && Ok(old(State()), Event.Tick) && State() == Next(old(State()), Event.Tick)
    {
      hide Inv, Agrees, AllMasked, AllTracked, Ok, Next, MasksOf, Top;
      TickCases(State(), idle);
      var t := current;
      left := left[t := left[t] - 1];
      if left[t] == 0 {
        left := left[t := slice[t]];
        assert left == old(left)[t := slice[t]];
        Yield();
      }
    }

    /** rt_enter_critical */
    method EnterCritical()
      requires Valid()
      modifies this
      ensures Valid() && Ok(old(State()), Event.EnterCritical) && State() == Next(old(State()), Event.EnterCritical)
    {
      hide Inv, Base, Agrees, AllMasked, AllTracked, MasksOf, Top;
      StepFacts(State(), idle, Event.EnterCritical);
      nest := nest + 1;
    }

    /** rt_exit_critical */
    method ExitCritical()
      requires Valid()
      modifies this
      ensures Valid() && Ok(old(State()), Event.ExitCritical) && State() == Next(old(State()), Event.ExitCritical)
    {
      hide Agrees, AllMasked, AllTracked, MasksOf, Top;
      StepFacts(State(), idle, Event.ExitCritical);
      NestKeeps(State(), idle, 0);
      nest := nest - 1;
      if nest <= 0 {
        nest := 0;
        Schedule();
      }
    }
  }

  lemma {:induction false} StepFacts(s: System, idle: Thread, e: Event)
    requires Inv(s, idle) && Legal(s, idle, e)
    ensures Ok(s, e) && Base(Step(s, e), idle) && (Inv(Step(s, e), idle) <==> Safe(s, e))
    ensures Inv(Next(s, e), idle) <==> Safe(s, e)
  {
    NextBase(s, idle, e);
    NextExactly(s, idle, e);
  }

  lemma {:induction false} StartupSetIs(s: System, idle: Thread, t: Thread)
    requires Inv(s, idle) && Legal(s, idle, Event.StartupSet(t))
    ensures Ok(s, Event.StartupSet(t)) && Sound(s, t)
    ensures Inv(Next(s, Event.StartupSet(t)), idle) <==> Safe(s, Event.StartupSet(t))
    ensures Next(s, Event.StartupSet(t)) == s.(prio := s.prio[t := s.initial[t]], stat := s.stat[t := Suspended],
        calls := s.calls.(starting := s.calls.starting - multiset{t}))
  {
    StepFacts(s, idle, Event.StartupSet(t));
  }

  lemma {:induction false} MaskFacts(stat: map<Thread, Stat>, masks: map<Thread, Masks>, two: bool,
                                     prio: map<Thread, nat>, marked: set<Thread>, t: Thread)
    requires AllMasked(masks, two, prio, marked) && AllTracked(stat, masks, two, marked) && t in stat
    ensures Tracked(stat, masks, two, marked, t) && (t in marked ==> Masked(masks, two, prio, t))
  {
    assert Tracked(stat, masks, two, marked, t) && (t in marked ==> Masked(masks, two, prio, t));
  }

  lemma {:induction false} FiledFacts(s: System, idle: Thread, t: Thread)
    requires Inv(s, idle) && t in s.stat
    ensures Filed(s, t)
  {
    assert Filed(s, t);
  }

  /** A thread that is not ready is in no queue. */
  lemma {:induction false} NotQueued(s: System, idle: Thread, t: Thread, p: nat)
    requires Inv(s, idle) && t in s.stat && s.stat[t] != Ready && p < |s.queues|
    ensures t !in s.queues[p]
  {
    assert Filed(s, t);
    assert Member(s, p, t) <==> t in s.queues[p];
  }

  lemma {:induction false} RotateFacts(s: System, idle: Thread)
    requires Inv(s, idle)
    ensures Sound(s, s.current)
    ensures s.current in s.queues[s.prio[s.current]] ==> Inv(Rotated(s, s.current), idle)
  {
    assert Sound(s, s.current);
    var t := s.current;
    if t in s.queues[s.prio[t]] {
      var r, q := Rotated(s, t), s.queues[s.prio[t]];
      forall p, u ensures Member(r, p, u) <==> Member(s, p, u) {}
      WithoutDistinct(q, t);
      AppendDistinct(Without(q, t), t);
      ReorderedKeeps(s, r, idle);
    }
  }

  lemma {:induction false} TickCases(s: System, idle: Thread)
    requires Inv(s, idle)
    ensures Sound(s, s.current)
    ensures Ok(s, Event.Tick) && Next(s, Event.Tick) == TickNow(s) && Inv(TickNow(s), idle)
    ensures Inv(s.(left := s.left[s.current := s.slice[s.current]]), idle)
    ensures forall r | Inv(r, idle) :: Ok(r, Event.Yield) && Next(r, Event.Yield) == YieldNow(r)
  {
    NextExactly(s, idle, Event.Tick);
    var d := s.(left := s.left[s.current := s.slice[s.current]]);
    forall p, u ensures Member(d, p, u) <==> Member(s, p, u) {}
    ReorderedKeeps(s, d, idle);
    forall r | Inv(r, idle) ensures Ok(r, Event.Yield) && Next(r, Event.Yield) == YieldNow(r) {
      NextExactly(r, idle, Event.Yield);
    }
  }

  lemma {:induction false} WithoutAbsentOr(list: seq<Thread>, t: Thread)
    ensures t !in list ==> Without(list, t) == list
  {
    if t !in list { WithoutAbsent(list, t); }
  }

  lemma {:induction false} CreatedInv(s: System, idle: Thread, t: Thread, p: nat, ticks: nat)
    requires Inv(s, idle) && Legal(s, idle, Event.Create(t, p, ticks))
    ensures var e := Event.Create(t, p, ticks);
      Ok(s, e) && Next(s, e) == Created(s, t, p, ticks) && Inv(Created(s, t, p, ticks), idle) && t != s.current
      && !InCall(s.calls, t)
  {
    NextExactly(s, idle, Event.Create(t, p, ticks));
  }

  // --- a deletion that forgets the idle thread

  /** Thread 1 runs at the lowest priority and is deleted, is initialised again at the other
      priority, and is deleted before it is started. */
  const STALE: seq<Event> := [Event.Create(1, 1, 1), Event.Startup(1), Event.Delete(1, false),
    Event.Create(1, 0, 1), Event.Delete(1, false)]

  function Both(stat: Stat, p: nat, low: seq<Thread>, dead: set<Thread>): System {
    System(map[0 := Ready, 1 := stat], map[0 := 1, 1 := p], map[0 := 1, 1 := p], map[0 := 1, 1 := 1],
      map[0 := 1, 1 := 1],
           [[], low], 0, 0, [], dead, NO_CALLS)
  }

  function Stale(k: nat): System {
    if k == 0 then Initial(2, 0, 1)
    else if k == 1 then Both(Init, 1, [0], {})
    else if k == 2 then Both(Ready, 1, [0, 1], {})
    else if k == 3 then Both(Closed, 1, [0], {1})
    else if k == 4 then Both(Init, 0, [0], {})
    else Both(Closed, 0, [0], {1})
  }

  lemma {:induction false} BothCreated(stat: Stat, q: nat, p: nat, dead: set<Thread>)
    requires dead <= {1}
    ensures Created(Both(stat, q, [0], dead), 1, p, 1) == Both(Init, p, [0], {})
  {
    var s := Both(stat, q, [0], dead);
    assert s.stat[1 := Init] == map[0 := Ready, 1 := Init] && s.prio[1 := p] == map[0 := 1, 1 := p];
    assert s.slice[1 := 1] == map[0 := 1, 1 := 1] && s.dead - {1} == {};
  }

  lemma {:induction false} BothClosed(stat: Stat, p: nat, low: seq<Thread>)
    requires low == (if p == 1 then [0, 1] else [0]) && p <= 1
    ensures Buried(Remove(Both(stat, p, low, {}), 1, Closed), 1, false) == Both(Closed, p, [0], {1})
  {
    var s := Both(stat, p, low, {});
    assert s.stat[1 := Closed] == map[0 := Ready, 1 := Closed] && {} + {1} == {1};
    assert [0, 1][1..] == [1] && [1][1..] == [];
    assert Without([0, 1], 1) == [0] && Without([], 1) == [];
    assert s.queues[p := Without(s.queues[p], 1)] == [[], [0]];
  }

  lemma {:induction false} FirstCreated(s: System, p: nat)
    requires s == Initial(2, 0, 1)
    ensures s.queues == [[], [0]] && Created(s, 1, p, 1) == Both(Init, p, [0], {})
  {
    assert s.queues == [[], [0]];
    assert s.stat[1 := Init] == map[0 := Ready, 1 := Init];
    assert s.prio[1 := p] == map[0 := 1, 1 := p];
    assert s.slice[1 := 1] == map[0 := 1, 1 := 1] && s.dead - {1} == {};
  }

  lemma {:induction false} StaleStarted()
    ensures Steps(Stale(1), STALE[1], Stale(2))
  {
    var s := Stale(1);
    assert s.prio[1 := 1] == s.prio && s.stat[1 := Ready] == map[0 := Ready, 1 := Ready];
    assert Without([0], 1) == [0] by { assert [0][1..] == []; }
    assert s.queues[1 := [0]] == s.queues && [0] + [1] == [0, 1];
    assert s.queues[1 := [0, 1]] == [[], [0, 1]];
    TopIs(Stale(2).queues, 1);
  }

  lemma {:induction false} StaleStep(k: nat)
    requires k < 5
    ensures Steps(Stale(k), STALE[k], Stale(k + 1))
  {
    if k == 0 {
      FirstCreated(Stale(0), 1);
    } else if k == 1 {
      StaleStarted();
    } else if k == 2 {
      BothClosed(Ready, 1, [0, 1]);
    } else if k == 3 {
      BothCreated(Closed, 1, 0, {1});
    } else {
      BothClosed(Init, 0, [0]);
    }
  }

  lemma {:induction false} StaleRun(es: seq<Event>)
    requires es == STALE
    ensures Base(Stale(0), 0) && LegalRun(Stale(0), 0, es) && After(Stale(0), 0, es) == Stale(5)
  {
    InitialInv(2, 0, 1);
    assert Stale(0) == Initial(2, 0, 1) && |es| == 5;
    hide *;
    var ss := seq(6, k requires 0 <= k < 6 => Stale(k));
    forall k | 0 <= k < 5 ensures Steps(ss[k], es[k], ss[k + 1]) { StaleStep(k); }
    assert es[0..] == es && ss[5] == Stale(5);
    Follow(es, ss, 0);
  }

  lemma {:induction false} StaleFacts()
    ensures Stale(0) == Initial(2, 0, 1) && Stale(1).calls == NO_CALLS && Stale(2).prio[1] == 1
    ensures Stale(2).stat[1] == Ready && 1 in Stale(3).stat && Stale(5).prio[1] == 0
    ensures !Busy(Stale(5).queues, 0) && !Harmless(Stale(5).queues, false, MasksOf(false, 1))
  {
    OneBit(1, 1);
    assert Busy(Stale(5).queues, 1);
  }

  method FirstLife() returns (s: Scheduler)
    ensures fresh(s) && s.Valid() && s.idle == 0 && !s.two && s.State() == Stale(2)
    ensures 1 in s.masks && s.masks[1] == MasksOf(false, 1)
  {
    hide Stale, Both, Inv, Base, Agrees, AllMasked, AllTracked, Next, Step, MasksOf, Initial;
    StaleFacts();
    StaleStep(0);
    StaleStep(1);
    s := new Scheduler(2, 0, 1);
    s.Create(1, 1, 1, Masks(0, 1, 0));
    s.Startup(1);
  }

  method SecondLife(s: Scheduler)
    requires s.Valid() && s.idle == 0 && !s.two && s.State() == Stale(2) && 1 in s.masks
    modifies s
    ensures s.Valid() && s.State() == Stale(4) && s.masks == old(s.masks)
  {
    hide Stale, Both, Inv, Base, Agrees, AllMasked, AllTracked, Next, Step, MasksOf, Initial;
    StaleFacts();
    StaleStep(2);
    StaleStep(3);
    s.Delete(1, false);
    s.Create(1, 0, 1, Masks(0, 1, 0));
  }

  /** A thread that ran at the lowest priority is deleted, initialised again at another priority
      and deleted before it is started: the idle thread is ready and not in the index. */
  method DeleteBeforeStart() returns (s: Scheduler)
    ensures fresh(s) && Base(Initial(2, 0, 1), 0) && LegalRun(Initial(2, 0, 1), 0, STALE)
    ensures s.State() == After(Initial(2, 0, 1), 0, STALE) && !s.Indexed()
  {
    hide Stale, Both, Inv, Base, Agrees, AllMasked, AllTracked, Next, Step, MasksOf, Initial, LegalRun, After;
    StaleFacts();
    StaleRun(STALE);
    StaleStep(4);
    s := FirstLife();
    SecondLife(s);
    s.Delete(1, false);
    assert s.State().queues == s.queues && s.State().prio == s.prio;
  }

  lemma {:induction false} SameBusy(x: Index, two: bool, queues: seq<seq<nat>>, after: seq<seq<nat>>)
    requires Agrees(x, two, queues) && |queues| == |after|
    requires forall q {:trigger Busy(after, q)} :: Busy(after, q) <==> Busy(queues, q)
    ensures Agrees(x, two, after)
  {
    forall p: nat | p < (if two then 256 else 32) ensures Recorded(x, two, p) <==> Busy(after, p) {
      assert Busy(after, p) <==> Busy(queues, p);
    }
  }
}
