/** What the commands of rt_timer_control mean for later starts and callbacks, over any run in
    between. */
module TimerCommands {
  import opened TimerSpec

  /** The entries of timer `t`, in queue order. */
  function EntriesOf(q: seq<Entry>, t: Timer): (r: seq<Entry>)
    ensures forall e :: e in r <==> e in q && e.timer == t
  {
    if q == [] then [] else (if q[0].timer == t then [q[0]] else []) + EntriesOf(q[1..], t)
  }

  /** Timer `t` waits once, for tick `deadline`, and every other timer waits as in `q`. */
  ghost predicate WaitsFor(q: seq<Entry>, after: seq<Entry>, t: Timer, deadline: nat) {
    && Without(after, t) == Without(q, t)
    && |EntriesOf(after, t)| == 1 && EntriesOf(after, t)[0].deadline == deadline
  }

  lemma {:induction false} InsertedEntry(q: seq<Entry>, e: Entry)
    ensures Without(Insert(q, e), e.timer) == Without(q, e.timer)
    ensures EntriesOf(q, e.timer) == [] ==> EntriesOf(Insert(q, e), e.timer) == [e]
  {
    var r := Insert(q, e);
    if q == [] || q[0].deadline > e.deadline {
      assert r[1..] == q;
    } else {
      InsertedEntry(q[1..], e);
      assert r[1..] == Insert(q[1..], e);
    }
  }

  lemma {:induction false} WithoutTwice(q: seq<Entry>, t: Timer)
    ensures Without(Without(q, t), t) == Without(q, t) && EntriesOf(Without(q, t), t) == []
  {
    if q != [] {
      WithoutTwice(q[1..], t);
      if q[0].timer != t { assert Without(q, t)[1..] == Without(q[1..], t); }
    }
  }

  lemma {:induction false} RestampedOthers(q: seq<Entry>, t: Timer, d: nat)
    requires EntriesOf(q, t) == []
    ensures Restamped(q, t, d) == q
  {
    forall i | 0 <= i < |q| ensures q[i].timer != t {
      assert q[i] in q && (q[i] in EntriesOf(q, t) <==> q[i].timer == t);
    }
  }

  /** A start at once makes the timer wait for its delay from now on, whatever else waits. */
  lemma {:induction false} StartsAt(c: Clock, t: Timer)
    requires t in c.delay
    ensures WaitsFor(c.queue, Start(c, t).queue, t, c.now + c.delay[t])
  {
    hide Without, EntriesOf, Insert, Restamped;
    var b := Begin(c, t);
    WithoutTwice(c.queue, t);
    RestampedOthers(b.queue, t, c.now + c.delay[t]);
    InsertedEntry(b.queue, NewEntry(Stamp(b, t), t));
  }

  // ---- the delay ----

  predicate SetsTime(e: Event, t: Timer) { e.SetTime? && e.t == t }

  lemma {:induction false} DelayStays(c: Clock, e: Event, t: Timer)
    requires Legal(c, e) && t in c.delay && !SetsTime(e, t)
    ensures t in Next(c, e).delay && Next(c, e).delay[t] == c.delay[t]
  {
  }

  lemma {:induction false} DelayOverRuns(c: Clock, es: seq<Event>, m: Clock, t: Timer)
    requires Reaches(c, es, m) && t in c.delay && forall i :: 0 <= i < |es| ==> !SetsTime(es[i], t)
    ensures t in m.delay && m.delay[t] == c.delay[t]
    decreases |es|
  {
    if es != [] {
      DelayStays(c, es[0], t);
      forall i | 0 <= i < |es[1..]| ensures !SetsTime(es[1..][i], t) { assert es[1..][i] == es[i + 1]; }
      DelayOverRuns(Next(c, es[0]), es[1..], m, t);
    }
  }

  /** After RT_TIMER_CTRL_SET_TIME with `d`, and whatever happens without another one, a start of
      the timer at tick n makes it wait for tick n + d. */
  lemma {:induction false} SetTimeThenStart(c: Clock, t: Timer, d: nat, es: seq<Event>, m: Clock)
    requires Legal(c, SetTime(t, d)) && Reaches(Next(c, SetTime(t, d)), es, m)
    requires forall i :: 0 <= i < |es| ==> !SetsTime(es[i], t)
    requires Legal(m, StartEvent(t))
    ensures WaitsFor(m.queue, Next(m, StartEvent(t)).queue, t, m.now + d)
  {
    DelayOverRuns(Next(c, SetTime(t, d)), es, m, t);
    StartsAt(m, t);
  }

  // ---- a start in three parts ----

  /** The step computes the deadline of `t` anew, or links it. */
  predicate Restamps(c: Clock, e: Event, t: Timer) {
    || ((e.StartEvent? || e.StampEvent? || e.LinkEvent?) && e.t == t)
    || (e.ReturnEvent? && Restarts(c) && c.mode.timer == t)
  }

  ghost predicate NeverRestamps(c: Clock, es: seq<Event>, t: Timer)
    requires Run(c, es)
    decreases |es|
  {
    es != [] ==> !Restamps(c, es[0], t) && NeverRestamps(Next(c, es[0]), es[1..], t)
  }

  lemma {:induction false} StampStays(c: Clock, e: Event, t: Timer)
    requires Legal(c, e) && !Restamps(c, e, t) && t in c.pending.stamp
    ensures t in Next(c, e).pending.stamp && Next(c, e).pending.stamp[t].deadline == c.pending.stamp[t].deadline
  {
    if e.StartEvent? {
      OtherStamp(c, e.t, t);
    } else if e.ReturnEvent? {
      if Restarts(c) { OtherStamp(c, c.mode.timer, t); }
    } else if e.TickEvent? {
      assert Next(c, e).pending.stamp == Passed(c.pending.stamp, c.now + 1);
    } else if e.StampEvent? || e.LinkEvent? {
      assert t in Next(c, e).pending.stamp;
    } else {
      assert Next(c, e).pending.stamp == c.pending.stamp;
    }
  }

  lemma {:induction false} OtherStamp(c: Clock, u: Timer, t: Timer)
    requires u in c.delay && u != t && t in c.pending.stamp
    ensures t in Start(c, u).pending.stamp && Start(c, u).pending.stamp[t] == c.pending.stamp[t]
  {
    var s := Stamp(Begin(c, u), u);
    assert t in s.pending.stamp && s.pending.stamp[t] == c.pending.stamp[t];
  }

  lemma {:induction false} StampOverRuns(c: Clock, es: seq<Event>, m: Clock, t: Timer)
    requires Reaches(c, es, m) && Run(c, es) && NeverRestamps(c, es, t) && t in c.pending.stamp
    ensures t in m.pending.stamp && m.pending.stamp[t].deadline == c.pending.stamp[t].deadline
    decreases |es|
  {
    if es != [] {
      StampStays(c, es[0], t);
      StampOverRuns(Next(c, es[0]), es[1..], m, t);
    }
  }

  /** A deadline computed at tick n with the delay `d` last set is the one the timer waits for once
      it is linked, however late that is. */
  lemma {:induction false} SetTimeThenStamp(c: Clock, t: Timer, d: nat, es: seq<Event>, m: Clock, fs: seq<Event>,
      l: Clock)
    requires Legal(c, SetTime(t, d)) && Reaches(Next(c, SetTime(t, d)), es, m)
    requires forall i :: 0 <= i < |es| ==> !SetsTime(es[i], t)
    requires Legal(m, StampEvent(t)) && Reaches(Next(m, StampEvent(t)), fs, l)
    requires Run(Next(m, StampEvent(t)), fs) && NeverRestamps(Next(m, StampEvent(t)), fs, t)
    requires Legal(l, LinkEvent(t)) && EntriesOf(l.queue, t) == []
    ensures WaitsFor(l.queue, Next(l, LinkEvent(t)).queue, t, m.now + d)
  {
    DelayOverRuns(Next(c, SetTime(t, d)), es, m, t);
    StampOverRuns(Next(m, StampEvent(t)), fs, l, t);
    InsertedEntry(l.queue, NewEntry(l, t));
  }

  // ---- periodic timers ----

  predicate SetsKind(e: Event, t: Timer) { e.SetPeriodic? && e.t == t }

  lemma {:induction false} KindOverRuns(c: Clock, es: seq<Event>, m: Clock, t: Timer)
    requires Reaches(c, es, m) && forall i :: 0 <= i < |es| ==> !SetsKind(es[i], t)
    ensures t in m.periodic <==> t in c.periodic
    decreases |es|
  {
    if es != [] {
      assert t in Next(c, es[0]).periodic <==> t in c.periodic;
      forall i | 0 <= i < |es[1..]| ensures !SetsKind(es[1..][i], t) { assert es[1..][i] == es[i + 1]; }
      KindOverRuns(Next(c, es[0]), es[1..], m, t);
    }
  }

  /** After RT_TIMER_CTRL_SET_PERIODIC or RT_TIMER_CTRL_SET_ONESHOT, and whatever happens without
      another one, the return of the timer's callback starts it again, for its delay from now on,
      exactly when it was set periodic and is still active; otherwise its flag is cleared and
      nobody waits differently. */
  lemma {:induction false} SetPeriodicThenReturn(c: Clock, t: Timer, on: bool, es: seq<Event>, m: Clock)
    requires Legal(c, SetPeriodic(t, on)) && Reaches(Next(c, SetPeriodic(t, on)), es, m)
    requires forall i :: 0 <= i < |es| ==> !SetsKind(es[i], t)
    requires m.mode == InCallback(t) && Legal(m, ReturnEvent)
    ensures var r := Next(m, ReturnEvent);
      if on && t in m.active then WaitsFor(m.queue, r.queue, t, m.now + m.delay[t]) && t in r.active
      else r.queue == m.queue && r.active == m.active - {t}
  {
    KindOverRuns(Next(c, SetPeriodic(t, on)), es, m, t);
    StartsAt(m, t);
  }

  // ---- a delay elapses ----

  /** A call on timer `t` that starts or stops it. */
  predicate Touches(e: Event, t: Timer) {
    (e.StartEvent? || e.BeginEvent? || e.StampEvent? || e.StopEvent? || e.StopRemoveEvent?) && e.t == t
  }

  /** The entry waits and its callback does not run. */
  predicate Waiting(c: Clock, e: Entry) { e in c.queue && c.mode != InCallback(e.timer) }

  /** The entry fired since the log had `n` firings. */
  predicate FiredSince(c: Clock, n: nat, e: Entry) {
    exists k :: n <= k < |c.log| && c.log[k].entry == e
  }

  lemma {:induction false} OthersWait(c: Clock, u: Timer, e: Entry)
    requires u in c.delay && e in c.queue && e.timer != u
    ensures e in Start(c, u).queue && Start(c, u).log == c.log && Start(c, u).mode == c.mode
  {
    hide Without, Insert, Restamped;
    var b := Begin(c, u);
    assert e in b.queue;
    var i :| 0 <= i < |b.queue| && b.queue[i] == e;
    assert Stamp(b, u).queue[i] == e;
    InsertContents(Stamp(b, u).queue, NewEntry(Stamp(b, u), u));
  }

  /** A waiting entry of a timer that nobody touches keeps waiting or fires. */
  lemma {:induction false} WaitsOrFires(c: Clock, ev: Event, e: Entry)
    requires OneEach(c.queue) && Legal(c, ev) && !Touches(ev, e.timer) && Waiting(c, e)
    ensures Waiting(Next(c, ev), e) || Next(c, ev).log == c.log + [Fired(e, c.now)]
  {
    var d, t := Next(c, ev), e.timer;
    match ev
    case StartEvent(u) => OthersWait(c, u, e);
    case ReturnEvent => if Restarts(c) { OthersWait(c, c.mode.timer, e); }
    case PollEvent =>
      if d.mode.InCallback? {
        var i :| 0 <= i < |c.queue| && c.queue[i] == e;
        if i > 0 {
          assert OtherTimer(c.queue[0], c.queue[i]) && d.queue[i - 1] == e;
          assert d.log == c.log + [Fired(c.queue[0], c.now)];
        }
      }
    case LinkEvent(u) => InsertContents(c.queue, NewEntry(c, u));
    case StampEvent(u) =>
      var i :| 0 <= i < |c.queue| && c.queue[i] == e;
      assert d.queue[i] == e;
    case BeginEvent(_) =>
    case StopEvent(_) =>
    case StopRemoveEvent(_) =>
    case StopClearEvent(_) =>
    case TickEvent =>
    case SetTime(_, _) =>
    case SetPeriodic(_, _) =>
  }

  lemma {:induction false} LogGrows(c: Clock, es: seq<Event>, m: Clock)
    requires Reaches(c, es, m)
    ensures |c.log| <= |m.log| && forall i :: 0 <= i < |c.log| ==> m.log[i] == c.log[i]
    decreases |es|
  {
    if es != [] {
      var d := Next(c, es[0]);
      assert |c.log| <= |d.log| && d.log[..|c.log|] == c.log;
      LogGrows(d, es[1..], m);
      forall i | 0 <= i < |c.log| ensures m.log[i] == c.log[i] { assert d.log[..|c.log|][i] == d.log[i]; }
    }
  }

  lemma {:induction false} WaitsOrFired(c: Clock, es: seq<Event>, m: Clock, e: Entry)
    requires Inv(c) && Reaches(c, es, m) && Run(c, es) && NoOverlap(c, es) && Waiting(c, e)
    requires forall i :: 0 <= i < |es| ==> !Touches(es[i], e.timer)
    ensures Waiting(m, e) || FiredSince(m, |c.log|, e)
    decreases |es|
  {
    if es != [] {
      var d := Next(c, es[0]);
      assert !Touches(es[0], e.timer);
      WaitsOrFires(c, es[0], e);
      NextExactly(c, es[0]);
      LogGrows(d, es[1..], m);
      forall i | 0 <= i < |es[1..]| ensures !Touches(es[1..][i], e.timer) { assert es[1..][i] == es[i + 1]; }
      if Waiting(d, e) {
        WaitsOrFired(d, es[1..], m, e);
        if k :| |d.log| <= k < |m.log| && m.log[k].entry == e { assert |c.log| <= k; }
      } else {
        assert m.log[|c.log|] == d.log[|c.log|];
      }
    }
  }

  /** A timer started with a delay of `d` ticks, outside of its own callback, that nobody starts
      or stops fires in the check of exactly the d-th tick from then on. */
  lemma {:induction false} DelayElapses(c: Clock, t: Timer, es: seq<Event>, m: Clock)
    requires Inv(c) && LogInv(c) && Legal(c, StartEvent(t)) && !InProgress(c.pending, t) && c.mode != InCallback(t)
    requires c.delay[t] > 0
    requires Reaches(Next(c, StartEvent(t)), es, m) && Run(Next(c, StartEvent(t)), es)
    requires NoOverlap(Next(c, StartEvent(t)), es) && forall i :: 0 <= i < |es| ==> !Touches(es[i], t)
    requires m.mode == TimerSpec.Idle && m.now >= c.now + c.delay[t]
    ensures exists k :: |c.log| <= k < |m.log| && m.log[k].entry.timer == t && m.log[k].at == c.now + c.delay[t]
  {
    var s := Next(c, StartEvent(t));
    var e := Entry(t, c.now + c.delay[t], c.starts, c.now, c.now, c.mode == TimerSpec.Idle, false);
    StartExactly(c, t);
    StartKeepsLog(c, t);
    StartedEntry(c, t, e);
    WaitsOrFired(s, es, m, e);
    RunsFireInOrder(s, es, m);
    if e in m.queue { StillTimely(m, e); }
    var k :| |s.log| <= k < |m.log| && m.log[k].entry == e;
    assert FiredOk(m.log[k], m.now, m.starts);
  }

  lemma {:induction false} StillTimely(c: Clock, e: Entry)
    requires Inv(c) && e in c.queue && c.mode == TimerSpec.Idle
    ensures e.deadline > c.now || e.linked == c.now
  {
    var i :| 0 <= i < |c.queue| && c.queue[i] == e;
    assert Timely(c.queue[i], c.now, c.mode);
  }

  lemma {:induction false} StartedEntry(c: Clock, t: Timer, e: Entry)
    requires t in c.delay && c.mode != InCallback(t)
    requires e == Entry(t, c.now + c.delay[t], c.starts, c.now, c.now, c.mode == TimerSpec.Idle, false)
    ensures Waiting(Start(c, t), e) && Start(c, t).log == c.log
  {
    hide Insert, Without, Restamped, EntriesOf;
    var b := Begin(c, t);
    WithoutTwice(c.queue, t);
    RestampedOthers(b.queue, t, c.now + c.delay[t]);
    assert NewEntry(Stamp(b, t), t) == e;
    InsertContents(b.queue, e);
  }
}
