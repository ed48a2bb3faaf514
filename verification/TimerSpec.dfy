/** Timers over an unbounded clock: a queue ordered by absolute deadline, ties in start
    order. This is what the wrap-around timers are shown to implement. */
module TimerSpec {

  type Timer = nat

  /** RT_TICK_MAX / 2 */
  const HALF: int := 0x7fff_ffff

  /** One start of a timer: its deadline was computed at tick `started` and it was linked at
      tick `linked`, between checks (`idle`) or by a callback. `order` numbers the starts as
      they are linked. `missed` says that a check at or past the deadline ran between the two
      ticks. */
  datatype Entry = Entry(timer: Timer, deadline: nat, order: nat, started: nat, linked: nat, idle: bool, missed: bool)

  /** A computed deadline of a timer that is still to be linked, and the tick of the computation. */
  datatype Stamped = Stamped(deadline: nat, at: nat, missed: bool)

  /** The starts in progress: the timer is unlinked, then its deadline is computed, and then it
      is linked. Interrupts are enabled in between, so a timer may be started several times at
      once; it has one field for the deadline. */
  datatype Starts = Starts(begun: multiset<Timer>, stamped: multiset<Timer>, stamp: map<Timer, Stamped>)

  const NO_STARTS: Starts := Starts(multiset{}, multiset{}, map[])

  predicate InProgress(p: Starts, t: Timer) { t in p.begun || t in p.stamped }

  datatype Fired = Fired(entry: Entry, at: nat)

  /** Between interrupts, in the timer check of a tick, or in the callback of a timer. */
  datatype Mode = Idle | Checking | InCallback(timer: Timer)

  datatype Clock = Clock(
    now: nat,
    queue: seq<Entry>,
    starts: nat,
    active: set<Timer>,
    periodic: set<Timer>,
    delay: map<Timer, nat>,
    pending: Starts,
    stopping: multiset<Timer>,
    mode: Mode,
    log: seq<Fired>,
    cancelled: multiset<nat>)

  predicate Before(a: Entry, b: Entry) {
    a.deadline < b.deadline || (a.deadline == b.deadline && a.order < b.order)
  }

  /** Plain stable insertion: behind every entry that is not later. */
  function Insert(q: seq<Entry>, e: Entry): (r: seq<Entry>) {
    if q == [] || q[0].deadline > e.deadline then [e] + q else [q[0]] + Insert(q[1..], e)
  }

  function Without(q: seq<Entry>, t: Timer): (r: seq<Entry>)
    ensures forall e :: e in r <==> e in q && e.timer != t
  {
    if q == [] then [] else if q[0].timer == t then Without(q[1..], t) else [q[0]] + Without(q[1..], t)
  }

  function Orders(q: seq<Entry>): multiset<nat> {
    if q == [] then multiset{} else multiset{q[0].order} + Orders(q[1..])
  }

  function OrdersOf(q: seq<Entry>, t: Timer): multiset<nat> {
    if q == [] then multiset{} else (if q[0].timer == t then multiset{q[0].order} else multiset{}) + OrdersOf(q[1..], t)
  }

  function Unlink(c: Clock, t: Timer): Clock {
    c.(queue := Without(c.queue, t), cancelled := c.cancelled + OrdersOf(c.queue, t))
  }

  // rt_timer_start: the first section, the computation of the deadline, the second section.

  function Begin(c: Clock, t: Timer): Clock {
    Unlink(c, t).(active := c.active - {t}, pending := c.pending.(begun := c.pending.begun + multiset{t}))
  }

  /** A timer that is linked gets the new deadline where it is. */
  function Restamped(q: seq<Entry>, t: Timer, d: nat): (r: seq<Entry>)
    ensures |r| == |q| && forall i :: 0 <= i < |q| ==> r[i] == if q[i].timer == t then q[i].(deadline := d) else q[i]
  {
    seq(|q|, i requires 0 <= i < |q| => if q[i].timer == t then q[i].(deadline := d) else q[i])
  }

  function Stamp(c: Clock, t: Timer): Clock
    requires t in c.delay
  {
    var p, d := c.pending, c.now + c.delay[t];
    c.(queue := Restamped(c.queue, t, d),
      pending := Starts(p.begun - multiset{t}, p.stamped + multiset{t}, p.stamp[t := Stamped(d, c.now, false)]))
  }

  /** The entry a start of `t` creates. */
  function NewEntry(c: Clock, t: Timer): Entry
    requires t in c.pending.stamp
  {
    var p := c.pending.stamp[t];
    Entry(t, p.deadline, c.starts, p.at, c.now, c.mode == Idle, p.missed)
  }

  function LinkUp(c: Clock, t: Timer): Clock
    requires t in c.pending.stamp
  {
    var p := c.pending;
    c.(queue := Insert(c.queue, NewEntry(c, t)), starts := c.starts + 1, active := c.active + {t},
      pending := p.(stamped := p.stamped - multiset{t}, stamp := if p.stamped[t] <= 1 then p.stamp - {t} else p.stamp))
  }

  /** A start with interrupts disabled by the caller, as the check, its callbacks and the waiting
      calls of the kernel do it. */
  function Start(c: Clock, t: Timer): Clock
    requires t in c.delay
  {
    LinkUp(Stamp(Begin(c, t), t), t)
  }

  // rt_timer_stop: the section, and the clearing of the flag behind it.

  function StopRemove(c: Clock, t: Timer): Clock { Unlink(c, t).(stopping := c.stopping + multiset{t}) }

  function StopClear(c: Clock, t: Timer): Clock { c.(active := c.active - {t}, stopping := c.stopping - multiset{t}) }

  /** A stop with interrupts disabled by the caller. */
  function Stop(c: Clock, t: Timer): Clock {
    if t in c.active then Unlink(c, t).(active := c.active - {t}) else c
  }

  /** One turn of the check loop: take the first timer if it is due, else finish. */
  function Poll(c: Clock): Clock {
    if c.queue != [] && c.queue[0].deadline <= c.now
    then c.(queue := c.queue[1..], mode := InCallback(c.queue[0].timer), log := c.log + [Fired(c.queue[0], c.now)])
    else c.(mode := Idle)
  }

  /** What the check does when the callback of `c.mode.timer` returns. */
  function Return(c: Clock): Clock
    requires c.mode.InCallback? && c.mode.timer in c.delay
  {
    var t := c.mode.timer;
    (if Restarts(c) then Start(c, t) else c.(active := c.active - {t})).(mode := Checking)
  }

  datatype Event =
    | TickEvent
    | PollEvent
    | ReturnEvent
    | StartEvent(t: Timer)
    | BeginEvent(t: Timer)
    | StampEvent(t: Timer)
    | LinkEvent(t: Timer)
    | StopEvent(t: Timer)
    | StopRemoveEvent(t: Timer)
    | StopClearEvent(t: Timer)
    | SetTime(t: Timer, delay: nat)
    | SetPeriodic(t: Timer, on: bool)

  /** What may happen next. Threads act between ticks, callbacks while they run; the timer
      must exist, and a timer being started passes the source's assertion on its delay. */
  predicate Legal(c: Clock, e: Event) {
    match e
    case TickEvent => c.mode == Idle
    case PollEvent => c.mode == Checking
    case ReturnEvent => c.mode.InCallback? && c.mode.timer in c.delay && (Restarts(c) ==> c.delay[c.mode.timer] < HALF)
    case StartEvent(t) => c.mode != Checking && t in c.delay && c.delay[t] < HALF
    case BeginEvent(t) => c.mode == Idle && t in c.delay
    case StampEvent(t) => c.mode == Idle && t in c.delay && c.delay[t] < HALF && t in c.pending.begun
    case LinkEvent(t) => c.mode == Idle && t in c.delay && t in c.pending.stamped && t in c.pending.stamp
    case StopEvent(t) => c.mode != Checking && t in c.delay
    case StopRemoveEvent(t) => c.mode == Idle && t in c.delay
    case StopClearEvent(t) => c.mode == Idle && t in c.delay && t in c.stopping
    case SetTime(t, _) => c.mode != Checking && t in c.delay
    case SetPeriodic(t, _) => c.mode != Checking && t in c.delay
  }

  /** The timer whose callback returns is started again. */
  predicate Restarts(c: Clock) { c.mode.InCallback? && c.mode.timer in c.periodic && c.mode.timer in c.active }

  /** What the check of tick `now` means for the starts in progress. */
  function Passed(stamp: map<Timer, Stamped>, now: nat): map<Timer, Stamped> {
    map t | t in stamp :: if stamp[t].deadline <= now then stamp[t].(missed := true) else stamp[t]
  }

  function Next(c: Clock, e: Event): Clock
    requires Legal(c, e)
  {
    match e
    case TickEvent =>
      c.(now := c.now + 1, mode := Checking, pending := c.pending.(stamp := Passed(c.pending.stamp, c.now + 1)))
    case PollEvent => Poll(c)
    case ReturnEvent => Return(c)
    case StartEvent(t) => Start(c, t)
    case BeginEvent(t) => Begin(c, t)
    case StampEvent(t) => Stamp(c, t)
    case LinkEvent(t) => LinkUp(c, t)
    case StopEvent(t) => Stop(c, t)
    case StopRemoveEvent(t) => StopRemove(c, t)
    case StopClearEvent(t) => StopClear(c, t)
    case SetTime(t, d) => c.(delay := c.delay[t := d])
    case SetPeriodic(t, on) => c.(periodic := if on then c.periodic + {t} else c.periodic - {t})
  }

  function Initial(delay: map<Timer, nat>, periodic: set<Timer>): Clock {
    Clock(0, [], 0, {}, periodic, delay, NO_STARTS, multiset{}, Idle, [], multiset{})
  }

  /** Runs: every event legal in the state it happens in. */
  ghost predicate Reaches(c: Clock, es: seq<Event>, d: Clock)
    decreases |es|
  {
    if es == [] then c == d else Legal(c, es[0]) && Reaches(Next(c, es[0]), es[1..], d)
  }

  // ---- invariants ----

  ghost predicate SortedQueue(q: seq<Entry>) {
    forall i, j {:trigger Before(q[i], q[j])} :: 0 <= i < j < |q| ==> Before(q[i], q[j])
  }

  predicate OtherTimer(a: Entry, b: Entry) { a.timer != b.timer }

  ghost predicate OneEach(q: seq<Entry>) {
    forall i, j {:trigger OtherTimer(q[i], q[j])} :: 0 <= i < j < |q| ==> OtherTimer(q[i], q[j])
  }

  /** The ticks of an entry fit together. */
  predicate EntryOk(e: Entry) {
    && e.started <= e.deadline && e.started <= e.linked && (!e.idle ==> e.linked == e.started)
    && (e.missed <==> e.started < e.linked && e.deadline <= e.linked)
  }

  /** Punctuality of a waiting entry: between ticks nothing is overdue except what was linked
      since the last check; during a check only that is left over. */
  predicate Timely(e: Entry, now: nat, mode: Mode) {
    && EntryOk(e) && e.linked <= now
    && (mode == Idle ==> e.deadline > now || (e.idle && e.linked == now))
    && (mode != Idle ==> (e.deadline >= now || (e.idle && e.linked == now - 1)) && (e.idle ==> e.linked < now))
  }

  predicate Linked(c: Clock, t: Timer) { exists i :: 0 <= i < |c.queue| && c.queue[i].timer == t }

  lemma {:induction false} LinkLinks(c: Clock, t: Timer, u: Timer)
    requires t in c.pending.stamp
    ensures Linked(LinkUp(c, t), u) <==> u == t || Linked(c, u)
  {
    var q, e, d := c.queue, NewEntry(c, t), LinkUp(c, t);
    InsertContents(q, e);
    if u == t {
      assert e in d.queue;
    } else {
      if i :| 0 <= i < |q| && q[i].timer == u { assert q[i] in d.queue; }
      if i :| 0 <= i < |d.queue| && d.queue[i].timer == u { assert d.queue[i] in q; }
    }
  }

  lemma {:induction false} StopLinks(c: Clock, t: Timer, u: Timer)
    ensures Linked(Unlink(c, t), u) <==> u != t && Linked(c, u)
  {
    var d := Unlink(c, t);
    if i :| 0 <= i < |d.queue| && d.queue[i].timer == u { assert d.queue[i] in c.queue; }
    if u != t {
      if i :| 0 <= i < |c.queue| && c.queue[i].timer == u { assert c.queue[i] in d.queue; }
    }
  }

  lemma {:induction false} StampLinks(c: Clock, t: Timer, u: Timer)
    requires t in c.delay
    ensures Linked(Stamp(c, t), u) <==> Linked(c, u)
    ensures !Linked(c, t) ==> Stamp(c, t).queue == c.queue
  {
    var q, r := c.queue, Stamp(c, t).queue;
    if i :| 0 <= i < |q| && q[i].timer == u { assert r[i].timer == u; }
    if i :| 0 <= i < |r| && r[i].timer == u { assert q[i].timer == u; }
    if !Linked(c, t) { forall i | 0 <= i < |q| ensures r[i] == q[i] {} }
  }

  lemma {:induction false} StartLinks(c: Clock, t: Timer, u: Timer)
    requires t in c.delay
    ensures Linked(Start(c, t), u) <==> u == t || Linked(c, u)
  {
    var s := Stamp(Begin(c, t), t);
    LinkLinks(s, t, u);
    StopLinks(c, t, u);
    StampLinks(Begin(c, t), t, u);
    assert Linked(Begin(c, t), u) <==> Linked(Unlink(c, t), u);
  }

  /** A start in progress: the timer is neither linked nor flagged active. */
  predicate PendingOk(c: Clock, t: Timer) {
    && (InProgress(c.pending, t) ==> t in c.delay && !Linked(c, t) && t !in c.active)
    && (t in c.pending.stamped <==> t in c.pending.stamp)
    && (t in c.pending.stamp ==> StampFits(c.pending.stamp[t], c.now))
  }

  predicate StampFits(p: Stamped, now: nat) {
    p.at <= p.deadline && p.at <= now && (p.missed <==> p.at < now && p.deadline <= now)
  }

  predicate Known(c: Clock, i: nat)
    requires i < |c.queue|
  {
    c.queue[i].timer in c.delay && c.queue[i].order < c.starts
  }

  ghost predicate QueueInv(c: Clock) {
    && SortedQueue(c.queue)
    && OneEach(c.queue)
    && (forall i: nat {:trigger Known(c, i)} :: i < |c.queue| ==> Known(c, i))
    && (forall i {:trigger Timely(c.queue[i], c.now, c.mode)} :: 0 <= i < |c.queue| ==>
       Timely(c.queue[i], c.now, c.mode))
    && (c.mode.InCallback? ==> c.mode.timer in c.delay)
  }

  ghost predicate Inv(c: Clock) {
    QueueInv(c) && forall t {:trigger PendingOk(c, t)} :: PendingOk(c, t)
  }

  /** The firing log of a run so far: in the order of the ticks, and within one check in the
      order of the queue, ahead of what is still waiting in it. */
  ghost predicate LogInv(c: Clock) {
    && (forall i, j {:trigger InOrder(c.log[i], c.log[j])} :: 0 <= i < j < |c.log| ==> InOrder(c.log[i], c.log[j]))
    && (forall i {:trigger FiredOk(c.log[i], c.now, c.starts)} :: 0 <= i < |c.log| ==>
       FiredOk(c.log[i], c.now, c.starts))
    && (c.mode != Idle ==> forall i, j {:trigger Ahead(c.log[i], c.queue[j], c.now)} ::
          0 <= i < |c.log| && 0 <= j < |c.queue| ==> Ahead(c.log[i], c.queue[j], c.now))
  }

  predicate InOrder(f: Fired, g: Fired) { f.at <= g.at && (f.at == g.at ==> Before(f.entry, g.entry)) }

  predicate Ahead(f: Fired, e: Entry, now: nat) { f.at == now ==> Before(f.entry, e) }

  /** A timer fires at its deadline, or in the first check after it was linked. */
  predicate FiredOk(f: Fired, now: nat, starts: nat) {
    var e := f.entry;
    && EntryOk(e) && f.at <= now && e.order < starts
    && f.at == if e.idle && e.deadline <= e.linked then e.linked + 1 else e.deadline
  }

  /** No firing is early. A firing is at its deadline exactly when no check at or past the
      deadline ran between the computation of the deadline and the linking, unless it was
      started with no delay between two ticks; a late one is in the check after the linking. */
  lemma {:induction false} Punctual(f: Fired, now: nat, starts: nat)
    requires FiredOk(f, now, starts)
    ensures f.at >= f.entry.deadline
    ensures f.at == f.entry.deadline <==> !f.entry.missed && !(f.entry.idle && f.entry.deadline == f.entry.started)
    ensures f.at != f.entry.deadline ==> f.at == f.entry.linked + 1
  {
    assert f.entry.idle && f.entry.deadline <= f.entry.linked && !f.entry.missed ==>
      f.entry.deadline == f.entry.started;
  }

  /** A firing at its deadline comes after everything with an earlier deadline, and after
      earlier starts with the same one. */
  lemma {:induction false} PunctualInOrder(c: Clock, i: nat, j: nat)
    requires LogInv(c) && i < j < |c.log| && c.log[j].at == c.log[j].entry.deadline
    ensures Before(c.log[i].entry, c.log[j].entry)
  {
    assert InOrder(c.log[i], c.log[j]) && FiredOk(c.log[i], c.now, c.starts);
    Punctual(c.log[i], c.now, c.starts);
  }

  lemma {:induction false} InsertContents(q: seq<Entry>, e: Entry)
    ensures |Insert(q, e)| == |q| + 1
    ensures forall x :: x in Insert(q, e) <==> x in q || x == e
  {
    if q != [] && q[0].deadline <= e.deadline {
      InsertContents(q[1..], e);
      assert q == [q[0]] + q[1..];
    }
  }

  lemma {:induction false} InsertSorted(q: seq<Entry>, e: Entry)
    requires SortedQueue(q) && forall i :: 0 <= i < |q| ==> q[i].order < e.order
    ensures SortedQueue(Insert(q, e))
  {
    if q != [] && q[0].deadline <= e.deadline {
      InsertSorted(q[1..], e);
      InsertContents(q[1..], e);
      var r := Insert(q[1..], e);
      forall j | 0 <= j < |r| ensures Before(q[0], r[j]) { assert r[j] in r; }
    }
    var n := Insert(q, e);
    forall i, j | 0 <= i < j < |n| ensures Before(n[i], n[j]) {
      assert q != [] && q[0].deadline > e.deadline && i > 0 ==> Before(q[i - 1], q[j - 1]);
      assert q != [] && q[0].deadline > e.deadline && j > 1 ==> Before(q[0], q[j - 1]);
      assert q != [] && q[0].deadline <= e.deadline && i > 0 ==>
        Before(Insert(q[1..], e)[i - 1], Insert(q[1..], e)[j - 1]);
    }
  }

  lemma {:induction false} InsertOneEach(q: seq<Entry>, e: Entry)
    requires OneEach(q) && forall i :: 0 <= i < |q| ==> q[i].timer != e.timer
    ensures OneEach(Insert(q, e))
  {
    if q != [] && q[0].deadline <= e.deadline {
      InsertOneEach(q[1..], e);
      InsertContents(q[1..], e);
      var r := Insert(q[1..], e);
      forall j | 0 <= j < |r| ensures OtherTimer(q[0], r[j]) {
        assert r[j] in r;
        if r[j] != e {
          var k :| 0 < k < |q| && q[k] == r[j];
          assert OtherTimer(q[0], q[k]);
        }
      }
    }
  }

  lemma {:induction false} WithoutKeeps(q: seq<Entry>, t: Timer)
    ensures SortedQueue(q) ==> SortedQueue(Without(q, t))
    ensures OneEach(q) ==> OneEach(Without(q, t))
  {
    if q != [] {
      WithoutKeeps(q[1..], t);
      var r := Without(q[1..], t);
      if q[0].timer != t {
        forall j | 0 <= j < |r|
          ensures SortedQueue(q) ==> Before(q[0], r[j])
          ensures OneEach(q) ==> OtherTimer(q[0], r[j])
        {
          assert r[j] in q[1..];
          var k :| 0 < k < |q| && q[k] == r[j];
          assert (SortedQueue(q) ==> Before(q[0], q[k])) && (OneEach(q) ==> OtherTimer(q[0], q[k]));
        }
      }
    }
  }

  lemma {:induction false} UnlinkKeepsInv(c: Clock, t: Timer)
    requires Inv(c)
    ensures Inv(Unlink(c, t)) && !Linked(Unlink(c, t), t)
  {
    WithoutKeeps(c.queue, t);
    var d, q := Unlink(c, t), Without(c.queue, t);
    forall i | 0 <= i < |q| ensures Known(d, i) && Timely(q[i], d.now, d.mode) && q[i].timer != t {
      assert q[i] in q;
      var k :| 0 <= k < |c.queue| && c.queue[k] == q[i];
      assert Known(c, k) && Timely(c.queue[k], c.now, c.mode);
    }
    forall u ensures PendingOk(d, u) {
      assert PendingOk(c, u);
      StopLinks(c, t, u);
    }
  }

  lemma {:induction false} BeginKeepsInv(c: Clock, t: Timer)
    requires Inv(c) && t in c.delay
    ensures Inv(Begin(c, t))
  {
    UnlinkKeepsInv(c, t);
    var u, d := Unlink(c, t), Begin(c, t);
    forall i: nat | i < |d.queue| ensures Known(d, i) { assert Known(u, i); }
    forall x ensures PendingOk(d, x) { assert PendingOk(u, x) && (Linked(d, x) <==> Linked(u, x)); }
  }

  lemma {:induction false} StampKeepsInv(c: Clock, t: Timer)
    requires Inv(c) && t in c.delay && t in c.pending.begun
    ensures Inv(Stamp(c, t)) && Stamp(c, t).queue == c.queue
  {
    var d := Stamp(c, t);
    assert PendingOk(c, t);
    StampLinks(c, t, t);
    forall i: nat | i < |d.queue| ensures Known(d, i) { assert Known(c, i); }
    forall x ensures PendingOk(d, x) { assert PendingOk(c, x) && (Linked(d, x) <==> Linked(c, x)); }
  }

  /** A start is linked between checks, or in the tick its deadline was computed in. */
  predicate Linkable(c: Clock, t: Timer) {
    t in c.pending.stamped && t in c.pending.stamp && (c.mode == Idle || c.pending.stamp[t].at == c.now)
  }

  /** Another start of the timer is in progress. */
  predicate Contended(p: Starts, t: Timer) { t in p.begun || p.stamped[t] > 1 }

  lemma {:induction false} LinkExactly(c: Clock, t: Timer)
    requires Inv(c) && Linkable(c, t)
    ensures Inv(LinkUp(c, t)) <==> !Contended(c.pending, t)
  {
    LinkLinks(c, t, t);
    var d := LinkUp(c, t);
    if Contended(c.pending, t) {
      assert InProgress(d.pending, t) && !PendingOk(d, t);
    } else {
      LinkKeepsInv(c, t);
    }
  }

  lemma {:induction false} LinkKeepsInv(c: Clock, t: Timer)
    requires Inv(c) && Linkable(c, t) && !Contended(c.pending, t)
    ensures Inv(LinkUp(c, t))
  {
    var d := LinkUp(c, t);
    assert PendingOk(c, t);
    LinkKeepsQueue(c, t);
    forall u ensures PendingOk(d, u) {
      assert PendingOk(c, u);
      LinkLinks(c, t, u);
    }
  }

  /** Whatever else is in progress, the queue stays right when the timer is not in it. */
  lemma {:induction false} LinkKeepsQueue(c: Clock, t: Timer)
    requires QueueInv(c) && Linkable(c, t) && t in c.delay && StampFits(c.pending.stamp[t], c.now) && !Linked(c, t)
    ensures QueueInv(LinkUp(c, t))
  {
    var q, e, d := c.queue, NewEntry(c, t), LinkUp(c, t);
    forall i | 0 <= i < |q| ensures q[i].timer != t && q[i].order < e.order { assert Known(c, i); }
    InsertSorted(q, e);
    InsertOneEach(q, e);
    InsertContents(q, e);
    forall i | 0 <= i < |d.queue| ensures Known(d, i) && Timely(d.queue[i], d.now, d.mode) {
      assert d.queue[i] in d.queue;
      if d.queue[i] != e {
        var k :| 0 <= k < |q| && q[k] == d.queue[i];
        assert Known(c, k) && Timely(q[k], c.now, c.mode);
      }
    }
  }

  lemma {:induction false} StartExactly(c: Clock, t: Timer)
    requires Inv(c) && t in c.delay
    ensures Inv(Start(c, t)) <==> !InProgress(c.pending, t)
  {
    BeginKeepsInv(c, t);
    var b := Begin(c, t);
    StampKeepsInv(b, t);
    var s := Stamp(b, t);
    assert PendingOk(c, t) && (Contended(s.pending, t) <==> InProgress(c.pending, t));
    LinkExactly(s, t);
  }

  lemma {:induction false} TickKeepsInv(c: Clock)
    requires Inv(c) && Legal(c, TickEvent)
    ensures Inv(Next(c, TickEvent))
  {
    var d := Next(c, TickEvent);
    forall i: nat | i < |d.queue| ensures Known(d, i) && Timely(d.queue[i], d.now, d.mode) {
      assert Known(c, i) && Timely(c.queue[i], c.now, c.mode);
    }
    forall t ensures PendingOk(d, t) { assert PendingOk(c, t) && (Linked(d, t) <==> Linked(c, t)); }
  }

  lemma {:induction false} PollKeepsInv(c: Clock)
    requires Inv(c) && c.mode == Checking
    ensures Inv(Poll(c))
  {
    var d := Poll(c);
    var k := |c.queue| - |d.queue|;
    forall i: nat | i < |d.queue| ensures Known(d, i) && Timely(d.queue[i], d.now, d.mode) {
      assert Known(c, i + k) && Timely(c.queue[i + k], c.now, c.mode);
      assert i + k > 0 ==> Before(c.queue[0], c.queue[i + k]);
    }
    forall i, j | 0 <= i < j < |d.queue| ensures Before(d.queue[i], d.queue[j]) && OtherTimer(d.queue[i], d.queue[j]) {
      assert Before(c.queue[i + k], c.queue[j + k]) && OtherTimer(c.queue[i + k], c.queue[j + k]);
    }
    forall t ensures PendingOk(d, t) {
      assert PendingOk(c, t);
      if i :| 0 <= i < |d.queue| && d.queue[i].timer == t { assert c.queue[i + k].timer == t; }
    }
    if k == 1 { assert Known(c, 0); }
  }

  /** The same queue and starts in progress, and a mode that asks no more of them. */
  lemma {:induction false} SameQueue(c: Clock, d: Clock)
    requires Inv(c) && d.queue == c.queue && d.pending == c.pending && d.now == c.now && d.starts == c.starts
    requires d.delay.Keys >= c.delay.Keys && d.active <= c.active
      && (d.mode == c.mode || (c.mode != Idle && d.mode == Checking))
    ensures Inv(d)
  {
    forall i: nat | i < |d.queue| ensures Known(d, i) && Timely(d.queue[i], d.now, d.mode) {
      assert Known(c, i) && Timely(c.queue[i], c.now, c.mode);
    }
    forall t ensures PendingOk(d, t) { assert PendingOk(c, t) && (Linked(d, t) <==> Linked(c, t)); }
  }

  /** A timer is linked while another start of it is in progress. */
  predicate Overlaps(c: Clock, e: Event) {
    || (e.StartEvent? && InProgress(c.pending, e.t))
    || (e.LinkEvent? && Contended(c.pending, e.t))
  }

  /** Every step keeps the queue sorted, one entry per timer, every entry timely, and the starts
      in progress unlinked, exactly when it does not link a timer of which another start is in
      progress. */
  lemma {:induction false} NextExactly(c: Clock, e: Event)
    requires Inv(c) && Legal(c, e)
    ensures Inv(Next(c, e)) <==> !Overlaps(c, e)
  {
    match e
    case TickEvent => TickKeepsInv(c);
    case PollEvent => PollKeepsInv(c);
    case ReturnEvent =>
      if Restarts(c) {
        assert PendingOk(c, c.mode.timer);
        StartExactly(c, c.mode.timer);
        SameQueue(Start(c, c.mode.timer), Next(c, e));
      } else {
        SameQueue(c, Next(c, e));
      }
    case StartEvent(t) => StartExactly(c, t);
    case BeginEvent(t) => BeginKeepsInv(c, t);
    case StampEvent(t) => StampKeepsInv(c, t);
    case LinkEvent(t) => LinkExactly(c, t);
    case StopEvent(t) =>
      UnlinkKeepsInv(c, t);
      if t in c.active { SameQueue(Unlink(c, t), Next(c, e)); }
    case StopRemoveEvent(t) =>
      UnlinkKeepsInv(c, t);
      SameQueue(Unlink(c, t), Next(c, e));
    case StopClearEvent(_) => SameQueue(c, Next(c, e));
    case SetTime(_, _) => SameQueue(c, Next(c, e));
    case SetPeriodic(_, _) => SameQueue(c, Next(c, e));
  }

  /** The timer is not flagged while a start of it is in progress, so a stop does nothing then. */
  lemma {:induction false} StopMissesStart(c: Clock, t: Timer)
    requires Inv(c) && InProgress(c.pending, t)
    ensures Stop(c, t) == c
  {
    assert PendingOk(c, t);
  }

  /** Linking a timer that is linked already puts it in the queue twice. */
  lemma {:induction false} LinkedOnce(c: Clock, t: Timer)
    requires OneEach(c.queue) && t in c.pending.stamp
    ensures OneEach(LinkUp(c, t).queue) <==> !Linked(c, t)
  {
    var q, e := c.queue, NewEntry(c, t);
    if Linked(c, t) {
      var k :| 0 <= k < |q| && q[k].timer == t;
      InsertedTwice(q, e, k);
    } else {
      InsertOneEach(q, e);
    }
  }

  lemma {:induction false} InsertedTwice(q: seq<Entry>, e: Entry, k: nat)
    requires k < |q| && q[k].timer == e.timer
    ensures !OneEach(Insert(q, e))
  {
    var r := Insert(q, e);
    if q[0].deadline > e.deadline {
      assert !OtherTimer(r[0], r[k + 1]);
    } else if k == 0 {
      InsertContents(q[1..], e);
      var s := Insert(q[1..], e);
      assert e in s;
      var i :| 0 <= i < |s| && s[i] == e;
      assert !OtherTimer(r[0], r[i + 1]);
    } else {
      InsertedTwice(q[1..], e, k - 1);
      var s := Insert(q[1..], e);
      var i, j :| 0 <= i < j < |s| && !OtherTimer(s[i], s[j]);
      assert !OtherTimer(r[i + 1], r[j + 1]);
    }
  }

  // ---- the log ----

  /** Fewer waiting entries, and nothing fired. */
  lemma {:induction false} FewerWaiting(c: Clock, d: Clock)
    requires LogInv(c) && d.log == c.log && d.now == c.now && d.starts >= c.starts
      && (c.mode == Idle ==> d.mode == Idle)
    requires forall e {:trigger e in d.queue} :: e in d.queue ==> e in c.queue
    ensures LogInv(d)
  {
    forall i, j | 0 <= i < j < |d.log| ensures InOrder(d.log[i], d.log[j]) { assert InOrder(c.log[i], c.log[j]); }
    forall i | 0 <= i < |d.log| ensures FiredOk(d.log[i], d.now, d.starts) {
      assert FiredOk(c.log[i], c.now, c.starts);
    }
    if d.mode != Idle {
      forall i, j | 0 <= i < |d.log| && 0 <= j < |d.queue| ensures Ahead(d.log[i], d.queue[j], d.now) {
        assert d.queue[j] in d.queue;
        var k :| 0 <= k < |c.queue| && c.queue[k] == d.queue[j];
        assert Ahead(c.log[i], c.queue[k], c.now);
      }
    }
  }

  lemma {:induction false} LinkKeepsLog(c: Clock, t: Timer)
    requires Inv(c) && LogInv(c) && Linkable(c, t)
    ensures LogInv(LinkUp(c, t))
  {
    var q, e, d := c.queue, NewEntry(c, t), LinkUp(c, t);
    InsertContents(q, e);
    assert PendingOk(c, t);
    forall i, j | 0 <= i < j < |d.log| ensures InOrder(d.log[i], d.log[j]) { assert InOrder(c.log[i], c.log[j]); }
    forall i | 0 <= i < |d.log| ensures FiredOk(d.log[i], d.now, d.starts) {
      assert FiredOk(c.log[i], c.now, c.starts);
    }
    if d.mode != Idle {
      forall i, j | 0 <= i < |d.log| && 0 <= j < |d.queue| ensures Ahead(d.log[i], d.queue[j], d.now) {
        assert d.queue[j] in d.queue;
        if d.queue[j] == e {
          assert FiredOk(c.log[i], c.now, c.starts);
          Punctual(c.log[i], c.now, c.starts);
        } else {
          var k :| 0 <= k < |q| && q[k] == d.queue[j];
          assert Ahead(c.log[i], q[k], c.now);
        }
      }
    }
  }

  lemma {:induction false} StartKeepsLog(c: Clock, t: Timer)
    requires Inv(c) && LogInv(c) && t in c.delay
    ensures LogInv(Start(c, t))
  {
    BeginKeepsInv(c, t);
    var b := Begin(c, t);
    StampKeepsInv(b, t);
    FewerWaiting(c, b);
    FewerWaiting(b, Stamp(b, t));
    LinkKeepsLog(Stamp(b, t), t);
  }

  lemma {:induction false} PollKeepsLog(c: Clock)
    requires Inv(c) && LogInv(c) && c.mode == Checking
    ensures LogInv(Poll(c))
  {
    var d, n := Poll(c), |c.log|;
    if d.mode.InCallback? {
      var f := d.log[n];
      assert Timely(c.queue[0], c.now, c.mode) && Known(c, 0);
      assert FiredOk(f, d.now, d.starts);
      forall i, j | 0 <= i < j < |d.log| ensures InOrder(d.log[i], d.log[j]) {
        if j < n {
          assert InOrder(c.log[i], c.log[j]);
        } else {
          assert FiredOk(c.log[i], c.now, c.starts) && Ahead(c.log[i], c.queue[0], c.now);
        }
      }
      forall i | 0 <= i < |d.log| ensures FiredOk(d.log[i], d.now, d.starts) {
        assert i < n ==> FiredOk(c.log[i], c.now, c.starts);
      }
      forall i, j | 0 <= i < |d.log| && 0 <= j < |d.queue| ensures Ahead(d.log[i], d.queue[j], d.now) {
        if i < n { assert Ahead(c.log[i], c.queue[j + 1], c.now); } else { assert Before(c.queue[0], c.queue[j + 1]); }
      }
    } else {
      FewerWaiting(c, d);
    }
  }

  lemma {:induction false} TickKeepsLog(c: Clock)
    requires LogInv(c) && Legal(c, TickEvent)
    ensures LogInv(Next(c, TickEvent))
  {
    var d := Next(c, TickEvent);
    forall i, j | 0 <= i < j < |d.log| ensures InOrder(d.log[i], d.log[j]) { assert InOrder(c.log[i], c.log[j]); }
    forall i | 0 <= i < |d.log| ensures FiredOk(d.log[i], d.now, d.starts) {
      assert FiredOk(c.log[i], c.now, c.starts);
    }
    forall i, j | 0 <= i < |d.log| && 0 <= j < |d.queue| ensures Ahead(d.log[i], d.queue[j], d.now) {
      assert FiredOk(c.log[i], c.now, c.starts);
    }
  }

  /** Every step keeps the log in the order of the ticks, within a check in queue order, and
      every firing at its deadline or in the first check after it was linked. */
  lemma {:induction false} NextKeepsLog(c: Clock, e: Event)
    requires Inv(c) && LogInv(c) && Legal(c, e)
    ensures LogInv(Next(c, e))
  {
    match e
    case TickEvent => TickKeepsLog(c);
    case PollEvent => PollKeepsLog(c);
    case ReturnEvent =>
      if Restarts(c) {
        StartKeepsLog(c, c.mode.timer);
        FewerWaiting(Start(c, c.mode.timer), Next(c, e));
      } else {
        FewerWaiting(c, Next(c, e));
      }
    case StartEvent(t) => StartKeepsLog(c, t);
    case LinkEvent(t) => LinkKeepsLog(c, t);
    case BeginEvent(t) => FewerWaiting(c, Next(c, e));
    case StampEvent(t) =>
      StampKeepsInv(c, t);
      FewerWaiting(c, Next(c, e));
    case StopEvent(t) => FewerWaiting(c, Next(c, e));
    case StopRemoveEvent(_) => FewerWaiting(c, Next(c, e));
    case StopClearEvent(_) => FewerWaiting(c, Next(c, e));
    case SetTime(_, _) => FewerWaiting(c, Next(c, e));
    case SetPeriodic(_, _) => FewerWaiting(c, Next(c, e));
  }

  ghost predicate Run(c: Clock, es: seq<Event>)
    decreases |es|
  {
    es != [] ==> Legal(c, es[0]) && Run(Next(c, es[0]), es[1..])
  }

  ghost predicate InvThroughout(c: Clock, es: seq<Event>)
    requires Run(c, es)
    decreases |es|
  {
    Inv(c) && (es != [] ==> InvThroughout(Next(c, es[0]), es[1..]))
  }

  ghost predicate NoOverlap(c: Clock, es: seq<Event>)
    requires Run(c, es)
    decreases |es|
  {
    es != [] ==> !Overlaps(c, es[0]) && NoOverlap(Next(c, es[0]), es[1..])
  }

  /** The queue is right throughout a run exactly when no timer is linked while another start of
      it is in progress. */
  lemma {:induction false} InvOverRuns(c: Clock, es: seq<Event>)
    requires Inv(c) && Run(c, es)
    ensures InvThroughout(c, es) <==> NoOverlap(c, es)
    decreases |es|
  {
    if es != [] {
      NextExactly(c, es[0]);
      if Inv(Next(c, es[0])) { InvOverRuns(Next(c, es[0]), es[1..]); }
    }
  }

  /** Over every such run: timers fire in the order of the ticks, in one check in (deadline,
      start) order, each at its deadline or in the first check after it was linked. */
  lemma {:induction false} RunsFireInOrder(c: Clock, es: seq<Event>, d: Clock)
    requires Inv(c) && LogInv(c) && Reaches(c, es, d) && Run(c, es) && NoOverlap(c, es)
    ensures Inv(d) && LogInv(d)
    decreases |es|
  {
    if es != [] {
      NextExactly(c, es[0]);
      NextKeepsLog(c, es[0]);
      RunsFireInOrder(Next(c, es[0]), es[1..], d);
    }
  }

  lemma {:induction false} ReachesRuns(c: Clock, es: seq<Event>, d: Clock)
    requires Reaches(c, es, d)
    ensures Run(c, es)
    decreases |es|
  {
    if es != [] { ReachesRuns(Next(c, es[0]), es[1..], d); }
  }

  /** No timer is started that is being started. */
  ghost predicate Apart(c: Clock, es: seq<Event>)
    requires Run(c, es)
    decreases |es|
  {
    es != [] ==>
      && (es[0].StartEvent? || es[0].BeginEvent? ==> !InProgress(c.pending, es[0].t))
      && Apart(Next(c, es[0]), es[1..])
  }

  /** At most one start of each timer is in progress. */
  ghost predicate Single(p: Starts) {
    forall t {:trigger p.begun[t]} {:trigger p.stamped[t]} :: p.begun[t] + p.stamped[t] <= 1
  }

  lemma {:induction false} StaysSingle(c: Clock, e: Event)
    requires Inv(c) && Single(c.pending) && Legal(c, e)
      && (e.StartEvent? || e.BeginEvent? ==> !InProgress(c.pending, e.t))
    ensures !Overlaps(c, e) && Single(Next(c, e).pending)
  {
    if e.LinkEvent? { assert c.pending.begun[e.t] + c.pending.stamped[e.t] <= 1; }
    if e.ReturnEvent? && Restarts(c) { assert PendingOk(c, c.mode.timer); }
  }

  /** Callers that start no timer that is being started are safe. */
  lemma {:induction false} ApartRuns(c: Clock, es: seq<Event>)
    requires Inv(c) && Single(c.pending) && Run(c, es) && Apart(c, es)
    ensures NoOverlap(c, es)
    decreases |es|
  {
    if es != [] {
      StaysSingle(c, es[0]);
      NextExactly(c, es[0]);
      ApartRuns(Next(c, es[0]), es[1..]);
    }
  }

  // ---- one entry per timer, over every run ----

  /** The event links a timer that is linked. */
  predicate LinksTwice(c: Clock, e: Event) { e.LinkEvent? && Linked(c, e.t) }

  lemma {:induction false} NextOnce(c: Clock, e: Event)
    requires OneEach(c.queue) && Legal(c, e)
    ensures OneEach(Next(c, e).queue) <==> !LinksTwice(c, e)
  {
    match e
    case PollEvent =>
      var d := Next(c, e);
      var k := |c.queue| - |d.queue|;
      forall i, j | 0 <= i < j < |d.queue| ensures OtherTimer(d.queue[i], d.queue[j]) {
        assert OtherTimer(c.queue[i + k], c.queue[j + k]);
      }
    case ReturnEvent => if Restarts(c) { StartOnce(c, c.mode.timer); }
    case StartEvent(t) => StartOnce(c, t);
    case LinkEvent(t) => LinkedOnce(c, t);
    case StampEvent(t) => StampOnce(c, t);
    case BeginEvent(t) => WithoutKeeps(c.queue, t);
    case StopEvent(t) => WithoutKeeps(c.queue, t);
    case StopRemoveEvent(t) => WithoutKeeps(c.queue, t);
    case StopClearEvent(_) =>
    case TickEvent =>
    case SetTime(_, _) =>
    case SetPeriodic(_, _) =>
  }

  lemma {:induction false} StampOnce(c: Clock, t: Timer)
    requires OneEach(c.queue) && t in c.delay
    ensures OneEach(Stamp(c, t).queue)
  {
    var q, r := c.queue, Stamp(c, t).queue;
    forall i, j | 0 <= i < j < |r| ensures OtherTimer(r[i], r[j]) { assert OtherTimer(q[i], q[j]); }
  }

  lemma {:induction false} StartOnce(c: Clock, t: Timer)
    requires OneEach(c.queue) && t in c.delay
    ensures OneEach(Start(c, t).queue)
  {
    var b := Begin(c, t);
    WithoutKeeps(c.queue, t);
    StampOnce(b, t);
    StopLinks(c, t, t);
    assert !Linked(b, t) by { assert Linked(b, t) <==> Linked(Unlink(c, t), t); }
    StampLinks(b, t, t);
    LinkedOnce(Stamp(b, t), t);
  }

  ghost predicate OnceThroughout(c: Clock, es: seq<Event>)
    requires Run(c, es)
    decreases |es|
  {
    OneEach(c.queue) && (es != [] ==> OnceThroughout(Next(c, es[0]), es[1..]))
  }

  ghost predicate NeverTwice(c: Clock, es: seq<Event>)
    requires Run(c, es)
    decreases |es|
  {
    es != [] ==> !LinksTwice(c, es[0]) && NeverTwice(Next(c, es[0]), es[1..])
  }

  /** Whatever starts overlap, a timer is in the queue once throughout a run exactly when it is
      unlinked whenever it is linked. */
  lemma {:induction false} OnceOverRuns(c: Clock, es: seq<Event>)
    requires OneEach(c.queue) && Run(c, es)
    ensures OnceThroughout(c, es) <==> NeverTwice(c, es)
    decreases |es|
  {
    if es != [] {
      NextOnce(c, es[0]);
      if OneEach(Next(c, es[0]).queue) { OnceOverRuns(Next(c, es[0]), es[1..]); }
    }
  }

  // ---- every start has exactly one fate ----

  function FiredOrders(log: seq<Fired>): multiset<nat> {
    if log == [] then multiset{} else FiredOrders(log[..|log| - 1]) + multiset{log[|log| - 1].entry.order}
  }

  function UpTo(n: nat): (r: multiset<nat>)
    ensures forall k: nat :: r[k] == if k < n then 1 else 0
  {
    if n == 0 then multiset{} else UpTo(n - 1) + multiset{n - 1}
  }

  /** Conservation: of the starts so far, each is waiting, has fired or was cancelled, and
      only one of these, once. */
  ghost predicate Conserved(c: Clock) {
    Orders(c.queue) + FiredOrders(c.log) + c.cancelled == UpTo(c.starts)
  }

  lemma {:induction false} InsertOrders(q: seq<Entry>, e: Entry)
    ensures Orders(Insert(q, e)) == Orders(q) + multiset{e.order}
  {
    var r := Insert(q, e);
    if q == [] || q[0].deadline > e.deadline {
      assert r[1..] == q;
    } else {
      InsertOrders(q[1..], e);
      assert r[1..] == Insert(q[1..], e);
    }
  }

  lemma {:induction false} WithoutOrders(q: seq<Entry>, t: Timer)
    ensures Orders(Without(q, t)) + OrdersOf(q, t) == Orders(q)
  {
    if q != [] {
      WithoutOrders(q[1..], t);
      if q[0].timer != t { assert Without(q, t)[1..] == Without(q[1..], t); }
    }
  }

  lemma {:induction false} LinkConserves(c: Clock, t: Timer)
    requires Conserved(c) && t in c.pending.stamp
    ensures Conserved(LinkUp(c, t))
  {
    InsertOrders(c.queue, NewEntry(c, t));
  }

  lemma {:induction false} RestampedOrders(q: seq<Entry>, t: Timer, d: nat)
    ensures Orders(Restamped(q, t, d)) == Orders(q)
  {
    if q != [] {
      RestampedOrders(q[1..], t, d);
      assert Restamped(q, t, d)[1..] == Restamped(q[1..], t, d);
    }
  }

  lemma {:induction false} StampConserves(c: Clock, t: Timer)
    requires Conserved(c) && t in c.delay
    ensures Conserved(Stamp(c, t))
  {
    RestampedOrders(c.queue, t, c.now + c.delay[t]);
  }

  lemma {:induction false} StartConserves(c: Clock, t: Timer)
    requires Conserved(c) && t in c.delay
    ensures Conserved(Start(c, t))
  {
    WithoutOrders(c.queue, t);
    StampConserves(Begin(c, t), t);
    LinkConserves(Stamp(Begin(c, t), t), t);
  }

  lemma PollConserves(c: Clock)
    requires Conserved(c)
    ensures Conserved(Poll(c))
  {
    var d := Poll(c);
    if d.mode.InCallback? { assert d.log[..|d.log| - 1] == c.log; }
  }

  lemma {:induction false} SameOrders(c: Clock, d: Clock)
    requires Conserved(c) && d.queue == c.queue && d.log == c.log && d.cancelled == c.cancelled && d.starts == c.starts
    ensures Conserved(d)
  {
  }

  lemma {:induction false} UnlinkConserves(c: Clock, t: Timer)
    requires Conserved(c)
    ensures Conserved(Unlink(c, t))
  {
    WithoutOrders(c.queue, t);
  }

  lemma {:induction false} NextConserves(c: Clock, e: Event)
    requires Conserved(c) && Legal(c, e)
    ensures Conserved(Next(c, e))
  {
    hide Conserved;
    var d := Next(c, e);
    match e
    case PollEvent => PollConserves(c);
    case ReturnEvent =>
      if Restarts(c) {
        StartConserves(c, c.mode.timer);
        SameOrders(Start(c, c.mode.timer), d);
      } else {
        SameOrders(c, d);
      }
    case StartEvent(t) => StartConserves(c, t);
    case LinkEvent(t) => LinkConserves(c, t);
    case BeginEvent(t) =>
      UnlinkConserves(c, t);
      SameOrders(Unlink(c, t), d);
    case StopEvent(t) =>
      UnlinkConserves(c, t);
      SameOrders(if t in c.active then Unlink(c, t) else c, d);
    case StopRemoveEvent(t) =>
      UnlinkConserves(c, t);
      SameOrders(Unlink(c, t), d);
    case StopClearEvent(_) => SameOrders(c, d);
    case TickEvent => SameOrders(c, d);
    case StampEvent(t) => StampConserves(c, t);
    case SetTime(_, _) => SameOrders(c, d);
    case SetPeriodic(_, _) => SameOrders(c, d);
  }

  /** The whole story of every run from the initial state: no start is lost or served twice.
      Throughout the run the queue is right exactly when no timer is linked while another start
      of it is in progress. Then the log is in the order of the ticks and in one check in
      (deadline, start) order, every firing is at its deadline or in the first check after it was
      linked, and nothing else waiting is overdue. */
  lemma {:induction false} EveryRun(delay: map<Timer, nat>, periodic: set<Timer>, es: seq<Event>, d: Clock)
    requires Reaches(Initial(delay, periodic), es, d)
    ensures Conserved(d) && Run(Initial(delay, periodic), es)
    ensures InvThroughout(Initial(delay, periodic), es) <==> NoOverlap(Initial(delay, periodic), es)
    ensures NoOverlap(Initial(delay, periodic), es) ==> Inv(d) && LogInv(d)
    ensures Apart(Initial(delay, periodic), es) ==> NoOverlap(Initial(delay, periodic), es)
  {
    var c := Initial(delay, periodic);
    ReachesRuns(c, es, d);
    InvOverRuns(c, es);
    RunsConserve(c, es, d);
    if NoOverlap(c, es) { RunsFireInOrder(c, es, d); }
    if Apart(c, es) { ApartRuns(c, es); }
  }

  lemma {:induction false} RunsConserve(c: Clock, es: seq<Event>, d: Clock)
    requires Conserved(c) && Reaches(c, es, d)
    ensures Conserved(d)
    decreases |es|
  {
    if es != [] {
      NextConserves(c, es[0]);
      RunsConserve(Next(c, es[0]), es[1..], d);
    }
  }

  // ---- one check fires exactly what is due ----

  predicate Due(e: Entry, now: nat) { e.deadline <= now }

  /** A turn of the check fires if and only if some waiting timer is due; it then fires the
      earliest one, and when it stops nothing due is left. */
  lemma PollIsExact(c: Clock)
    requires Inv(c) && c.mode == Checking
    ensures Poll(c).mode.InCallback? <==> exists i :: 0 <= i < |c.queue| && Due(c.queue[i], c.now)
    ensures Poll(c).mode.InCallback? ==>
      && c.queue == [c.queue[0]] + Poll(c).queue
      && Due(c.queue[0], c.now)
      && forall i :: 0 <= i < |Poll(c).queue| ==> Before(c.queue[0], Poll(c).queue[i])
    ensures Poll(c).mode == Idle ==>
      Poll(c).queue == c.queue && forall i :: 0 <= i < |c.queue| ==> c.queue[i].deadline > c.now
  {
    forall i | 0 < i < |c.queue| ensures Before(c.queue[0], c.queue[i]) {}
    assert c.queue != [] ==> c.queue == [c.queue[0]] + c.queue[1..];
  }

  function DueCount(q: seq<Entry>, now: nat): nat {
    if q == [] then 0 else (if Due(q[0], now) then 1 else 0) + DueCount(q[1..], now)
  }

  lemma {:induction false} StartDueCount(q: seq<Entry>, t: Timer, e: Entry, now: nat)
    ensures DueCount(Without(q, t), now) <= DueCount(q, now)
    ensures DueCount(Insert(q, e), now) == DueCount(q, now) + if Due(e, now) then 1 else 0
  {
    if q != [] {
      StartDueCount(q[1..], t, e, now);
      if q[0].timer != t { assert Without(q, t)[1..] == Without(q[1..], t); }
    }
    var r := Insert(q, e);
    assert r[1..] == if q == [] || q[0].deadline > e.deadline then q else Insert(q[1..], e);
  }

  /** A check terminates if no timer is started without a delay while it runs: each firing
      uses up one due timer and nothing adds one. */
  lemma CheckShrinks(c: Clock, e: Event)
    requires Legal(c, e) && c.mode != Idle
    requires e.StartEvent? ==> c.delay[e.t] > 0
    requires e.ReturnEvent? && Restarts(c) ==> c.delay[c.mode.timer] > 0
    ensures DueCount(Next(c, e).queue, c.now) <= DueCount(c.queue, c.now)
    ensures e.PollEvent? && Next(c, e).mode.InCallback? ==> DueCount(Next(c, e).queue, c.now) < DueCount(c.queue, c.now)
  {
    if e.StopEvent? {
      StartDueCount(c.queue, e.t, Entry(0, 0, 0, 0, 0, false, false), c.now);
    } else if e.StartEvent? || (e.ReturnEvent? && Restarts(c)) {
      var t := if e.ReturnEvent? then c.mode.timer else e.t;
      var entry := NewEntry(Stamp(Begin(c, t), t), t);
      StartDueCount(c.queue, t, entry, c.now);
      StartDueCount(Without(c.queue, t), t, entry, c.now);
      StopLinks(c, t, t);
      StampLinks(Begin(c, t), t, t);
      assert Linked(Begin(c, t), t) == Linked(Unlink(c, t), t);
    }
  }

  lemma {:induction false} StartsFirst(c: Clock, t: Timer)
    requires c.queue == [] && t in c.delay && !InProgress(c.pending, t) && t !in c.pending.stamp
    ensures Start(c, t) == c.(queue := [Entry(t, c.now + c.delay[t], c.starts, c.now, c.now, c.mode == Idle, false)],
      starts := c.starts + 1, active := c.active + {t})
  {
    StartKeepsPending(c, t);
    assert Restamped([], t, c.now + c.delay[t]) == [];
  }

  lemma {:induction false} StartKeepsPending(c: Clock, t: Timer)
    requires t in c.delay && !InProgress(c.pending, t) && t !in c.pending.stamp
    ensures Start(c, t).pending == c.pending && Start(c, t).active == c.active + {t}
  {
    var p, d := c.pending, Start(c, t).pending;
    assert d.begun == p.begun && d.stamped == p.stamped && d.stamp == p.stamp;
    assert c.active - {t} + {t} == c.active + {t};
  }

  /** In a check with an active periodic timer of no delay due. */
  predicate Spins(c: Clock, t: Timer) {
    && c.mode == Checking && |c.queue| == 1 && c.queue[0].timer == t && Due(c.queue[0], c.now)
    && t in c.periodic && t in c.active && t in c.delay && c.delay[t] == 0
    && !InProgress(c.pending, t) && t !in c.pending.stamp
  }

  /** Such a check never ends: every turn fires the timer, starts it again and leads to the same
      situation. */
  lemma {:induction false} CheckSpins(c: Clock, t: Timer)
    requires Spins(c, t)
    ensures Legal(c, PollEvent) && Legal(Poll(c), ReturnEvent) && Spins(Next(Poll(c), ReturnEvent), t)
    ensures Next(Poll(c), ReturnEvent).now == c.now && |Next(Poll(c), ReturnEvent).log| == |c.log| + 1
  {
    var d := Poll(c);
    assert d.queue == [];
    StartsFirst(d, t);
  }

  lemma {:induction false} SpinReached()
    ensures var c := Initial(map[0 := 0], {0});
      Legal(c, StartEvent(0)) && Legal(Next(c, StartEvent(0)), TickEvent)
        && Spins(Next(Next(c, StartEvent(0)), TickEvent), 0)
  {
    StartsFirst(Initial(map[0 := 0], {0}), 0);
  }

  // ---- the ACTIVATED flag ----

  /** A timer is flagged active exactly while it is linked; the timer whose callback is
      running, or that is being stopped, is unlinked but may still carry the flag. */
  ghost predicate FlagsMatch(c: Clock) {
    forall t :: (Linked(c, t) ==> t in c.active)
      && (t in c.active ==> Linked(c, t) || c.mode == InCallback(t) || t in c.stopping)
  }

  /** The flag stays right at every step except two: a callback that restarts its own one-shot
      timer has its flag cleared on return although the timer is linked, and a stop clears the
      flag of a timer that was linked again after the section of the stop. */
  lemma {:induction false} FlagsMatchExactly(c: Clock, e: Event)
    requires FlagsMatch(c) && Legal(c, e)
    ensures FlagsMatch(Next(c, e)) <==> !LosesFlag(c, e)
  {
    var d := Next(c, e);
    match e
    case TickEvent => assert d.queue == c.queue;
    case PollEvent => PollLinks(c);
    case ReturnEvent => ReturnFlags(c);
    case StartEvent(t) => forall u ensures Linked(d, u) <==> u == t || Linked(c, u) { StartLinks(c, t, u); }
    case LinkEvent(t) => forall u ensures Linked(d, u) <==> u == t || Linked(c, u) { LinkLinks(c, t, u); }
    case BeginEvent(t) =>
      forall u ensures Linked(d, u) <==> u != t && Linked(c, u) {
        StopLinks(c, t, u);
        assert Linked(d, u) == Linked(Unlink(c, t), u);
      }
    case StampEvent(t) => forall u ensures Linked(d, u) == Linked(c, u) { StampLinks(c, t, u); }
    case StopEvent(t) =>
      forall u ensures t in c.active ==> (Linked(d, u) <==> u != t && Linked(c, u)) {
        StopLinks(c, t, u);
        assert t in c.active ==> Linked(d, u) == Linked(Unlink(c, t), u);
      }
    case StopRemoveEvent(t) =>
      forall u ensures Linked(d, u) <==> u != t && Linked(c, u) {
        StopLinks(c, t, u);
        assert Linked(d, u) == Linked(Unlink(c, t), u);
      }
    case StopClearEvent(t) => forall u ensures Linked(d, u) == Linked(c, u) {}
    case SetTime(_, _) => assert d.queue == c.queue;
    case SetPeriodic(_, _) => assert d.queue == c.queue;
  }

  /** A callback that has restarted its own one-shot timer returns, or a stop clears the flag of
      a timer that was started again since it was unlinked. */
  predicate LosesFlag(c: Clock, e: Event) {
    || (e.ReturnEvent? && c.mode.InCallback? && Linked(c, c.mode.timer) && c.mode.timer !in c.periodic)
    || (e.StopClearEvent? && Linked(c, e.t))
  }

  lemma {:induction false} ReturnFlags(c: Clock)
    requires FlagsMatch(c) && Legal(c, ReturnEvent)
    ensures FlagsMatch(Next(c, ReturnEvent)) <==> !LosesFlag(c, ReturnEvent)
  {
    var t, d := c.mode.timer, Next(c, ReturnEvent);
    if Restarts(c) {
      forall u ensures Linked(d, u) <==> u == t || Linked(c, u) {
        StartLinks(c, t, u);
        assert Linked(d, u) == Linked(Start(c, t), u);
      }
    } else {
      forall u ensures Linked(d, u) == Linked(c, u) {}
      assert Linked(c, t) ==> Linked(d, t) && t !in d.active;
    }
  }

  ghost predicate FlagsThroughout(c: Clock, es: seq<Event>)
    requires Run(c, es)
    decreases |es|
  {
    FlagsMatch(c) && (es != [] ==> FlagsThroughout(Next(c, es[0]), es[1..]))
  }

  ghost predicate KeepsFlags(c: Clock, es: seq<Event>)
    requires Run(c, es)
    decreases |es|
  {
    es != [] ==> !LosesFlag(c, es[0]) && KeepsFlags(Next(c, es[0]), es[1..])
  }

  /** The flags are right throughout a run exactly when it has no such step. */
  lemma {:induction false} FlagsOverRuns(c: Clock, es: seq<Event>)
    requires FlagsMatch(c) && Run(c, es)
    ensures FlagsThroughout(c, es) <==> KeepsFlags(c, es)
    decreases |es|
  {
    if es != [] {
      FlagsMatchExactly(c, es[0]);
      if FlagsMatch(Next(c, es[0])) { FlagsOverRuns(Next(c, es[0]), es[1..]); }
    }
  }

  lemma PollLinks(c: Clock)
    requires FlagsMatch(c) && c.mode == Checking
    ensures FlagsMatch(Poll(c))
  {
    var d := Poll(c);
    if d.mode.InCallback? {
      forall u ensures (Linked(d, u) ==> Linked(c, u)) && (Linked(c, u) && u != d.mode.timer ==> Linked(d, u)) {
        if i :| 0 <= i < |d.queue| && d.queue[i].timer == u { assert c.queue[i + 1].timer == u; }
        if i :| 0 <= i < |c.queue| && c.queue[i].timer == u { assert i > 0 ==> d.queue[i - 1].timer == u; }
      }
    }
  }

  // ---- runs ----

  ghost predicate Steps(c: Clock, e: Event, d: Clock) { Legal(c, e) && Next(c, e) == d }

  lemma {:induction false} RunAgain(c: Clock, e: Event, d: Clock, es: seq<Event>)
    requires Steps(c, e, d) && Run(d, es)
    ensures Run(c, [e] + es) && (FlagsThroughout(c, [e] + es) ==> FlagsThroughout(d, es))
    ensures forall r {:trigger Reaches(d, es, r)} :: Reaches(d, es, r) ==> Reaches(c, [e] + es, r)
  {
    assert ([e] + es)[1..] == es;
  }

  /** States that follow each other make a run. */
  lemma {:induction false} Follow(es: seq<Event>, cs: seq<Clock>, k: nat)
    requires |cs| == |es| + 1 && k <= |es|
      && forall i {:trigger cs[i]} :: 0 <= i < |es| ==> Steps(cs[i], es[i], cs[i + 1])
    ensures Run(cs[k], es[k..]) && Reaches(cs[k], es[k..], cs[|es|])
    ensures !FlagsMatch(cs[|es|]) ==> !FlagsThroughout(cs[k], es[k..])
    decreases |es| - k
  {
    if k == |es| {
      assert es[k..] == [];
    } else {
      Follow(es, cs, k + 1);
      assert Steps(cs[k], es[k], cs[k + 1]);
      RunAgain(cs[k], es[k], cs[k + 1], es[k + 1..]);
      assert [es[k]] + es[k + 1..] == es[k..];
    }
  }

  /** One-shot timers of which none was cancelled. */
  function At(delay: map<Timer, nat>, now: nat, queue: seq<Entry>, starts: nat, active: set<Timer>,
      pending: Starts, mode: Mode, log: seq<Fired>): Clock {
    Clock(now, queue, starts, active, {}, delay, pending, multiset{}, mode, log, multiset{})
  }

  const ONE: map<Timer, nat> := map[0 := 1]
  const LOSES: seq<Event> := [StartEvent(0), TickEvent, PollEvent, StartEvent(0), ReturnEvent]

  /** The states of a run that loses the flag. */
  function Losing(k: nat): Clock {
    var e, again := Entry(0, 1, 0, 0, 0, true, false), Entry(0, 2, 1, 1, 1, false, false);
    if k == 0 then Initial(ONE, {})
    else if k == 1 then At(ONE, 0, [e], 1, {0}, NO_STARTS, Idle, [])
    else if k == 2 then At(ONE, 1, [e], 1, {0}, NO_STARTS, Checking, [])
    else if k == 3 then At(ONE, 1, [], 1, {0}, NO_STARTS, InCallback(0), [Fired(e, 1)])
    else if k == 4 then At(ONE, 1, [again], 2, {0}, NO_STARTS, InCallback(0), [Fired(e, 1)])
    else At(ONE, 1, [again], 2, {}, NO_STARTS, Checking, [Fired(e, 1)])
  }

  lemma {:induction false} LosingStep(k: nat)
    requires k < 5
    ensures Steps(Losing(k), LOSES[k], Losing(k + 1))
  {
    var c, d := Losing(k), Losing(k + 1);
    if k == 0 || k == 3 {
      StartsFirst(c, 0);
      assert {0} + {0} == {0};
    } else if k == 1 {
      assert Passed(map[], 1) == map[];
    }
  }

  /** A run that loses the flag: timer 0 with a delay of one tick fires and its callback starts
      it again. */
  lemma {:induction false} FlagLost(es: seq<Event>)
    requires es == LOSES
    ensures Run(Initial(ONE, {}), es) && !FlagsThroughout(Initial(ONE, {}), es)
  {
    var cs, c := seq(6, k requires 0 <= k < 6 => Losing(k)), Losing(5);
    forall k | 0 <= k < 5 ensures Steps(cs[k], es[k], cs[k + 1]) { LosingStep(k); }
    assert Linked(c, 0) by { assert c.queue[0].timer == 0; }
    assert !FlagsMatch(c) && cs[0] == Initial(ONE, {}) && cs[5] == c;
    assert |es| == 5 && es[0..] == es;
    hide *;
    Follow(es, cs, 0);
  }

  const TWO: map<Timer, nat> := map[0 := 1, 1 := 2]
  const OVERTAKES: seq<Event> :=
    [BeginEvent(0), StampEvent(0), StartEvent(1), TickEvent, PollEvent, TickEvent, PollEvent, ReturnEvent, PollEvent,
      LinkEvent(0), TickEvent, PollEvent]

  const UNSTOPS: seq<Event> :=
    [StartEvent(1), StopRemoveEvent(1), StartEvent(0), TickEvent, PollEvent, StartEvent(1), ReturnEvent, PollEvent,
     StopClearEvent(1)]

  /** The states of a run in which a stop clears the flag of a timer that was started again. */
  function Unstopping(k: nat): Clock {
    var first, other := Entry(1, 2, 0, 0, 0, true, false), Entry(0, 1, 1, 0, 0, true, false);
    var again, log := Entry(1, 3, 2, 1, 1, false, false), [Fired(other, 1)];
    if k == 0 then Initial(TWO, {})
    else if k == 1 then At(TWO, 0, [first], 1, {1}, NO_STARTS, Idle, [])
    else
      var c :=
        if k == 2 then At(TWO, 0, [], 1, {1}, NO_STARTS, Idle, [])
        else if k == 3 then At(TWO, 0, [other], 2, {0, 1}, NO_STARTS, Idle, [])
        else if k == 4 then At(TWO, 1, [other], 2, {0, 1}, NO_STARTS, Checking, [])
        else if k == 5 then At(TWO, 1, [], 2, {0, 1}, NO_STARTS, InCallback(0), log)
        else if k == 6 then At(TWO, 1, [again], 3, {0, 1}, NO_STARTS, InCallback(0), log)
        else if k == 7 then At(TWO, 1, [again], 3, {1}, NO_STARTS, Checking, log)
        else if k == 8 then At(TWO, 1, [again], 3, {1}, NO_STARTS, Idle, log)
        else At(TWO, 1, [again], 3, {}, NO_STARTS, Idle, log);
      c.(cancelled := multiset{0}, stopping := if k == 9 then multiset{} else multiset{1})
  }

  lemma {:induction false} StopsOnly(c: Clock, t: Timer)
    requires |c.queue| == 1 && c.queue[0].timer == t && c.cancelled == multiset{} && c.stopping == multiset{}
    ensures StopRemove(c, t) == c.(queue := [], cancelled := multiset{c.queue[0].order}, stopping := multiset{t})
  {
    assert Without(c.queue, t) == [] && OrdersOf(c.queue, t) == multiset{c.queue[0].order};
  }

  lemma {:induction false} UnstoppingFirst(k: nat)
    requires k < 2
    ensures Steps(Unstopping(k), UNSTOPS[k], Unstopping(k + 1))
  {
    if k == 0 {
      StartsFirst(Unstopping(k), 1);
      assert {} + {1} == {1};
    } else {
      StopsOnly(Unstopping(k), 1);
    }
  }

  lemma {:induction false} UnstoppingSecond(k: nat)
    requires 2 <= k < 4
    ensures Steps(Unstopping(k), UNSTOPS[k], Unstopping(k + 1))
  {
    if k == 2 {
      StartsFirst(Unstopping(k), 0);
      assert {1} + {0} == {0, 1};
    } else {
      assert Passed(map[], 1) == map[];
    }
  }

  lemma {:induction false} UnstoppingThird(k: nat)
    requires 4 <= k < 6
    ensures Steps(Unstopping(k), UNSTOPS[k], Unstopping(k + 1))
  {
    if k == 5 {
      StartsFirst(Unstopping(k), 1);
      assert {0, 1} + {1} == {0, 1};
    }
  }

  lemma {:induction false} UnstoppingFourth(k: nat)
    requires 6 <= k < 9
    ensures Steps(Unstopping(k), UNSTOPS[k], Unstopping(k + 1))
  {
    if k == 6 {
      assert {0, 1} - {0} == {1};
    } else if k == 8 {
      assert {1} - {1} == {};
    }
  }

  /** A run that loses the flag: timer 1 is being stopped when a callback starts it. */
  lemma {:induction false} StopLosesFlag(es: seq<Event>)
    requires es == UNSTOPS
    ensures Run(Initial(TWO, {}), es) && !FlagsThroughout(Initial(TWO, {}), es)
  {
    var c := Unstopping(9);
    assert Linked(c, 1) by { assert c.queue[0].timer == 1; }
    assert !FlagsMatch(c) && Unstopping(0) == Initial(TWO, {}) && |es| == 9;
    hide *;
    var cs := seq(10, k requires 0 <= k < 10 => Unstopping(k));
    forall k | 0 <= k < 9 ensures Steps(cs[k], es[k], cs[k + 1]) {
      if k < 2 { UnstoppingFirst(k); } else if k < 4 { UnstoppingSecond(k); }
      if 4 <= k < 6 { UnstoppingThird(k); } else if 6 <= k { UnstoppingFourth(k); }
    }
    assert es[0..] == es && cs[9] == c;
    Follow(es, cs, 0);
  }

  /** Timer 1 waits, and timer 0 with an earlier deadline is linked after two checks. */
  const LATER: Entry := Entry(1, 2, 0, 0, 0, true, false)
  const LATE: Entry := Entry(0, 1, 1, 0, 2, true, true)

  const BEGUN: Starts := NO_STARTS.(begun := multiset{0})
  const STAMPED: Starts := NO_STARTS.(stamped := multiset{0}, stamp := map[0 := Stamped(1, 0, false)])

  lemma {:induction false} StampsFirst(delay: map<Timer, nat>)
    requires 0 in delay && delay[0] == 1
    ensures Steps(Initial(delay, {}), BeginEvent(0), At(delay, 0, [], 0, {}, BEGUN, Idle, []))
    ensures Steps(At(delay, 0, [], 0, {}, BEGUN, Idle, []), StampEvent(0), At(delay, 0, [], 0, {}, STAMPED, Idle, []))
  {
    assert multiset{} + multiset{0} == multiset{0} && {} - {0} == {};
    assert multiset{0} - multiset{0} == multiset{} && Restamped([], 0, 1) == [];
    assert map[][0 := Stamped(1, 0, false)] == map[0 := Stamped(1, 0, false)];
  }

  /** The states of a run in which a start is overtaken. */
  function Overtaking(k: nat): Clock {
    var passed := NO_STARTS.(stamped := multiset{0}, stamp := map[0 := Stamped(1, 0, true)]);
    var log := [Fired(LATER, 2)];
    if k == 0 then Initial(TWO, {})
    else if k == 1 then At(TWO, 0, [], 0, {}, BEGUN, Idle, [])
    else if k == 2 then At(TWO, 0, [], 0, {}, STAMPED, Idle, [])
    else if k == 3 then At(TWO, 0, [LATER], 1, {1}, STAMPED, Idle, [])
    else if k == 4 then At(TWO, 1, [LATER], 1, {1}, passed, Checking, [])
    else if k == 5 then At(TWO, 1, [LATER], 1, {1}, passed, Idle, [])
    else if k == 6 then At(TWO, 2, [LATER], 1, {1}, passed, Checking, [])
    else if k == 7 then At(TWO, 2, [], 1, {1}, passed, InCallback(1), log)
    else if k == 8 then At(TWO, 2, [], 1, {}, passed, Checking, log)
    else if k == 9 then At(TWO, 2, [], 1, {}, passed, Idle, log)
    else if k == 10 then At(TWO, 2, [LATE], 2, {0}, NO_STARTS, Idle, log)
    else if k == 11 then At(TWO, 3, [LATE], 2, {0}, NO_STARTS, Checking, log)
    else At(TWO, 3, [], 2, {0}, NO_STARTS, InCallback(0), [Fired(LATER, 2), Fired(LATE, 3)])
  }

  lemma {:induction false} OvertakingStarts(k: nat)
    requires k < 3
    ensures Steps(Overtaking(k), OVERTAKES[k], Overtaking(k + 1))
  {
    if k < 2 { StampsFirst(TWO); } else { StartsFirst(Overtaking(2), 1); }
  }

  lemma {:induction false} OvertakingFirst(k: nat)
    requires 3 <= k < 6
    ensures Steps(Overtaking(k), OVERTAKES[k], Overtaking(k + 1))
  {
    var c, d := Overtaking(k), Overtaking(k + 1);
    if k != 4 { assert Passed(c.pending.stamp, c.now + 1) == d.pending.stamp; }
  }

  lemma {:induction false} OvertakingSecond(k: nat)
    requires 6 <= k < 12
    ensures Steps(Overtaking(k), OVERTAKES[k], Overtaking(k + 1))
  {
    var c, d := Overtaking(k), Overtaking(k + 1);
    if k == 10 {
      assert Passed(c.pending.stamp, c.now + 1) == d.pending.stamp;
    } else if k == 9 {
      assert c.pending.stamp - {0} == map[] && c.pending.stamped - multiset{0} == multiset{};
    }
  }

  /** A start whose deadline, tick 1, passes before it is linked: it fires at tick 3, after a
      timer with deadline 2. */
  lemma {:induction false} StartOvertaken(es: seq<Event>, c: Clock)
    requires es == OVERTAKES && c == Overtaking(12)
    ensures Reaches(Initial(TWO, {}), es, c) && c.log == [Fired(LATER, 2), Fired(LATE, 3)]
    ensures LATE.missed && LATE.deadline == 1 && Before(LATE, LATER)
  {
    assert Overtaking(0) == Initial(TWO, {}) && c.log == [Fired(LATER, 2), Fired(LATE, 3)] && Before(LATE, LATER)
      && |es| == 12;
    hide *;
    var cs := seq(13, k requires 0 <= k < 13 => Overtaking(k));
    forall k | 0 <= k < 12 ensures Steps(cs[k], es[k], cs[k + 1]) {
      if k < 3 { OvertakingStarts(k); } else if k < 6 { OvertakingFirst(k); } else { OvertakingSecond(k); }
    }
    assert es[0..] == es && cs[12] == c;
    Follow(es, cs, 0);
  }

  /** Timer 0 is being started, and started once more before it is linked. */
  const TWICE: seq<Event> := [BeginEvent(0), StampEvent(0), StartEvent(0), LinkEvent(0)]

  /** The states of a run in which a timer is linked twice. */
  function Doubling(k: nat): Clock {
    var first, second := Entry(0, 1, 0, 0, 0, true, false), Entry(0, 1, 1, 0, 0, true, false);
    if k == 0 then Initial(ONE, {})
    else if k == 1 then At(ONE, 0, [], 0, {}, BEGUN, Idle, [])
    else if k == 2 then At(ONE, 0, [], 0, {}, STAMPED, Idle, [])
    else if k == 3 then At(ONE, 0, [first], 1, {0}, STAMPED, Idle, [])
    else At(ONE, 0, [first, second], 2, {0}, NO_STARTS, Idle, [])
  }

  lemma {:induction false} StartsOver(c: Clock, d: Clock)
    requires c == Doubling(2) && d == Doubling(3)
    ensures Start(c, 0) == d
  {
    var p := c.pending;
    assert p.begun + multiset{0} - multiset{0} == p.begun && p.stamped + multiset{0} - multiset{0} == p.stamped;
    assert p.stamp[0 := Stamped(1, 0, false)] == p.stamp;
    assert {} - {0} + {0} == {0} && Restamped([], 0, 1) == [];
  }

  lemma {:induction false} LinksAgain(c: Clock, d: Clock)
    requires c == Doubling(3) && d == Doubling(4)
    ensures 0 in c.pending.stamp && LinkUp(c, 0) == d
  {
    assert c.pending.stamp - {0} == map[] && c.pending.stamped - multiset{0} == multiset{};
    assert c.queue[1..] == [] && {0} + {0} == {0};
  }

  lemma {:induction false} DoublingStep(k: nat)
    requires k < 4
    ensures Steps(Doubling(k), TWICE[k], Doubling(k + 1))
  {
    if k < 2 {
      StampsFirst(ONE);
    } else if k == 2 {
      StartsOver(Doubling(2), Doubling(3));
    } else {
      LinksAgain(Doubling(3), Doubling(4));
    }
  }

  /** The run ends with timer 0 in the queue twice. */
  lemma {:induction false} StartedTwice(es: seq<Event>, c: Clock)
    requires es == TWICE && c == Doubling(4)
    ensures Reaches(Initial(ONE, {}), es, c) && !OneEach(c.queue) && !Inv(c)
  {
    assert !OtherTimer(c.queue[0], c.queue[1]);
    assert Doubling(0) == Initial(ONE, {}) && |es| == 4 && !OneEach(c.queue) && !Inv(c);
    hide *;
    var cs := seq(5, k requires 0 <= k < 5 => Doubling(k));
    forall k | 0 <= k < 4 ensures Steps(cs[k], es[k], cs[k + 1]) { DoublingStep(k); }
    assert es[0..] == es && cs[4] == c;
    Follow(es, cs, 0);
  }
}
