/** Mutexes with priority inheritance, as a protocol of atomic sections. Smaller numbers are
    more urgent priorities. */
module Mutex {
  import opened IpcList
  import opened Lists

  type Mtx = nat

  const NONE: int := -1

  /** A mutex: `owner` is NONE or a thread, `original` the priority its owner had when it got it. */
  datatype Lock = Lock(value: nat, owner: int, hold: nat, original: nat, waiters: seq<Thread>)

  /** All mutexes of a system with the current priorities of its threads. */
  datatype System = System(locks: map<Mtx, Lock>, prio: map<Thread, nat>, flag: map<Mtx, Flag>)

  const FREE_PRIORITY: nat := 0xff

  datatype Event =
    | Take(m: Mtx, t: Thread, wait: bool)
    | Release(m: Mtx, t: Thread)
    | Timeout(m: Mtx, t: Thread)

  datatype Result = Granted | Waits | Refused

  // ---- rt_mutex_take ----

  function TakeLock(l: Lock, flag: Flag, prio: map<Thread, nat>, t: Thread, wait: bool): Lock
    requires t in prio
  {
    if l.owner == t then l.(hold := l.hold + 1)
    else if l.value > 0 then l.(value := l.value - 1, owner := t, original := prio[t], hold := l.hold + 1)
    else if wait then l.(waiters := Enqueue(flag, l.waiters, prio, t))
    else l
  }

  /** A less urgent owner inherits the priority of a thread that starts to wait. */
  function TakePrio(l: Lock, prio: map<Thread, nat>, t: Thread, wait: bool): map<Thread, nat>
    requires t in prio
  {
    if l.owner != t && l.value == 0 && wait && l.owner >= 0 && l.owner in prio && prio[t] < prio[l.owner]
    then prio[l.owner := prio[t]] else prio
  }

  // ---- rt_mutex_release ----

  function ReleaseLock(l: Lock, prio: map<Thread, nat>): Lock
    requires l.hold > 0
  {
    if l.hold > 1 then l.(hold := l.hold - 1)
    else if l.waiters != [] then
      l.(owner := l.waiters[0], original := Urgency(prio, l.waiters[0]), hold := 1, waiters := l.waiters[1..])
    else l.(hold := 0, value := l.value + 1, owner := NONE, original := FREE_PRIORITY)
  }

  function ReleasePrio(l: Lock, prio: map<Thread, nat>, t: Thread): map<Thread, nat>
    requires l.hold > 0
  {
    if l.hold == 1 then prio[t := l.original] else prio
  }

  // ---- steps ----

  /** Thread `t` is involved with mutex `m`. */
  predicate Uses(s: System, m: Mtx, t: Thread) {
    m in s.locks && (s.locks[m].owner == t || t in s.locks[m].waiters)
  }

  /** What may happen: a running thread takes or releases, a waiting thread times out. A thread
      uses one mutex at a time, and a nesting count stays below its 8-bit limit. */
  ghost predicate Legal(s: System, e: Event) {
    && e.m in s.locks && e.m in s.flag && e.t in s.prio
    && match e
       case Take(m, t, _) => (forall n :: n != m ==> !Uses(s, n, t)) && t !in s.locks[m].waiters
         && s.locks[m].hold < 255
       case Release(m, t) => (forall n :: n != m ==> !Uses(s, n, t)) && t !in s.locks[m].waiters
       case Timeout(m, t) => t in s.locks[m].waiters
  }

  function Next(s: System, e: Event): System
    requires e.m in s.locks && e.m in s.flag && e.t in s.prio
  {
    var l := s.locks[e.m];
    match e
    case Take(m, t, wait) =>
      s.(locks := s.locks[m := TakeLock(l, s.flag[m], s.prio, t, wait)], prio := TakePrio(l, s.prio, t, wait))
    case Release(m, t) =>
      if l.owner != t || l.hold == 0 then s
      else var p := ReleasePrio(l, s.prio, t); s.(locks := s.locks[m := ReleaseLock(l, p)], prio := p)
    case Timeout(m, t) => s.(locks := s.locks[m := l.(waiters := Without(l.waiters, t))])
  }

  // ---- invariant ----

  /** One owner iff the mutex is taken iff it is held; waiters sorted stably; nobody waiting is
      more urgent than the owner is now. */
  ghost predicate LockOk(s: System, m: Mtx)
    requires m in s.locks
  {
    var l := s.locks[m];
    && (l.owner == NONE || (l.owner >= 0 && l.owner in s.prio))
    && (l.value == 0 <==> l.owner != NONE) && (l.hold >= 1 <==> l.owner != NONE) && l.value <= 1
    && (l.owner == NONE ==> l.waiters == [] && l.original == FREE_PRIORITY)
    && Distinct(l.waiters) && SortedBy(l.waiters, s.prio)
    && (forall t {:trigger t in l.waiters} :: t in l.waiters ==> t in s.prio && t != l.owner)
    && (l.owner != NONE ==>
       s.prio[l.owner] <= l.original
       && forall t {:trigger t in l.waiters} :: t in l.waiters ==> s.prio[l.owner] <= s.prio[t])
  }

  /** A thread uses at most one mutex. */
  ghost predicate OneAtATime(s: System) {
    forall m, n, t {:trigger Uses(s, m, t), Uses(s, n, t)} :: Uses(s, m, t) && Uses(s, n, t) ==> m == n
  }

  /** The priorities threads have apart from inheritance. */
  ghost predicate BaseOk(s: System, base: map<Thread, nat>) {
    && s.prio.Keys == base.Keys
    && (forall m {:trigger m in s.locks} :: m in s.locks && s.locks[m].owner >= 0 && s.locks[m].owner in base ==>
       s.locks[m].original == base[s.locks[m].owner])
    && (forall t {:trigger t in base} :: t in base && (forall m :: m in s.locks ==> s.locks[m].owner != t) ==>
       s.prio[t] == base[t])
  }

  ghost predicate Inv(s: System, base: map<Thread, nat>) {
    && s.flag.Keys == s.locks.Keys && (forall m {:trigger m in s.flag} :: m in s.flag ==> s.flag[m] == Prio)
    && (forall m {:trigger LockOk(s, m)} :: m in s.locks ==> LockOk(s, m))
    && OneAtATime(s) && BaseOk(s, base)
  }

  // ---- frames ----

  /** Sorting only looks at the threads in the list. */
  lemma {:induction false} SortedFrame(s: seq<Thread>, p: map<Thread, nat>, r: map<Thread, nat>)
    requires SortedBy(s, p) && forall t :: t in s ==> Urgency(r, t) == Urgency(p, t)
    ensures SortedBy(s, r)
  {
    forall i, j | 0 <= i < j < |s| ensures NotAfter(r, s[i], s[j]) {
      assert NotAfter(p, s[i], s[j]);
      var a, b := s[i], s[j];
      assert a in s && b in s;
    }
  }

  /** A lock nobody touched, whose users kept their priorities. */
  lemma {:induction false} LockFrame(s: System, r: System, n: Mtx)
    requires n in s.locks && n in r.locks && r.locks[n] == s.locks[n] && LockOk(s, n) && r.prio.Keys == s.prio.Keys
    requires forall t :: Uses(s, n, t) && t in s.prio ==> r.prio[t] == s.prio[t]
    ensures LockOk(r, n)
  {
    var l := s.locks[n];
    forall t | t in l.waiters ensures Urgency(r.prio, t) == Urgency(s.prio, t) { assert Uses(s, n, t); }
    SortedFrame(l.waiters, s.prio, r.prio);
    if l.owner != NONE { assert Uses(s, n, l.owner); }
    forall t | t in l.waiters ensures r.prio[t] == s.prio[t] { assert Uses(s, n, t); }
  }

  /** Nobody but users of lock `m` changes what it uses. */
  lemma {:induction false} OthersOneAtATime(s: System, r: System, m: Mtx)
    requires OneAtATime(s) && m in s.locks && r.locks.Keys == s.locks.Keys
    requires forall n :: n in s.locks && n != m ==> r.locks[n] == s.locks[n]
    requires forall t, n {:trigger Uses(s, n, t)} :: Uses(r, m, t) && n != m ==> !Uses(s, n, t)
    ensures OneAtATime(r)
  {
    forall a, b, t | Uses(r, a, t) && Uses(r, b, t) ensures a == b {
      if a != m { assert Uses(s, a, t); }
      if b != m { assert Uses(s, b, t); }
    }
  }

  // ---- the three steps ----

  lemma {:induction false} TakeLockOk(s: System, base: map<Thread, nat>, e: Event)
    requires Inv(s, base) && Legal(s, e) && e.Take?
    ensures LockOk(Next(s, e), e.m)
  {
    var r, l := Next(s, e), s.locks[e.m];
    assert LockOk(s, e.m);
    if l.owner == e.t {
      SortedFrame(l.waiters, s.prio, r.prio);
    } else if l.value > 0 {
      assert l.waiters == [];
    } else if e.wait {
      EnqueueContents(Prio, l.waiters, s.prio, e.t);
      EnqueueSorted(l.waiters, s.prio, e.t);
      assert e.m in s.flag;
      SortedFrame(Enqueue(Prio, l.waiters, s.prio, e.t), s.prio, r.prio);
    }
  }

  lemma {:induction false} TakeInv(s: System, base: map<Thread, nat>, e: Event)
    requires Inv(s, base) && Legal(s, e) && e.Take?
    ensures Inv(Next(s, e), base)
  {
    var r, l, m := Next(s, e), s.locks[e.m], e.m;
    TakeLockOk(s, base, e);
    assert LockOk(s, m);
    EnqueueContents(s.flag[m], l.waiters, s.prio, e.t);
    forall n | n in r.locks ensures LockOk(r, n) {
      if n != m {
        assert LockOk(s, n);
        forall t | Uses(s, n, t) && t in s.prio ensures r.prio[t] == s.prio[t] {
          if l.owner == t { assert Uses(s, m, t); }
        }
        LockFrame(s, r, n);
      }
    }
    forall t, n | Uses(r, m, t) && n != m ensures !Uses(s, n, t) {
      if t != e.t { assert Uses(s, m, t); }
    }
    OthersOneAtATime(s, r, m);
    TakeBase(s, base, e);
  }

  lemma {:induction false} TakeBase(s: System, base: map<Thread, nat>, e: Event)
    requires Inv(s, base) && Legal(s, e) && e.Take?
    ensures BaseOk(Next(s, e), base)
  {
    var r, l, m := Next(s, e), s.locks[e.m], e.m;
    assert LockOk(s, m);
    if l.owner != e.t && l.value > 0 {
      forall n | n in s.locks ensures s.locks[n].owner != e.t { if s.locks[n].owner == e.t { assert Uses(s, n, e.t); } }
      assert e.t in base;
      assert s.prio[e.t] == base[e.t];
    }
    forall n | n in r.locks && r.locks[n].owner >= 0 && r.locks[n].owner in base
      ensures r.locks[n].original == base[r.locks[n].owner] {
      assert n in s.locks;
    }
    forall t | t in base && (forall n :: n in r.locks ==> r.locks[n].owner != t) ensures r.prio[t] == base[t] {
      assert r.locks[m].owner != t;
      forall n | n in s.locks ensures s.locks[n].owner != t { assert r.locks[n].owner != t; }
    }
  }

  lemma {:induction false} ReleaseLockOk(s: System, base: map<Thread, nat>, e: Event)
    requires Inv(s, base) && Legal(s, e) && e.Release? && s.locks[e.m].owner == e.t
    ensures LockOk(Next(s, e), e.m)
  {
    var r, l := Next(s, e), s.locks[e.m];
    assert LockOk(s, e.m);
    if l.hold > 1 {
      SortedFrame(l.waiters, s.prio, r.prio);
    } else if l.waiters != [] {
      var w, rest := l.waiters[0], l.waiters[1..];
      assert w in l.waiters;
      forall t | t in rest ensures t in l.waiters && t != w && s.prio[w] <= s.prio[t] {
        var k :| 1 <= k < |l.waiters| && l.waiters[k] == t;
        assert Differ(l.waiters[0], l.waiters[k]) && NotAfter(s.prio, l.waiters[0], l.waiters[k]);
      }
      forall i, j | 0 <= i < j < |rest| ensures Differ(rest[i], rest[j]) && NotAfter(s.prio, rest[i], rest[j]) {
        assert Differ(l.waiters[i + 1], l.waiters[j + 1]) && NotAfter(s.prio, l.waiters[i + 1], l.waiters[j + 1]);
      }
      SortedFrame(rest, s.prio, r.prio);
    }
  }

  lemma {:induction false} ReleaseInv(s: System, base: map<Thread, nat>, e: Event)
    requires Inv(s, base) && Legal(s, e) && e.Release? && s.locks[e.m].owner == e.t
    ensures Inv(Next(s, e), base)
  {
    var r, l, m := Next(s, e), s.locks[e.m], e.m;
    ReleaseLockOk(s, base, e);
    assert LockOk(s, m);
    forall n | n in r.locks ensures LockOk(r, n) {
      if n != m {
        assert LockOk(s, n);
        forall t | Uses(s, n, t) && t in s.prio ensures r.prio[t] == s.prio[t] {}
        LockFrame(s, r, n);
      }
    }
    forall t, n | Uses(r, m, t) && n != m ensures !Uses(s, n, t) {
      if l.waiters != [] { var w := l.waiters[0]; assert w in l.waiters; }
      assert Uses(s, m, t);
    }
    OthersOneAtATime(s, r, m);
    ReleaseBase(s, base, e);
  }

  lemma {:induction false} ReleaseBase(s: System, base: map<Thread, nat>, e: Event)
    requires Inv(s, base) && Legal(s, e) && e.Release? && s.locks[e.m].owner == e.t
    ensures BaseOk(Next(s, e), base)
  {
    var r, l, m := Next(s, e), s.locks[e.m], e.m;
    assert LockOk(s, m);
    assert e.t in base && m in s.locks;
    if l.hold == 1 && l.waiters != [] {
      var w := l.waiters[0];
      assert w in l.waiters && Uses(s, m, w);
      forall n | n in s.locks ensures s.locks[n].owner != w { if s.locks[n].owner == w { assert Uses(s, n, w); } }
      assert w in base;
      assert s.prio[w] == base[w];
    }
    forall n | n in r.locks && r.locks[n].owner >= 0 && r.locks[n].owner in base
      ensures r.locks[n].original == base[r.locks[n].owner] {
      assert n in s.locks;
    }
    forall t | t in base && (forall n :: n in r.locks ==> r.locks[n].owner != t) ensures r.prio[t] == base[t] {
      assert r.locks[m].owner != t;
      if t != e.t {
        forall n | n in s.locks ensures s.locks[n].owner != t { assert r.locks[n].owner != t; }
      }
    }
  }

  lemma {:induction false} TimeoutInv(s: System, base: map<Thread, nat>, e: Event)
    requires Inv(s, base) && Legal(s, e) && e.Timeout?
    ensures Inv(Next(s, e), base)
  {
    var r, l, m := Next(s, e), s.locks[e.m], e.m;
    assert LockOk(s, m);
    WithoutKeeps(l.waiters, e.t, s.prio);
    forall n | n in r.locks ensures LockOk(r, n) {
      assert LockOk(s, n);
      if n != m { LockFrame(s, r, n); }
    }
    forall t, n | Uses(r, m, t) && n != m ensures !Uses(s, n, t) { assert Uses(s, m, t); }
    OthersOneAtATime(s, r, m);
    forall n | n in r.locks && r.locks[n].owner >= 0 && r.locks[n].owner in base
      ensures r.locks[n].original == base[r.locks[n].owner] {
      assert n in s.locks;
    }
    forall t | t in base && (forall n :: n in r.locks ==> r.locks[n].owner != t) ensures r.prio[t] == base[t] {
      forall n | n in s.locks ensures s.locks[n].owner != t { assert r.locks[n].owner != t; }
    }
  }

  /** Priority inheritance holds in every state a step leads to. */
  lemma {:induction false} NextInv(s: System, base: map<Thread, nat>, e: Event)
    requires Inv(s, base) && Legal(s, e)
    ensures Inv(Next(s, e), base)
  {
    assert LockOk(s, e.m);
    match e
    case Take(_, _, _) => TakeInv(s, base, e);
    case Release(m, t) => if s.locks[m].owner == t { ReleaseInv(s, base, e); }
    case Timeout(_, _) => TimeoutInv(s, base, e);
  }

  ghost predicate Reaches(s: System, es: seq<Event>, r: System)
    decreases |es|
  {
    if es == [] then s == r else Legal(s, es[0]) && Reaches(Next(s, es[0]), es[1..], r)
  }

  /** All mutexes free, all threads at their own priority. */
  function Initial(flag: map<Mtx, Flag>, prio: map<Thread, nat>): System {
    System(map m | m in flag :: Lock(1, NONE, 0, FREE_PRIORITY, []), prio, flag)
  }

  lemma {:induction false} InitialInv(flag: map<Mtx, Flag>, prio: map<Thread, nat>)
    requires forall m :: m in flag ==> flag[m] == Prio
    ensures Inv(Initial(flag, prio), prio)
  {
    var s := Initial(flag, prio);
    forall m | m in s.locks ensures LockOk(s, m) { assert s.locks[m] == Lock(1, NONE, 0, FREE_PRIORITY, []); }
    forall m, t ensures !Uses(s, m, t) {}
  }

  /** Over every run: one owner iff taken iff held, waiters sorted stably, no waiter more
      urgent than the owner, and every thread that owns nothing at its own priority. */
  lemma {:induction false} EveryRun(s: System, base: map<Thread, nat>, es: seq<Event>, r: System)
    requires Inv(s, base) && Reaches(s, es, r)
    ensures Inv(r, base)
    decreases |es|
  {
    if es != [] {
      NextInv(s, base, es[0]);
      EveryRun(Next(s, es[0]), base, es[1..], r);
    }
  }

  /** The last release gives the priority of the first take back, whoever waited or timed out
      in between. */
  lemma {:induction false} ReleaseRestores(s: System, base: map<Thread, nat>, m: Mtx, t: Thread)
    requires Inv(s, base) && Legal(s, Release(m, t)) && s.locks[m].owner == t && s.locks[m].hold == 1
    ensures Next(s, Release(m, t)).prio == s.prio[t := base[t]]
  {
    assert LockOk(s, m);
    assert m in s.locks;
  }

  // ---- more than one mutex at a time ----

  ghost predicate Running(s: System, t: Thread) {
    forall n {:trigger s.locks[n]} :: n in s.locks ==> t !in s.locks[n].waiters
  }

  /** What a running thread may do, and a timeout, with any number of mutexes and either flag. */
  ghost predicate Possible(s: System, e: Event) {
    && e.m in s.locks && e.m in s.flag && e.t in s.prio
    && (e.Take? ==> s.locks[e.m].hold < 255)
    && if e.Timeout? then e.t in s.locks[e.m].waiters else Running(s, e.t)
  }

  ghost predicate Sound(s: System, m: Mtx)
    requires m in s.locks
  {
    var l := s.locks[m];
    && (l.owner == NONE || (l.owner >= 0 && l.owner in s.prio))
    && (l.value == 0 <==> l.owner != NONE) && (l.hold >= 1 <==> l.owner != NONE) && l.value <= 1
    && (l.owner == NONE ==> l.waiters == []) && Distinct(l.waiters)
    && (forall t {:trigger t in l.waiters} :: t in l.waiters ==> t in s.prio && t != l.owner)
  }

  ghost predicate AllSound(s: System) {
    s.flag.Keys == s.locks.Keys && forall m {:trigger Sound(s, m)} :: m in s.locks ==> Sound(s, m)
  }

  /** The owner is at least as urgent as `w`. */
  predicate Above(s: System, m: Mtx, w: Thread)
    requires m in s.locks
  {
    w in s.prio && s.locks[m].owner in s.prio && s.prio[s.locks[m].owner] <= s.prio[w]
  }

  /** The promise of inheritance: no waiting thread is more urgent than the owner. */
  ghost predicate Promise(s: System, m: Mtx)
    requires m in s.locks
  {
    forall w {:trigger Above(s, m, w)} :: w in s.locks[m].waiters ==> Above(s, m, w)
  }

  ghost predicate Promised(s: System) {
    forall m {:trigger Promise(s, m)} :: m in s.locks ==> Promise(s, m)
  }

  /** The step makes thread `t` wait for a less urgent owner. */
  predicate Raises(s: System, e: Event)
    requires e.m in s.locks && e.t in s.prio
  {
    var l := s.locks[e.m];
    e.Take? && e.wait && l.owner != e.t && l.value == 0 && l.owner >= 0 && l.owner in s.prio
      && s.prio[e.t] < s.prio[l.owner]
  }

  /** The step gives the mutex up. */
  predicate GivesUp(s: System, e: Event)
    requires e.m in s.locks
  {
    e.Release? && s.locks[e.m].owner == e.t && s.locks[e.m].hold == 1
  }

  /** The owner to be raised is not itself waiting for a mutex whose owner would then be less
      urgent than it. */
  ghost predicate NoChain(s: System, e: Event)
    requires e.m in s.locks && e.t in s.prio && Raises(s, e)
  {
    forall n {:trigger Above(s, n, e.t)} :: n in s.locks && (s.locks[e.m].owner as Thread) in s.locks[n].waiters ==>
      Above(s, n, e.t)
  }

  predicate UrgentEnough(s: System, n: Mtx, p: nat, w: Thread)
    requires n in s.locks
  {
    w in s.locks[n].waiters && w in s.prio ==> p <= s.prio[w]
  }

  /** The priority given back is urgent enough for those who wait for the other mutexes of the
      thread, and the first waiting thread is the most urgent one. */
  ghost predicate HandsOn(s: System, e: Event)
    requires e.m in s.locks
  {
    var l := s.locks[e.m];
    && (forall n, w {:trigger UrgentEnough(s, n, l.original, w)} ::
       n in s.locks && n != e.m && s.locks[n].owner == e.t ==> UrgentEnough(s, n, l.original, w))
    && (l.waiters != [] ==>
       forall w {:trigger UrgentEnough(s, e.m, Urgency(s.prio, l.waiters[0]), w)} ::
       UrgentEnough(s, e.m, Urgency(s.prio, l.waiters[0]), w))
  }

  ghost predicate Safe(s: System, e: Event)
    requires e.m in s.locks && e.t in s.prio
  {
    (Raises(s, e) ==> NoChain(s, e)) && (GivesUp(s, e) ==> HandsOn(s, e))
  }

  lemma {:induction false} PossibleSound(s: System, e: Event)
    requires AllSound(s) && Possible(s, e)
    ensures AllSound(Next(s, e))
  {
    var r, l := Next(s, e), s.locks[e.m];
    assert Sound(s, e.m);
    EnqueueContents(s.flag[e.m], l.waiters, s.prio, e.t);
    WithoutKeeps(l.waiters, e.t, s.prio);
    forall n | n in r.locks ensures Sound(r, n) {
      assert Sound(s, n);
      if n == e.m && GivesUp(s, e) && l.waiters != [] { TailWithout(l.waiters); }
    }
  }

  lemma {:induction false} RaiseKeeps(s: System, e: Event)
    requires AllSound(s) && Promised(s) && Possible(s, e) && Raises(s, e)
    ensures Promised(Next(s, e)) <==> NoChain(s, e)
  {
    var r, l := Next(s, e), s.locks[e.m];
    var o: Thread := l.owner;
    EnqueueContents(s.flag[e.m], l.waiters, s.prio, e.t);
    if NoChain(s, e) {
      forall n, w | n in r.locks && w in r.locks[n].waiters ensures Above(r, n, w) {
        assert Sound(s, n) && Promise(s, n);
        if n == e.m && w == e.t {} else if w == o { assert Above(s, n, e.t); } else { assert Above(s, n, w); }
      }
    }
    if Promised(r) {
      forall n | n in s.locks && o in s.locks[n].waiters ensures Above(s, n, e.t) {
        assert Sound(s, n) && Sound(s, e.m) && Promise(r, n);
        assert Above(r, n, o);
      }
    }
  }

  lemma {:induction false} GiveUpKeeps(s: System, e: Event)
    requires AllSound(s) && Promised(s) && Possible(s, e) && GivesUp(s, e)
    ensures Promised(Next(s, e)) <==> HandsOn(s, e)
  {
    var r, l, m := Next(s, e), s.locks[e.m], e.m;
    assert Sound(s, m);
    if l.waiters != [] { TailWithout(l.waiters); }
    if HandsOn(s, e) {
      forall n, w | n in r.locks && w in r.locks[n].waiters ensures Above(r, n, w) {
        assert Sound(s, n) && Promise(s, n) && Above(s, n, w);
        if n == m { assert UrgentEnough(s, m, Urgency(s.prio, l.waiters[0]), w); }
        else if s.locks[n].owner == e.t { assert UrgentEnough(s, n, l.original, w); }
      }
    }
    if Promised(r) {
      forall n, w | n in s.locks && n != m && s.locks[n].owner == e.t ensures UrgentEnough(s, n, l.original, w) {
        assert Promise(r, n);
        if w in s.locks[n].waiters { assert Above(r, n, w); }
      }
      if l.waiters != [] {
        forall w ensures UrgentEnough(s, m, Urgency(s.prio, l.waiters[0]), w) {
          assert Promise(r, m);
          if w in r.locks[m].waiters { assert Above(r, m, w); }
        }
      }
    }
  }

  /** With any number of mutexes a step keeps the promise exactly when it is safe. */
  lemma {:induction false} PromiseKept(s: System, e: Event)
    requires AllSound(s) && Promised(s) && Possible(s, e)
    ensures Promised(Next(s, e)) <==> Safe(s, e)
  {
    if Raises(s, e) {
      RaiseKeeps(s, e);
    } else if GivesUp(s, e) {
      GiveUpKeeps(s, e);
    } else {
      OtherKeeps(s, e);
    }
  }

  lemma {:induction false} OtherKeeps(s: System, e: Event)
    requires AllSound(s) && Promised(s) && Possible(s, e) && !Raises(s, e) && !GivesUp(s, e)
    ensures Promised(Next(s, e))
  {
    var r, l := Next(s, e), s.locks[e.m];
    assert Sound(s, e.m);
    EnqueueContents(s.flag[e.m], l.waiters, s.prio, e.t);
    forall n, w | n in r.locks && w in r.locks[n].waiters ensures Above(r, n, w) {
      assert Sound(s, n) && Promise(s, n);
      assert w in s.locks[n].waiters ==> Above(s, n, w);
    }
  }

  ghost predicate Run(s: System, es: seq<Event>)
    decreases |es|
  {
    es != [] ==> Possible(s, es[0]) && Run(Next(s, es[0]), es[1..])
  }

  /** The promise is kept in every state of the run. */
  ghost predicate Throughout(s: System, es: seq<Event>)
    requires Run(s, es)
    decreases |es|
  {
    Promised(s) && (es != [] ==> Throughout(Next(s, es[0]), es[1..]))
  }

  ghost predicate SafeSteps(s: System, es: seq<Event>)
    requires Run(s, es)
    decreases |es|
  {
    es != [] ==> Safe(s, es[0]) && SafeSteps(Next(s, es[0]), es[1..])
  }

  /** Inheritance holds throughout a run exactly when every step of it is safe. */
  lemma {:induction false} NestedRun(s: System, es: seq<Event>)
    requires AllSound(s) && Promised(s) && Run(s, es)
    ensures Throughout(s, es) <==> SafeSteps(s, es)
    decreases |es|
  {
    if es != [] {
      PossibleSound(s, es[0]);
      PromiseKept(s, es[0]);
      if Promised(Next(s, es[0])) { NestedRun(Next(s, es[0]), es[1..]); }
    }
  }

  lemma {:induction false} InitialSound(flag: map<Mtx, Flag>, prio: map<Thread, nat>)
    ensures AllSound(Initial(flag, prio)) && Promised(Initial(flag, prio))
  {
    var s := Initial(flag, prio);
    forall m | m in s.locks ensures Sound(s, m) && Promise(s, m) {
      assert s.locks[m] == Lock(1, NONE, 0, FREE_PRIORITY, []);
    }
  }

  /** A mutex is handed to a thread that is at its own priority. */
  ghost predicate OwnPriority(s: System, base: map<Thread, nat>, e: Event)
    requires e.m in s.locks && e.t in s.prio
  {
    var l := s.locks[e.m];
    && (e.Take? && l.owner != e.t && l.value > 0 ==> e.t in base && s.prio[e.t] == base[e.t])
    && (GivesUp(s, e) && l.waiters != [] ==>
       l.waiters[0] in base && Urgency(s.prio, l.waiters[0]) == base[l.waiters[0]])
  }

  /** Own priorities are recorded, and given back, exactly when no mutex is handed to a thread
      that has inherited one. */
  lemma {:induction false} BaseKept(s: System, base: map<Thread, nat>, e: Event)
    requires AllSound(s) && BaseOk(s, base) && Possible(s, e)
    ensures BaseOk(Next(s, e), base) <==> OwnPriority(s, base, e)
  {
    var r, l, m := Next(s, e), s.locks[e.m], e.m;
    assert Sound(s, m);
    if l.waiters != [] { var w := l.waiters[0]; assert w in l.waiters; }
    if BaseOk(r, base) { assert m in r.locks; }
    if OwnPriority(s, base, e) {
      forall n | n in r.locks && r.locks[n].owner >= 0 && r.locks[n].owner in base
        ensures r.locks[n].original == base[r.locks[n].owner] {
        assert n in s.locks;
      }
      forall t | t in base && (forall n :: n in r.locks ==> r.locks[n].owner != t) ensures r.prio[t] == base[t] {
        assert r.locks[m].owner != t && m in s.locks;
        if !(GivesUp(s, e) && t == e.t) {
          forall n | n in s.locks ensures s.locks[n].owner != t { assert r.locks[n].owner != t; }
        }
      }
    }
  }

  ghost predicate BaseThroughout(s: System, base: map<Thread, nat>, es: seq<Event>)
    requires Run(s, es)
    decreases |es|
  {
    BaseOk(s, base) && (es != [] ==> BaseThroughout(Next(s, es[0]), base, es[1..]))
  }

  ghost predicate OwnSteps(s: System, base: map<Thread, nat>, es: seq<Event>)
    requires Run(s, es)
    decreases |es|
  {
    es != [] ==> OwnPriority(s, base, es[0]) && OwnSteps(Next(s, es[0]), base, es[1..])
  }

  /** The same over a run. */
  lemma {:induction false} NestedBase(s: System, base: map<Thread, nat>, es: seq<Event>)
    requires AllSound(s) && BaseOk(s, base) && Run(s, es)
    ensures BaseThroughout(s, base, es) <==> OwnSteps(s, base, es)
    decreases |es|
  {
    if es != [] {
      PossibleSound(s, es[0]);
      BaseKept(s, base, es[0]);
      if BaseOk(Next(s, es[0]), base) { NestedBase(Next(s, es[0]), base, es[1..]); }
    }
  }

  ghost function Last(s: System, es: seq<Event>): System
    requires Run(s, es)
    decreases |es|
  {
    if es == [] then s else Last(Next(s, es[0]), es[1..])
  }

  lemma {:induction false} RunsSound(s: System, es: seq<Event>)
    requires AllSound(s) && Run(s, es)
    ensures AllSound(Last(s, es))
    decreases |es|
  {
    if es != [] {
      PossibleSound(s, es[0]);
      RunsSound(Next(s, es[0]), es[1..]);
    }
  }

  /** Every run from free mutexes of either flag, with any nesting: one owner iff taken iff held
      throughout, and the exact conditions for the promise of inheritance and for own priorities
      to be restored. */
  lemma {:induction false} EveryNestedRun(flag: map<Mtx, Flag>, prio: map<Thread, nat>, es: seq<Event>)
    requires Run(Initial(flag, prio), es)
    ensures AllSound(Last(Initial(flag, prio), es))
    ensures Throughout(Initial(flag, prio), es) <==> SafeSteps(Initial(flag, prio), es)
    ensures BaseThroughout(Initial(flag, prio), prio, es) <==> OwnSteps(Initial(flag, prio), prio, es)
  {
    var s := Initial(flag, prio);
    InitialSound(flag, prio);
    assert BaseOk(s, prio);
    RunsSound(s, es);
    NestedRun(s, es);
    NestedBase(s, prio, es);
  }

  ghost predicate Steps(s: System, e: Event, r: System) { Possible(s, e) && Next(s, e) == r }

  lemma {:induction false} RunAgain(s: System, e: Event, r: System, es: seq<Event>)
    requires Steps(s, e, r) && Run(r, es)
    ensures Run(s, [e] + es) && Last(s, [e] + es) == Last(r, es)
    ensures Throughout(s, [e] + es) ==> Throughout(r, es)
  {
    assert ([e] + es)[1..] == es;
  }

  lemma {:induction false} FourSteps(s0: System, a: Event, s1: System, b: Event, s2: System, c: Event,
      s3: System, d: Event, s4: System)
    requires Steps(s0, a, s1) && Steps(s1, b, s2) && Steps(s2, c, s3) && Steps(s3, d, s4)
    ensures Run(s0, [a, b, c, d]) && Last(s0, [a, b, c, d]) == s4 && (!Promised(s4) ==> !Throughout(s0, [a, b, c, d]))
  {
    assert Run(s4, []) && Last(s4, []) == s4 && (!Promised(s4) ==> !Throughout(s4, []));
    hide *;
    RunAgain(s3, d, s4, []);
    RunAgain(s2, c, s3, [d]);
    RunAgain(s1, b, s2, [c, d]);
    RunAgain(s0, a, s1, [b, c, d]);
    assert [a] + [b, c, d] == [a, b, c, d] && [b] + [c, d] == [b, c, d] && [c] + [d] == [c, d] && [d] + [] == [d];
  }

  // Runs from free mutexes 0 and 1, used by threads 1, 5 and 9, named by their own priorities.
  const THREE: map<Thread, nat> := map[1 := 1, 5 := 5, 9 := 9]
  const OPEN: Lock := Lock(1, NONE, 0, FREE_PRIORITY, [])

  function Flags(flag: Flag): map<Mtx, Flag> { map[0 := flag, 1 := Prio] }

  ghost function Locked(flag: Flag, a: Lock, b: Lock,
      prio: map<Thread, nat>): System { System(map[0 := a, 1 := b], prio, Flags(flag)) }

  function Owned(t: Thread, p: nat, waiters: seq<Thread>): Lock { Lock(0, t, 1, p, waiters) }

  lemma {:induction false} StartsOpen(flag: Flag)
    ensures Initial(Flags(flag), THREE) == Locked(flag, OPEN, OPEN, THREE)
  {
    assert Initial(Flags(flag), THREE).locks == map[0 := OPEN, 1 := OPEN];
  }

  lemma {:induction false} TakesOpen(flag: Flag, l: Lock, prio: map<Thread, nat>, t: Thread)
    requires t in prio && t !in l.waiters
    ensures Steps(Locked(flag, OPEN, l, prio), Take(0, t, true), Locked(flag, Owned(t, prio[t], []), l, prio))
    ensures Steps(Locked(flag, l, OPEN, prio), Take(1, t, true), Locked(flag, l, Owned(t, prio[t], []), prio))
  {
    var o := Owned(t, prio[t], []);
    assert map[0 := OPEN, 1 := l][0 := o] == map[0 := o, 1 := l]
      && map[0 := l, 1 := OPEN][1 := o] == map[0 := l, 1 := o];
  }

  predicate LessUrgentOwner(l: Lock, prio: map<Thread, nat>, t: Thread)
    requires t in prio
  {
    l.value == 0 && l.hold < 255 && l.owner != t && l.owner >= 0 && l.owner in prio && prio[t] < prio[l.owner]
  }

  /** A thread waits for mutex 0, or for mutex 1, and raises the owner. */
  lemma {:induction false} WaitsAndRaises(flag: Flag, a: Lock, b: Lock, prio: map<Thread, nat>, t: Thread)
    requires t in prio && t !in a.waiters && t !in b.waiters
    ensures LessUrgentOwner(a, prio, t) ==>
      Steps(Locked(flag, a, b, prio), Take(0, t, true),
        Locked(flag, a.(waiters := Enqueue(flag, a.waiters, prio, t)), b, prio[a.owner := prio[t]]))
    ensures LessUrgentOwner(b, prio, t) ==>
      Steps(Locked(flag, a, b, prio), Take(1, t, true),
        Locked(flag, a, b.(waiters := Enqueue(Prio, b.waiters, prio, t)), prio[b.owner := prio[t]]))
  {
    var c, d := a.(waiters := Enqueue(flag, a.waiters, prio, t)), b.(waiters := Enqueue(Prio, b.waiters, prio, t));
    assert map[0 := a, 1 := b][0 := c] == map[0 := c, 1 := b] && map[0 := a, 1 := b][1 := d] == map[0 := a, 1 := d];
  }

  lemma {:induction false} LastRelease(flag: Flag, a: Lock, b: Lock, prio: map<Thread, nat>, t: Thread)
    requires t in prio && t !in a.waiters && t !in b.waiters
    ensures a.owner == t && a.hold == 1 ==>
      Steps(Locked(flag, a, b, prio), Release(0, t),
        Locked(flag, ReleaseLock(a, prio[t := a.original]), b, prio[t := a.original]))
    ensures b.owner == t && b.hold == 1 ==>
      Steps(Locked(flag, a, b, prio), Release(1, t),
        Locked(flag, a, ReleaseLock(b, prio[t := b.original]), prio[t := b.original]))
  {
    if a.hold == 1 {
      var l := ReleaseLock(a, prio[t := a.original]);
      assert map[0 := a, 1 := b][0 := l] == map[0 := l, 1 := b];
    }
    if b.hold == 1 {
      var l := ReleaseLock(b, prio[t := b.original]);
      assert map[0 := a, 1 := b][1 := l] == map[0 := a, 1 := l];
    }
  }

  lemma {:induction false} Broken(flag: Flag, a: Lock, b: Lock, prio: map<Thread, nat>, w: Thread)
    requires w in a.waiters && w in prio && a.owner in prio && prio[w] < prio[a.owner]
    ensures !Promised(Locked(flag, a, b, prio))
  {
    var s := Locked(flag, a, b, prio);
    assert !Above(s, 0, w);
    assert !Promise(s, 0);
  }

  /** Thread 9 gives one of two mutexes up and falls back below a thread that waits for the
      other. */
  lemma NestedReleaseBreaks()
    ensures var s, es := Initial(Flags(Prio), THREE),
      [Take(0, 9, true), Take(1, 9, true), Take(0, 1, true), Release(1, 9)];
      Run(s, es) && !Throughout(s, es)
  {
    var own, waited, raised := Owned(9, 9, []), Owned(9, 9, [1]), THREE[9 := 1];
    StartsOpen(Prio);
    TakesOpen(Prio, OPEN, THREE, 9);
    TakesOpen(Prio, own, THREE, 9);
    WaitsAndRaises(Prio, own, own, THREE, 1);
    assert Enqueue(Prio, [], THREE, 1) == [1] && own.(waiters := [1]) == waited;
    LastRelease(Prio, waited, own, raised, 9);
    assert raised[9 := 9] == THREE && ReleaseLock(own, THREE) == OPEN;
    Broken(Prio, waited, OPEN, THREE, 1);
    hide Steps, Locked, Initial, ReleaseLock, Enqueue, Owned;
    FourSteps(Locked(Prio, OPEN, OPEN, THREE), Take(0, 9, true), Locked(Prio, own, OPEN, THREE),
      Take(1, 9, true), Locked(Prio, own, own, THREE),
                    Take(0, 1, true), Locked(Prio, waited, own, raised), Release(1, 9),
                      Locked(Prio, waited, OPEN, THREE));
  }

  /** Thread 5 is raised while it waits, and the owner it waits for is not. */
  lemma ChainBreaks()
    ensures var s, es := Initial(Flags(Prio), THREE),
      [Take(0, 9, true), Take(1, 5, true), Take(0, 5, true), Take(1, 1, true)];
      Run(s, es) && !Throughout(s, es)
  {
    var nine, five, raised, last := Owned(9, 9, []), Owned(5, 5, []), THREE[9 := 5], THREE[9 := 5][5 := 1];
    var nineWaited, fiveWaited := Owned(9, 9, [5]), Owned(5, 5, [1]);
    StartsOpen(Prio);
    TakesOpen(Prio, OPEN, THREE, 9);
    TakesOpen(Prio, nine, THREE, 5);
    WaitsAndRaises(Prio, nine, five, THREE, 5);
    assert Enqueue(Prio, [], THREE, 5) == [5] && nine.(waiters := [5]) == nineWaited;
    WaitsAndRaises(Prio, nineWaited, five, raised, 1);
    assert Enqueue(Prio, [], raised, 1) == [1] && five.(waiters := [1]) == fiveWaited;
    Broken(Prio, nineWaited, fiveWaited, last, 5);
    hide Steps, Locked, Initial, Enqueue, Owned;
    FourSteps(Locked(Prio, OPEN, OPEN, THREE), Take(0, 9, true), Locked(Prio, nine, OPEN, THREE),
      Take(1, 5, true), Locked(Prio, nine, five, THREE),
                    Take(0, 5, true), Locked(Prio, nineWaited, five, raised), Take(1, 1, true),
                      Locked(Prio, nineWaited, fiveWaited, last));
  }

  /** With the FIFO flag thread 5 gets the mutex before thread 1. */
  lemma FifoBreaks()
    ensures var s, es := Initial(Flags(Fifo), THREE),
      [Take(0, 9, true), Take(0, 5, true), Take(0, 1, true), Release(0, 9)];
      Run(s, es) && !Throughout(s, es)
  {
    var own, one, two, given := Owned(9, 9, []), Owned(9, 9, [5]), Owned(9, 9, [5, 1]), Owned(5, 5, [1]);
    var five, raised := THREE[9 := 5], THREE[9 := 1];
    StartsOpen(Fifo);
    TakesOpen(Fifo, OPEN, THREE, 9);
    WaitsAndRaises(Fifo, own, OPEN, THREE, 5);
    assert Enqueue(Fifo, [], THREE, 5) == [5] && own.(waiters := [5]) == one;
    WaitsAndRaises(Fifo, one, OPEN, five, 1);
    assert [5][1..] == [] && Enqueue(Fifo, [], five, 1) == [1] && Enqueue(Fifo, [5], five, 1) == [5, 1];
    assert one.(waiters := [5, 1]) == two && five[9 := 1] == raised;
    LastRelease(Fifo, two, OPEN, raised, 9);
    assert raised[9 := 9] == THREE && [5, 1][1..] == [1] && ReleaseLock(two, THREE) == given;
    Broken(Fifo, given, OPEN, THREE, 1);
    hide Steps, Locked, Initial, ReleaseLock, Enqueue, Owned;
    FourSteps(Locked(Fifo, OPEN, OPEN, THREE), Take(0, 9, true), Locked(Fifo, own, OPEN, THREE),
      Take(0, 5, true), Locked(Fifo, one, OPEN, five),
                    Take(0, 1, true), Locked(Fifo, two, OPEN, raised), Release(0, 9), Locked(Fifo, given, OPEN, THREE));
  }

  /** Thread 9 has given everything up and keeps the priority it inherited from thread 1. */
  lemma InheritedStays()
    ensures var s, es := Initial(Flags(Prio), THREE),
      [Take(0, 9, true), Take(0, 1, true), Take(1, 9, true), Release(0, 9), Release(1, 9)];
      Run(s, es) && Last(s, es) == Locked(Prio, Owned(1, 1, []), OPEN, THREE[9 := 1])
  {
    var own, waited, second, given, raised :=
      Owned(9, 9, []), Owned(9, 9, [1]), Owned(9, 1, []), Owned(1, 1, []), THREE[9 := 1];
    StartsOpen(Prio);
    TakesOpen(Prio, OPEN, THREE, 9);
    WaitsAndRaises(Prio, own, OPEN, THREE, 1);
    assert Enqueue(Prio, [], THREE, 1) == [1] && own.(waiters := [1]) == waited;
    TakesOpen(Prio, waited, raised, 9);
    LastRelease(Prio, waited, second, raised, 9);
    assert raised[9 := 9] == THREE && [1][1..] == [] && ReleaseLock(waited, THREE) == given;
    LastRelease(Prio, given, second, THREE, 9);
    assert ReleaseLock(second, raised) == OPEN;
    hide *;
    FourSteps(Locked(Prio, own, OPEN, THREE), Take(0, 1, true), Locked(Prio, waited, OPEN, raised), Take(1, 9, true),
      Locked(Prio, waited, second, raised), Release(0, 9), Locked(Prio, given, second, THREE), Release(1, 9),
      Locked(Prio, given, OPEN, raised));
    RunAgain(Locked(Prio, OPEN, OPEN, THREE), Take(0, 9, true), Locked(Prio, own, OPEN, THREE),
      [Take(0, 1, true), Take(1, 9, true), Release(0, 9), Release(1, 9)]);
  }

  // ---- the object in place ----

  /** The place in the list depends on the priorities of the list and the thread only. */
  lemma {:induction false} EnqueueFrame(flag: Flag, list: seq<Thread>, p: map<Thread, nat>, r: map<Thread, nat>,
      t: Thread)
    requires Urgency(p, t) == Urgency(r, t) && forall u :: u in list ==> Urgency(p, u) == Urgency(r, u)
    ensures Enqueue(flag, list, p, t) == Enqueue(flag, list, r, t)
  {
    if list != [] {
      var h := list[0];
      assert h in list;
      EnqueueFrame(flag, list[1..], p, r, t);
    }
  }

  /** The current priorities of the threads. */
  class Threads {
    var prio: map<Thread, nat>

    constructor (prio: map<Thread, nat>)
      ensures this.prio == prio
    {
      this.prio := prio;
    }
  }

  class MutexObject {
    const flag: Flag
    var value: nat
    var owner: int
    var hold: nat
    var original: nat
    const waiters: WaitList

    ghost function Model(): Lock
      reads this, waiters
    {
      Lock(value, owner, hold, original, waiters.threads)
    }

    /** rt_mutex_init */
    constructor (flag: Flag)
      ensures Model() == Lock(1, NONE, 0, FREE_PRIORITY, []) && this.flag == flag && fresh(waiters)
    {
      this.flag := flag;
      value, owner, hold, original := 1, NONE, 0, FREE_PRIORITY;
      waiters := new WaitList();
    }

    /** rt_mutex_take up to the suspension. */
    method TakeSection(t: Thread, wait: bool, threads: Threads) returns (r: Result)
      requires t in threads.prio && hold < 255 && (value == 0 && owner != t ==> owner >= 0 && owner in threads.prio)
      requires forall w :: w in waiters.threads ==> w != owner
      modifies this, waiters, threads
      ensures Model() == TakeLock(old(Model()), flag, old(threads.prio), t, wait)
      ensures threads.prio == TakePrio(old(Model()), old(threads.prio), t, wait)
      ensures r == if old(owner) == t || old(value) > 0 then Granted else if wait then Waits else Refused
      ensures r == Granted ==> owner == t && hold == old(hold) + 1
      ensures r != Granted ==> owner == old(owner) && hold == old(hold)
    {
      if owner == t {
        hold := hold + 1;
        return Granted;
      }
      if value > 0 {
        value := value - 1;
        owner := t;
        original := threads.prio[t];
        hold := hold + 1;
        return Granted;
      }
      if !wait { return Refused; }
      if threads.prio[t] < threads.prio[owner] {
        threads.prio := threads.prio[owner := threads.prio[t]];
      }
      EnqueueFrame(flag, waiters.threads, old(threads.prio), threads.prio, t);
      waiters.Suspend(t, flag, threads.prio);
      r := Waits;
    }

    /** rt_mutex_release: only the owner may, and the last release hands the mutex on. */
    method ReleaseSection(t: Thread, threads: Threads) returns (ok: bool)
      requires t in threads.prio && (owner == t ==> hold > 0) && forall w :: w in waiters.threads ==> w in threads.prio
      modifies this, waiters, threads
      ensures ok == (old(owner) == t)
      ensures !ok ==> Model() == old(Model()) && threads.prio == old(threads.prio)
      ensures ok ==> threads.prio == ReleasePrio(old(Model()), old(threads.prio), t)
      ensures ok ==> Model() == ReleaseLock(old(Model()), threads.prio)
      ensures ok ==> hold == if old(hold) > 1 then old(hold) - 1 else if old(waiters.threads) != [] then 1 else 0
      ensures ok ==>
        owner == if old(hold) > 1 then t else if old(waiters.threads) != [] then old(waiters.threads)[0] else NONE
    {
      ok := t == owner;
      if !ok { return; }
      hold := hold - 1;
      if hold == 0 {
        if original != threads.prio[t] {
          threads.prio := threads.prio[t := original];
        } else {
          assert threads.prio[t := original] == threads.prio;
        }
        if waiters.threads != [] {
          var next := waiters.threads[0];
          owner := next;
          original := Urgency(threads.prio, next);
          hold := hold + 1;
          waiters.threads := waiters.threads[1..];
        } else {
          value := value + 1;
          owner := NONE;
          original := FREE_PRIORITY;
        }
      }
    }
  }
}
