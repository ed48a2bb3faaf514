/** The wait lists of the IPC objects. */
module IpcList {
  import opened Lists

  type Thread = nat

  datatype Flag = Fifo | Prio

  /** Where rt_ipc_list_suspend puts a thread: at the end, or before the first waiting thread
      of lower urgency. Smaller numbers are more urgent. */
  function Enqueue(flag: Flag, list: seq<Thread>, prio: map<Thread, nat>, t: Thread): (r: seq<Thread>)
  {
    if list == [] || (flag.Prio? && Urgency(prio, t) < Urgency(prio, list[0])) then [t] + list
    else [list[0]] + Enqueue(flag, list[1..], prio, t)
  }

  function Urgency(prio: map<Thread, nat>, t: Thread): nat {
    if t in prio then prio[t] else 0
  }

  ghost predicate SortedBy(s: seq<Thread>, prio: map<Thread, nat>) {
    forall i, j {:trigger NotAfter(prio, s[i], s[j])} :: 0 <= i < j < |s| ==> NotAfter(prio, s[i], s[j])
  }

  predicate NotAfter(prio: map<Thread, nat>, a: Thread, b: Thread) { Urgency(prio, a) <= Urgency(prio, b) }

  /** How many waiting threads stay ahead of `t`. */
  function Place(flag: Flag, list: seq<Thread>, prio: map<Thread, nat>, t: Thread): (k: nat)
    ensures k <= |list| && (flag.Fifo? ==> k == |list|)
  {
    if list == [] || (flag.Prio? && Urgency(prio, t) < Urgency(prio, list[0])) then 0
      else 1 + Place(flag, list[1..], prio, t)
  }

  lemma {:induction false} Shifted(list: seq<Thread>, k: nat, t: Thread)
    requires list != [] && k < |list|
    ensures [list[0]] + (list[1..][..k] + [t] + list[1..][k..]) == list[..k + 1] + [t] + list[k + 1..]
  {
  }

  lemma {:induction false} EnqueueAt(flag: Flag, list: seq<Thread>, prio: map<Thread, nat>, t: Thread)
    ensures var k := Place(flag, list, prio, t); Enqueue(flag, list, prio, t) == list[..k] + [t] + list[k..]
  {
    if list == [] || (flag.Prio? && Urgency(prio, t) < Urgency(prio, list[0])) {
      assert list[..0] + [t] + list[0..] == [t] + list;
    } else {
      EnqueueAt(flag, list[1..], prio, t);
      Shifted(list, Place(flag, list[1..], prio, t), t);
    }
  }

  lemma {:induction false} PlaceUrgency(list: seq<Thread>, prio: map<Thread, nat>, t: Thread)
    ensures var k := Place(Prio, list, prio, t);
      (forall j {:trigger list[j]} :: 0 <= j < k ==> NotAfter(prio, list[j], t))
        && (k < |list| ==> !NotAfter(prio, list[k], t))
  {
    if list != [] && !(Urgency(prio, t) < Urgency(prio, list[0])) {
      PlaceUrgency(list[1..], prio, t);
      forall j | 0 <= j < Place(Prio, list, prio, t) ensures NotAfter(prio, list[j], t) {
        assert j > 0 ==> list[j] == list[1..][j - 1];
      }
    }
  }

  /** The new thread is inserted, nobody is lost or reordered; with the priority flag it goes
      behind everybody not less urgent and ahead of the first who is. */
  lemma {:induction false} EnqueuePosition(flag: Flag, list: seq<Thread>, prio: map<Thread, nat>, t: Thread)
    ensures var k := Place(flag, list, prio, t);
      && Enqueue(flag, list, prio, t) == list[..k] + [t] + list[k..]
      && (flag.Prio? ==>
         (forall j {:trigger list[j]} :: 0 <= j < k ==> NotAfter(prio, list[j], t))
         && (k < |list| ==> !NotAfter(prio, list[k], t)))
  {
    EnqueueAt(flag, list, prio, t);
    if flag.Prio? { PlaceUrgency(list, prio, t); }
  }

  lemma {:induction false} EnqueueContents(flag: Flag, list: seq<Thread>, prio: map<Thread, nat>, t: Thread)
    ensures |Enqueue(flag, list, prio, t)| == |list| + 1
    ensures forall u :: u in Enqueue(flag, list, prio, t) <==> u in list || u == t
    ensures Distinct(list) && t !in list ==> Distinct(Enqueue(flag, list, prio, t))
  {
    if !(list == [] || (flag.Prio? && Urgency(prio, t) < Urgency(prio, list[0]))) {
      EnqueueContents(flag, list[1..], prio, t);
      var r := Enqueue(flag, list[1..], prio, t);
      assert forall u :: u in list <==> u == list[0] || u in list[1..];
      if Distinct(list) && t !in list {
        forall i, j | 0 <= i < j < |list[1..]| ensures Differ(list[1..][i], list[1..][j]) {
          assert Differ(list[i + 1], list[j + 1]);
        }
        forall k | 0 <= k < |r| ensures Differ(list[0], r[k]) {
          var x := r[k];
          assert x in r;
          if x != t { var l :| 1 <= l < |list| && list[l] == x; assert Differ(list[0], list[l]); }
        }
      }
    }
    var n := Enqueue(flag, list, prio, t);
    if Distinct(list) && t !in list {
      forall i, j | 0 <= i < j < |n| ensures Differ(n[i], n[j]) {
        if list == [] || (flag.Prio? && Urgency(prio, t) < Urgency(prio, list[0])) {
          assert i > 0 ==> Differ(list[i - 1], list[j - 1]);
        } else {
          assert i > 0 ==> Differ(Enqueue(flag, list[1..], prio, t)[i - 1], Enqueue(flag, list[1..], prio, t)[j - 1]);
        }
      }
    }
  }

  /** With the priority flag a sorted list stays sorted, equal priorities in arrival order. */
  lemma {:induction false} EnqueueSorted(list: seq<Thread>, prio: map<Thread, nat>, t: Thread)
    requires SortedBy(list, prio)
    ensures SortedBy(Enqueue(Prio, list, prio, t), prio)
  {
    EnqueuePosition(Prio, list, prio, t);
    var n := Enqueue(Prio, list, prio, t);
    var k := Place(Prio, list, prio, t);
    forall i, j | 0 <= i < j < |n| ensures NotAfter(prio, n[i], n[j]) {
      assert i < k && j < k ==> NotAfter(prio, list[i], list[j]);
      assert i > k ==> NotAfter(prio, list[i - 1], list[j - 1]);
      assert i < k && j > k ==> NotAfter(prio, list[i], list[j - 1]);
      assert i == k && j > k + 1 ==> NotAfter(prio, list[k], list[j - 1]);
    }
  }

  /** Taking a waiting thread out, wherever it is. */
  function Without(s: seq<Thread>, t: Thread): (r: seq<Thread>)
    ensures forall u :: u in r <==> u in s && u != t
  {
    if s == [] then [] else if s[0] == t then Without(s[1..], t) else [s[0]] + Without(s[1..], t)
  }

  /** With the FIFO flag the last to come is the last. */
  lemma {:induction false} EnqueueLast(list: seq<Thread>, prio: map<Thread, nat>, t: Thread)
    ensures Enqueue(Flag.Fifo, list, prio, t) == list + [t]
  {
    if list != [] {
      EnqueueLast(list[1..], prio, t);
      assert list + [t] == [list[0]] + (list[1..] + [t]);
    }
  }

  lemma {:induction false} WithoutAbsent(list: seq<Thread>, t: Thread)
    requires t !in list
    ensures Without(list, t) == list
  {
    if list != [] {
      assert list[0] in list;
      WithoutAbsent(list[1..], t);
    }
  }

  lemma {:induction false} WithoutKeeps(s: seq<Thread>, t: Thread, prio: map<Thread, nat>)
    ensures Distinct(s) ==> Distinct(Without(s, t))
    ensures SortedBy(s, prio) ==> SortedBy(Without(s, t), prio)
  {
    if s != [] {
      WithoutKeeps(s[1..], t, prio);
      var r := Without(s[1..], t);
      if Distinct(s) {
        forall i, j | 0 <= i < j < |s[1..]| ensures Differ(s[1..][i], s[1..][j]) { assert Differ(s[i + 1], s[j + 1]); }
      }
      if SortedBy(s, prio) {
        forall i, j | 0 <= i < j < |s[1..]| ensures NotAfter(prio, s[1..][i], s[1..][j]) {
          assert NotAfter(prio, s[i + 1], s[j + 1]);
        }
      }
      if s[0] != t {
        var n := [s[0]] + r;
        forall i, j | 0 <= i < j < |n|
          ensures Distinct(s) ==> Differ(n[i], n[j])
          ensures SortedBy(s, prio) ==> NotAfter(prio, n[i], n[j])
        {
          if i == 0 {
            var x := r[j - 1];
            assert x in r;
            var l :| 1 <= l < |s| && s[l] == x;
            assert (Distinct(s) ==> Differ(s[0], s[l])) && (SortedBy(s, prio) ==> NotAfter(prio, s[0], s[l]));
          } else {
            assert (Distinct(s) ==> Differ(r[i - 1], r[j - 1]))
              && (SortedBy(s, prio) ==> NotAfter(prio, r[i - 1], r[j - 1]));
          }
        }
      }
    }
  }

  /** A waiting list the source keeps in place. */
  class WaitList {
    var threads: seq<Thread>

    constructor ()
      ensures threads == []
    {
      threads := [];
    }

    /** rt_ipc_list_suspend, list part: the search for a place and the insertion. */
    method Suspend(t: Thread, flag: Flag, prio: map<Thread, nat>)
      modifies this
      ensures threads == Enqueue(flag, old(threads), prio, t)
    {
      var n := 0;
      if flag.Fifo? {
        n := |threads|;
        AtEnd(threads, prio, t);
      } else {
        while n < |threads| && !(Urgency(prio, t) < Urgency(prio, threads[n]))
          invariant 0 <= n <= |threads|
          invariant Enqueue(Prio, threads, prio, t) == threads[..n] + Enqueue(Prio, threads[n..], prio, t)
        {
          assert threads[n..][1..] == threads[n + 1..];
          n := n + 1;
        }
      }
      threads := threads[..n] + [t] + threads[n..];
    }
  }

  lemma {:induction false} AtEnd(list: seq<Thread>, prio: map<Thread, nat>, t: Thread)
    ensures Enqueue(Fifo, list, prio, t) == list[..|list|] + [t] + list[|list|..]
  {
    if list != [] { AtEnd(list[1..], prio, t); }
  }
}
