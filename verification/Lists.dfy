/** Lists of addresses. */
module Lists {

  ghost predicate Distinct(s: seq<int>) {
    forall i, j {:trigger Differ(s[i], s[j])} :: 0 <= i < j < |s| ==> Differ(s[i], s[j])
  }

  predicate Differ(a: int, b: int) { a != b }

  lemma {:induction false} TailWithout(list: seq<int>)
    requires Distinct(list) && list != []
    ensures Distinct(list[1..]) && list[0] in list
    ensures forall x {:trigger x in list} {:trigger x in list[1..]} :: x in list[1..] <==> x in list && x != list[0]
  {
    var t := list[1..];
    forall i, j | 0 <= i < j < |t| ensures Differ(t[i], t[j]) { assert Differ(list[i + 1], list[j + 1]); }
    forall x ensures x in t <==> x in list && x != list[0] {
      if x in t { var k :| 0 <= k < |t| && t[k] == x; assert Differ(list[0], list[k + 1]); }
      if x in list && x != list[0] { var k :| 0 <= k < |list| && list[k] == x; assert t[k - 1] == x; }
    }
  }

  /** The list without an element. */
  function Drop(s: seq<int>, x: int): (r: seq<int>)
    ensures forall y :: y in r <==> y in s && y != x
  {
    if s == [] then [] else if s[0] == x then Drop(s[1..], x) else [s[0]] + Drop(s[1..], x)
  }

  lemma {:induction false} DropDistinct(s: seq<int>, x: int)
    requires Distinct(s)
    ensures Distinct(Drop(s, x))
  {
    if s != [] {
      DropDistinct(s[1..], x);
      var r := Drop(s[1..], x);
      forall j | 0 <= j < |r| ensures s[0] == x || Differ(s[0], r[j]) {
        assert r[j] in r;
        var k :| 1 <= k < |s| && s[k] == r[j];
        assert Differ(s[0], s[k]);
      }
    }
  }

  lemma {:induction false} DropAbsent(s: seq<int>, x: int)
    requires x !in s
    ensures Drop(s, x) == s
  {
    if s != [] {
      assert s[0] in s;
      DropAbsent(s[1..], x);
    }
  }
}
