/** The circular doubly linked lists of rtservice.h: `next` and `prev` of every node. */
module Links {

  /** The one node is behind the other. */
  predicate Joined(next: map<int, int>, prev: map<int, int>, a: int, b: int) {
    a in next && next[a] == b && b in prev && prev[b] == a
  }

  /** The two directions of the links agree at a node. */
  predicate Coherent(next: map<int, int>, prev: map<int, int>, n: int) {
    n in next && next[n] in prev && prev[next[n]] == n
  }

  /** rt_list_insert_after */
  function LinkAfter(next: map<int, int>, prev: map<int, int>, l: int, n: int): (map<int, int>, map<int, int>)
    requires l in next
  {
    (next[n := next[l]][l := n], prev[next[l] := n][n := l])
  }

  /** rt_list_insert_before */
  function LinkBefore(next: map<int, int>, prev: map<int, int>, l: int, n: int): (map<int, int>, map<int, int>)
    requires l in prev
  {
    (next[prev[l] := n][n := l], prev[n := prev[l]][l := n])
  }

  /** rt_list_remove */
  function UnlinkNode(next: map<int, int>, prev: map<int, int>, n: int): (map<int, int>, map<int, int>)
    requires n in next && n in prev
  {
    (next[prev[n] := next[n]][n := n], prev[next[n] := prev[n]][n := n])
  }
}
