/** Finite directed graphs given by an edge predicate: walks, cycles, and the one fact the
    dispatcher's arguments rest on, that a non-empty finite set of vertices of an acyclic
    graph contains a vertex with no successor in the set. */
module Graph {

  ghost predicate IsWalk<T(!new)>(edge: (T, T) -> bool, w: seq<T>) {
    forall i, j :: 0 <= i < |w| && 0 <= j < |w| && j == i + 1 ==> edge(w[i], w[j])
  }

  ghost predicate IsCycle<T(!new)>(edge: (T, T) -> bool, w: seq<T>) {
    && |w| > 1
    && IsWalk(edge, w)
    && w[0] == w[|w| - 1]
  }

  ghost predicate Acyclic<T(!new)>(edge: (T, T) -> bool) {
    forall w: seq<T> :: !IsCycle(edge, w)
  }

  ghost function Reverse<T(!new)>(edge: (T, T) -> bool): (T, T) -> bool {
    (x, y) => edge(y, x)
  }

  /** Turning every edge around creates no cycle. */
  lemma ReverseAcyclic<T(!new)>(edge: (T, T) -> bool)
    requires Acyclic(edge)
    ensures Acyclic(Reverse(edge))
  {
    forall w: seq<T> | IsCycle(Reverse(edge), w)
      ensures false
    {
      var r := seq(|w|, i requires 0 <= i < |w| => w[|w| - 1 - i]);
      forall i, j | 0 <= i < |r| && 0 <= j < |r| && j == i + 1
        ensures edge(r[i], r[j])
      {
        assert Reverse(edge)(w[|w| - 1 - j], w[|w| - 1 - i]);
      }
      assert IsCycle(edge, r);
    }
  }

  /** Sequences longer than the set they draw from repeat an element. */
  lemma Pigeonhole<T>(w: seq<T>, s: set<T>) returns (i: nat, j: nat)
    requires forall k :: 0 <= k < |w| ==> w[k] in s
    requires |w| > |s|
    ensures i < j < |w| && w[i] == w[j]
  {
    var last := w[|w| - 1];
    var rest := w[..|w| - 1];
    if last in rest {
      var k :| 0 <= k < |rest| && rest[k] == last;
      i, j := k, |w| - 1;
    } else {
      i, j := Pigeonhole(rest, s - {last});
    }
  }

  ghost predicate HasSuccessorIn<T(!new)>(edge: (T, T) -> bool, s: set<T>, x: T) {
    exists y :: y in s && edge(x, y)
  }

  ghost predicate AllGoOn<T(!new)>(edge: (T, T) -> bool, s: set<T>) {
    forall x {:trigger HasSuccessorIn(edge, s, x)} :: x in s ==> HasSuccessorIn(edge, s, x)
  }

  /** If every member of `s` has a successor in `s`, walks inside `s` go on for any length. */
  lemma {:induction false} LongWalk<T(!new)>(edge: (T, T) -> bool, s: set<T>, n: nat) returns (w: seq<T>)
    requires s != {}
    requires AllGoOn(edge, s)
    ensures |w| == n + 1 && IsWalk(edge, w)
    ensures forall k :: 0 <= k < |w| ==> w[k] in s
  {
    if n == 0 {
      var x :| x in s;
      w := [x];
    } else {
      var v := LongWalk(edge, s, n - 1);
      assert HasSuccessorIn(edge, s, v[n - 1]);
      var y :| y in s && edge(v[n - 1], y);
      w := v + [y];
    }
  }

  lemma SubWalk<T(!new)>(edge: (T, T) -> bool, w: seq<T>, i: nat, j: nat)
    requires IsWalk(edge, w) && i <= j <= |w|
    ensures IsWalk(edge, w[i..j])
  {
    forall k, l | 0 <= k < |w[i..j]| && 0 <= l < |w[i..j]| && l == k + 1
      ensures edge(w[i..j][k], w[i..j][l])
    {
      assert edge(w[i + k], w[i + l]);
    }
  }

  lemma CutCycle<T(!new)>(edge: (T, T) -> bool, w: seq<T>, i: nat, j: nat)
    requires IsWalk(edge, w) && i < j < |w| && w[i] == w[j]
    ensures IsCycle(edge, w[i..j + 1])
  {
    SubWalk(edge, w, i, j + 1);
  }

  /** If every member of a finite set has a successor in it, the graph has a cycle. */
  lemma EndlessWalkCycles<T(!new)>(edge: (T, T) -> bool, s: set<T>) returns (c: seq<T>)
    requires s != {}
    requires AllGoOn(edge, s)
    ensures IsCycle(edge, c)
  {
    var w := LongWalk(edge, s, |s|);
    var i, j := Pigeonhole(w, s);
    CutCycle(edge, w, i, j);
    c := w[i..j + 1];
  }

  /** A non-empty finite set of vertices of an acyclic graph has a sink. */
  lemma SinkExists<T(!new)>(edge: (T, T) -> bool, s: set<T>) returns (x: T)
    requires Acyclic(edge)
    requires s != {}
    ensures x in s && !HasSuccessorIn(edge, s, x)
  {
    if AllGoOn(edge, s) {
      var c := EndlessWalkCycles(edge, s);
      assert false;
    }
    x :| x in s && !HasSuccessorIn(edge, s, x);
  }
}
