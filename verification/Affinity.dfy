/** The fan-out's batching order: ready nodes sorted by (model or U+FFFF, position), so that
    consecutive claims of one model find it warm. */
module Affinity {
  import opened Base
  import opened Workflow

  function ModelKey(n: Node): string {
    if Given(n.model) then n.model.value else "\U{FFFF}"
  }

  /** Code-point order on strings. */
  predicate LexLe(a: string, b: string) {
    a == [] || (b != [] && (a[0] < b[0] || (a[0] == b[0] && LexLe(a[1..], b[1..]))))
  }

  function Insert(n: Node, sorted: seq<Node>): seq<Node> {
    if sorted == [] || LexLe(ModelKey(n), ModelKey(sorted[0])) then [n] + sorted
    else [sorted[0]] + Insert(n, sorted[1..])
  }

  function AffinityOrder(ready: seq<Node>): seq<Node> {
    if ready == [] then [] else Insert(ready[0], AffinityOrder(ready[1..]))
  }

  // ---------------------------------------------------------------- it is a permutation

  lemma {:induction false} InsertPermutes(n: Node, s: seq<Node>)
    ensures multiset(Insert(n, s)) == multiset{n} + multiset(s)
    ensures |Insert(n, s)| == |s| + 1
  {
    if s != [] && !LexLe(ModelKey(n), ModelKey(s[0])) {
      InsertPermutes(n, s[1..]);
      assert s == [s[0]] + s[1..];
    }
  }

  lemma {:induction false} OrderPermutes(ready: seq<Node>)
    ensures multiset(AffinityOrder(ready)) == multiset(ready)
    ensures |AffinityOrder(ready)| == |ready|
    ensures forall n :: n in AffinityOrder(ready) <==> n in ready
  {
    if ready != [] {
      OrderPermutes(ready[1..]);
      InsertPermutes(ready[0], AffinityOrder(ready[1..]));
      assert ready == [ready[0]] + ready[1..];
    }
    SameMembers(AffinityOrder(ready), ready);
  }

  lemma SameMembers(s: seq<Node>, t: seq<Node>)
    requires multiset(s) == multiset(t)
    ensures forall n :: n in s <==> n in t
  {
    assert forall n :: n in s <==> n in multiset(s);
    assert forall n :: n in t <==> n in multiset(t);
  }

  // ---------------------------------------------------------------- it groups by model

  lemma {:induction false} LexTotal(a: string, b: string)
    ensures LexLe(a, b) || LexLe(b, a)
  {
    if a != [] && b != [] && a[0] == b[0] {
      LexTotal(a[1..], b[1..]);
    }
  }

  lemma {:induction false} LexTransitive(a: string, b: string, c: string)
    requires LexLe(a, b) && LexLe(b, c)
    ensures LexLe(a, c)
  {
    if a != [] && a[0] == b[0] && b[0] == c[0] {
      LexTransitive(a[1..], b[1..], c[1..]);
    }
  }

  /** Strings compare by the first place they differ in; a prefix comes first. */
  ghost predicate Before(a: string, b: string) {
    || a <= b
    || exists i :: 0 <= i < |a| && i < |b| && a[..i] == b[..i] && a[i] < b[i]
  }

  lemma SameHead(a: string, b: string, i: nat)
    requires 0 < i <= |a| && i <= |b| && a[..i] == b[..i]
    ensures a[0] == b[0]
  {
    assert a[..i][0] == b[..i][0];
  }

  /** Equal first characters do not matter. */
  lemma BeforeTails(a: string, b: string)
    requires a != [] && b != [] && a[0] == b[0] && Before(a, b)
    ensures Before(a[1..], b[1..])
  {
    if !(a <= b) {
      var i :| 0 <= i < |a| && i < |b| && a[..i] == b[..i] && a[i] < b[i];
      assert a[1..][..i - 1] == a[..i][1..] == b[..i][1..] == b[1..][..i - 1];
      assert a[1..][i - 1] < b[1..][i - 1];
    }
  }

  lemma TailsBefore(a: string, b: string)
    requires a != [] && b != [] && a[0] == b[0] && Before(a[1..], b[1..])
    ensures Before(a, b)
  {
    assert a == [a[0]] + a[1..] && b == [b[0]] + b[1..];
    if !(a[1..] <= b[1..]) {
      var i :| 0 <= i < |a[1..]| && i < |b[1..]| && a[1..][..i] == b[1..][..i] && a[1..][i] < b[1..][i];
      assert a[..i + 1] == [a[0]] + a[1..][..i] && b[..i + 1] == [b[0]] + b[1..][..i];
      assert a[i + 1] < b[i + 1];
    }
  }

  /** Different ones decide. */
  lemma HeadsDecide(a: string, b: string)
    requires a != [] && b != [] && a[0] != b[0]
    ensures Before(a, b) <==> a[0] < b[0]
  {
    if a[0] < b[0] { assert a[..0] == b[..0]; }
    if Before(a, b) && !(a <= b) {
      var i :| 0 <= i < |a| && i < |b| && a[..i] == b[..i] && a[i] < b[i];
      if i > 0 {
        SameHead(a, b, i);
        assert false;
      }
    }
  }

  lemma {:induction false} LexMeans(a: string, b: string)
    ensures LexLe(a, b) <==> Before(a, b)
  {
    if a != [] && b != [] {
      if a[0] == b[0] {
        LexMeans(a[1..], b[1..]);
        if Before(a, b) { BeforeTails(a, b); }
        if Before(a[1..], b[1..]) { TailsBefore(a, b); }
      } else {
        HeadsDecide(a, b);
      }
    }
  }

  ghost predicate SortedByModel(s: seq<Node>) {
    forall i, j :: 0 <= i < j < |s| ==> LexLe(ModelKey(s[i]), ModelKey(s[j]))
  }

  /** A node with a model is placed by its name, one without behind every name below U+FFFF. */
  ghost predicate InOrder(m: Node, n: Node) {
    var noModel := "\U{FFFF}";
    if Given(m.model) && Given(n.model) then Before(m.model.value, n.model.value)
    else if Given(m.model) then Before(m.model.value, noModel)
    else if Given(n.model) then Before(noModel, n.model.value)
    else true
  }

  lemma {:induction false} InsertSorts(n: Node, s: seq<Node>)
    requires SortedByModel(s)
    ensures SortedByModel(Insert(n, s))
  {
    if s != [] {
      if LexLe(ModelKey(n), ModelKey(s[0])) {
        forall j | 0 <= j < |s| ensures LexLe(ModelKey(n), ModelKey(s[j])) {
          if j > 0 { LexTransitive(ModelKey(n), ModelKey(s[0]), ModelKey(s[j])); }
        }
      } else {
        LexTotal(ModelKey(n), ModelKey(s[0]));
        InsertSorts(n, s[1..]);
        InsertPermutes(n, s[1..]);
        var t := Insert(n, s[1..]);
        forall j | 0 <= j < |t| ensures LexLe(ModelKey(s[0]), ModelKey(t[j])) {
          assert t[j] in multiset(t);
          assert t[j] == n || t[j] in s[1..];
        }
      }
    }
  }

  /** The batch is in order of model name, nodes without a model last. */
  lemma OrderSorts(ready: seq<Node>)
    ensures var out := AffinityOrder(ready);
            forall i, j :: 0 <= i < j < |out| ==> InOrder(out[i], out[j])
  {
    var out := AffinityOrder(ready);
    OrderSortsByKey(ready);
    forall i, j | 0 <= i < j < |out|
      ensures InOrder(out[i], out[j])
    {
      LexMeans(ModelKey(out[i]), ModelKey(out[j]));
    }
  }

  lemma {:induction false} OrderSortsByKey(ready: seq<Node>)
    ensures SortedByModel(AffinityOrder(ready))
  {
    if ready != [] {
      OrderSortsByKey(ready[1..]);
      InsertSorts(ready[0], AffinityOrder(ready[1..]));
    }
  }

  // ---------------------------------------------------------------- it is stable

  ghost function Group(s: seq<Node>, key: string): seq<Node> {
    if s == [] then [] else (if ModelKey(s[0]) == key then [s[0]] else []) + Group(s[1..], key)
  }

  lemma {:induction false} LexReflexive(a: string)
    ensures LexLe(a, a)
  {
    if a != [] { LexReflexive(a[1..]); }
  }

  lemma {:induction false} InsertStable(n: Node, s: seq<Node>, key: string)
    ensures Group(Insert(n, s), key) == (if ModelKey(n) == key then [n] else []) + Group(s, key)
  {
    if s == [] || LexLe(ModelKey(n), ModelKey(s[0])) {
      assert ([n] + s)[1..] == s;
    } else {
      LexReflexive(ModelKey(n));
      InsertStable(n, s[1..], key);
      assert ([s[0]] + Insert(n, s[1..]))[1..] == Insert(n, s[1..]);
    }
  }

  /** The batching order is a stable sort: nodes of one model keep their workflow order. */
  lemma {:induction false} OrderStable(ready: seq<Node>, key: string)
    ensures Group(AffinityOrder(ready), key) == Group(ready, key)
  {
    if ready != [] {
      OrderStable(ready[1..], key);
      InsertStable(ready[0], AffinityOrder(ready[1..]), key);
    }
  }
}
