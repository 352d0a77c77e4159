/** Runs that three reconciler calls recover and two do not, reached from the start by ordinary steps. */
module Stranded {
  import opened Base
  import opened Graph
  import opened Workflow
  import opened Dispatch
  import opened RunMachine

  /** Nodes `a` and `c`, and `b` after `c`; `a` and `b` skip once `c` has left something in the context. */
  ghost predicate Shape(def: Def, a: Node, b: Node, c: Node) {
    && def.nodes == [a, c, b]
    && a.id != b.id && b.id != c.id && a.id != c.id
    && a.dependsOn == [] && c.dependsOn == [] && b.dependsOn == [c.id]
    && !a.gpu && !b.gpu && !c.gpu
    && Given(a.skipIf) && Given(b.skipIf) && !Given(c.skipIf) && def.base == map[]
    && SkipsAfter(def.resolve, c.id)
  }

  ghost predicate SkipsAfter(resolve: Resolver, id: string) {
    forall name, context {:trigger resolve(name, context)} :: resolve(name, context).Truthy? <==> id in context
  }

  lemma Members(def: Def, a: Node, b: Node, c: Node)
    requires Shape(def, a, b, c)
    ensures UniqueIds(def.nodes)
    ensures forall n :: n in def.nodes <==> n == a || n == b || n == c
  {
  }

  lemma ShapeIsWellFormed(def: Def, a: Node, b: Node, c: Node)
    requires Shape(def, a, b, c)
    ensures WellFormed(def.nodes)
  {
    Members(def, a, b, c);
    assert c.id in Ids(def.nodes);
    forall w: seq<string>
      ensures !IsCycle(DependsOn(def.nodes), w)
    {
      if |w| == 2 {
        assert DependsOn(def.nodes)(w[0], w[1]) ==> w[0] != w[1];
      } else if |w| > 2 {
        assert !(DependsOn(def.nodes)(w[0], w[1]) && DependsOn(def.nodes)(w[1], w[2]));
      }
    }
  }

  const QUEUED := Row(Queued, map[], false)
  const SKIPPED := Row(Skipped, map[], false)
  const CANCELLED := Row(Cancelled, map[], false)

  function Finished(delta: Delta): Row { Row(Completed, delta, false) }

  /** The rows when `a` is cancelled and `c` done; after a fan-out; with the dead row dropped; after another. */
  function Cut(a: Node, c: Node, delta: Delta): Rows {
    map[a.id := CANCELLED, c.id := Finished(delta)]
  }

  function Second(a: Node, b: Node, c: Node, delta: Delta): Rows {
    map[a.id := CANCELLED, c.id := Finished(delta), b.id := SKIPPED]
  }

  function Kept(b: Node, c: Node, delta: Delta): Rows {
    map[c.id := Finished(delta), b.id := SKIPPED]
  }

  function Last(a: Node, b: Node, c: Node, delta: Delta): Rows {
    map[a.id := SKIPPED, c.id := Finished(delta), b.id := SKIPPED]
  }

  // ---------------------------------------------------------------- fan-outs of one round

  /** `out` adds a row for each ready node and nothing else. */
  ghost predicate AddsReady(def: Def, rows: Rows, out: Rows) {
    && (forall id :: id in rows ==> id in out && out[id] == rows[id])
    && (forall n :: n in def.nodes && IsReady(rows, n) ==> n.id in out && out[n.id] == NewRow(def, rows, n))
    && (forall id :: id in out && id !in rows ==> exists n :: n in def.nodes && n.id == id && IsReady(rows, n))
  }

  lemma RoundHasRow(def: Def, rows: Rows, out: Rows, id: string)
    requires UniqueIds(def.nodes) && AddsReady(def, rows, out)
    ensures id in Round(def, rows) <==> id in out
    ensures id in out ==> Round(def, rows)[id] == out[id]
  {
    if id !in rows && id in out {
      var n :| n in def.nodes && n.id == id && IsReady(rows, n);
    }
  }

  lemma RoundAddsReady(def: Def, rows: Rows, out: Rows)
    requires UniqueIds(def.nodes) && AddsReady(def, rows, out)
    ensures Round(def, rows) == out
  {
    var round := Round(def, rows);
    forall id
      ensures id in round <==> id in out
      ensures id in out ==> round[id] == out[id]
    {
      RoundHasRow(def, rows, out, id);
    }
    SameRows(round, out);
  }

  lemma OneRound(def: Def, rows: Rows, out: Rows, n: Node)
    requires UniqueIds(def.nodes) && AddsReady(def, rows, out) && NoneReady(def, out)
    requires n in def.nodes && IsReady(rows, n)
    ensures Saturate(def, rows) == out
  {
    RoundAddsReady(def, rows, out);
    SaturateIsStable(def, out);
    assert n in FindReady(def.nodes, rows);
  }

  lemma DecidesWithoutC(def: Def, a: Node, b: Node, c: Node, rows: Rows, n: Node)
    requires Shape(def, a, b, c) && c.id !in rows
    ensures NewRow(def, rows, n) == QUEUED
  {
  }

  lemma DecidesAfterC(def: Def, a: Node, b: Node, c: Node, rows: Rows, n: Node)
    requires Shape(def, a, b, c) && c.id in rows && rows[c.id].status.Completed? && rows[c.id].delta != map[]
    requires Given(n.skipIf)
    ensures NewRow(def, rows, n) == SKIPPED
  {
    assert c.id in SkipContext(def, rows);
  }

  /** From nothing, `a` and `c` are dispatched. */
  lemma FirstFanOut(def: Def, a: Node, b: Node, c: Node)
    requires Shape(def, a, b, c)
    ensures UniqueIds(def.nodes) && Saturate(def, map[]) == map[a.id := QUEUED, c.id := QUEUED]
  {
    Members(def, a, b, c);
    var none: Rows := map[];
    var out: Rows := map[a.id := QUEUED, c.id := QUEUED];
    DecidesWithoutC(def, a, b, c, none, a);
    DecidesWithoutC(def, a, b, c, none, c);
    assert c.id in b.dependsOn && !IsDone(none, c.id) && !IsDone(out, c.id);
    OneRound(def, none, out, a);
  }

  /** With `a` cancelled and `c` completed, a fan-out skips `b`. */
  lemma SecondFanOut(def: Def, a: Node, b: Node, c: Node, delta: Delta)
    requires Shape(def, a, b, c) && delta != map[]
    ensures UniqueIds(def.nodes) && Saturate(def, Cut(a, c, delta)) == Second(a, b, c, delta)
  {
    Members(def, a, b, c);
    DecidesAfterC(def, a, b, c, Cut(a, c, delta), b);
    OneRound(def, Cut(a, c, delta), Second(a, b, c, delta), b);
  }

  /** With `a` dropped, a fan-out skips `a`. */
  lemma LastFanOut(def: Def, a: Node, b: Node, c: Node, delta: Delta)
    requires Shape(def, a, b, c) && delta != map[]
    ensures UniqueIds(def.nodes) && Saturate(def, Kept(b, c, delta)) == Last(a, b, c, delta)
  {
    Members(def, a, b, c);
    DecidesAfterC(def, a, b, c, Kept(b, c, delta), a);
    OneRound(def, Kept(b, c, delta), Last(a, b, c, delta), a);
  }

  // ---------------------------------------------------------------- the run

  /** `a` and `c` are dispatched, `a` is cancelled, and `c` completes; its event is not yet delivered. */
  function Stranding(a: Node, c: Node, delta: Delta): seq<Action> {
    [Start, CancelRow(a.id), Complete(c.id, delta)]
  }

  function StrandedRun(a: Node, c: Node, delta: Delta): Run {
    Run(RunRunning, Cut(a, c, delta), multiset{Event(CompletedEvent, c.id)})
  }

  lemma ExecuteSnoc(def: Def, s: seq<Action>, a: Action)
    requires UniqueIds(def.nodes)
    ensures Execute(def, s + [a]) == RunMachine.Step(def, Execute(def, s), a)
  {
    assert (s + [a])[..|s|] == s;
  }

  lemma Starts(def: Def, a: Node, b: Node, c: Node)
    requires Shape(def, a, b, c)
    ensures UniqueIds(def.nodes)
    ensures Execute(def, [Start]) == Run(RunRunning, map[a.id := QUEUED, c.id := QUEUED], multiset{})
  {
    Members(def, a, b, c);
    FirstFanOut(def, a, b, c);
    ExecuteSnoc(def, [], Start);
    assert [] + [Start] == [Start];
    var rows: Rows := map[a.id := QUEUED, c.id := QUEUED];
    assert a.id in rows;
  }

  lemma CancelsA(def: Def, a: Node, c: Node, r: Run)
    requires UniqueIds(def.nodes) && a.id != c.id
    requires r == Run(RunRunning, map[a.id := QUEUED, c.id := QUEUED], multiset{})
    ensures RunMachine.Step(def, r, CancelRow(a.id)) ==
            Run(RunRunning, map[a.id := CANCELLED, c.id := QUEUED], multiset{})
  {
    assert r.rows[a.id := CANCELLED] == map[a.id := CANCELLED, c.id := QUEUED];
  }

  lemma CompletesC(def: Def, a: Node, c: Node, delta: Delta, r: Run)
    requires UniqueIds(def.nodes) && a.id != c.id
    requires r == Run(RunRunning, map[a.id := CANCELLED, c.id := QUEUED], multiset{})
    ensures RunMachine.Step(def, r, Complete(c.id, delta)) == StrandedRun(a, c, delta)
  {
    assert r.rows[c.id := Finished(delta)] == map[a.id := CANCELLED, c.id := Finished(delta)];
  }

  lemma StrandedIsReachable(def: Def, a: Node, b: Node, c: Node, delta: Delta)
    requires Shape(def, a, b, c)
    ensures UniqueIds(def.nodes) && Execute(def, Stranding(a, c, delta)) == StrandedRun(a, c, delta)
  {
    Starts(def, a, b, c);
    ExecuteSnoc(def, [Start], CancelRow(a.id));
    CancelsA(def, a, c, Execute(def, [Start]));
    var s := [Start] + [CancelRow(a.id)];
    ExecuteSnoc(def, s, Complete(c.id, delta));
    CompletesC(def, a, c, delta, Execute(def, s));
    assert s + [Complete(c.id, delta)] == Stranding(a, c, delta);
  }

  lemma DropsA(a: Node, b: Node, c: Node, delta: Delta)
    requires a.id != b.id && b.id != c.id && a.id != c.id
    ensures KeepDone(Second(a, b, c, delta)) == Kept(b, c, delta)
  {
  }

  lemma NothingLive(a: Node, b: Node, c: Node, delta: Delta)
    ensures !HasLive(Cut(a, c, delta)) && !HasLive(Second(a, b, c, delta)) && !HasLive(Last(a, b, c, delta))
  {
  }

  lemma StillOpen(def: Def, a: Node, b: Node, c: Node, delta: Delta)
    requires Shape(def, a, b, c)
    ensures !AllDone(def, Cut(a, c, delta)) && !AllDone(def, Second(a, b, c, delta))
            && !NoneReady(def, Cut(a, c, delta))
  {
    Members(def, a, b, c);
    assert !IsDone(Cut(a, c, delta), a.id) && !IsDone(Second(a, b, c, delta), a.id);
    assert IsReady(Cut(a, c, delta), b);
  }

  /** Fanning out from `rows`, and again with the dead rows dropped, neither finishes nor makes a row live. */
  ghost predicate Fruitless(def: Def, rows: Rows, s: Rows, last: Rows)
    requires UniqueIds(def.nodes)
  {
    && Saturate(def, rows) == s && Saturate(def, KeepDone(s)) == last
    && !HasLive(rows) && !HasLive(s) && !HasLive(last)
    && !AllDone(def, rows) && !AllDone(def, s) && !NoneReady(def, rows)
  }

  lemma FruitlessNeedsThree(def: Def, r: Run, s: Rows, last: Rows)
    requires WellFormed(def.nodes) && !Terminal(r.status) && Fruitless(def, r.rows, s, last)
    ensures !Recovered(Reconciled(def, r, 2))
  {
    TwoCallsRecoverExactly(def, r);
  }

  lemma FansOutTwice(def: Def, a: Node, b: Node, c: Node, delta: Delta)
    requires Shape(def, a, b, c) && delta != map[]
    ensures UniqueIds(def.nodes) && Saturate(def, Cut(a, c, delta)) == Second(a, b, c, delta)
    ensures Saturate(def, KeepDone(Second(a, b, c, delta))) == Last(a, b, c, delta)
  {
    SecondFanOut(def, a, b, c, delta);
    DropsA(a, b, c, delta);
    LastFanOut(def, a, b, c, delta);
  }

  lemma CutIsFruitless(def: Def, a: Node, b: Node, c: Node, delta: Delta)
    requires Shape(def, a, b, c) && delta != map[]
    ensures UniqueIds(def.nodes) && Fruitless(def, Cut(a, c, delta), Second(a, b, c, delta), Last(a, b, c, delta))
  {
    FansOutTwice(def, a, b, c, delta);
    StillOpen(def, a, b, c, delta);
    NothingLive(a, b, c, delta);
  }

  lemma ReachesFruitless(def: Def, a: Node, b: Node, c: Node, delta: Delta) returns (r: Run, s: Rows, last: Rows)
    requires Shape(def, a, b, c) && delta != map[]
    ensures WellFormed(def.nodes) && r == Execute(def, Stranding(a, c, delta))
    ensures r.status.RunRunning? && Fruitless(def, r.rows, s, last)
  {
    ShapeIsWellFormed(def, a, b, c);
    StrandedIsReachable(def, a, b, c, delta);
    CutIsFruitless(def, a, b, c, delta);
    r, s, last := StrandedRun(a, c, delta), Second(a, b, c, delta), Last(a, b, c, delta);
  }

  /** Every such DAG has a run that two calls do not recover: no row is live on the way, and `a` stays
      cancelled through the first call. */
  lemma TwoCallsDoNotRecover(def: Def, a: Node, b: Node, c: Node, delta: Delta) returns (r: Run)
    requires Shape(def, a, b, c) && delta != map[]
    ensures WellFormed(def.nodes) && r == Execute(def, Stranding(a, c, delta)) && !Recovered(Reconciled(def, r, 2))
  {
    var s, last;
    r, s, last := ReachesFruitless(def, a, b, c, delta);
    FruitlessNeedsThree(def, r, s, last);
  }

  function Example(a: Node, b: Node, c: Node): Def {
    Def([a, c, b], map[], (name, context) => if c.id in context then Truthy else Falsy, {})
  }

  /** The bound of three is tight: there is such a DAG. */
  lemma TwoCallsMayNotRecover() returns (def: Def, actions: seq<Action>)
    ensures WellFormed(def.nodes) && !Recovered(Reconciled(def, Execute(def, actions), 2))
  {
    var a := Node("a", false, [], "m", false, None, Some("x"));
    var b := Node("b", false, ["c"], "m", false, None, Some("x"));
    var c := Node("c", false, [], "m", false, None, None);
    var delta: Delta := map["k" := "v"];
    assert "k" in delta;
    def := Example(a, b, c);
    actions := Stranding(a, c, delta);
    var r := TwoCallsDoNotRecover(def, a, b, c, delta);
  }
}
