/** The ready-node search and the fan-out loop of `dispatcher.py`, as functions over a run's
    job rows. `Saturate` repeats whole fan-out rounds; it is characterised below, with no
    mention of rounds, as the least fixpoint of readiness with cascading skips. */
module Dispatch {
  import opened Base
  import opened Graph
  import opened Workflow

  type Delta = map<string, string>
  type Context = map<string, Delta>

  /** The host-injected `$from` resolver: a truth value, or a KeyError/TypeError. */
  datatype Resolved = Truthy | Falsy | RefError
  type Resolver = (string, Context) -> Resolved

  datatype JobStatus = Queued | Running | AwaitingInput | Completed | Skipped | Failed | Cancelled

  /** One row of `workflow_node_jobs`; `patch` is the `__patch__` marker of a synthetic row
      outside the DAG. */
  datatype Row = Row(status: JobStatus, delta: Delta, patch: bool)
  type Rows = map<string, Row>

  /** A run's definition: its expanded DAG, its base context, the resolver, and the modules
      allowed to run on a GPU without declaring a model. */
  datatype Def = Def(nodes: seq<Node>, base: Context, resolve: Resolver, exempt: set<string>)

  predicate Done(s: JobStatus) { s == Completed || s == Skipped }

  predicate Live(s: JobStatus) { s == Queued || s == Running || s == AwaitingInput }

  predicate IsDone(rows: Rows, id: string) { id in rows && Done(rows[id].status) }

  // ---------------------------------------------------------------- ready nodes and skips

  predicate IsReady(rows: Rows, n: Node) {
    n.id !in rows && forall d :: d in n.dependsOn ==> IsDone(rows, d)
  }

  /** `_find_ready_nodes`: the ready nodes in DAG order. */
  function FindReady(nodes: seq<Node>, rows: Rows): (ready: seq<Node>)
    ensures forall n :: n in ready <==> n in nodes && IsReady(rows, n)
    ensures |ready| <= |nodes|
  {
    if nodes == [] then []
    else (if IsReady(rows, nodes[0]) then [nodes[0]] else []) + FindReady(nodes[1..], rows)
  }

  /** `_eval_skip_context`: the base context overridden by completed siblings' deltas. */
  function SkipContext(def: Def, rows: Rows): Context {
    def.base + map id | id in rows && rows[id].status == Completed && rows[id].delta != map[] :: rows[id].delta
  }

  /** Key by key: a completed row's delta, if it left one, else whatever the base context has. */
  lemma SkipContextExactly(def: Def, rows: Rows, key: string)
    ensures var context := SkipContext(def, rows);
            if key in rows && rows[key].status == Completed && rows[key].delta != map[]
            then key in context && context[key] == rows[key].delta
            else (key in context <==> key in def.base) && (key in def.base ==> context[key] == def.base[key])
  {
  }

  /** `_should_skip_node`: a resolver error never skips. */
  predicate ShouldSkip(def: Def, rows: Rows, n: Node) {
    Given(n.skipIf) && def.resolve(n.skipIf.value, SkipContext(def, rows)).Truthy?
  }

  function NewRow(def: Def, rows: Rows, n: Node): Row {
    Row(if ShouldSkip(def, rows, n) then Skipped else Queued, map[], false)
  }

  // ---------------------------------------------------------------- the fan-out

  function Missing(nodes: seq<Node>, rows: Rows): set<string> {
    Ids(nodes) - rows.Keys
  }

  /** One round: every ready node gets a row, decided against the rows at the round's start. */
  function Round(def: Def, rows: Rows): (out: Rows)
    requires UniqueIds(def.nodes)
    ensures forall id :: id in rows ==> id in out && out[id] == rows[id]
    ensures forall n :: n in def.nodes && n.id !in rows ==>
              (n.id in out <==> IsReady(rows, n)) && (n.id in out ==> out[n.id] == NewRow(def, rows, n))
    ensures forall id :: id in out && id !in rows ==> exists n :: n in def.nodes && n.id == id && IsReady(rows, n)
  {
    rows + map n | n in def.nodes && IsReady(rows, n) :: n.id := NewRow(def, rows, n)
  }

  lemma SameRows(rows: Rows, out: Rows)
    requires forall id :: id in rows <==> id in out
    requires forall id :: id in rows && id in out ==> rows[id] == out[id]
    ensures rows == out
  {
  }

  lemma RoundShrinksMissing(def: Def, rows: Rows)
    requires UniqueIds(def.nodes) && FindReady(def.nodes, rows) != []
    ensures |Missing(def.nodes, Round(def, rows))| < |Missing(def.nodes, rows)|
  {
    var n := FindReady(def.nodes, rows)[0];
    assert n in def.nodes && IsReady(rows, n);
    assert n.id in Missing(def.nodes, rows) && n.id in Round(def, rows);
    Smaller(Missing(def.nodes, Round(def, rows)), Missing(def.nodes, rows), n.id);
  }

  lemma Smaller<T>(a: set<T>, b: set<T>, x: T)
    requires a <= b && x in b && x !in a
    ensures |a| < |b|
  {
    assert a <= b - {x};
    SubsetSize(a, b - {x});
  }

  /** The rows `_process_ready` leaves. */
  function Saturate(def: Def, rows: Rows): Rows
    requires UniqueIds(def.nodes)
    decreases |Missing(def.nodes, rows)|
  {
    if FindReady(def.nodes, rows) == [] then rows
    else
      RoundShrinksMissing(def, rows);
      Saturate(def, Round(def, rows))
  }

  // ---------------------------------------------------------------- what the fan-out keeps

  ghost predicate NoneReady(def: Def, rows: Rows) {
    forall n :: n in def.nodes ==> !IsReady(rows, n)
  }

  /** A row exists only once its node's dependencies are completed or skipped. */
  ghost predicate Gated(def: Def, rows: Rows) {
    forall n, d :: n in def.nodes && n.id in rows && d in n.dependsOn ==> IsDone(rows, d)
  }

  /** `out` keeps every row of `rows` and adds only queued or skipped rows of DAG nodes. */
  ghost predicate FansOut(def: Def, rows: Rows, out: Rows) {
    && (forall id :: id in rows ==> id in out && out[id] == rows[id])
    && (forall id :: id in out && id !in rows ==>
          id in Ids(def.nodes) && (out[id] == Row(Queued, map[], false) || out[id] == Row(Skipped, map[], false)))
  }

  /** Rounds only ever add rows that contribute nothing to the skip context. */
  lemma FanOutKeepsContext(def: Def, rows: Rows, out: Rows)
    requires FansOut(def, rows, out)
    ensures SkipContext(def, out) == SkipContext(def, rows)
  {
    var a := map id | id in rows && rows[id].status == Completed && rows[id].delta != map[] :: rows[id].delta;
    var b := map id | id in out && out[id].status == Completed && out[id].delta != map[] :: out[id].delta;
    assert a == b;
  }

  lemma RoundFansOut(def: Def, rows: Rows)
    requires UniqueIds(def.nodes)
    ensures FansOut(def, rows, Round(def, rows))
    ensures Gated(def, rows) ==> Gated(def, Round(def, rows))
  {
    var out := Round(def, rows);
    if Gated(def, rows) {
      forall n, d | n in def.nodes && n.id in out && d in n.dependsOn
        ensures IsDone(out, d)
      {
        assert IsDone(rows, d);
      }
    }
  }

  lemma {:induction false} SaturateFansOut(def: Def, rows: Rows)
    requires UniqueIds(def.nodes)
    ensures FansOut(def, rows, Saturate(def, rows))
    ensures NoneReady(def, Saturate(def, rows))
    ensures Gated(def, rows) ==> Gated(def, Saturate(def, rows))
    decreases |Missing(def.nodes, rows)|
  {
    var ready := FindReady(def.nodes, rows);
    if ready == [] {
      forall n | n in def.nodes ensures !IsReady(rows, n) {
        assert n !in ready;
      }
    } else {
      RoundShrinksMissing(def, rows);
      RoundFansOut(def, rows);
      SaturateFansOut(def, Round(def, rows));
    }
  }

  // ---------------------------------------------------------------- least fixpoint

  /** `s` is closed under readiness, seen from `base`: a node without a row there belongs to `s`
      as soon as each of its dependencies is done in `base` or is a member of `s` that skips. */
  ghost predicate ClosedUnderReadiness(def: Def, base: Rows, s: set<string>) {
    forall n :: n in def.nodes && n.id !in base && Released(def, base, s, n) ==> n.id in s
  }

  ghost predicate Released(def: Def, base: Rows, s: set<string>, n: Node) {
    forall d :: d in n.dependsOn ==> IsDone(base, d) || SkipsIn(def, base, s, d)
  }

  ghost predicate SkipsIn(def: Def, base: Rows, s: set<string>, d: string) {
    d in s && exists m :: m in def.nodes && m.id == d && ShouldSkip(def, base, m)
  }

  ghost function Added(base: Rows, out: Rows): set<string> {
    out.Keys - base.Keys
  }

  /** The rows in `cur` beyond `base` are what `base` says they must be, and all in `s`. */
  ghost predicate Between(def: Def, base: Rows, cur: Rows, s: set<string>) {
    && FansOut(def, base, cur)
    && Added(base, cur) <= s
    && forall n :: n in def.nodes && n.id in cur && n.id !in base ==> cur[n.id] == NewRow(def, base, n)
  }

  /** A node that becomes ready on the way is released as seen from `base`. */
  lemma ReadyIsReleased(def: Def, base: Rows, cur: Rows, s: set<string>, n: Node)
    requires UniqueIds(def.nodes)
    requires Between(def, base, cur, s) && IsReady(cur, n)
    ensures Released(def, base, s, n)
  {
    forall d | d in n.dependsOn && !IsDone(base, d)
      ensures SkipsIn(def, base, s, d)
    {
      assert IsDone(cur, d) && d in Added(base, cur);
      var m :| m in def.nodes && m.id == d;
      assert cur[d] == NewRow(def, base, m);
    }
  }

  lemma RoundStaysBetween(def: Def, base: Rows, cur: Rows, s: set<string>)
    requires UniqueIds(def.nodes)
    requires Between(def, base, cur, s) && ClosedUnderReadiness(def, base, s)
    ensures Between(def, base, Round(def, cur), s)
  {
    var out := Round(def, cur);
    RoundFansOut(def, cur);
    forall id | id in Added(base, out)
      ensures id in s
    {
      if id !in cur {
        var n :| n in def.nodes && n.id == id && IsReady(cur, n);
        ReadyIsReleased(def, base, cur, s, n);
      }
    }
    forall n | n in def.nodes && n.id in out && n.id !in base
      ensures out[n.id] == NewRow(def, base, n)
    {
      FanOutKeepsContext(def, base, cur);
    }
  }

  lemma {:induction false} SaturateStaysBetween(def: Def, base: Rows, cur: Rows, s: set<string>)
    requires UniqueIds(def.nodes)
    requires Between(def, base, cur, s) && ClosedUnderReadiness(def, base, s)
    ensures Between(def, base, Saturate(def, cur), s)
    decreases |Missing(def.nodes, cur)|
  {
    if FindReady(def.nodes, cur) != [] {
      RoundShrinksMissing(def, cur);
      RoundStaysBetween(def, base, cur, s);
      SaturateStaysBetween(def, base, Round(def, cur), s);
    }
  }

  /** Nothing ready means the added rows are closed under readiness. */
  lemma QuietMeansClosed(def: Def, base: Rows, out: Rows)
    requires UniqueIds(def.nodes)
    requires Between(def, base, out, Added(base, out)) && NoneReady(def, out)
    ensures ClosedUnderReadiness(def, base, Added(base, out))
  {
    var s := Added(base, out);
    forall n | n in def.nodes && n.id !in base && Released(def, base, s, n)
      ensures n.id in s
    {
      forall d | d in n.dependsOn
        ensures IsDone(out, d)
      {
        if !IsDone(base, d) {
          assert SkipsIn(def, base, s, d);
          var m :| m in def.nodes && m.id == d && ShouldSkip(def, base, m);
          assert out[d] == NewRow(def, base, m);
        }
      }
      assert !IsReady(out, n);
    }
  }

  /** Each new row is skipped exactly when its skip condition holds in the original context. */
  lemma SaturateDecides(def: Def, rows: Rows, n: Node)
    requires UniqueIds(def.nodes) && n in def.nodes && n.id in Added(rows, Saturate(def, rows))
    ensures Saturate(def, rows)[n.id] == NewRow(def, rows, n)
  {
    var all := Ids(def.nodes);
    assert ClosedUnderReadiness(def, rows, all);
    assert Between(def, rows, rows, all);
    SaturateStaysBetween(def, rows, rows, all);
  }

  /** The fan-out is the least fixpoint of readiness with cascading skips: the new rows are
      closed under readiness, every closed set contains them, old rows are untouched, and each
      new row is skipped exactly when its skip condition holds in the original context. */
  lemma SaturateIsLeastFixpoint(def: Def, rows: Rows)
    requires UniqueIds(def.nodes)
    ensures var out := Saturate(def, rows);
            && FansOut(def, rows, out)
            && ClosedUnderReadiness(def, rows, Added(rows, out))
            && (forall s :: ClosedUnderReadiness(def, rows, s) ==> Added(rows, out) <= s)
            && (forall n :: n in def.nodes && n.id in Added(rows, out) ==>
                  out[n.id].status == if ShouldSkip(def, rows, n) then Skipped else Queued)
  {
    var out := Saturate(def, rows);
    SaturateFansOut(def, rows);
    forall s | ClosedUnderReadiness(def, rows, s)
      ensures Added(rows, out) <= s
    {
      assert Between(def, rows, rows, s);
      SaturateStaysBetween(def, rows, rows, s);
    }
    var all := Ids(def.nodes);
    assert ClosedUnderReadiness(def, rows, all);
    assert Between(def, rows, rows, all);
    SaturateStaysBetween(def, rows, rows, all);
    QuietMeansClosed(def, rows, out);
  }

  // ---------------------------------------------------------------- progress

  predicate AllDone(def: Def, rows: Rows) {
    def.nodes != [] && forall n :: n in def.nodes ==> IsDone(rows, n.id)
  }

  /** In a well-formed DAG whose existing rows are all done, either every node is done or some
      node is ready: the fan-out cannot stop short. */
  lemma DoneRowsMakeProgress(def: Def, rows: Rows)
    requires WellFormed(def.nodes)
    requires NoneReady(def, rows)
    requires forall n :: n in def.nodes && n.id in rows ==> IsDone(rows, n.id)
    ensures AllDone(def, rows)
  {
    var missing := Missing(def.nodes, rows);
    if missing != {} {
      var v := SinkExists(DependsOn(def.nodes), missing);
      var n :| n in def.nodes && n.id == v;
      SinkIsReady(def, rows, n);
      assert false;
    }
    forall n | n in def.nodes ensures IsDone(rows, n.id) {
      assert n.id in Ids(def.nodes) && n.id !in missing;
    }
  }

  /** A node without a row, none of whose dependencies lacks one, is ready. */
  lemma SinkIsReady(def: Def, rows: Rows, n: Node)
    requires WellFormed(def.nodes) && n in def.nodes && n.id !in rows
    requires forall m :: m in def.nodes && m.id in rows ==> IsDone(rows, m.id)
    requires !HasSuccessorIn(DependsOn(def.nodes), Missing(def.nodes, rows), n.id)
    ensures IsReady(rows, n)
  {
    forall d | d in n.dependsOn
      ensures IsDone(rows, d)
    {
      assert DependsOn(def.nodes)(n.id, d);
      assert d in Ids(def.nodes);
      assert d !in Missing(def.nodes, rows);
      var m :| m in def.nodes && m.id == d;
    }
  }
}
