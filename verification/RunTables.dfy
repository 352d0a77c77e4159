/** The dispatcher's calls as they run: methods that update a run's row in `workflow_runs` and
    its rows in `workflow_node_jobs`, each proved equal to its function in RunMachine. */
module RunTables {
  import opened Base
  import opened Workflow
  import opened Affinity
  import opened Dispatch
  import opened RunMachine

  lemma TwiceCounts<T>(s: seq<T>, i: nat, j: nat)
    requires i < j < |s| && s[i] == s[j]
    ensures multiset(s)[s[i]] >= 2
  {
    assert s == s[..j] + s[j..];
    assert s[..j][i] == s[i] && s[j..][0] == s[i];
    assert s[i] in multiset(s[..j]) && s[i] in multiset(s[j..]);
  }

  lemma {:induction false} UniqueCountsOnce(nodes: seq<Node>, n: Node)
    requires UniqueIds(nodes)
    ensures multiset(nodes)[n] <= 1
  {
    if nodes != [] {
      UniqueCountsOnce(nodes[1..], n);
      assert nodes == [nodes[0]] + nodes[1..];
      assert nodes[0] !in nodes[1..];
    }
  }

  lemma PermutationStaysUnique(a: seq<Node>, b: seq<Node>)
    requires UniqueIds(a) && multiset(a) == multiset(b)
    ensures UniqueIds(b)
  {
    forall i, j | 0 <= i < j < |b|
      ensures b[i].id != b[j].id
    {
      if b[i].id == b[j].id {
        assert b[i] in multiset(a) && b[j] in multiset(a);
        UniqueById(a, b[i], b[j]);
        TwiceCounts(b, i, j);
        UniqueCountsOnce(a, b[i]);
        assert false;
      }
    }
  }

  lemma {:induction false} ReadyStaysUnique(nodes: seq<Node>, rows: Rows)
    requires UniqueIds(nodes)
    ensures UniqueIds(FindReady(nodes, rows))
  {
    if nodes != [] {
      ReadyStaysUnique(nodes[1..], rows);
      var rest := FindReady(nodes[1..], rows);
      forall j | 0 <= j < |rest| ensures rest[j].id != nodes[0].id {
        assert rest[j] in nodes[1..];
      }
    }
  }

  lemma BatchFacts(def: Def, rows: Rows)
    requires UniqueIds(def.nodes)
    ensures var batch := AffinityOrder(FindReady(def.nodes, rows));
            && UniqueIds(batch)
            && |batch| == |FindReady(def.nodes, rows)|
            && (forall n :: n in batch <==> n in def.nodes && IsReady(rows, n))
            && Ids(batch) !! rows.Keys
  {
    var ready := FindReady(def.nodes, rows);
    OrderPermutes(ready);
    ReadyStaysUnique(def.nodes, rows);
    PermutationStaysUnique(ready, AffinityOrder(ready));
  }

  lemma PrefixFresh(batch: seq<Node>, k: nat)
    requires UniqueIds(batch) && k < |batch|
    ensures batch[k].id !in Ids(batch[..k])
    ensures batch[..k + 1] == batch[..k] + [batch[k]]
  {
  }

  /** A fan-out changes the rows exactly when it adds some. */
  lemma MoreRowsShow(def: Def, rows: Rows)
    requires UniqueIds(def.nodes)
    ensures |Saturate(def, rows)| > |rows| <==> Saturate(def, rows) != rows
    ensures |Saturate(def, rows)| >= |rows|
  {
    var out := Saturate(def, rows);
    SaturateFansOut(def, rows);
    SubsetSize(rows.Keys, out.Keys);
    if out != rows {
      var id := SomeNewRow(rows, out);
      Smaller(rows.Keys, out.Keys, id);
    }
  }

  lemma SomeNewRow(rows: Rows, out: Rows) returns (id: string)
    requires out != rows && forall x :: x in rows ==> x in out && out[x] == rows[x]
    ensures id in out && id !in rows
  {
    if forall x :: x in out ==> x in rows {
      SameRows(rows, out);
    }
    id :| id in out && id !in rows;
  }

  lemma StartedRun(def: Def, r: Run)
    requires UniqueIds(def.nodes)
    ensures var s := RunMachine.StartRun(def, r);
            if !ModelsDeclared(def) then s == Run(RunFailed, r.rows, r.events)
            else s == Run(if r.status.RunQueued? && |Saturate(def, r.rows)| > 0 then RunRunning else r.status,
                          Saturate(def, r.rows), r.events)
  {
    assert Saturate(def, r.rows) == map[] <==> |Saturate(def, r.rows)| == 0;
  }

  class RunTables {
    var status: RunStatus
    var rows: Rows
    var events: multiset<Event>

    function View(): Run
      reads this
    {
      Run(status, rows, events)
    }

    /** Insert a row for each node of `batch`, decided against the rows at the start. */
    method InsertRows(def: Def, batch: seq<Node>)
      requires UniqueIds(batch) && Ids(batch) !! rows.Keys
      modifies this`rows
      ensures Inserted(def, old(rows), batch, rows)
      ensures |rows| == |old(rows)| + |batch|
    {
      var existing := rows;
      for k := 0 to |batch|
        invariant Inserted(def, existing, batch[..k], rows)
        invariant |rows| == |existing| + k
      {
        PrefixFresh(batch, k);
        assert batch[k].id in Ids(batch);
        InsertOne(def, existing, batch[..k], batch[k], rows);
        if ShouldSkip(def, existing, batch[k]) {
          rows := rows[batch[k].id := Row(Skipped, map[], false)];
        } else {
          rows := rows[batch[k].id := Row(Queued, map[], false)];
        }
      }
      assert batch[..|batch|] == batch;
    }

    /** One round of the fan-out: a row per ready node, in batching order. */
    method InsertBatch(def: Def, ready: seq<Node>)
      requires UniqueIds(def.nodes) && ready == FindReady(def.nodes, rows)
      modifies this`rows
      ensures rows == Round(def, old(rows))
      ensures |rows| == |old(rows)| + |ready|
    {
      var batch := AffinityOrder(ready);
      BatchFacts(def, rows);
      InsertRows(def, batch);
      BatchIsRound(def, old(rows), batch, rows);
    }

    /** `_process_ready`: rounds of inserting a row per ready node until nothing is ready. */
    method ProcessReady(def: Def) returns (newRows: nat)
      requires UniqueIds(def.nodes)
      modifies this`rows
      ensures rows == Saturate(def, old(rows))
      ensures newRows == |rows| - |old(rows)|
    {
      newRows := 0;
      var ready := FindReady(def.nodes, rows);
      while ready != []
        invariant ready == FindReady(def.nodes, rows)
        invariant Saturate(def, rows) == Saturate(def, old(rows))
        invariant |rows| == |old(rows)| + newRows
        decreases |Missing(def.nodes, rows)|
      {
        RoundShrinksMissing(def, rows);
        InsertBatch(def, ready);
        newRows := newRows + |ready|;
        ready := FindReady(def.nodes, rows);
      }
    }

    /** The part of `start_run` behind its guard: fan out, and mark a queued run that has rows running. */
    method ExpandRun(def: Def) returns (n: nat)
      requires UniqueIds(def.nodes)
      modifies this`rows, this`status
      ensures rows == Saturate(def, old(rows)) && n == |rows| - |old(rows)|
      ensures status == if old(status).RunQueued? && |rows| > 0 then RunRunning else old(status)
    {
      n := ProcessReady(def);
      if status.RunQueued? && |rows| > 0 {
        status := RunRunning;
      }
    }

    /** `start_run`. */
    method StartRun(def: Def) returns (n: nat)
      requires UniqueIds(def.nodes)
      modifies this`rows, this`status
      ensures View() == RunMachine.StartRun(def, old(View()))
      ensures n == |rows| - |old(rows)|
    {
      StartedRun(def, View());
      if ModelsDeclared(def) {
        n := ExpandRun(def);
      } else {
        status := RunFailed;
        n := 0;
      }
    }

    /** `on_node_completed`. */
    method OnNodeCompleted(def: Def, id: string) returns (n: nat)
      requires UniqueIds(def.nodes)
      modifies this`rows, this`status
      ensures View() == RunMachine.OnNodeCompleted(def, old(View()), id)
      ensures n == |rows| - |old(rows)|
    {
      if status.RunCancelled? || status.RunFailed? || IsPatch(rows, id) {
        return 0;
      }
      n := ProcessReady(def);
      if AllDone(def, rows) {
        status := RunCompleted;
      }
    }

    /** `on_node_failed`. */
    method OnNodeFailed(id: string)
      modifies this`rows, this`status
      ensures View() == RunMachine.OnNodeFailed(old(View()), id)
    {
      if status.RunCancelled? || status.RunFailed? || IsPatch(rows, id) {
        return;
      }
      rows := CancelQueuedRows(rows);
      status := RunFailed;
    }

    /** `resume_after_input`; `None` is the KeyError for a node without a row. */
    method ResumeAfterInput(def: Def, id: string, delta: Delta) returns (n: Option<nat>)
      requires UniqueIds(def.nodes)
      modifies this`rows, this`status
      ensures View() == RunMachine.ResumeAfterInput(def, old(View()), id, delta)
      ensures n.None? <==> id !in old(rows)
      ensures n.Some? ==> n.value == |rows| - |old(rows)|
    {
      if id !in rows {
        return None;
      }
      if !(rows[id].status.AwaitingInput? || rows[id].status.Queued?) {
        return Some(0);
      }
      rows := rows[id := rows[id].(status := Completed, delta := delta)];
      var added := OnNodeCompleted(def, id);
      n := Some(added);
    }

    /** `reconcile_run`. */
    method ReconcileRun(def: Def) returns (tag: ReconcileTag)
      requires UniqueIds(def.nodes)
      modifies this`rows, this`status
      ensures (tag, View()) == Reconcile(def, old(View()))
    {
      if Terminal(status) || HasLive(rows) {
        return Noop;
      }
      if AllDone(def, rows) {
        status := RunCompleted;
        return Finalised;
      }
      MoreRowsShow(def, rows);
      MoreRowsShow(def, KeepDone(rows));
      var added := ProcessReady(def);
      if added > 0 {
        status := RunRunning;
        return Enqueued;
      }
      var before := rows;
      rows := KeepDone(rows);
      if rows != before {
        added := ProcessReady(def);
        if added > 0 {
          status := RunRunning;
          return Requeued;
        }
      }
      status := RunFailed;
      return GaveUp;
    }
  }

  /** `rows` is `existing` plus the rows of the nodes in `batch`. */
  ghost predicate Inserted(def: Def, existing: Rows, batch: seq<Node>, rows: Rows) {
    && rows.Keys == existing.Keys + Ids(batch)
    && (forall id :: id in existing ==> rows[id] == existing[id])
    && (forall n :: n in batch ==> rows[n.id] == NewRow(def, existing, n))
  }

  lemma InsertOne(def: Def, existing: Rows, done: seq<Node>, n: Node, rows: Rows)
    requires n.id !in existing && n.id !in Ids(done)
    requires Inserted(def, existing, done, rows)
    ensures n.id !in rows
    ensures Inserted(def, existing, done + [n], rows[n.id := NewRow(def, existing, n)])
  {
    forall m | m in done ensures m.id in Ids(done) {}
    assert Ids(done + [n]) == Ids(done) + {n.id};
  }

  lemma RoundHas(def: Def, existing: Rows, n: Node)
    requires UniqueIds(def.nodes) && n in def.nodes && IsReady(existing, n)
    ensures n.id in Round(def, existing) && Round(def, existing)[n.id] == NewRow(def, existing, n)
  {
  }

  lemma RoundFrom(def: Def, existing: Rows, id: string) returns (n: Node)
    requires UniqueIds(def.nodes) && id in Round(def, existing) && id !in existing
    ensures n in def.nodes && n.id == id && IsReady(existing, n)
  {
    n :| n in def.nodes && n.id == id && IsReady(existing, n);
  }

  /** Inserting a whole batch, in any order, is one round. */
  lemma BatchIsRound(def: Def, existing: Rows, batch: seq<Node>, rows: Rows)
    requires UniqueIds(def.nodes)
    requires forall n :: n in batch <==> n in def.nodes && IsReady(existing, n)
    requires Inserted(def, existing, batch, rows)
    ensures rows == Round(def, existing)
  {
    var out := Round(def, existing);
    forall id
      ensures id in rows <==> id in out
      ensures id in rows ==> rows[id] == out[id]
    {
      if id in rows {
        InsertedInRound(def, existing, batch, rows, id);
      } else if id in out {
        RoundInInserted(def, existing, batch, rows, id);
      }
    }
    SameRows(rows, out);
  }

  lemma InsertedInRound(def: Def, existing: Rows, batch: seq<Node>, rows: Rows, id: string)
    requires UniqueIds(def.nodes)
    requires forall n :: n in batch ==> n in def.nodes && IsReady(existing, n)
    requires Inserted(def, existing, batch, rows) && id in rows
    ensures id in Round(def, existing) && Round(def, existing)[id] == rows[id]
  {
    if id !in existing {
      assert id in Ids(batch);
      var n :| n in batch && n.id == id;
      RoundHas(def, existing, n);
    }
  }

  lemma RoundInInserted(def: Def, existing: Rows, batch: seq<Node>, rows: Rows, id: string)
    requires UniqueIds(def.nodes)
    requires forall n :: n in def.nodes && IsReady(existing, n) ==> n in batch
    requires Inserted(def, existing, batch, rows) && id in Round(def, existing)
    ensures id in rows
  {
    if id !in existing {
      var n := RoundFrom(def, existing, id);
      assert n in batch && n.id in Ids(batch);
    }
  }
}
