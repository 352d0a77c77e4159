/** A run as a state machine over (run status, job rows, undelivered outbox events). Each
    dispatcher call is one step; workers, operators and the lease reclaim take the other steps,
    in any order. Events are delivered at least once, in any order. */
module RunMachine {
  import opened Base
  import opened Graph
  import opened Workflow
  import opened Dispatch

  datatype RunStatus = RunQueued | RunRunning | RunCompleted | RunFailed | RunCancelled

  datatype EventKind = CompletedEvent | FailedEvent | AwaitingInputEvent
  datatype Event = Event(kind: EventKind, id: string)

  datatype Run = Run(status: RunStatus, rows: Rows, events: multiset<Event>)

  const InitialRun := Run(RunQueued, map[], multiset{})

  predicate Terminal(s: RunStatus) { s.RunCompleted? || s.RunFailed? || s.RunCancelled? }

  predicate Stopped(s: RunStatus) { s.RunFailed? || s.RunCancelled? }

  predicate IsPatch(rows: Rows, id: string) { id in rows && rows[id].patch }

  predicate HasLive(rows: Rows) {
    exists id :: id in rows && Live(rows[id].status)
  }

  // ---------------------------------------------------------------- dispatcher calls

  /** `_assert_gpu_nodes_declare_model`. */
  predicate ModelsDeclared(def: Def) {
    forall n :: n in def.nodes && n.gpu && !Given(n.model) ==>
      (if n.nodeModule == "" then n.id else n.nodeModule) in def.exempt
  }

  function StartRun(def: Def, r: Run): Run
    requires UniqueIds(def.nodes)
  {
    if !ModelsDeclared(def) then r.(status := RunFailed)
    else
      var rows := Saturate(def, r.rows);
      r.(rows := rows, status := if r.status.RunQueued? && rows != map[] then RunRunning else r.status)
  }

  function OnNodeCompleted(def: Def, r: Run, id: string): Run
    requires UniqueIds(def.nodes)
  {
    if Stopped(r.status) || IsPatch(r.rows, id) then r
    else
      var rows := Saturate(def, r.rows);
      r.(rows := rows, status := if AllDone(def, rows) then RunCompleted else r.status)
  }

  function CancelQueuedRows(rows: Rows): Rows {
    map id | id in rows :: if rows[id].status.Queued? then rows[id].(status := Cancelled) else rows[id]
  }

  function OnNodeFailed(r: Run, id: string): Run {
    if Stopped(r.status) || IsPatch(r.rows, id) then r
    else r.(rows := CancelQueuedRows(r.rows), status := RunFailed)
  }

  function ResumeAfterInput(def: Def, r: Run, id: string, delta: Delta): Run
    requires UniqueIds(def.nodes)
  {
    if id !in r.rows || !(r.rows[id].status.AwaitingInput? || r.rows[id].status.Queued?) then r
    else OnNodeCompleted(def, r.(rows := r.rows[id := r.rows[id].(status := Completed, delta := delta)]), id)
  }

  datatype ReconcileTag = Noop | Finalised | Enqueued | Requeued | GaveUp

  /** `delete_non_terminal_jobs_for_run`: only completed and skipped rows survive. */
  function KeepDone(rows: Rows): Rows {
    map id | id in rows && Done(rows[id].status) :: rows[id]
  }

  function Reconcile(def: Def, r: Run): (ReconcileTag, Run)
    requires UniqueIds(def.nodes)
  {
    if Terminal(r.status) || HasLive(r.rows) then (Noop, r)
    else if AllDone(def, r.rows) then (Finalised, r.(status := RunCompleted))
    else
      var rows1 := Saturate(def, r.rows);
      if rows1 != r.rows then (Enqueued, r.(rows := rows1, status := RunRunning))
      else
        var kept := KeepDone(r.rows);
        var rows2 := Saturate(def, kept);
        if kept != r.rows && rows2 != kept then (Requeued, r.(rows := rows2, status := RunRunning))
        else (GaveUp, r.(rows := kept, status := RunFailed))
  }

  // ---------------------------------------------------------------- steps

  datatype Action =
    | Start
    | Claim(id: string)
    | Park(id: string)
    | Complete(id: string, delta: Delta)
    | Fail(id: string)
    | Reclaim(id: string)
    | CancelRow(id: string)
    | AddPatch(id: string)
    | Deliver(event: Event, acknowledged: bool)
    | Resume(id: string, delta: Delta)
    | ReconcileRun
    | CancelRun
    | RestartOrchestrator

  function SetStatus(r: Run, id: string, s: JobStatus): Run
    requires id in r.rows
  {
    r.(rows := r.rows[id := r.rows[id].(status := s)])
  }

  function Emit(r: Run, e: Event): Run {
    r.(events := r.events + multiset{e})
  }

  function Handle(def: Def, r: Run, e: Event): Run
    requires UniqueIds(def.nodes)
  {
    match e.kind
    case CompletedEvent => OnNodeCompleted(def, r, e.id)
    case FailedEvent => OnNodeFailed(r, e.id)
    case AwaitingInputEvent => r
  }

  predicate RowLive(r: Run, id: string) { id in r.rows && Live(r.rows[id].status) }

  /** One step; an action whose guard does not hold leaves the run as it is. A worker writes a
      terminal status and its event together, to any row that is still live. The reclaim
      re-queues a running row only under a running run. */
  function Step(def: Def, r: Run, a: Action): Run
    requires UniqueIds(def.nodes)
  {
    match a
    case Start => if r.status.RunQueued? then StartRun(def, r) else r
    case Claim(id) =>
      if id in r.rows && r.rows[id].status.Queued? && !Stopped(r.status) then SetStatus(r, id, Running) else r
    case Park(id) =>
      if RowLive(r, id) then Emit(SetStatus(r, id, AwaitingInput), Event(AwaitingInputEvent, id)) else r
    case Complete(id, delta) =>
      if RowLive(r, id)
      then Emit(r.(rows := r.rows[id := r.rows[id].(status := Completed, delta := delta)]), Event(CompletedEvent, id))
      else r
    case Fail(id) =>
      if RowLive(r, id) then Emit(SetStatus(r, id, Failed), Event(FailedEvent, id)) else r
    case Reclaim(id) =>
      if id in r.rows && r.rows[id].status.Running?
      then SetStatus(r, id, if r.status.RunRunning? then Queued else Cancelled)
      else r
    case CancelRow(id) => if RowLive(r, id) then SetStatus(r, id, Cancelled) else r
    case AddPatch(id) =>
      if id in r.rows || id in Ids(def.nodes) then r
      else r.(rows := r.rows[id := Row(Queued, map[], true)])
    case Deliver(e, acknowledged) =>
      if e !in r.events then r
      else
        var handled := Handle(def, r, e);
        if acknowledged then handled.(events := handled.events - multiset{e}) else handled
    case Resume(id, delta) => ResumeAfterInput(def, r, id, delta)
    case ReconcileRun => Reconcile(def, r).1
    case CancelRun => if Terminal(r.status) then r else r.(status := RunCancelled)
    case RestartOrchestrator =>
      if r.status.RunRunning? && !HasLive(r.rows) then r.(status := RunQueued) else r
  }

  function Execute(def: Def, actions: seq<Action>): Run
    requires UniqueIds(def.nodes)
  {
    if actions == [] then InitialRun
    else Step(def, Execute(def, actions[..|actions| - 1]), actions[|actions| - 1])
  }

  // ---------------------------------------------------------------- the invariant

  ghost predicate Expanded(def: Def, r: Run) {
    exists n :: n in def.nodes && n.id in r.rows
  }

  ghost predicate Pending(def: Def, r: Run, kind: EventKind) {
    exists n :: n in def.nodes && Event(kind, n.id) in r.events
  }

  ghost predicate NoPatchInDag(def: Def, rows: Rows) {
    forall n :: n in def.nodes && n.id in rows ==> !rows[n.id].patch
  }

  /** Whatever is ready is about to be found: a completion event is on its way. */
  ghost predicate Driven(def: Def, r: Run) {
    Terminal(r.status) || !Expanded(def, r) || Pending(def, r, CompletedEvent) || NoneReady(def, r.rows)
  }

  ghost predicate FailuresReported(def: Def, r: Run) {
    Stopped(r.status) ||
    forall n :: n in def.nodes && n.id in r.rows && r.rows[n.id].status.Failed? ==> Event(FailedEvent, n.id) in r.events
  }

  ghost predicate Inv(def: Def, r: Run) {
    && Gated(def, r.rows)
    && NoPatchInDag(def, r.rows)
    && (r.status.RunCompleted? ==> AllDone(def, r.rows))
    && Driven(def, r)
    && FailuresReported(def, r)
  }

  /** The same rows exist and no done row changed. */
  ghost predicate Advances(rows: Rows, out: Rows) {
    && out.Keys == rows.Keys
    && forall id :: id in rows ==> out[id].patch == rows[id].patch && (IsDone(rows, id) ==> out[id] == rows[id])
  }

  /** Changing rows that are not done keeps everything but readiness and failure reporting. */
  lemma AdvanceKeeps(def: Def, rows: Rows, out: Rows)
    requires Advances(rows, out)
    ensures Gated(def, rows) ==> Gated(def, out)
    ensures NoPatchInDag(def, rows) ==> NoPatchInDag(def, out)
    ensures AllDone(def, rows) ==> AllDone(def, out)
  {
    forall n, d | Gated(def, rows) && n in def.nodes && n.id in out && d in n.dependsOn
      ensures IsDone(out, d)
    {
      assert IsDone(rows, d);
    }
    forall n | AllDone(def, rows) && n in def.nodes
      ensures IsDone(out, n.id)
    {
      assert IsDone(rows, n.id);
    }
  }

  /** Readiness looks only at which DAG rows exist and which of them are done. */
  lemma ReadinessDependsOnDoneDagRows(def: Def, rows: Rows, out: Rows)
    requires WellFormed(def.nodes)
    requires forall n :: n in def.nodes ==>
               (n.id in out <==> n.id in rows) && (IsDone(out, n.id) <==> IsDone(rows, n.id))
    ensures NoneReady(def, rows) ==> NoneReady(def, out)
  {
    forall n | NoneReady(def, rows) && n in def.nodes && n.id !in out
      ensures !IsReady(out, n)
    {
      assert !IsReady(rows, n);
      var d :| d in n.dependsOn && !IsDone(rows, d);
      assert d in Ids(def.nodes);
      var m :| m in def.nodes && m.id == d;
    }
  }

  /** A worker, reclaim or operator step on one row, other than completing it. */
  lemma RowStepKeepsInv(def: Def, r: Run, id: string, s: JobStatus)
    requires WellFormed(def.nodes) && Inv(def, r)
    requires RowLive(r, id) && !Done(s) && !s.Failed?
    ensures Inv(def, SetStatus(r, id, s))
  {
    var r' := SetStatus(r, id, s);
    assert Advances(r.rows, r'.rows);
    AdvanceKeeps(def, r.rows, r'.rows);
    ReadinessDependsOnDoneDagRows(def, r.rows, r'.rows);
  }

  lemma EmitKeepsInv(def: Def, r: Run, e: Event)
    requires Inv(def, r)
    ensures Inv(def, Emit(r, e))
  {
    var r' := Emit(r, e);
    if Pending(def, r, CompletedEvent) {
      var n :| n in def.nodes && Event(CompletedEvent, n.id) in r.events;
      assert Event(CompletedEvent, n.id) in r'.events;
    }
  }

  lemma FailKeepsInv(def: Def, r: Run, id: string)
    requires WellFormed(def.nodes) && Inv(def, r) && RowLive(r, id)
    ensures Inv(def, Emit(SetStatus(r, id, Failed), Event(FailedEvent, id)))
  {
    var r' := Emit(SetStatus(r, id, Failed), Event(FailedEvent, id));
    assert Advances(r.rows, r'.rows);
    AdvanceKeeps(def, r.rows, r'.rows);
    ReadinessDependsOnDoneDagRows(def, r.rows, r'.rows);
    EmitKeepsInv(def, r, Event(FailedEvent, id));
  }

  /** Completing a row, before its event or its fan-out: all but `Driven` survives. */
  lemma CompleteRow(def: Def, r: Run, id: string, delta: Delta)
    requires WellFormed(def.nodes) && Inv(def, r) && RowLive(r, id)
    ensures var r' := r.(rows := r.rows[id := r.rows[id].(status := Completed, delta := delta)]);
            && Gated(def, r'.rows) && NoPatchInDag(def, r'.rows) && FailuresReported(def, r')
            && (r'.status.RunCompleted? ==> AllDone(def, r'.rows))
            && (id !in Ids(def.nodes) ==> Driven(def, r'))
  {
    var r' := r.(rows := r.rows[id := r.rows[id].(status := Completed, delta := delta)]);
    assert Advances(r.rows, r'.rows);
    AdvanceKeeps(def, r.rows, r'.rows);
    if id !in Ids(def.nodes) {
      ReadinessDependsOnDoneDagRows(def, r.rows, r'.rows);
    }
  }

  lemma CompleteKeepsInv(def: Def, r: Run, id: string, delta: Delta)
    requires WellFormed(def.nodes) && Inv(def, r) && RowLive(r, id)
    ensures Inv(def, Step(def, r, Complete(id, delta)))
  {
    CompleteRow(def, r, id, delta);
    var mid := r.(rows := r.rows[id := r.rows[id].(status := Completed, delta := delta)]);
    if id in Ids(def.nodes) {
      var n :| n in def.nodes && n.id == id;
      assert Pending(def, Step(def, r, Complete(id, delta)), CompletedEvent);
    } else {
      EmitKeepsInv(def, mid, Event(CompletedEvent, id));
    }
  }

  // ---------------------------------------------------------------- dispatcher steps keep it

  /** Fanning out from rows that satisfy everything but `Driven` restores it. */
  lemma FanOutRestoresInv(def: Def, r: Run, status: RunStatus)
    requires WellFormed(def.nodes)
    requires Gated(def, r.rows) && NoPatchInDag(def, r.rows) && FailuresReported(def, r)
    requires Stopped(r.status) ==> Stopped(status)
    requires status.RunCompleted? ==> AllDone(def, Saturate(def, r.rows))
    ensures Inv(def, r.(rows := Saturate(def, r.rows), status := status))
  {
    SaturateFansOut(def, r.rows);
    var r' := r.(rows := Saturate(def, r.rows), status := status);
    forall n | n in def.nodes && n.id in r'.rows && n.id !in r.rows
      ensures !r'.rows[n.id].patch && !r'.rows[n.id].status.Failed?
    {
    }
  }

  lemma FanOutKeepsAllDone(def: Def, rows: Rows)
    requires UniqueIds(def.nodes)
    ensures AllDone(def, rows) ==> AllDone(def, Saturate(def, rows))
  {
    SaturateFansOut(def, rows);
    forall n | AllDone(def, rows) && n in def.nodes
      ensures IsDone(Saturate(def, rows), n.id)
    {
      assert IsDone(rows, n.id);
    }
  }

  lemma OnNodeCompletedRestoresInv(def: Def, r: Run, id: string)
    requires WellFormed(def.nodes)
    requires Gated(def, r.rows) && NoPatchInDag(def, r.rows) && FailuresReported(def, r)
    requires r.status.RunCompleted? ==> AllDone(def, r.rows)
    requires IsPatch(r.rows, id) ==> Driven(def, r)
    ensures Inv(def, OnNodeCompleted(def, r, id))
    ensures Driven(def, OnNodeCompleted(def, r, id)) && (!IsPatch(r.rows, id) ==>
              Terminal(OnNodeCompleted(def, r, id).status) || NoneReady(def, OnNodeCompleted(def, r, id).rows))
  {
    if !Stopped(r.status) && !IsPatch(r.rows, id) {
      SaturateFansOut(def, r.rows);
      FanOutKeepsAllDone(def, r.rows);
      FanOutRestoresInv(def, r, OnNodeCompleted(def, r, id).status);
    }
  }

  lemma OnNodeFailedKeepsInv(def: Def, r: Run, id: string)
    requires WellFormed(def.nodes) && Inv(def, r)
    ensures Inv(def, OnNodeFailed(r, id))
    ensures IsPatch(r.rows, id) || Stopped(OnNodeFailed(r, id).status)
  {
    assert Advances(r.rows, CancelQueuedRows(r.rows));
    AdvanceKeeps(def, r.rows, CancelQueuedRows(r.rows));
  }

  lemma DeliverKeepsInv(def: Def, r: Run, e: Event, acknowledged: bool)
    requires WellFormed(def.nodes) && Inv(def, r) && e in r.events
    ensures Inv(def, Step(def, r, Deliver(e, acknowledged)))
  {
    var h := Handle(def, r, e);
    match e.kind {
      case CompletedEvent => OnNodeCompletedRestoresInv(def, r, e.id);
      case FailedEvent => OnNodeFailedKeepsInv(def, r, e.id);
      case AwaitingInputEvent =>
    }
    assert Inv(def, h) && h.events == r.events;
    if acknowledged {
      AcknowledgeKeepsInv(def, h, e);
    }
  }

  /** Dropping a handled event: a completion left nothing ready, a failure stopped the run, and
      a patch row's event names no DAG node. */
  lemma AcknowledgeKeepsInv(def: Def, h: Run, e: Event)
    requires Inv(def, h)
    requires e.kind.CompletedEvent? && !IsPatch(h.rows, e.id) ==> Terminal(h.status) || NoneReady(def, h.rows)
    requires e.kind.FailedEvent? && !IsPatch(h.rows, e.id) ==> Stopped(h.status)
    ensures Inv(def, h.(events := h.events - multiset{e}))
  {
    var r' := h.(events := h.events - multiset{e});
    forall kind, n | n in def.nodes && Event(kind, n.id) in h.events && Event(kind, n.id) != e
      ensures Event(kind, n.id) in r'.events
    {
    }
    if Pending(def, h, CompletedEvent) && !Pending(def, r', CompletedEvent) {
      var n :| n in def.nodes && Event(CompletedEvent, n.id) in h.events;
      assert Event(CompletedEvent, n.id) == e;
    }
  }

  lemma StartKeepsInv(def: Def, r: Run)
    requires WellFormed(def.nodes) && Inv(def, r) && r.status.RunQueued?
    ensures Inv(def, StartRun(def, r))
  {
    if ModelsDeclared(def) {
      FanOutRestoresInv(def, r, StartRun(def, r).status);
    }
  }

  lemma ReconcileKeepsInv(def: Def, r: Run)
    requires WellFormed(def.nodes) && Inv(def, r)
    ensures Inv(def, Reconcile(def, r).1)
  {
    var (tag, r') := Reconcile(def, r);
    match tag {
      case Noop =>
      case Finalised =>
      case Enqueued => FanOutRestoresInv(def, r, RunRunning);
      case Requeued => RequeueKeepsInv(def, r);
      case GaveUp => KeepDoneKeeps(def, r);
    }
  }

  lemma RequeueKeepsInv(def: Def, r: Run)
    requires WellFormed(def.nodes) && Inv(def, r) && !Terminal(r.status)
    ensures Inv(def, r.(rows := Saturate(def, KeepDone(r.rows)), status := RunRunning))
  {
    KeepDoneKeeps(def, r);
    FanOutRestoresInv(def, r.(rows := KeepDone(r.rows)), RunRunning);
  }

  lemma KeepDoneKeeps(def: Def, r: Run)
    requires Gated(def, r.rows) && NoPatchInDag(def, r.rows)
    ensures var kept := r.(rows := KeepDone(r.rows));
            Gated(def, kept.rows) && NoPatchInDag(def, kept.rows) && FailuresReported(def, kept)
  {
    KeepDoneGated(def, r.rows);
  }

  /** Every step, by whoever, keeps the invariant. */
  lemma StepKeepsInv(def: Def, r: Run, a: Action)
    requires WellFormed(def.nodes) && Inv(def, r)
    ensures Inv(def, Step(def, r, a))
  {
    match a {
      case Start => if r.status.RunQueued? { StartKeepsInv(def, r); }
      case Claim(id) =>
        if id in r.rows && r.rows[id].status.Queued? && !Stopped(r.status) { RowStepKeepsInv(def, r, id, Running); }
      case Park(id) =>
        if RowLive(r, id) {
          RowStepKeepsInv(def, r, id, AwaitingInput);
          EmitKeepsInv(def, SetStatus(r, id, AwaitingInput), Event(AwaitingInputEvent, id));
        }
      case Complete(id, delta) => if RowLive(r, id) { CompleteKeepsInv(def, r, id, delta); }
      case Fail(id) => if RowLive(r, id) { FailKeepsInv(def, r, id); }
      case Reclaim(id) =>
        if id in r.rows && r.rows[id].status.Running? {
          RowStepKeepsInv(def, r, id, if r.status.RunRunning? then Queued else Cancelled);
        }
      case CancelRow(id) => if RowLive(r, id) { RowStepKeepsInv(def, r, id, Cancelled); }
      case AddPatch(id) => AddPatchKeepsInv(def, r, id);
      case Deliver(e, acknowledged) => if e in r.events { DeliverKeepsInv(def, r, e, acknowledged); }
      case Resume(id, delta) => ResumeKeepsInv(def, r, id, delta);
      case ReconcileRun => ReconcileKeepsInv(def, r);
      case CancelRun =>
      case RestartOrchestrator =>
    }
  }

  lemma AddPatchKeepsInv(def: Def, r: Run, id: string)
    requires WellFormed(def.nodes) && Inv(def, r)
    ensures Inv(def, Step(def, r, AddPatch(id)))
  {
    if id !in r.rows && id !in Ids(def.nodes) {
      var out := r.rows[id := Row(Queued, map[], true)];
      assert forall n :: n in def.nodes ==> n.id in Ids(def.nodes);
      ReadinessDependsOnDoneDagRows(def, r.rows, out);
      forall n, d | n in def.nodes && n.id in out && d in n.dependsOn
        ensures IsDone(out, d)
      {
        assert IsDone(r.rows, d);
      }
    }
  }

  lemma ResumeKeepsInv(def: Def, r: Run, id: string, delta: Delta)
    requires WellFormed(def.nodes) && Inv(def, r)
    ensures Inv(def, ResumeAfterInput(def, r, id, delta))
  {
    if id in r.rows && (r.rows[id].status.AwaitingInput? || r.rows[id].status.Queued?) {
      CompleteRow(def, r, id, delta);
      var mid := r.(rows := r.rows[id := r.rows[id].(status := Completed, delta := delta)]);
      assert IsPatch(mid.rows, id) ==> id !in Ids(def.nodes);
      OnNodeCompletedRestoresInv(def, mid, id);
    }
  }

  // ---------------------------------------------------------------- whole runs

  lemma {:induction false} ExecuteKeepsInv(def: Def, actions: seq<Action>)
    requires WellFormed(def.nodes)
    ensures Inv(def, Execute(def, actions))
  {
    if actions != [] {
      ExecuteKeepsInv(def, actions[..|actions| - 1]);
      StepKeepsInv(def, Execute(def, actions[..|actions| - 1]), actions[|actions| - 1]);
    }
  }

  /** A run marked completed has every node completed or skipped, in every reachable state. */
  lemma CompletedRunsAreDone(def: Def, actions: seq<Action>)
    requires WellFormed(def.nodes)
    ensures Execute(def, actions).status.RunCompleted? ==> AllDone(def, Execute(def, actions).rows)
  {
    ExecuteKeepsInv(def, actions);
  }

  ghost predicate HasLiveNode(def: Def, r: Run) {
    exists n :: n in def.nodes && RowLive(r, n.id)
  }

  ghost predicate HasCancelledNode(def: Def, r: Run) {
    exists n :: n in def.nodes && n.id in r.rows && r.rows[n.id].status.Cancelled?
  }

  /** No run gets stuck: in every reachable state a non-terminal, expanded run without a
      cancelled row has a live row, an undelivered completion or failure event, or every node
      completed or skipped. */
  lemma NeverStuck(def: Def, actions: seq<Action>)
    requires WellFormed(def.nodes)
    ensures var r := Execute(def, actions);
            !Terminal(r.status) && Expanded(def, r) && !HasCancelledNode(def, r) ==>
              || HasLiveNode(def, r)
              || Pending(def, r, CompletedEvent)
              || Pending(def, r, FailedEvent)
              || AllDone(def, r.rows)
  {
    ExecuteKeepsInv(def, actions);
    var r := Execute(def, actions);
    if && !Terminal(r.status) && Expanded(def, r) && !HasCancelledNode(def, r)
       && !HasLiveNode(def, r) && !Pending(def, r, CompletedEvent) && !Pending(def, r, FailedEvent)
    {
      forall n | n in def.nodes && n.id in r.rows
        ensures IsDone(r.rows, n.id)
      {
        assert !RowLive(r, n.id) && !r.rows[n.id].status.Cancelled?;
        assert Event(FailedEvent, n.id) !in r.events;
      }
      DoneRowsMakeProgress(def, r.rows);
    }
  }

  /** In every reachable state of a run of `steps`: if step `b` depends on step `a` and some node
      of `b` has a row, every node of `a` is completed or skipped. */
  lemma StepsAreGated(steps: seq<Step>, def: Def, actions: seq<Action>, a: Step, b: Step, id: string)
    requires WellFormedSteps(steps) && def.nodes == Expand(steps)
    requires a in steps && b in steps && !a.OtherStep? && !b.OtherStep? && a.id in b.dependsOn
    requires id in StepNodeIds(b) && id in Execute(def, actions).rows
    ensures forall x :: x in StepNodeIds(a) ==> IsDone(Execute(def, actions).rows, x)
  {
    ExecuteKeepsInv(def, actions);
    var rows := Execute(def, actions).rows;
    var done := set x | x in rows && Done(rows[x].status);
    forall n, d | n in def.nodes && n.id in rows.Keys && d in n.dependsOn
      ensures d in done
    {
      assert IsDone(rows, d);
    }
    StepGating(steps, a, b, rows.Keys, done, id);
  }

  // ---------------------------------------------------------------- what each call does to a run

  /** Every node has a row that is completed or skipped. */
  ghost predicate Through(def: Def, rows: Rows) {
    && def.nodes != []
    && forall n :: n in def.nodes ==> n.id in rows && (rows[n.id].status == Completed || rows[n.id].status == Skipped)
  }

  /** A GPU node that names no model, of a module that is not exempt from naming one. */
  ghost predicate Undeclared(def: Def, n: Node) {
    && n in def.nodes && n.gpu && (n.model.None? || n.model.value == "")
    && (if n.nodeModule == "" then n.id else n.nodeModule) !in def.exempt
  }

  /** Starting a queued run fails it, touching no row, exactly when a GPU node declares no model; otherwise
      it fans out, and the run is running exactly when it has a row. */
  lemma StartExactly(def: Def, r: Run)
    requires UniqueIds(def.nodes) && r.status.RunQueued?
    ensures var r' := Step(def, r, Start);
            && r'.events == r.events
            && ((exists n :: Undeclared(def, n)) ==> r'.status == RunFailed && r'.rows == r.rows)
            && ((forall n :: !Undeclared(def, n)) ==>
                  && r'.rows == Saturate(def, r.rows)
                  && r'.status == if exists id :: id in r'.rows then RunRunning else RunQueued)
  {
    if !ModelsDeclared(def) {
      var n :| n in def.nodes && n.gpu && !Given(n.model) &&
               (if n.nodeModule == "" then n.id else n.nodeModule) !in def.exempt;
      assert Undeclared(def, n);
    }
    var rows := Saturate(def, r.rows);
    assert rows != map[] <==> exists id :: id in rows;
  }

  lemma CompletesExactly(def: Def, r: Run, id: string)
    requires UniqueIds(def.nodes) && !Stopped(r.status) && !IsPatch(r.rows, id)
    requires r.status.RunCompleted? ==> Through(def, r.rows)
    ensures var r' := OnNodeCompleted(def, r, id);
            && r'.rows == Saturate(def, r.rows) && r'.events == r.events
            && (r'.status == RunCompleted <==> Through(def, r'.rows))
            && (r'.status != RunCompleted ==> r'.status == r.status)
  {
    SaturateFansOut(def, r.rows);
    ThroughIsDone(def, Saturate(def, r.rows));
    if r.status.RunCompleted? {
      forall n | n in def.nodes
        ensures IsDone(Saturate(def, r.rows), n.id)
      {
        assert n.id in r.rows;
      }
    }
  }

  lemma ThroughIsDone(def: Def, rows: Rows)
    ensures Through(def, rows) <==> AllDone(def, rows)
  {
    if AllDone(def, rows) {
      forall n | n in def.nodes
        ensures n.id in rows && (rows[n.id].status == Completed || rows[n.id].status == Skipped)
      {
        assert IsDone(rows, n.id);
      }
    }
  }

  /** A delivered completion of a DAG row fans out, and the run is then completed exactly when every node
      has a completed or skipped row; otherwise its status is what it was. Only an acknowledgement removes
      the event. */
  lemma DeliveredCompletionExactly(def: Def, r: Run, id: string, acknowledged: bool)
    requires UniqueIds(def.nodes) && !Stopped(r.status) && !IsPatch(r.rows, id)
    requires r.status.RunCompleted? ==> Through(def, r.rows)
    requires Event(CompletedEvent, id) in r.events
    ensures var e := Event(CompletedEvent, id);
            var r' := Step(def, r, Deliver(e, acknowledged));
            && r'.rows == Saturate(def, r.rows)
            && (r'.status == RunCompleted <==> Through(def, r'.rows))
            && (r'.status != RunCompleted ==> r'.status == r.status)
            && r'.events == if acknowledged then r.events - multiset{e} else r.events
  {
    CompletesExactly(def, r, id);
  }

  /** Submitted input completes an awaiting or queued row with its delta. For a DAG row of a run that was not
      stopped it fans out from there, and the run is then completed exactly when every node has a completed or
      skipped row. */
  lemma ResumeExactly(def: Def, r: Run, id: string, delta: Delta)
    requires UniqueIds(def.nodes) && !Stopped(r.status) && id in r.rows && !r.rows[id].patch && id in Ids(def.nodes)
    requires r.rows[id].status == AwaitingInput || r.rows[id].status == Queued
    requires r.status.RunCompleted? ==> Through(def, r.rows)
    ensures var r' := Step(def, r, Resume(id, delta));
            && r'.rows == Saturate(def, r.rows[id := Row(Completed, delta, false)]) && r'.events == r.events
            && (r'.status == RunCompleted <==> Through(def, r'.rows))
            && (r'.status != RunCompleted ==> r'.status == r.status)
  {
    var n :| n in def.nodes && n.id == id;
    CompletesExactly(def, r.(rows := r.rows[id := Row(Completed, delta, false)]), id);
  }

  /** Input for a row in any other state, or for none, changes nothing; under a stopped run, or for a patch
      row, it completes the row and nothing else. */
  lemma ResumeElsewhere(def: Def, r: Run, id: string, delta: Delta)
    requires UniqueIds(def.nodes)
    ensures var r' := Step(def, r, Resume(id, delta));
            && (id !in r.rows || (r.rows[id].status != AwaitingInput && r.rows[id].status != Queued) ==> r' == r)
            && (id in r.rows && (r.rows[id].status == AwaitingInput || r.rows[id].status == Queued) &&
                (r.rows[id].patch || r.status == RunFailed || r.status == RunCancelled) ==>
                  r' == r.(rows := r.rows[id := Row(Completed, delta, r.rows[id].patch)]))
  {
  }

  /** A delivered failure of a DAG row fails a run that was not stopped: no row is queued any more, those
      that were are cancelled, and every other row is as it was. */
  lemma DeliveredFailureExactly(def: Def, r: Run, id: string, acknowledged: bool)
    requires UniqueIds(def.nodes) && Event(FailedEvent, id) in r.events
    requires r.status != RunFailed && r.status != RunCancelled && !(id in r.rows && r.rows[id].patch)
    ensures var r' := Step(def, r, Deliver(Event(FailedEvent, id), acknowledged));
            && r'.status == RunFailed && r'.rows.Keys == r.rows.Keys
            && (forall x :: x in r.rows && r.rows[x].status == Queued ==>
                  r'.rows[x] == Row(Cancelled, r.rows[x].delta, r.rows[x].patch))
            && (forall x :: x in r.rows && r.rows[x].status != Queued ==> r'.rows[x] == r.rows[x])
            && r'.events == if acknowledged then r.events - multiset{Event(FailedEvent, id)} else r.events
  {
  }

  /** An event of a patch row or of a stopped run, or that input is awaited, changes neither rows nor status. */
  lemma IgnoredEvents(def: Def, r: Run, e: Event, acknowledged: bool)
    requires UniqueIds(def.nodes) && e in r.events
    requires || r.status == RunFailed || r.status == RunCancelled
             || (e.id in r.rows && r.rows[e.id].patch) || e.kind.AwaitingInputEvent?
    ensures Step(def, r, Deliver(e, acknowledged)) ==
            Run(r.status, r.rows, if acknowledged then r.events - multiset{e} else r.events)
  {
    assert Handle(def, r, e) == r;
  }

  /** What workers do: claim a queued row of a run that was not stopped, and lose a running row to the
      reclaim, which re-queues it under a running run and cancels it otherwise. Everything else in the run
      stays as it was. */
  lemma ClaimStepsExactly(def: Def, r: Run, id: string)
    requires UniqueIds(def.nodes) && id in r.rows
    ensures var row := r.rows[id];
            && Step(def, r, Claim(id)) ==
               (if row.status == Queued && r.status != RunFailed && r.status != RunCancelled
                then r.(rows := r.rows[id := Row(Running, row.delta, row.patch)]) else r)
            && Step(def, r, Reclaim(id)) ==
               (if row.status != Running then r
                else
                  var status := if r.status == RunRunning then Queued else Cancelled;
                  r.(rows := r.rows[id := Row(status, row.delta, row.patch)]))
  {
  }

  /** Park, complete or fail a live row, writing the row and its event together and nothing else. */
  lemma WorkerStepsExactly(def: Def, r: Run, id: string, delta: Delta)
    requires UniqueIds(def.nodes) && id in r.rows
    ensures var row := r.rows[id];
            var live := row.status == Queued || row.status == Running || row.status == AwaitingInput;
            && Step(def, r, Park(id)) ==
               (if live then Wrote(r, id, Row(AwaitingInput, row.delta, row.patch), AwaitingInputEvent) else r)
            && Step(def, r, Complete(id, delta)) ==
               (if live then Wrote(r, id, Row(Completed, delta, row.patch), CompletedEvent) else r)
            && Step(def, r, Fail(id)) ==
               (if live then Wrote(r, id, Row(Failed, row.delta, row.patch), FailedEvent) else r)
  {
  }

  function Wrote(r: Run, id: string, row: Row, kind: EventKind): Run {
    Run(r.status, r.rows[id := row], r.events + multiset{Event(kind, id)})
  }

  /** What operators do: cancel a live row; add a patch row under a new id outside the DAG; cancel a run that
      is not terminal; and, on a restart, queue again a running run without a live row. */
  lemma OperatorStepsExactly(def: Def, r: Run, id: string)
    requires UniqueIds(def.nodes)
    ensures id in r.rows ==>
              Step(def, r, CancelRow(id)) ==
              if r.rows[id].status in {Queued, Running, AwaitingInput}
              then r.(rows := r.rows[id := Row(Cancelled, r.rows[id].delta, r.rows[id].patch)]) else r
    ensures id !in r.rows && (forall n :: n in def.nodes ==> n.id != id) ==>
              Step(def, r, AddPatch(id)) == r.(rows := r.rows[id := Row(Queued, map[], true)])
    ensures id in r.rows || (exists n :: n in def.nodes && n.id == id) ==> Step(def, r, AddPatch(id)) == r
    ensures Step(def, r, CancelRun) ==
            if r.status in {RunQueued, RunRunning} then r.(status := RunCancelled) else r
    ensures Step(def, r, RestartOrchestrator) ==
            if && r.status == RunRunning
               && (forall x :: x in r.rows ==> r.rows[x].status !in {Queued, Running, AwaitingInput})
            then r.(status := RunQueued) else r
  {
  }

  /** On any DAG with unique ids, well-formed or not, the reconciler gives up exactly on a wedged run with
      nothing ready, neither as it is nor cut down to its completed and skipped rows. */
  lemma GivesUpExactly(def: Def, r: Run, kept: Rows)
    requires UniqueIds(def.nodes) && DoneRowsOf(r.rows, kept)
    ensures Reconcile(def, r).0 == GaveUp <==> Wedged(def, r) && NoneReady(def, r.rows) && NoneReady(def, kept)
    ensures Reconcile(def, r).0 == GaveUp ==> Reconcile(def, r).1 == Run(RunFailed, kept, r.events)
  {
    ThroughIsDone(def, r.rows);
    if Wedged(def, r) {
      SameRows(kept, KeepDone(r.rows));
      WedgedCall(def, r);
      SaturatesExactlyWhenReady(def, r.rows);
      SaturatesExactlyWhenReady(def, kept);
    } else {
      OtherCall(def, r);
    }
  }

  lemma WedgedCall(def: Def, r: Run)
    requires UniqueIds(def.nodes) && !Terminal(r.status) && !HasLive(r.rows) && !AllDone(def, r.rows)
    ensures var kept := KeepDone(r.rows);
            && (Reconcile(def, r).0 == GaveUp <==>
                  Saturate(def, r.rows) == r.rows && (kept == r.rows || Saturate(def, kept) == kept))
            && (Reconcile(def, r).0 == GaveUp ==> Reconcile(def, r).1 == Run(RunFailed, kept, r.events))
  {
  }

  lemma OtherCall(def: Def, r: Run)
    requires UniqueIds(def.nodes) && (Terminal(r.status) || HasLive(r.rows) || AllDone(def, r.rows))
    ensures Reconcile(def, r).0 != GaveUp
  {
  }

  lemma SaturatesExactlyWhenReady(def: Def, rows: Rows)
    requires UniqueIds(def.nodes)
    ensures Saturate(def, rows) == rows <==> NoneReady(def, rows)
  {
    if NoneReady(def, rows) {
      SaturateIsStable(def, rows);
    } else {
      ReadyMakesRows(def, rows);
    }
  }

  /** Unfinished and without a live row: what the reconciler has to repair. */
  ghost predicate Wedged(def: Def, r: Run) {
    && r.status != RunCompleted && r.status != RunFailed && r.status != RunCancelled
    && (forall id :: id in r.rows ==> !Live(r.rows[id].status))
    && !Through(def, r.rows)
  }

  /** The reconciler leaves a terminal or live run alone, and completes one that is neither exactly when every
      node has a completed or skipped row. A wedged run with a node ready is fanned out; one without is
      first cut down to its completed and skipped rows. */
  lemma ReconcileExactly(def: Def, r: Run, kept: Rows)
    requires WellFormed(def.nodes) && DoneRowsOf(r.rows, kept)
    ensures var r' := Reconcile(def, r).1;
            if Wedged(def, r) && NoneReady(def, r.rows) then r' == Run(RunRunning, Saturate(def, kept), r.events)
            else if Wedged(def, r) then r' == Run(RunRunning, Saturate(def, r.rows), r.events)
            else if Terminal(r.status) || HasLive(r.rows) then r' == r
            else r' == Run(RunCompleted, r.rows, r.events)
  {
    ThroughIsDone(def, r.rows);
    if Wedged(def, r) {
      if NoneReady(def, r.rows) {
        RequeuingCall(def, r);
        SameRows(kept, KeepDone(r.rows));
      } else {
        EnqueuingCall(def, r);
      }
    }
  }

  /** `kept` are the completed and skipped rows of `rows`. */
  ghost predicate DoneRowsOf(rows: Rows, kept: Rows) {
    && (forall id :: id in kept <==> id in rows && (rows[id].status == Completed || rows[id].status == Skipped))
    && (forall id :: id in kept ==> id in rows && kept[id] == rows[id])
  }

  // ---------------------------------------------------------------- the reconciler

  ghost predicate KeepsDoneRows(rows: Rows, out: Rows) {
    forall id :: IsDone(rows, id) ==> id in out && out[id] == rows[id]
  }

  lemma KeepDoneGated(def: Def, rows: Rows)
    requires Gated(def, rows)
    ensures Gated(def, KeepDone(rows))
  {
    forall n, d | n in def.nodes && n.id in KeepDone(rows) && d in n.dependsOn
      ensures IsDone(KeepDone(rows), d)
    {
      assert IsDone(rows, d);
    }
  }

  /** Saturated, not live and not done: there are dead rows, and dropping them frees a node. */
  lemma DeadRowsRequeue(def: Def, rows: Rows)
    requires WellFormed(def.nodes)
    requires !HasLive(rows) && !AllDone(def, rows) && NoneReady(def, rows)
    ensures KeepDone(rows) != rows
    ensures Saturate(def, KeepDone(rows)) != KeepDone(rows)
  {
    if forall n :: n in def.nodes && n.id in rows ==> IsDone(rows, n.id) {
      DoneRowsMakeProgress(def, rows);
      assert false;
    }
    var n :| n in def.nodes && n.id in rows && !IsDone(rows, n.id);
    var kept := KeepDone(rows);
    assert n.id !in kept;
    SaturateFansOut(def, kept);
    if NoneReady(def, kept) {
      DoneRowsMakeProgress(def, kept);
      assert false;
    }
  }

  lemma SaturateIsStable(def: Def, rows: Rows)
    requires UniqueIds(def.nodes) && NoneReady(def, rows)
    ensures Saturate(def, rows) == rows
  {
    var ready := FindReady(def.nodes, rows);
    if ready != [] {
      HeadIsMember(ready);
      assert false;
    }
  }

  lemma HeadIsMember<T>(s: seq<T>)
    requires s != []
    ensures exists x :: x in s
  {
    assert s[0] in s;
  }

  lemma ReadyMakesRows(def: Def, rows: Rows)
    requires UniqueIds(def.nodes) && !NoneReady(def, rows)
    ensures Saturate(def, rows) != rows
  {
    SaturateFansOut(def, rows);
  }

  /** A call on an unfinished run without a live row: with a node ready it fans out. */
  lemma EnqueuingCall(def: Def, r: Run)
    requires WellFormed(def.nodes) && !Terminal(r.status) && !HasLive(r.rows) && !AllDone(def, r.rows)
    requires !NoneReady(def, r.rows)
    ensures Reconcile(def, r) == (Enqueued, r.(rows := Saturate(def, r.rows), status := RunRunning))
  {
    ReadyMakesRows(def, r.rows);
  }

  /** With nothing ready it drops the dead rows and fans out from the done ones. */
  lemma RequeuingCall(def: Def, r: Run)
    requires WellFormed(def.nodes) && !Terminal(r.status) && !HasLive(r.rows) && !AllDone(def, r.rows)
    requires NoneReady(def, r.rows)
    ensures Reconcile(def, r) == (Requeued, r.(rows := Saturate(def, KeepDone(r.rows)), status := RunRunning))
  {
    SaturateIsStable(def, r.rows);
    DeadRowsRequeue(def, r.rows);
  }

  /** Outside a live run, one reconciler call either finalises, or adds a row, or drops the dead
      rows and adds one; it never gives up on a well-formed DAG and never loses done work. */
  lemma ReconcileNeverGivesUp(def: Def, r: Run)
    requires WellFormed(def.nodes)
    ensures var (tag, r') := Reconcile(def, r);
            && tag != GaveUp
            && KeepsDoneRows(r.rows, r'.rows)
            && (Gated(def, r.rows) ==> Gated(def, r'.rows))
  {
    if !Terminal(r.status) && !HasLive(r.rows) && !AllDone(def, r.rows) {
      if NoneReady(def, r.rows) {
        RequeuingCall(def, r);
        SaturateFansOut(def, KeepDone(r.rows));
        if Gated(def, r.rows) { KeepDoneGated(def, r.rows); }
      } else {
        EnqueuingCall(def, r);
        SaturateFansOut(def, r.rows);
      }
    }
  }

  /** A fan-out from done rows that creates no live row finishes the DAG. */
  lemma FanOutWithoutLiveIsDone(def: Def, rows: Rows)
    requires WellFormed(def.nodes) && !HasLive(Saturate(def, KeepDone(rows)))
    ensures AllDone(def, Saturate(def, KeepDone(rows)))
  {
    var out := Saturate(def, KeepDone(rows));
    SaturateFansOut(def, KeepDone(rows));
    forall n | n in def.nodes && n.id in out
      ensures IsDone(out, n.id)
    {
      assert !Live(out[n.id].status);
    }
    DoneRowsMakeProgress(def, out);
  }

  /** Recovered: completed, or with a live row for a worker to claim. */
  ghost predicate Recovered(r: Run) {
    r.status.RunCompleted? || HasLive(r.rows)
  }

  /** One call on a run that is not recovered: it recovers, or leaves nothing ready. */
  lemma FirstCall(def: Def, r: Run)
    requires WellFormed(def.nodes) && !Terminal(r.status)
    ensures var r1 := Reconcile(def, r).1;
            Recovered(r1) || (!Terminal(r1.status) && NoneReady(def, r1.rows))
  {
    if !HasLive(r.rows) && !AllDone(def, r.rows) {
      if NoneReady(def, r.rows) {
        RequeuingCall(def, r);
        SaturateFansOut(def, KeepDone(r.rows));
      } else {
        EnqueuingCall(def, r);
        SaturateFansOut(def, r.rows);
      }
    }
  }

  /** One call with nothing ready: it recovers, or every node is done. */
  lemma QuietCall(def: Def, r: Run)
    requires WellFormed(def.nodes) && !Terminal(r.status) && NoneReady(def, r.rows)
    ensures var r1 := Reconcile(def, r).1;
            Recovered(r1) || (!Terminal(r1.status) && AllDone(def, r1.rows))
  {
    if !HasLive(r.rows) && !AllDone(def, r.rows) {
      RequeuingCall(def, r);
      if !HasLive(Saturate(def, KeepDone(r.rows))) {
        FanOutWithoutLiveIsDone(def, r.rows);
      }
    }
  }

  function Reconciled(def: Def, r: Run, calls: nat): Run
    requires UniqueIds(def.nodes)
  {
    if calls == 0 then r else Reconcile(def, Reconciled(def, r, calls - 1)).1
  }

  lemma RecoveredStays(def: Def, r: Run)
    requires UniqueIds(def.nodes) && Recovered(r)
    ensures Recovered(Reconcile(def, r).1)
  {
  }

  /** Three consecutive calls recover any non-terminal run of a well-formed DAG, whatever dead,
      skipped or patch rows it starts from. */
  lemma ThreeCallsRecover(def: Def, r: Run)
    requires WellFormed(def.nodes) && !Terminal(r.status)
    ensures Recovered(Reconciled(def, r, 3))
  {
    var r1 := Reconciled(def, r, 1);
    var r2 := Reconciled(def, r, 2);
    assert Reconciled(def, r, 0) == r;
    assert r1 == Reconcile(def, r).1 && r2 == Reconcile(def, r1).1;
    FirstCall(def, r);
    if Recovered(r1) {
      RecoveredStays(def, r1);
    } else {
      QuietCall(def, r1);
    }
    if Recovered(r2) {
      RecoveredStays(def, r2);
    }
  }

  /** A call on a non-terminal run that is live or done recovers it at once. */
  lemma SettledCall(def: Def, r: Run)
    requires UniqueIds(def.nodes) && !Terminal(r.status) && (HasLive(r.rows) || AllDone(def, r.rows))
    ensures Recovered(Reconcile(def, r).1)
  {
  }

  lemma TwoCalls(def: Def, r: Run)
    requires UniqueIds(def.nodes)
    ensures Reconciled(def, r, 2) == Reconcile(def, Reconcile(def, r).1).1
  {
    assert Reconciled(def, r, 0) == r;
    assert Reconciled(def, r, 1) == Reconcile(def, r).1;
  }

  lemma SaturatedIsQuiet(def: Def, rows: Rows)
    requires UniqueIds(def.nodes)
    ensures NoneReady(def, Saturate(def, rows))
  {
    SaturateFansOut(def, rows);
  }

  /** A call on a running run with nothing ready. */
  lemma QuietCallRecoversExactly(def: Def, r: Run)
    requires WellFormed(def.nodes) && r.status.RunRunning? && NoneReady(def, r.rows)
    ensures Recovered(Reconcile(def, r).1) <==>
            HasLive(r.rows) || AllDone(def, r.rows) || HasLive(Saturate(def, KeepDone(r.rows)))
  {
    if HasLive(r.rows) || AllDone(def, r.rows) {
      SettledCall(def, r);
    } else {
      RequeuingCall(def, r);
    }
  }

  /** What two calls do to an unfinished run without a live row but with a node ready. */
  lemma TwoCallsWithReadyNode(def: Def, r: Run)
    requires WellFormed(def.nodes) && !Terminal(r.status) && !HasLive(r.rows) && !AllDone(def, r.rows)
    requires !NoneReady(def, r.rows)
    ensures var s := Saturate(def, r.rows);
            Recovered(Reconcile(def, Reconcile(def, r).1).1) <==>
              HasLive(s) || AllDone(def, s) || HasLive(Saturate(def, KeepDone(s)))
  {
    EnqueuingCall(def, r);
    SaturatedIsQuiet(def, r.rows);
    QuietCallRecoversExactly(def, r.(rows := Saturate(def, r.rows), status := RunRunning));
  }

  /** Exactly when two calls recover a non-terminal run of a well-formed DAG: unless it is unfinished
      without a live row, has a node ready, and neither fanning out nor, after that, dropping the dead
      rows and fanning out again creates a live row or finishes it. */
  lemma TwoCallsRecoverExactly(def: Def, r: Run)
    requires WellFormed(def.nodes) && !Terminal(r.status)
    ensures var s := Saturate(def, r.rows);
            Recovered(Reconciled(def, r, 2)) <==>
              || HasLive(r.rows) || AllDone(def, r.rows) || NoneReady(def, r.rows)
              || HasLive(s) || AllDone(def, s) || HasLive(Saturate(def, KeepDone(s)))
  {
    TwoCalls(def, r);
    var r1 := Reconcile(def, r).1;
    if HasLive(r.rows) || AllDone(def, r.rows) {
      SettledCall(def, r);
      RecoveredStays(def, r1);
    } else if NoneReady(def, r.rows) {
      QuietCall(def, r);
      if Recovered(r1) { RecoveredStays(def, r1); } else { SettledCall(def, r1); }
    } else {
      TwoCallsWithReadyNode(def, r);
    }
  }
}
