# A verified model of the broker_parrot engine

broker_parrot runs workflows over a database used as a job queue: a dispatcher fans nodes of a DAG out into
job rows, workers claim the rows, boxes share their GPU between processes through a lease, and a set of
small daemons start, stop and size the language-model servers. This project models six of those components
in Dafny and proves what they promise, over every input, every run or every interleaving.

| component | modules |
|---|---|
| DAG dispatcher | `Graph`, `Workflow`, `Dispatch`, `Affinity`, `RunMachine`, `RunTables`, `Stranded` |
| box-wide model lease | `Lease`, `BoxHold` |
| claim worker concurrency | `LanePool`, `CpuLane`, `ClaimLane`, `GpuBudget`, `TripSweep`, `HealthWatchdog`, `Debounce` |
| memory arithmetic | `VllmPlan`, `ContextWindow` |
| idle and park daemons | `IdleStopper`, `ParkQuiesce` |
| store mechanics | `Migrations`, `SqlLiterals` |

`Base` holds the shared `Option` type and a few facts about sets and numbers. `dafny verify dfyconfig.toml` checks everything.

## How to read it

Each protocol is a `Step` function on values, an `Execute` or `Run` function that folds any sequence of steps,
an invariant kept by every step, and theorems about every sequence. Code that updates fields in place is also
a class: each method's contract says that fields which match a protocol state match, afterwards, the state the
step function gives (`Matches`, or `View` where the fields are the whole state), so the theorems about steps
apply to the methods. A method that is several steps of a protocol is specified as those steps without
interruption; what interruptions do is in the theorems.
Clocks, probes, failing calls, lock timeouts and thread schedules are inputs of the steps; nothing is assumed
about their order beyond what a theorem's `requires` says.

What the source calls well-formed is `Workflow.WellFormed`: at least one node, distinct ids, dependencies that
name nodes, no cycle. A worker's completion or failure writes its row and its event in one step, as
`README.md` lines 186-196 and `claim_worker.py` lines 726-735 of the repository describe. Events are delivered
in any order and any number of times until acknowledged.

## Where the code differs from what one would expect

- **Two requests of one lease holder in flight at once.** The clock is read before the lock, so the older request
  may commit last and shorten the lease just promised; a rival can then take the box inside the promise
  (`Lease.OverlappingAsksBreakPromises`). Promises hold in every run without such a stale renewal
  (`PromisesExclude`). After one, a rival gets in inside the promise, if nothing else happens, if and only if
  every other process's entry lapses before the promise does (`StaleRenewalOpensTheBox`). Between recorded
  leases exclusion is unconditional (`OneModelPerBox`).
- **Heartbeat and lanes without a lock.** The lease file, `_box_held_model` and `_box_active_jobs` are written one
  after the other, so a job can run without a lease. Four runs show it: an acquire inside a heartbeat
  (`BoxHold.AcquireInsideBeat`), a heartbeat between a lane's commit and its bookkeeping
  (`BeatInsideAcquireLosesJob`), a heartbeat between the two writes of the bookkeeping
  (`BeatInsideBookkeeping`), and an acquire with a stale clock (`StaleAcquireLapses`).
  `CoveredThroughoutExactly` with `DisplacesExactly` says over all interleavings exactly which steps lose a
  slot, and `JobsHoldTheBox` gives a discipline under which none does.
- **A submit that passed the closed test.** `_CpuLanePool.submit` tests and then puts. A put behind the last
  shutdown sentinel is neither refused nor run (`LanePool.LatePutHappens`), its slot is never released and the
  lane never drains (`CpuLane.LatePutNeverDrains`). A waiting shutdown has run every accepted job if and only if
  there was no such put (`LanePool.ShutdownRunsAcceptedJobs`).
- **Ollama behind vLLM.** The advertised-server debounce remembers the filtered list, so ollama is forgotten while
  vLLM is advertised, although the comment beside it says ollama stays in the debounced set and is back the moment
  vLLM is gone (`Debounce.OllamaIsForgottenBehindVllm`, exact condition in `OllamaAdvertisedExactly`).
- **Rounding the pool.** `vllm_plan` rounds to hundredths, which can exceed an operator value that is not a multiple
  of 0.01 (`VllmPlan.RoundingOvershoots`): exactly in the case given by `RoundingOvershootsExactly`. Without a
  profile, an operator value up to 0.005 above what fits is started as configured although it may not fit
  (`FirstStartMayOvershoot`): exactly as `FirstStartLeavesReserve` says.
- **The restart backoff.** The comment says the failure count resets as soon as the server is seen serving. It resets
  if and only if the sighting shows use or there is no earlier sighting to compare it with
  (`IdleStopper.SightingResetsExactly`); the other case occurs (`SightingAloneKeepsBackoff`). The lower bound on
  the delay holds all the same (`StartsBackOff`).
- **What counts as idle.** The stopper reads an active-jobs probe that raises as no active jobs, and a stopper built
  without a pending probe needs no pending count. `IdleStopper.NothingWaits` says so, and `StopsExactlyWhenUnused`
  is stated with it.
- **Three reconciler calls.** Three calls always recover a run (`RunMachine.ThreeCallsRecover`). Two do so exactly
  under the condition of `TwoCallsRecoverExactly`, which a reachable run fails (`Stranded.TwoCallsMayNotRecover`).

## Model

| member | source | states |
|---|---|---|
| `Workflow.NodesOf` | queue_workflows/dispatcher.py:70-202 | the two-pass loop over steps builds the node DAG that `Expand` defines and `ExpandedNode` describes |
| `Workflow.ExpandedLength` | queue_workflows/dispatcher.py:70-202 | the DAG has one node per input step and one per schema node of each pipeline step |
| `Workflow.ExpandedNode` | queue_workflows/dispatcher.py:106-202 | node by node, in step and schema order: prefixed id; its own GPU flag, model, module and skip condition, with their fallbacks; and exactly the dependencies it must wait for, its siblings if it names any, else every ending node of each step its step waits for |
| `Workflow.StartedStepWaited` | queue_workflows/dispatcher.py:106-140 | if any node of step B has a row in a dependency-gated state, the leaves of every step it depends on are done, because in an acyclic pipeline a started step has a started source |
| `Workflow.LeavesDoneMeansStepDone` | queue_workflows/dispatcher.py:87-105 | if the leaves of a step are done, every node of it is |
| `Workflow.StepGating` | queue_workflows/dispatcher.py:87-140 | in a dependency-gated state, a row of any node of B means every node of every step B depends on is completed or skipped |
| `Dispatch.FindReady` | queue_workflows/dispatcher.py:351-370 | exactly the nodes without a row whose dependencies are all completed or skipped |
| `Dispatch.SkipContextExactly` | queue_workflows/dispatcher.py:373-384 | key by key, the context is a completed row's non-empty delta, else what the run started with |
| `Dispatch.FanOutKeepsContext` | queue_workflows/dispatcher.py:373-384 | rows added by a fan-out change nothing in the context that skip conditions read |
| `Dispatch.SaturateDecides` | queue_workflows/dispatcher.py:387-411 | a row added in any round of the cascade is decided as if against the rows before the first round |
| `Dispatch.SaturateIsLeastFixpoint` | queue_workflows/dispatcher.py:417-462 | the fan-out leaves old rows alone, and its new rows are the least set closed under readiness with cascading skips |
| `Dispatch.DoneRowsMakeProgress` | queue_workflows/dispatcher.py:351-370 | in a well-formed DAG whose rows are all done, nothing ready means everything done |
| `Affinity.OrderPermutes` | queue_workflows/dispatcher.py:435-446 | batching by model keeps the ready nodes as a multiset |
| `Affinity.OrderSorts` | queue_workflows/dispatcher.py:435-446 | the batch is in order of model name, character by character, nodes without a model last |
| `Affinity.OrderStable` | queue_workflows/dispatcher.py:435-446 | nodes of one model keep their workflow order |
| `RunTables.RunTables.ProcessReady` | queue_workflows/dispatcher.py:417-462 | the insert loop terminates, reaches that least fixpoint whatever the batching order, and returns the number of new rows |
| `RunTables.BatchIsRound` | queue_workflows/dispatcher.py:435-460 | inserting the ready nodes one by one in any order is one round |
| `RunTables.RunTables.StartRun` | queue_workflows/dispatcher.py:465-494 | fails a run with a GPU node whose model is missing or empty and whose module is not exempt; else fans out and marks the run running |
| `RunTables.RunTables.OnNodeCompleted` | queue_workflows/dispatcher.py:621-657 | the dispatcher's completion step as `DeliveredCompletionExactly` describes it; ignored for stopped runs and patch rows |
| `RunTables.RunTables.OnNodeFailed` | queue_workflows/dispatcher.py:660-685 | cancels the queued rows and fails the run, with the same exceptions |
| `RunTables.RunTables.ResumeAfterInput` | queue_workflows/dispatcher.py:1280-1306 | completes an awaiting or queued row and cascades; nothing for other rows; an error for a missing one |
| `RunTables.RunTables.ReconcileRun` | queue_workflows/dispatcher.py:719-795 | the repair ladder: leave alone, finalise, enqueue, drop dead rows and enqueue, give up |
| `RunMachine.StepKeepsInv` | queue_workflows/dispatcher.py:621-685 | every step by dispatcher, worker or operator keeps gating, reported failures and a driver for unfinished work |
| `RunMachine.StartExactly` | queue_workflows/dispatcher.py:465-494 | a start fails the run, touching no row, if and only if a GPU node that needs a model declares none; else it fans out, and the run runs if and only if it has a row |
| `RunMachine.DeliveredCompletionExactly` | queue_workflows/dispatcher.py:621-657 | a delivered completion, acknowledged or not, fans out and leaves the run completed if and only if every node then has a completed or skipped row |
| `RunMachine.DeliveredFailureExactly` | queue_workflows/dispatcher.py:660-685 | a delivered failure fails the run, cancels exactly the queued rows and keeps every other |
| `RunMachine.IgnoredEvents` | queue_workflows/dispatcher.py:621-685 | events of stopped runs and patch rows change neither rows nor status |
| `RunMachine.ResumeExactly` | queue_workflows/dispatcher.py:1280-1306 | input for an awaiting or queued DAG row completes it, fans out, and completes the run if and only if every node then is done |
| `RunMachine.ResumeElsewhere` | queue_workflows/dispatcher.py:1280-1306 | input for any other row changes nothing; under a stopped run or for a patch row it completes the row only |
| `RunMachine.ClaimStepsExactly` | queue_workflows/node_queue.py:1882-1960 | a queued row of a run that was not stopped can be claimed; a reclaim re-queues a running row under a running run and cancels it otherwise |
| `RunMachine.WorkerStepsExactly` | queue_workflows/node_queue.py:2844-2960 | a live row parks, completes or fails together with its event; a terminal one is left alone |
| `RunMachine.OperatorStepsExactly` | queue_workflows/run_store.py:219-275 | a restart re-queues a running run if and only if it has no live row; what cancelling a row or run and adding a patch row do |
| `RunMachine.ReconcileExactly` | queue_workflows/dispatcher.py:719-795 | the repair ladder by its effect: which runs it leaves alone, which it completes, and which rows a wedged run has afterwards |
| `RunMachine.NeverStuck` | queue_workflows/dispatcher.py:417-494 | in every reachable state a non-terminal, expanded run with no cancelled row has a live row, an undelivered event, or every node done |
| `RunMachine.CompletedRunsAreDone` | queue_workflows/dispatcher.py:621-657 | in every reachable state a completed run has every node completed or skipped |
| `RunMachine.StepsAreGated` | queue_workflows/dispatcher.py:87-140 | step gating in every reachable state of every run |
| `RunMachine.ReconcileNeverGivesUp` | queue_workflows/dispatcher.py:719-795 | on a well-formed DAG the reconciler never fails the run, loses no done row and keeps gating |
| `RunMachine.GivesUpExactly` | queue_workflows/dispatcher.py:760-795 | on any DAG with unique ids it gives up if and only if nothing is ready, neither with the dead rows nor without |
| `RunMachine.DeadRowsRequeue` | queue_workflows/dispatcher.py:760-795 | a saturated, unfinished run without live rows has dead rows, and dropping them makes a node ready |
| `RunMachine.ThreeCallsRecover` | queue_workflows/dispatcher.py:719-795 | three consecutive calls leave any non-terminal run completed or with a live row |
| `RunMachine.TwoCallsRecoverExactly` | queue_workflows/dispatcher.py:719-795 | exactly when two calls recover a non-terminal run: unless it is unfinished without a live row, has a node ready, and neither fanning out nor then dropping the dead rows and fanning out again finishes it or makes a row live |
| `Stranded.TwoCallsDoNotRecover` | queue_workflows/dispatcher.py:719-795 | a family of DAGs, each with a run reached by start, cancel and complete that two calls do not recover |
| `Stranded.TwoCallsMayNotRecover` | queue_workflows/dispatcher.py:719-795 | one of them |
| `Lease.DecideKeepsOthers` | queue_workflows/gpu_model_lease.py:163-180 | a decision at a stale clock leaves another holder's unexpired lease recorded, and is granted only for the same model |
| `Lease.OneModelPerBox` | queue_workflows/gpu_model_lease.py:163-186 | in every run with stale clocks, contention and releases, two holders with unexpired leases hold one model |
| `Lease.HoldersRenew` | queue_workflows/gpu_model_lease.py:163-180 | a holder with an unexpired lease, or whose model is still resident, always renews |
| `Lease.LapsedBoxIsGranted` | queue_workflows/gpu_model_lease.py:163-180 | once all leases have lapsed any request is granted and becomes the only holder |
| `Lease.OverlappingAsksBreakPromises` | queue_workflows/gpu_model_lease.py:326-348 | a run in which a stale renewal of one's own breaks a promise and a rival takes the box |
| `Lease.StaleRenewalOpensTheBox` | queue_workflows/gpu_model_lease.py:326-348 | after renewing a running promise to an earlier expiry, a rival can be granted another model inside the promise if and only if every other process's entry lapses before it |
| `Lease.PromisesExclude` | queue_workflows/gpu_model_lease.py:326-371 | in every run that renews no running promise to an earlier expiry, with any overlaps and TTLs, promised leases exclude other models to the end |
| `Lease.ReleaseExactly` | queue_workflows/gpu_model_lease.py:360-371 | a release takes out the holder and no other; after the last one the box is free for any model |
| `Lease.ContendedChangesNoFile` | queue_workflows/gpu_model_lease.py:326-371 | without the lock the file is left to the TTL |
| `Lease.LeaseFile.Acquire` | queue_workflows/gpu_model_lease.py:240-285 | one read-modify-write under the lock, a missing or unreadable file counting as nobody's; a denial that changes nothing when the lock is not obtained |
| `Lease.LeaseFile.Release` | queue_workflows/gpu_model_lease.py:360-371 | drops the holder's own lease only |
| `BoxHold.RivalCannotDisplace` | queue_workflows/gpu_model_lease.py:163-180 | no rival request displaces a covered worker or is granted a different slot |
| `BoxHold.CoverIsLastGrant` | queue_workflows/claim_worker.py:5121-5175 | over all interleavings of lanes, heartbeat and rivals, the file covers the worker for a slot if and only if its last unreleased lease is for that slot and unexpired |
| `BoxHold.CoveredThroughoutExactly` | queue_workflows/claim_worker.py:5485-5536 | a covered slot stays covered at every later moment if and only if no step in between displaces it |
| `BoxHold.DisplacesExactly` | queue_workflows/claim_worker.py:5485-5536 | a step displaces it if and only if it is the heartbeat's release, an own request for a slot no other live holder shares or already over, or time reaching the expiry; a release meets only jobs counted since that heartbeat's test |
| `BoxHold.JobsHoldTheBox` | queue_workflows/claim_worker.py:5121-5175 | if a lane's way from commit to count overlaps neither another's nor a heartbeat, and heartbeat gap plus own staleness is within the TTL, then from grant to done the count is the counted jobs, the lease is live for the held slot, and rivals are denied others |
| `BoxHold.BeatInsideAcquire` | queue_workflows/claim_worker.py:5485-5536 | exactly when a heartbeat between commit and bookkeeping leaves the lease live |
| `BoxHold.AcquireInsideBeat` | queue_workflows/claim_worker.py:5522-5536 | a run in which an acquire between a heartbeat's test and its release loses its lease |
| `BoxHold.BeatInsideAcquireLosesJob` | queue_workflows/claim_worker.py:5522-5536 | a run in which a heartbeat between commit and bookkeeping does |
| `BoxHold.BeatInsideBookkeeping` | queue_workflows/claim_worker.py:5166-5175 | a run in which a heartbeat between the two writes of the bookkeeping does, to a worker that held nothing before |
| `BoxHold.StaleAcquireLapses` | queue_workflows/gpu_model_lease.py:326-348 | a run in which a stale acquire lets the lease lapse between heartbeats closer than the TTL |
| `BoxHold.ForgottenIsNeverRenewed` | queue_workflows/claim_worker.py:5518-5536 | once the held model is forgotten no heartbeat renews, until another acquire |
| `BoxHold.RivalTakesFreeBox` | queue_workflows/gpu_model_lease.py:326-371 | a rival that asks on a box nobody holds becomes its recorded holder until it releases |
| `BoxHold.ContendedAndBusy` | queue_workflows/claim_worker.py:5121-5166 | a request that does not get the lock changes nothing and may be repeated; heartbeats do not overlap |
| `BoxHold.BrakeExactly` | queue_workflows/claim_worker.py:5131-5142 | the pause after denials in a row is one second, doubling up to half a minute |
| `BoxHold.BoxWorker.AcquireBoxOrSpill` | queue_workflows/claim_worker.py:5121-5175 | the lane's four steps, with the denial streak and its pause |
| `BoxHold.BoxWorker.BoxJobDone` | queue_workflows/claim_worker.py:5225-5232 | the protocol step that ends a counted job |
| `BoxHold.BoxWorker.BoxLeaseTick` | queue_workflows/claim_worker.py:5485-5536 | the heartbeat's steps: renew while jobs run or the model is resident, else release and forget |
| `LanePool.HeadIsEarly` | queue_workflows/claim_worker.py:1897-1909 | a pool thread only ever takes work put before the last sentinel |
| `LanePool.ShutdownRunsAcceptedJobs` | queue_workflows/claim_worker.py:1911-1939 | when every thread has exited, the finished jobs are exactly those put before the last sentinel; all accepted jobs have run if and only if none was put behind it |
| `LanePool.LatePutHappens` | queue_workflows/claim_worker.py:1911-1939 | a schedule in which an accepted job never runs |
| `CpuLane.WidthsAgree` | queue_workflows/claim_worker.py:3557-3571 | the worker books the width the claim statement tests: the declared one, one without a declaration, clamped to the lane |
| `CpuLane.LaneIsSafe` | queue_workflows/claim_worker.py:3528-3721 | in every interleaving: held widths within the lane, unfinished bodies within the threads, each slot freed exactly once, drained if and only if no slot is held |
| `CpuLane.SlotsHoldTheirClaims` | queue_workflows/claim_worker.py:3640-3646 | in every interleaving a held slot is a bare reservation with no claim recorded, or exactly the job, stamp and width of the one claim recorded for it |
| `CpuLane.EveryExitReleases` | queue_workflows/claim_worker.py:3528-3599 | on every exit path, in every interleaving, the slot's whole width is free again, it is released for the first and only time, and the lane is drained if and only if it was the last |
| `CpuLane.LaneRunsItsPool` | queue_workflows/claim_worker.py:1897-1939 | in every interleaving the lane's pool is a run of the pool protocol |
| `CpuLane.ShutdownDrainsLane` | queue_workflows/claim_worker.py:1911-1939 | when the pool threads have exited, every body put before the last sentinel has run and its slot is free |
| `CpuLane.LatePutNeverDrains` | queue_workflows/claim_worker.py:1911-1939 | in every continuation, a body put behind the last sentinel keeps its slot and the lane does not drain |
| `ClaimLane.ClaimLane.InflightWeight` | queue_workflows/claim_worker.py:3630-3632 | the sum of held widths |
| `ClaimLane.ClaimLane.ReserveSlot` | queue_workflows/claim_worker.py:3601-3628 | the protocol's reserve step: all the free capacity, or nothing when there is none |
| `ClaimLane.ClaimLane.SetSlotWeight` | queue_workflows/claim_worker.py:3640-3646 | the protocol's claim step: the slot records the claimed row's job and stamp and shrinks to its width |
| `ClaimLane.ClaimLane.ReleaseSlot` | queue_workflows/claim_worker.py:3682-3689 | on every exit path the protocol's step: the slot's whole width is free again, it is released for the first and only time, and the lane is drained if and only if it was the last |
| `ClaimLane.ClaimLane.InflightClaims` | queue_workflows/claim_worker.py:3710-3717 | exactly the jobs of the claims this process made and still holds, each with the stamp of one of those claims |
| `GpuBudget.MachineNeverOverCommits` | queue_workflows/claim_worker.py:4202-4286 | in every interleaving the counter neither leaks nor goes negative, and the jobs running never exceed the largest PAR ever in force |
| `GpuBudget.PeakIsLargestPar` | queue_workflows/claim_worker.py:3459-3466 | that bound is the maximum of the PARs set |
| `GpuBudget.AdmissionRespectsReadPar` | queue_workflows/claim_worker.py:3470-3503 | only admissions raise the total, by one, and never above the PAR that lane read |
| `GpuBudget.AdmitsExactly` | queue_workflows/claim_worker.py:3459-3503 | in every interleaving a pool reservation succeeds if and only if pool plus inline jobs are below the PAR it read, an inline admission if and only if the pool jobs are |
| `GpuBudget.ParIsLastSet` | queue_workflows/claim_worker.py:3401-3416 | the PAR in force is the one set last |
| `GpuBudget.LanesReadPar` | queue_workflows/claim_worker.py:4226-4229 | both lanes admit against the PAR in force when they looked |
| `GpuBudget.PoolCycle` | queue_workflows/claim_worker.py:4253-4286 | with room a feeder cycle runs the job it claims, and its end gives the place back |
| `GpuBudget.FailedCycle` | queue_workflows/claim_worker.py:4264-4286 | a cycle that finds no row, or whose submit fails, leaves everything as it was |
| `GpuBudget.InlineCycle` | queue_workflows/claim_worker.py:3487-3503 | with room the inline lane runs its job, and only its own end frees the place |
| `GpuBudget.GpuLanes.AdmitInline` | queue_workflows/claim_worker.py:3487-3503 | the protocol's inline admission: granted if and only if the pool jobs in flight are below the PAR it read |
| `GpuBudget.GpuLanes.EndInline` | queue_workflows/claim_worker.py:3497-3503 | the protocol's end of the inline job |
| `GpuBudget.GpuLanes.ReservePool` | queue_workflows/claim_worker.py:4253-4263 | the protocol's pool reservation: granted if and only if pool plus inline jobs are below the PAR it read |
| `GpuBudget.GpuLanes.GiveBackPool` | queue_workflows/claim_worker.py:4162-4177 | the protocol's decrements, which keep the counter at the jobs it stands for and never negative |
| `TripSweep.SweepsOnlyOwnClaims` | queue_workflows/claim_worker.py:3758-3818 | in every run, with lapses and re-claims by other processes, a sweep step changes at most one row, a running one of the sweeper's own current claims in its lane and not the tripping job, and re-queues it |
| `TripSweep.ClaimExactly` | queue_workflows/claim_worker.py:3640-3646 | a claim of a row that does not run makes it the claimant's under a fresh stamp, and touches nothing else |
| `TripSweep.EndExactly` | queue_workflows/claim_worker.py:3682-3689 | a body that ends forgets its claim and stops its row if the row is still that claim's |
| `TripSweep.TripExactly` | queue_workflows/claim_worker.py:3758-3787 | a trip begins one sweep of the claims it found |
| `TripSweep.ExitFollows` | queue_workflows/claim_worker.py:3788-3818 | in any interleaving, once a sweep has taken as many steps as it had claims the exit goes through, however many re-queues raise |
| `TripSweep.SweptExactly` | queue_workflows/claim_worker.py:3788-3818 | uninterrupted, a sweep re-queues exactly the other rows still running under the claims it visits |
| `TripSweep.SweepIsPrivate` | queue_workflows/claim_worker.py:3710-3717 | no other process changes what a sweep has left to do |
| `TripSweep.JobTable.RequeueRunningJob` | queue_workflows/node_queue.py:2252-2335 | re-queues a row if and only if it is running in that lane and, given a stamp, under that very claim |
| `TripSweep.JobTable.SweepThenExit` | queue_workflows/claim_worker.py:3788-3818 | the sweep's steps in order, then the exit |
| `HealthWatchdog.TripIsJustified` | queue_workflows/claim_worker.py:1356-1392 | a trip comes only after a full window with no beat, every sample idle and no RAM move beyond the delta |
| `HealthWatchdog.WedgedJobIsTripped` | queue_workflows/claim_worker.py:1339-1392 | a job wedged from time s is tripped by s + max(load grace, interval) + interval + two polls |
| `HealthWatchdog.Watchdog.OnBeat` | queue_workflows/claim_worker.py:1302-1322 | a beat opens a fresh window |
| `HealthWatchdog.Watchdog.OnPoll` | queue_workflows/claim_worker.py:1356-1392 | one poll samples, and at the checkpoint trips or opens the next window |
| `Debounce.AgeUnseen` | queue_workflows/claim_worker.py:2491-2505 | the miss-count loops keep exactly the entries seen or missed fewer than the limit |
| `Debounce.SurvivorsAreWindow` | queue_workflows/claim_worker.py:2491-2505 | miss counting refines a sliding window of snapshots |
| `Debounce.ResidentDebounce.Observe` | queue_workflows/claim_worker.py:2491-2505 | after every snapshot the held set is the union of the last N snapshots |
| `Debounce.ProbesTrack` | queue_workflows/claim_worker.py:2344-2387 | the advertised kinds and their miss counts as a function of the whole probe history |
| `Debounce.AdvertisesOneKind` | queue_workflows/claim_worker.py:2344-2387 | at most one kind, and vLLM if and only if observed in one of the last N probes |
| `Debounce.OllamaAdvertisedExactly` | queue_workflows/claim_worker.py:2344-2387 | ollama if and only if observed in one of the last N probes with no vLLM advertised from then on |
| `Debounce.OllamaIsForgottenBehindVllm` | queue_workflows/claim_worker.py:2344-2387 | a history where ollama was observed within the window and is not advertised |
| `VllmPlan.ConcurrencyIsLargestThatFits` | queue_workflows/llm_context.py:436-506 | a profiled start is refused if and only if one request plus margin does not fit; else its concurrency is the largest that fits |
| `VllmPlan.PoolIsSizedToNeed` | queue_workflows/llm_context.py:436-506 | for every operator value the pool is within available less reserve, short of the need by less than a granule, and at most the operator's in hundredths |
| `VllmPlan.PoolIsNotOversized` | queue_workflows/llm_context.py:436-506 | and exceeds the need by less than a granule |
| `VllmPlan.NeedExactly` | queue_workflows/llm_context.py:483-497 | the need is weights, overhead of the profiled start and a window of tokens per request, with the margin on top |
| `VllmPlan.CapExactly` | queue_workflows/llm_context.py:480-482 | what a start may use: free memory less reserve, or the operator's share if smaller |
| `VllmPlan.ProfiledExactly` | queue_workflows/llm_context.py:461-465 | which profiles price a start |
| `VllmPlan.SeqLimitExactly` | queue_workflows/llm_context.py:494-496 | the concurrency asked for is the operator's, or one |
| `VllmPlan.WithoutReadings` | queue_workflows/llm_context.py:456-457 | without memory readings a start is left as configured |
| `VllmPlan.RoundsHalfToEven` | queue_workflows/llm_context.py:281-297 | rounding goes to the nearest, from half way to the even one |
| `VllmPlan.RoundingOvershootsExactly` | queue_workflows/llm_context.py:436-506 | exactly when the rounded pool exceeds the operator's value |
| `VllmPlan.RoundingOvershoots` | queue_workflows/llm_context.py:436-506 | a request for which it does |
| `VllmPlan.FirstStartLeavesReserve` | queue_workflows/llm_context.py:281-297 | for every operator value and reading, an unprofiled start stays within the operator's pool, is refused if and only if what fits is below the minimum, and keeps the reserve free under an exact condition |
| `VllmPlan.FirstStartMayOvershoot` | queue_workflows/llm_context.py:436-506 | an operator value just above what fits that is started as configured and does not fit |
| `ContextWindow.CeilingIsAffordable` | queue_workflows/llm_context.py:160-189 | a reload at any window up to the ceiling passes the box's own load check, unless the ceiling is the window already served |
| `ContextWindow.CeilingIsTight` | queue_workflows/llm_context.py:160-189 | one granule above the ceiling would not, unless the model's limit is in the way |
| `ContextWindow.CeilingRespectsModel` | queue_workflows/llm_context.py:160-189 | the ceiling is at most the larger of the model's limit and the served window, and equals it if and only if memory holds that many tokens or the limit is already served; else it is a whole number of granules or the served window |
| `ContextWindow.CeilingWithoutProof` | queue_workflows/llm_context.py:160-189 | without readings, or without memory for a cache, the ceiling is the served window |
| `ContextWindow.NoZeroCeiling` | queue_workflows/llm_context.py:160-204 | a ceiling of zero is never invented |
| `ContextWindow.ObservedCostBoundsLargerWindows` | queue_workflows/llm_context.py:138-153 | the observed cost per token never under-prices a larger window |
| `ContextWindow.ObservedExactly` | queue_workflows/llm_context.py:138-153 | the observed cost is known if and only if runner, weights and window add up, and is then the least whole cost that covers the cache |
| `ContextWindow.SwitchServesReachableNeeds` | queue_workflows/llm_context.py:208-228 | a switch happens if and only if a need is reachable; the target is above current, within the ceiling, covers every reachable need and overshoots by less than a granule |
| `ContextWindow.SwitchIsIdempotent` | queue_workflows/claim_worker.py:5872-5919 | after the switch the same needs ask for no further one |
| `ContextWindow.SwitchTargetIsAffordable` | queue_workflows/llm_context.py:160-228 | a target derived from the box's ceiling passes its load check |
| `ContextWindow.OllamaSwitchWithinModel` | queue_workflows/llm_context.py:160-228 | whatever its readings, an ollama box never switches past its model's limit |
| `ContextWindow.SwitchTargetIsWhole` | queue_workflows/llm_context.py:208-228 | a target is a whole number of granules or the ceiling |
| `ContextWindow.VllmSwitchFitsPool` | queue_workflows/llm_context.py:192-228 | a vLLM target stays within the model's limit and the cache pool, and the ceiling gives up less than a granule |
| `ContextWindow.VllmCeilingExactly` | queue_workflows/llm_context.py:192-204 | the ceiling is the model's limit if the pool holds it, else the largest whole number of granules that does, and never below the served window |
| `IdleStopper.StopsExactlyWhenUnused` | queue_workflows/llm_idle_unload.py:311-394 | after every tick history a stop happens if and only if idling is on, no active job is reported, the pending count where counted is known to be zero, the stop works, and no use was observed since a sighting a full TTL ago |
| `IdleStopper.StartsBackOff` | queue_workflows/llm_idle_unload.py:396-463 | after k starts with no sighting, a start comes at least cooldown times 2^min(k,5) after every earlier action, and answers a read count at the threshold |
| `IdleStopper.StartsExactly` | queue_workflows/llm_idle_unload.py:396-463 | after every history a tick starts the server if and only if it stopped none, a start is wanted, permitted and succeeds, and every earlier action is at least the current backoff ago |
| `IdleStopper.BackoffDoubles` | queue_workflows/llm_idle_unload.py:423-427 | the backoff doubles with each start still held, up to the fifth |
| `IdleStopper.SightingResetsExactly` | queue_workflows/llm_idle_unload.py:330-338 | a sighting resets the failure count if and only if it shows use or nothing earlier is left to compare it with |
| `IdleStopper.SightingAloneKeepsBackoff` | queue_workflows/llm_idle_unload.py:330-338 | a history in which it does not |
| `IdleStopper.VllmIdleStopper.StopIdleOnce` | queue_workflows/llm_idle_unload.py:311-394 | the stop half, with every failing probe |
| `IdleStopper.VllmIdleStopper.StartIfWantedOnce` | queue_workflows/llm_idle_unload.py:396-463 | the start half, with every failing probe |
| `IdleStopper.VllmIdleStopper.DoTick` | queue_workflows/llm_idle_unload.py:465-472 | stop first, start only if nothing was stopped, never both |
| `ParkQuiesce.WithheldExactlyWhileDraining` | queue_workflows/llm_idle_unload.py:651-735 | after every history a pass is withheld if and only if it ends an unbroken busy stretch younger than the ceiling; else servers, also loading ones, are stopped and models unloaded |
| `ParkQuiesce.Watchdog.OnTick` | queue_workflows/llm_idle_unload.py:651-735 | one pass over the held-since field |
| `Migrations.EachVersionOnce` | queue_workflows/db.py:1054-1114 | however bootstraps race, crash and retry, each version takes effect once, and schema and ledger are the start with those applied |
| `Migrations.CommitCompletesChain` | queue_workflows/db.py:1054-1114 | after a commit the whole chain is in the ledger and a later bootstrap is a no-op |
| `Migrations.AloneIsBootstrap` | queue_workflows/db.py:1054-1114 | after every run that leaves the lock free, an uninterrupted bootstrap commits exactly the pending chain and frees the lock |
| `Migrations.CrashRollsBack` | queue_workflows/db.py:1054-1114 | a crash changes nothing committed and frees the lock; who finds it taken waits |
| `Migrations.BootstrapIsIdempotent` | queue_workflows/db.py:1054-1114 | a second bootstrap changes nothing |
| `Migrations.DowngradeLedger` | queue_workflows/db.py:1229-1273 | a downgrade succeeds if and only if every version above the target has a down file, and leaves exactly the versions up to it |
| `Migrations.DowngradeUndoesBootstrap` | queue_workflows/db.py:1229-1273 | if each new down undoes its up, downgrading to the prior version after a bootstrap over a prefix restores schema and ledger |
| `Migrations.LedgerRestoredExactly` | queue_workflows/db.py:1229-1273 | the ledger is restored if and only if the target separates old versions from new |
| `Migrations.RevertAll` | queue_workflows/db.py:1250-1273 | the descending loop computes that downgrade and returns exactly the versions above the target, or names the missing down file |
| `Migrations.Database.ApplyPending` | queue_workflows/db.py:1090-1114 | the loop under the lock applies exactly the versions missing from the ledger, in order |
| `Migrations.Database.Revert` | queue_workflows/db.py:1229-1273 | all or nothing: it returns exactly the reverted versions, or a missing down file leaves schema and ledger unchanged |
| `SqlLiterals.SplitSqlLiterals` | queue_workflows/db.py:657-694 | for every string: lossless, labelled as a character-level lexer labels it, segments alternate, each literal is one quoted string with doubled quotes unless the lexer ends inside it, and other segments have quotes only in `--` comments |
| `SqlLiterals.SplitIsUnique` | queue_workflows/db.py:657-694 | those promises determine the list of segments |

## Left out

- Lease.LeaseFile.Acquire: does not model a crash in the middle of a write, or the store that grants everything when no lease directory is configured.
- BoxHold.JobsHoldTheBox: assumes a discipline the code does not enforce; without it the exact statement is `CoveredThroughoutExactly`. Adding to the active count is one step, and no server switch is in flight.
- GpuBudget.MachineNeverOverCommits: a pool submit that fails is taken to have enqueued nothing.
- VllmPlan.PoolIsSizedToNeed: exact reals instead of floating point, a non-negative operator value and profile weights, and a positive window.
- ContextWindow.SwitchServesReachableNeeds: exact division where the source rounds a float quotient up.
- TripSweep.JobTable.RequeueRunningJob: keeps of a row the running flag, the claim stamp and the lane; its priority and the cleared claim fields are not modelled.
- Migrations.EachVersionOnce: the Postgres path with its advisory lock; the SQLite path and schema-dump bootstrap are not modelled.
- ParkQuiesce.WithheldExactlyWhileDraining: leaves out log throttling and the sorting of model names.
- Dispatcher: crashes inside one dispatcher call, input references that fail to resolve while enqueueing, patch files and input-form payloads. A run's context is a map of opaque values and reference resolution is a parameter.
- The claim statement, run store, server switch, node executor and node pool: only the contracts their callers state.
- The server-switch driver and the cluster reservation in `claim_worker.py`.
- `StallWatchdog` and the wall-clock `Watchdog`: their trip rule is a simpler form of the health watchdog's.
- `ExternalModelIdleReaper`: the per-model form of the same idle rule as the vLLM stopper.
- `wait_for_db` backoff and `_sqlite_connection` nesting: each follows from one short function.
- HTTP probes, containers, subprocesses, sockets, LISTEN/NOTIFY, real threads and process exit, except as inputs and actions of the steps.
- Regular-expression SQL rewrites, log parsing, secret masking and hardware telemetry.
