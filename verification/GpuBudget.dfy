/** The GPU worker's two lanes, the inline lane and the pool feeder, sharing one budget PAR that an
    operator may change at any time. Each lane reads PAR first and admits under the lock later. */
module GpuBudget {
  import opened Base

  /** The feeder thread: between cycles, in a cycle with the PAR it read, holding a reserved slot
      before its claim returned, or with a claimed job it has not submitted yet. */
  datatype Feeder = Resting | Cycling(par: nat) | Reserved(par: nat) | Claimed(par: nat, job: nat)

  datatype Inline = InlineIdle | InlineRead(par: nat) | InlineBusy

  /** `inflight` and `inline.InlineBusy?` are `_pool_inflight` and `_inline_running`; `running` are
      the pool jobs submitted and not ended; `peak` is the largest PAR ever in force. */
  datatype Gpu = Gpu(par: nat, peak: nat, inflight: int, inline: Inline, feeder: Feeder, running: set<nat>,
      submitted: set<nat>)

  datatype Action =
    | SetPar(par: nat)
    | InlineReads
    | InlineAdmits
    | InlineEnds
    | FeederReads
    | FeederReserves
    | FeederFindsNothing
    | FeederClaims(job: nat)
    | FeederSubmits
    | SubmitFails
    | PoolJobEnds(job: nat)

  function InlineSlot(g: Gpu): nat {
    if g.inline.InlineBusy? then 1 else 0
  }

  function Total(g: Gpu): int {
    g.inflight + InlineSlot(g)
  }

  /** `_pool_budget`. */
  function PoolBudget(par: nat, inlineBusy: bool): nat {
    if inlineBusy && par > 0 then par - 1 else if inlineBusy then 0 else par
  }

  function Step(g: Gpu, a: Action): Gpu {
    match a
    case SetPar(par) => if par == 0 then g else g.(par := par, peak := if par > g.peak then par else g.peak)
    case InlineReads => if g.inline.InlineIdle? then g.(inline := InlineRead(g.par)) else g
    case InlineAdmits =>
      if !g.inline.InlineRead? then g
      else if g.inflight >= g.inline.par then g.(inline := InlineIdle)
      else g.(inline := InlineBusy)
    case InlineEnds => if g.inline.InlineBusy? then g.(inline := InlineIdle) else g
    case FeederReads => if g.feeder.Resting? then g.(feeder := Cycling(g.par)) else g
    case FeederReserves =>
      if !g.feeder.Cycling? then g
      else if g.inflight >= PoolBudget(g.feeder.par, g.inline.InlineBusy?) then g.(feeder := Resting)
      else g.(inflight := g.inflight + 1, feeder := Reserved(g.feeder.par))
    case FeederFindsNothing => if g.feeder.Reserved? then g.(inflight := g.inflight - 1, feeder := Resting) else g
    case FeederClaims(job) =>
      if g.feeder.Reserved? && job !in g.submitted then g.(feeder := Claimed(g.feeder.par, job)) else g
    case FeederSubmits =>
      if g.feeder.Claimed?
      then g.(running := g.running + {g.feeder.job}, submitted := g.submitted + {g.feeder.job},
          feeder := Cycling(g.feeder.par))
      else g
    case SubmitFails => if g.feeder.Claimed? then g.(inflight := g.inflight - 1, feeder := Resting) else g
    case PoolJobEnds(job) => if job in g.running then g.(running := g.running - {job}, inflight := g.inflight - 1)
        else g
  }

  function Execute(par: nat, actions: seq<Action>): Gpu {
    if actions == [] then Gpu(par, par, 0, InlineIdle, Resting, {}, {})
    else Step(Execute(par, actions[..|actions| - 1]), actions[|actions| - 1])
  }

  /** The counter is the submitted-and-running jobs plus the feeder's own reservation. */
  ghost predicate Inv(g: Gpu) {
    && g.inflight == |g.running| + (if g.feeder.Reserved? || g.feeder.Claimed? then 1 else 0)
    && g.running <= g.submitted
    && (g.feeder.Claimed? ==> g.feeder.job !in g.submitted)
    && Total(g) <= g.peak && 1 <= g.par <= g.peak
    && (g.inline.InlineRead? ==> g.inline.par <= g.peak)
    && (!g.feeder.Resting? ==> g.feeder.par <= g.peak)
  }

  lemma SubmitKeepsInv(g: Gpu)
    requires Inv(g)
    ensures Inv(Step(g, FeederSubmits))
  {
    if g.feeder.Claimed? {
      assert g.feeder.job !in g.running;
    }
  }

  lemma EndKeepsInv(g: Gpu, job: nat)
    requires Inv(g)
    ensures Inv(Step(g, PoolJobEnds(job)))
  {
    if job in g.running {
      assert |g.running - {job}| == |g.running| - 1;
    }
  }

  lemma StepKeepsInv(g: Gpu, a: Action)
    requires Inv(g)
    ensures Inv(Step(g, a))
  {
    match a {
      case SetPar(_) =>
      case InlineReads =>
      case InlineAdmits =>
      case InlineEnds =>
      case FeederReads =>
      case FeederReserves =>
      case FeederFindsNothing =>
      case FeederClaims(_) =>
      case FeederSubmits => SubmitKeepsInv(g);
      case SubmitFails =>
      case PoolJobEnds(job) => EndKeepsInv(g, job);
    }
  }

  lemma {:induction false} ExecuteKeepsInv(par: nat, actions: seq<Action>)
    requires par >= 1
    ensures Inv(Execute(par, actions))
  {
    if actions != [] {
      ExecuteKeepsInv(par, actions[..|actions| - 1]);
      StepKeepsInv(Execute(par, actions[..|actions| - 1]), actions[|actions| - 1]);
    }
  }

  /** For every interleaving: the in-flight counter neither leaks nor goes negative, and the jobs
      the machine really runs never exceed the largest PAR ever in force. */
  lemma MachineNeverOverCommits(par: nat, actions: seq<Action>)
    requires par >= 1
    ensures var g := Execute(par, actions);
            && g.inflight >= 0
            && (g.feeder.Resting? || g.feeder.Cycling? ==> g.inflight == |g.running|)
            && |g.running| + (if g.inline.InlineBusy? then 1 else 0) <= g.peak
            && g.inflight + (if g.inline.InlineBusy? then 1 else 0) == Total(g) <= g.peak
  {
    ExecuteKeepsInv(par, actions);
  }

  ghost function PeakOf(par: nat, actions: seq<Action>): nat {
    if actions == [] then par
    else
      var before, a := PeakOf(par, actions[..|actions| - 1]), actions[|actions| - 1];
      if a.SetPar? && a.par > before then a.par else before
  }

  /** `peak` is what it says: the maximum of the first PAR and every PAR the operator set. */
  lemma {:induction false} PeakIsLargestPar(par: nat, actions: seq<Action>)
    ensures Execute(par, actions).peak == PeakOf(par, actions)
  {
    if actions != [] { PeakIsLargestPar(par, actions[..|actions| - 1]); }
  }

  /** The PAR the admitting lane read. */
  function ReadPar(g: Gpu, a: Action): Option<nat> {
    if a.InlineAdmits? && g.inline.InlineRead? then Some(g.inline.par)
    else if a.FeederReserves? && g.feeder.Cycling? then Some(g.feeder.par)
    else None
  }

  /** Only an admission raises the total, by one, and never above the PAR that lane read, however
      PAR changed since and whatever the other lane did. */
  lemma AdmissionRespectsReadPar(par: nat, actions: seq<Action>, a: Action)
    requires par >= 1
    ensures var g := Execute(par, actions);
            Total(Step(g, a)) > Total(g) ==>
              ReadPar(g, a).Some? && Total(g) + 1 == Total(Step(g, a)) <= ReadPar(g, a).value
  {
    ExecuteKeepsInv(par, actions);
  }

  /** In every interleaving the gates are exactly as tight as they must be: the feeder's reservation succeeds
      if and only if the pool jobs in flight plus the inline job are below the PAR it read, the inline
      admission if and only if the pool jobs in flight are below the PAR it read. */
  lemma AdmitsExactly(par: nat, actions: seq<Action>)
    requires par >= 1
    ensures var g := Execute(par, actions);
            && (g.feeder.Cycling? ==>
                  var g' := Step(g, FeederReserves);
                  var total := g.inflight + if g.inline.InlineBusy? then 1 else 0;
                  && (g'.feeder == Reserved(g.feeder.par) && g'.inflight == g.inflight + 1 <==> total < g.feeder.par)
                  && (total >= g.feeder.par ==> g' == g.(feeder := Resting)))
            && (g.inline.InlineRead? ==>
                  var g' := Step(g, InlineAdmits);
                  && (g' == g.(inline := InlineBusy) <==> g.inflight < g.inline.par)
                  && (g.inflight >= g.inline.par ==> g' == g.(inline := InlineIdle)))
  {
    ExecuteKeepsInv(par, actions);
  }

  /** Both lanes admit against the PAR in force when they looked. */
  lemma LanesReadPar(g: Gpu)
    ensures g.inline.InlineIdle? ==> Step(g, InlineReads) == g.(inline := InlineRead(g.par))
    ensures g.feeder.Resting? ==> Step(g, FeederReads) == g.(feeder := Cycling(g.par))
  {
  }

  /** With room under the PAR in force, the feeder's cycle runs the job it claims, and the job's end gives
      its place back. */
  lemma PoolCycle(par: nat, actions: seq<Action>, job: nat)
    requires par >= 1
    requires var g := Execute(par, actions);
             g.feeder.Resting? && job !in g.submitted && g.inflight + (if g.inline.InlineBusy? then 1 else 0) < g.par
    ensures var g := Execute(par, actions);
            var run := Step(Step(Step(Step(g, FeederReads), FeederReserves), FeederClaims(job)), FeederSubmits);
            && run.running == g.running + {job} && run.inflight == g.inflight + 1 && run.inline == g.inline
            && run.feeder == Cycling(g.par)
            && Step(run, PoolJobEnds(job)) == run.(running := g.running, inflight := g.inflight)
  {
    ExecuteKeepsInv(par, actions);
    var g := Execute(par, actions);
    assert g.running + {job} - {job} == g.running;
  }

  /** A cycle that finds no row, or whose submit fails, gives its place back. */
  lemma FailedCycle(par: nat, actions: seq<Action>, job: nat)
    requires par >= 1
    requires var g := Execute(par, actions);
             g.feeder.Resting? && job !in g.submitted && g.inflight + (if g.inline.InlineBusy? then 1 else 0) < g.par
    ensures var g := Execute(par, actions);
            var reserved := Step(Step(g, FeederReads), FeederReserves);
            && Step(reserved, FeederFindsNothing) == g
            && Step(Step(reserved, FeederClaims(job)), SubmitFails) == g
  {
    ExecuteKeepsInv(par, actions);
  }

  /** With room, the inline lane runs its job and leaves everything as it was; while it runs, nothing but
      its own end frees its place. */
  lemma InlineCycle(g: Gpu, a: Action)
    ensures g.inline.InlineIdle? && g.inflight < g.par ==>
              var busy := Step(Step(g, InlineReads), InlineAdmits);
              busy == g.(inline := InlineBusy) && Step(busy, InlineEnds) == g
    ensures g.inline.InlineBusy? && a != InlineEnds ==> Step(g, a).inline.InlineBusy?
    ensures !g.inline.InlineBusy? ==> Step(g, InlineEnds) == g
    ensures !g.inline.InlineBusy? && Step(g, a).inline.InlineBusy? ==> a == InlineAdmits
  {
  }

  /** The PAR in force is the last one the operator set to something positive. */
  ghost function LastPar(par: nat, actions: seq<Action>): nat {
    if actions == [] then par
    else
      var a := actions[|actions| - 1];
      if a.SetPar? && a.par >= 1 then a.par else LastPar(par, actions[..|actions| - 1])
  }

  lemma {:induction false} ParIsLastSet(par: nat, actions: seq<Action>)
    ensures Execute(par, actions).par == LastPar(par, actions)
  {
    if actions != [] { ParIsLastSet(par, actions[..|actions| - 1]); }
  }

  // ---------------------------------------------------------------- the lock-protected methods

  /** Step `a` takes one job off the in-flight counter. */
  predicate GivesBack(g: Gpu, a: Action) {
    match a
    case FeederFindsNothing => g.feeder.Reserved?
    case SubmitFails => g.feeder.Claimed?
    case PoolJobEnds(job) => job in g.running
    case _ => false
  }

  class GpuLanes {
    var inflight: int
    var inlineRunning: bool

    constructor ()
      ensures forall par :: Matches(Execute(par, []))
    {
      inflight, inlineRunning := 0, false;
    }

    /** The counter and the flag are those of the protocol state `g`. */
    ghost predicate Matches(g: Gpu)
      reads this
    {
      g.inflight == inflight && g.inline.InlineBusy? == inlineRunning
    }

    /** The inline lane's gate in `run_once`: admit only below the PAR it read. */
    method AdmitInline(par: nat, ghost g: Gpu) returns (admitted: bool)
      requires Matches(g) && g.inline == InlineRead(par)
      modifies this`inlineRunning
      ensures Matches(Step(g, InlineAdmits))
      ensures admitted == inlineRunning
      ensures admitted <==> inflight < par
      ensures admitted ==> Total(Step(g, InlineAdmits)) == Total(g) + 1 <= par
    {
      if inflight >= par {
        return false;
      }
      inlineRunning := true;
      admitted := true;
    }

    /** The inline lane's `finally`. */
    method EndInline(ghost g: Gpu)
      requires Matches(g) && g.inline.InlineBusy?
      modifies this`inlineRunning
      ensures Matches(Step(g, InlineEnds))
    {
      inlineRunning := false;
    }

    /** The feeder's gate: reserve a pool slot within PAR minus the inline slot. */
    method ReservePool(par: nat, ghost g: Gpu) returns (reserved: bool)
      requires Matches(g) && g.feeder == Cycling(par) && g.inflight >= 0
      modifies this`inflight
      ensures Matches(Step(g, FeederReserves))
      ensures reserved == Step(g, FeederReserves).feeder.Reserved?
      ensures reserved <==> old(inflight) + (if inlineRunning then 1 else 0) < par
      ensures reserved ==> Total(Step(g, FeederReserves)) == Total(g) + 1 <= par
    {
      if inflight >= PoolBudget(par, inlineRunning) {
        return false;
      }
      inflight := inflight + 1;
      reserved := true;
    }

    /** The decrements: nothing claimed, submit failed, pool job ended. */
    method GiveBackPool(ghost g: Gpu, ghost a: Action)
      requires Matches(g) && GivesBack(g, a)
      modifies this`inflight
      ensures Matches(Step(g, a))
      ensures Inv(g) ==> Inv(Step(g, a)) && inflight >= 0
    {
      if a.PoolJobEnds? && Inv(g) {
        assert |g.running - {a.job}| == |g.running| - 1;
      }
      inflight := inflight - 1;
    }
  }
}
