/** How a GPU claim worker holds the box lease for its jobs. Lane threads acquire before a job and count
    it until it is done; the heartbeat thread renews or releases. They share `_box_held_model` and
    `_box_active_jobs` without a lock, and every lease request reads its clock before the file lock, so
    each call is several steps here and the steps of lanes, heartbeat and rival processes interleave. */
module BoxHold {
  import opened Base
  import opened Lease

  /** `me` is the worker's holder id, `ttl` its lease TTL. */
  datatype Config = Config(me: string, ttl: real)

  /** Where the heartbeat is in `_box_lease_tick`: done; having read the held model; having found no
      active job; set on renewing; with the clock of its renewal; set on releasing; about to forget. */
  datatype Beat =
    | Resting
    | HeldRead(model: string)
    | Probing(model: string)
    | Renewing(model: string)
    | Timed(model: string, readAt: real)
    | Releasing
    | Forgetting

  /** `held`/`active` are `_box_held_model` and `_box_active_jobs`. A job is in `asking` from its clock
      read to its commit, in `granted` from there until it is counted, and in `jobs` until it is done;
      `written` are the granted ones whose lane has set `held`. `late` are the jobs counted since the
      heartbeat last tested for active jobs, and `lastBeat` is when a heartbeat last took effect. */
  datatype Box = Box(
    now: real,
    file: LeaseState,
    held: Option<string>,
    active: nat,
    asking: map<nat, Request>,
    granted: map<nat, string>,
    written: set<nat>,
    jobs: map<nat, string>,
    beat: Beat,
    late: set<nat>,
    lastBeat: real,
    rivals: map<nat, Request>)

  datatype RivalAction =
    | Asks(id: nat, holder: string, model: string, ttl: real)
    | Commits(id: nat)
    | Releases(holder: string)

  datatype LaneAction =
    | LaneAsks(job: nat, model: string)
    | LaneCommits(job: nat, locked: bool)
    | LaneHolds(job: nat)
    | LaneCounts(job: nat)
    | JobDone(job: nat)

  datatype BeatAction =
    | BeatReads
    | BeatTests
    | BeatProbes(resident: bool)
    | BeatReadsClock
    | BeatRenews(locked: bool)
    | BeatReleases(locked: bool)
    | BeatForgets

  datatype Action = Pass(d: real) | Rival(rival: RivalAction) | Lane(lane: LaneAction) | Heart(heart: BeatAction)

  // ---------------------------------------------------------------- steps

  function Committed(cfg: Config, b: Box, job: nat, locked: bool): Box
    requires job in b.asking
  {
    var q := b.asking[job];
    var (granted, file) := Decide(b.file, q.model, cfg.me, q.readAt, cfg.ttl);
    if !locked then b.(asking := b.asking - {job})
    else
      b.(file := file, asking := b.asking - {job}, granted := if granted then b.granted[job := q.model] else b.granted)
  }

  /** Steps that do not apply in the current state change nothing. */
  function RivalStep(cfg: Config, b: Box, a: RivalAction): Box {
    match a
    case Asks(id, holder, model, ttl) =>
      if id in b.rivals || holder == cfg.me then b
      else b.(rivals := b.rivals[id := Request(holder, model, b.now, ttl)])
    case Commits(id) =>
      if id !in b.rivals then b
      else
        var q := b.rivals[id];
        b.(file := Decide(b.file, q.model, q.holder, q.readAt, q.ttl).1, rivals := b.rivals - {id})
    case Releases(holder) => if holder == cfg.me then b else b.(file := ReleaseState(b.file, holder))
  }

  /** The steps of `_acquire_box_or_spill` and `_box_job_done`. */
  function LaneStep(cfg: Config, b: Box, a: LaneAction): Box {
    match a
    case LaneAsks(job, model) =>
      if job in b.asking || job in b.granted || job in b.jobs then b
      else b.(asking := b.asking[job := Request(cfg.me, model, b.now, cfg.ttl)])
    case LaneCommits(job, locked) => if job in b.asking then Committed(cfg, b, job, locked) else b
    case LaneHolds(job) =>
      if job !in b.granted || job in b.written then b
      else b.(held := Some(b.granted[job]), written := b.written + {job})
    case LaneCounts(job) =>
      if job !in b.granted || job !in b.written then b
      else
        b.(active := b.active + 1, granted := b.granted - {job}, written := b.written - {job},
           jobs := b.jobs[job := b.granted[job]], late := b.late + {job})
    case JobDone(job) =>
      if job !in b.jobs then b
      else b.(active := if b.active > 0 then b.active - 1 else 0, jobs := b.jobs - {job})
  }

  /** The steps of `_box_lease_tick`, with no server switch in flight. */
  function BeatStep(cfg: Config, b: Box, a: BeatAction): Box {
    match a
    case BeatReads =>
      if !b.beat.Resting? then b
      else if b.held.None? then b.(lastBeat := b.now)
      else b.(beat := HeldRead(b.held.value))
    case BeatTests =>
      if !b.beat.HeldRead? then b
      else b.(beat := if b.active > 0 then Renewing(b.beat.model) else Probing(b.beat.model), late := {})
    case BeatProbes(resident) =>
      if !b.beat.Probing? then b else b.(beat := if resident then Renewing(b.beat.model) else Releasing)
    case BeatReadsClock => if b.beat.Renewing? then b.(beat := Timed(b.beat.model, b.now)) else b
    case BeatRenews(locked) =>
      if !b.beat.Timed? then b
      else if !locked then b.(beat := Resting)
      else b.(file := Decide(b.file, b.beat.model, cfg.me, b.beat.readAt, cfg.ttl).1, beat := Resting,
          lastBeat := b.now)
    case BeatReleases(locked) =>
      if !b.beat.Releasing? then b
      else if !locked then b.(beat := Forgetting)
      else b.(file := ReleaseState(b.file, cfg.me), beat := Forgetting, lastBeat := b.now)
    case BeatForgets => if b.beat.Forgetting? then b.(held := None, beat := Resting) else b
  }

  function Step(cfg: Config, b: Box, a: Action): Box {
    match a
    case Pass(d) => if d < 0.0 then b else b.(now := b.now + d)
    case Rival(r) => RivalStep(cfg, b, r)
    case Lane(l) => LaneStep(cfg, b, l)
    case Heart(h) => BeatStep(cfg, b, h)
  }

  function Initial(start: LeaseState): Box {
    Box(0.0, start, None, 0, map[], map[], {}, map[], Resting, {}, 0.0, map[])
  }

  function Execute(cfg: Config, start: LeaseState, actions: seq<Action>): Box {
    if actions == [] then Initial(start)
    else Step(cfg, Execute(cfg, start, actions[..|actions| - 1]), actions[|actions| - 1])
  }

  /** The worker is recorded for `model`, with a lease that outlives `until`. */
  ghost predicate Covered(file: LeaseState, me: string, model: string, until: real) {
    file.model == Some(model) && me in file.holders && file.holders[me] > until
  }

  // ---------------------------------------------------------------- every interleaving

  /** Clocks lag and rivals are others. */
  ghost predicate Clocks(cfg: Config, b: Box) {
    && (forall id :: id in b.rivals ==> b.rivals[id].readAt <= b.now && b.rivals[id].holder != cfg.me)
    && (forall j :: j in b.asking ==> b.asking[j].readAt <= b.now && b.asking[j].holder == cfg.me)
    && (b.beat.Timed? ==> b.beat.readAt <= b.now)
  }

  /** The active count is the number of counted jobs, and a heartbeat that found no active job has only
      jobs counted since in front of it. */
  ghost predicate Counted(b: Box) {
    && b.active == |b.jobs|
    && (b.beat.Probing? || b.beat.Releasing? || b.beat.Forgetting? ==> forall j :: j in b.jobs ==> j in b.late)
    && (forall j :: j in b.jobs ==> j !in b.granted && j !in b.asking)
    && (forall j :: j in b.granted ==> j !in b.asking)
    && (forall j :: j in b.written ==> j in b.granted)
  }

  ghost predicate Inv(cfg: Config, b: Box) {
    Clocks(cfg, b) && Counted(b)
  }

  lemma BookedOneMore(m: map<nat, string>, j: nat, v: string)
    requires j !in m
    ensures |m[j := v]| == |m| + 1
  {
    assert m[j := v].Keys == m.Keys + {j};
  }

  lemma BookedOneLess(m: map<nat, string>, j: nat)
    requires j in m
    ensures |m - {j}| == |m| - 1
  {
    assert (m - {j}).Keys == m.Keys - {j};
  }

  lemma RivalKeepsInv(cfg: Config, b: Box, a: RivalAction)
    requires Inv(cfg, b)
    ensures Inv(cfg, RivalStep(cfg, b, a))
  {
  }

  lemma LaneKeepsClocks(cfg: Config, b: Box, a: LaneAction)
    requires Clocks(cfg, b)
    ensures Clocks(cfg, LaneStep(cfg, b, a))
  {
  }

  lemma CountKeepsCounted(cfg: Config, b: Box, job: nat)
    requires Counted(b) && job in b.written
    ensures Counted(LaneStep(cfg, b, LaneCounts(job)))
  {
    BookedOneMore(b.jobs, job, b.granted[job]);
  }

  lemma DoneKeepsCounted(cfg: Config, b: Box, job: nat)
    requires Counted(b) && job in b.jobs
    ensures Counted(LaneStep(cfg, b, JobDone(job)))
  {
    BookedOneLess(b.jobs, job);
  }

  lemma CommitKeepsCounted(cfg: Config, b: Box, job: nat, locked: bool)
    requires Counted(b) && job in b.asking
    ensures Counted(Committed(cfg, b, job, locked))
  {
  }

  lemma LaneKeepsCounted(cfg: Config, b: Box, a: LaneAction)
    requires Counted(b)
    ensures Counted(LaneStep(cfg, b, a))
  {
    match a {
      case LaneAsks(job, model) =>
      case LaneCommits(job, locked) => if job in b.asking { CommitKeepsCounted(cfg, b, job, locked); }
      case LaneHolds(job) =>
      case LaneCounts(job) => if job in b.written { CountKeepsCounted(cfg, b, job); }
      case JobDone(job) => if job in b.jobs { DoneKeepsCounted(cfg, b, job); }
    }
  }

  lemma BeatFrame(cfg: Config, b: Box, a: BeatAction)
    ensures var b' := BeatStep(cfg, b, a);
            && b'.now == b.now && b'.asking == b.asking && b'.rivals == b.rivals
            && (b'.beat.Timed? ==> b'.beat == b.beat || b'.beat.readAt == b.now)
  {
    match a {
      case BeatReads =>
      case BeatTests =>
      case BeatProbes(_) =>
      case BeatReadsClock =>
      case BeatRenews(_) =>
      case BeatReleases(_) =>
      case BeatForgets =>
    }
  }

  lemma ClocksFrame(cfg: Config, b: Box, b': Box)
    requires Clocks(cfg, b) && b'.now == b.now && b'.asking == b.asking && b'.rivals == b.rivals
    requires b'.beat.Timed? ==> b'.beat == b.beat || b'.beat.readAt == b.now
    ensures Clocks(cfg, b')
  {
  }

  lemma BeatKeepsClocks(cfg: Config, b: Box, a: BeatAction)
    requires Clocks(cfg, b)
    ensures Clocks(cfg, BeatStep(cfg, b, a))
  {
    BeatFrame(cfg, b, a);
    ClocksFrame(cfg, b, BeatStep(cfg, b, a));
  }

  lemma BeatKeepsCounted(cfg: Config, b: Box, a: BeatAction)
    requires Counted(b)
    ensures Counted(BeatStep(cfg, b, a))
  {
    if b.active == 0 {
      assert |b.jobs.Keys| == 0;
    }
  }

  lemma StepKeepsInv(cfg: Config, b: Box, a: Action)
    requires Inv(cfg, b)
    ensures Inv(cfg, Step(cfg, b, a))
  {
    match a {
      case Pass(d) =>
      case Rival(r) => RivalKeepsInv(cfg, b, r);
      case Lane(l) =>
        LaneKeepsClocks(cfg, b, l);
        LaneKeepsCounted(cfg, b, l);
      case Heart(h) =>
        BeatKeepsClocks(cfg, b, h);
        BeatKeepsCounted(cfg, b, h);
    }
  }

  lemma {:induction false} ExecuteKeepsInv(cfg: Config, start: LeaseState, actions: seq<Action>)
    ensures Inv(cfg, Execute(cfg, start, actions))
  {
    if actions != [] {
      ExecuteKeepsInv(cfg, start, actions[..|actions| - 1]);
      StepKeepsInv(cfg, Execute(cfg, start, actions[..|actions| - 1]), actions[|actions| - 1]);
    }
  }

  /** Another holder's request, at whatever stale clock, leaves a covered worker covered, and is
      granted only for the same slot. */
  lemma RivalCannotDisplace(cfg: Config, file: LeaseState, model: string, now: real, q: Request)
    requires Covered(file, cfg.me, model, now) && q.readAt <= now && q.holder != cfg.me
    ensures var (granted, file') := Decide(file, q.model, q.holder, q.readAt, q.ttl);
            && Covered(file', cfg.me, model, now)
            && file'.holders[cfg.me] == file.holders[cfg.me]
            && (granted ==> q.model == model)
  {
    DecideKeepsOthers(file, q, now, cfg.me, Grant(model, file.holders[cfg.me]));
  }

  /** Rivals are real: on a box nobody holds at the clock, a rival that asks and commits is the recorded
      holder of its model, and its release leaves a box nobody holds. */
  lemma RivalTakesFreeBox(cfg: Config, b: Box, id: nat, holder: string, model: string, ttl: real)
    requires id !in b.rivals && holder != cfg.me && ttl > 0.0
    requires forall h :: h in b.file.holders ==> b.file.holders[h] <= b.now
    ensures var asked := RivalStep(cfg, b, Asks(id, holder, model, ttl));
            var took := RivalStep(cfg, asked, Commits(id));
            && took.file == LeaseState(Some(model), map[holder := b.now + ttl]) && took.rivals == b.rivals
            && RivalStep(cfg, took, Releases(holder)).file == NOBODY
            && took.held == b.held && took.active == b.active && took.jobs == b.jobs && took.granted == b.granted
  {
    var asked := RivalStep(cfg, b, Asks(id, holder, model, ttl));
    LapsedBoxIsGranted(b.file, model, holder, b.now, ttl);
    assert asked.rivals[id] == Request(holder, model, b.now, ttl);
    assert asked.rivals - {id} == b.rivals;
    assert map[holder := b.now + ttl] - {holder} == map[];
  }

  /** A lane whose request does not get the lock is denied with nothing changed and may ask again; and a
      heartbeat does not begin before the last one ended. */
  lemma ContendedAndBusy(cfg: Config, b: Box, job: nat)
    requires job in b.asking
    ensures LaneStep(cfg, b, LaneCommits(job, false)) == b.(asking := b.asking - {job})
    ensures !b.beat.Resting? ==> BeatStep(cfg, b, BeatReads) == b
  {
  }

  // ---------------------------------------------------------------- exactly when a slot is covered

  /** A lease request of the worker that reaches the file in a step. */
  datatype Attempt = Nothing | Attempt(model: string, readAt: real)

  function OwnAttempt(b: Box, a: Action): Attempt {
    if a.Lane? && a.lane.LaneCommits? && a.lane.locked && a.lane.job in b.asking
    then Attempt(b.asking[a.lane.job].model, b.asking[a.lane.job].readAt)
    else if a == Heart(BeatRenews(true)) && b.beat.Timed? then Attempt(b.beat.model, b.beat.readAt)
    else Nothing
  }

  /** The lease a step gives the worker, through a lane or through the heartbeat. */
  function OwnGrant(cfg: Config, b: Box, a: Action): Option<Grant> {
    var t := OwnAttempt(b, a);
    if t.Attempt? && Decide(b.file, t.model, cfg.me, t.readAt, cfg.ttl).0
    then Some(Grant(t.model, t.readAt + cfg.ttl))
    else None
  }

  /** The heartbeat's release reaches the file. */
  predicate Frees(b: Box, a: Action) {
    a == Heart(BeatReleases(true)) && b.beat.Releasing?
  }

  /** A step changes the file only through a rival, an attempt of the worker, or its release. */
  lemma OwnSteps(cfg: Config, b: Box, a: Action)
    requires !a.Rival?
    ensures var t, b' := OwnAttempt(b, a), Step(cfg, b, a);
            && (t.Attempt? ==> b'.file == Decide(b.file, t.model, cfg.me, t.readAt, cfg.ttl).1)
            && (Frees(b, a) ==> b'.file == ReleaseState(b.file, cfg.me))
            && (t.Nothing? && !Frees(b, a) ==> b'.file == b.file)
            && (!a.Pass? ==> b'.now == b.now)
  {
  }

  function NextGrant(cfg: Config, b: Box, a: Action, g: Option<Grant>): Option<Grant> {
    if Frees(b, a) then None
    else if OwnGrant(cfg, b, a).Some? then OwnGrant(cfg, b, a)
    else g
  }

  /** The last lease the worker was given and has not released since, read off the history. */
  function LastGrant(cfg: Config, start: LeaseState, actions: seq<Action>): Option<Grant> {
    if actions == [] then
      if start.model.Some? && cfg.me in start.holders
      then Some(Grant(start.model.value, start.holders[cfg.me]))
      else None
    else
      var before := actions[..|actions| - 1];
      NextGrant(cfg, Execute(cfg, start, before), actions[|actions| - 1], LastGrant(cfg, start, before))
  }

  /** An unexpired last lease is what the file records, and the file records no other. */
  ghost predicate Faithful(me: string, file: LeaseState, now: real, g: Option<Grant>) {
    && (g.Some? && g.value.expires > now ==> Recorded(file, me, g.value))
    && (file.model.Some? && me in file.holders && file.holders[me] > now ==>
          g == Some(Grant(file.model.value, file.holders[me])))
  }

  lemma RivalIsFaithful(me: string, file: LeaseState, now: real, q: Request, g: Option<Grant>)
    requires Faithful(me, file, now, g) && q.readAt <= now && q.holder != me
    ensures Faithful(me, Decide(file, q.model, q.holder, q.readAt, q.ttl).1, now, g)
  {
    if g.Some? && g.value.expires > now {
      DecideKeepsOthers(file, q, now, me, g.value);
    }
  }

  lemma RivalReleaseIsFaithful(me: string, file: LeaseState, now: real, holder: string, g: Option<Grant>)
    requires Faithful(me, file, now, g) && holder != me
    ensures Faithful(me, ReleaseState(file, holder), now, g)
  {
    assert me in file.holders <==> me in file.holders - {holder};
  }

  lemma OwnIsFaithful(me: string, file: LeaseState, now: real, model: string, readAt: real, ttl: real, g: Option<Grant>)
    requires Faithful(me, file, now, g) && readAt <= now
    ensures var (granted, file') := Decide(file, model, me, readAt, ttl);
            Faithful(me, file', now, if granted then Some(Grant(model, readAt + ttl)) else g)
  {
  }

  lemma RivalStepIsFaithful(cfg: Config, b: Box, a: RivalAction, g: Option<Grant>)
    requires Clocks(cfg, b) && Faithful(cfg.me, b.file, b.now, g)
    ensures var b' := RivalStep(cfg, b, a); Faithful(cfg.me, b'.file, b'.now, g)
  {
    match a {
      case Asks(_, _, _, _) =>
      case Commits(id) => if id in b.rivals { RivalIsFaithful(cfg.me, b.file, b.now, b.rivals[id], g); }
      case Releases(holder) => if holder != cfg.me { RivalReleaseIsFaithful(cfg.me, b.file, b.now, holder, g); }
    }
  }

  lemma StepIsFaithful(cfg: Config, b: Box, a: Action, g: Option<Grant>)
    requires Clocks(cfg, b) && Faithful(cfg.me, b.file, b.now, g)
    ensures var b' := Step(cfg, b, a); Faithful(cfg.me, b'.file, b'.now, NextGrant(cfg, b, a, g))
  {
    if a.Rival? {
      RivalStepIsFaithful(cfg, b, a.rival, g);
    } else {
      OwnSteps(cfg, b, a);
      var t := OwnAttempt(b, a);
      if t.Attempt? {
        OwnIsFaithful(cfg.me, b.file, b.now, t.model, t.readAt, cfg.ttl, g);
      }
    }
  }

  lemma {:induction false} ExecuteIsFaithful(cfg: Config, start: LeaseState, actions: seq<Action>)
    ensures Faithful(cfg.me, Execute(cfg, start, actions).file, Execute(cfg, start, actions).now,
            LastGrant(cfg, start, actions))
  {
    if actions != [] {
      var before := actions[..|actions| - 1];
      ExecuteIsFaithful(cfg, start, before);
      ExecuteKeepsInv(cfg, start, before);
      StepIsFaithful(cfg, Execute(cfg, start, before), actions[|actions| - 1], LastGrant(cfg, start, before));
    }
  }

  /** In every interleaving the file covers the worker for `model` exactly when the last lease it was
      given, by any lane or the heartbeat, was for `model`, has not been released since and has not
      expired. */
  lemma CoverIsLastGrant(cfg: Config, start: LeaseState, actions: seq<Action>, model: string)
    ensures var b, g := Execute(cfg, start, actions), LastGrant(cfg, start, actions);
            Covered(b.file, cfg.me, model, b.now) <==> g.Some? && g.value.model == model && g.value.expires > b.now
  {
    ExecuteIsFaithful(cfg, start, actions);
    var b := Execute(cfg, start, actions);
    CoverIsGrant(cfg.me, b.file, b.now, LastGrant(cfg, start, actions), model);
  }

  /** The step takes a covered `model` away: the heartbeat's release, a lease for another model or one
      already expired, or time reaching the recorded expiry. */
  predicate Displaces(cfg: Config, b: Box, a: Action, model: string)
    requires cfg.me in b.file.holders
  {
    || Frees(b, a)
    || (OwnGrant(cfg, b, a).Some?
        && (OwnGrant(cfg, b, a).value.model != model || OwnGrant(cfg, b, a).value.expires <= b.now))
    || (a.Pass? && a.d >= 0.0 && b.file.holders[cfg.me] <= b.now + a.d)
  }

  lemma StepKeepsCover(cfg: Config, b: Box, a: Action, model: string)
    requires Inv(cfg, b) && Covered(b.file, cfg.me, model, b.now)
    ensures Covered(Step(cfg, b, a).file, cfg.me, model, Step(cfg, b, a).now) <==> !Displaces(cfg, b, a, model)
  {
    var g, b' := Some(Grant(model, b.file.holders[cfg.me])), Step(cfg, b, a);
    StepIsFaithful(cfg, b, a, g);
    CoverIsGrant(cfg.me, b'.file, b'.now, NextGrant(cfg, b, a, g), model);
    StepClock(cfg, b, a);
  }

  lemma CoverIsGrant(me: string, file: LeaseState, now: real, g: Option<Grant>, model: string)
    requires Faithful(me, file, now, g)
    ensures Covered(file, me, model, now) <==> g.Some? && g.value.model == model && g.value.expires > now
  {
  }

  lemma RivalClock(cfg: Config, b: Box, a: RivalAction)
    ensures RivalStep(cfg, b, a).now == b.now
  {
  }

  lemma LaneClock(cfg: Config, b: Box, a: LaneAction)
    ensures LaneStep(cfg, b, a).now == b.now
  {
  }

  lemma StepClock(cfg: Config, b: Box, a: Action)
    ensures Step(cfg, b, a).now == if a.Pass? && a.d >= 0.0 then b.now + a.d else b.now
  {
    match a {
      case Pass(d) =>
      case Rival(r) => RivalClock(cfg, b, r);
      case Lane(l) => LaneClock(cfg, b, l);
      case Heart(h) => BeatFrame(cfg, b, h);
    }
  }

  function At(cfg: Config, start: LeaseState, actions: seq<Action>, k: nat): Box
    requires k <= |actions|
  {
    Execute(cfg, start, actions[..k])
  }

  ghost predicate CoveredAt(cfg: Config, start: LeaseState, actions: seq<Action>, model: string, k: nat)
    requires k <= |actions|
  {
    Covered(At(cfg, start, actions, k).file, cfg.me, model, At(cfg, start, actions, k).now)
  }

  ghost predicate DisplacedAt(cfg: Config, start: LeaseState, actions: seq<Action>, model: string, k: nat)
    requires k < |actions|
  {
    var b := At(cfg, start, actions, k);
    cfg.me in b.file.holders && Displaces(cfg, b, actions[k], model)
  }

  lemma NextIsCovered(cfg: Config, start: LeaseState, actions: seq<Action>, model: string, k: nat)
    requires k < |actions| && CoveredAt(cfg, start, actions, model, k)
    ensures CoveredAt(cfg, start, actions, model, k + 1) <==> !DisplacedAt(cfg, start, actions, model, k)
  {
    assert actions[..k + 1][..k] == actions[..k];
    ExecuteKeepsInv(cfg, start, actions[..k]);
    StepKeepsCover(cfg, At(cfg, start, actions, k), actions[k], model);
  }

  lemma {:induction false} CoverLasts(cfg: Config, start: LeaseState, actions: seq<Action>, model: string, i: nat,
      k: nat)
    requires i <= k <= |actions| && CoveredAt(cfg, start, actions, model, i)
    requires forall n: nat :: i <= n < k ==> !DisplacedAt(cfg, start, actions, model, n)
    ensures CoveredAt(cfg, start, actions, model, k)
  {
    if i < k {
      CoverLasts(cfg, start, actions, model, i, k - 1);
      NextIsCovered(cfg, start, actions, model, k - 1);
    }
  }

  /** Over all interleavings: a slot covered at one moment, as after a granted acquire, stays covered at
      every later moment exactly when no step in between displaces it. */
  lemma CoveredThroughoutExactly(cfg: Config, start: LeaseState, actions: seq<Action>, model: string, i: nat)
    requires i <= |actions| && CoveredAt(cfg, start, actions, model, i)
    ensures (forall k: nat :: i <= k <= |actions| ==> CoveredAt(cfg, start, actions, model, k)) <==>
            (forall k: nat :: i <= k < |actions| ==> !DisplacedAt(cfg, start, actions, model, k))
  {
    if forall k: nat :: i <= k < |actions| ==> !DisplacedAt(cfg, start, actions, model, k) {
      forall k: nat | i <= k <= |actions|
        ensures CoveredAt(cfg, start, actions, model, k)
      {
        CoverLasts(cfg, start, actions, model, i, k);
      }
    }
    if forall k: nat :: i <= k <= |actions| ==> CoveredAt(cfg, start, actions, model, k) {
      forall k: nat | i <= k < |actions|
        ensures !DisplacedAt(cfg, start, actions, model, k)
      {
        assert CoveredAt(cfg, start, actions, model, k + 1);
        NextIsCovered(cfg, start, actions, model, k);
      }
    }
  }

  /** What displaces a covered slot, in terms of the schedule. A release does, and the only counted jobs in
      its way were counted after that heartbeat tested for active jobs. A lane's or heartbeat's own
      request does if it is for another slot that no other live holder shares, or so stale that its
      lease is already over. Time does when it reaches the recorded expiry. Nothing else does. */
  lemma DisplacesExactly(cfg: Config, b: Box, a: Action, model: string)
    requires Inv(cfg, b) && Covered(b.file, cfg.me, model, b.now)
    ensures var t := OwnAttempt(b, a);
            Displaces(cfg, b, a, model) <==>
              || (a == Heart(BeatReleases(true)) && b.beat.Releasing?)
              || (t.Attempt? && if t.model == model then t.readAt + cfg.ttl <= b.now
                                else LiveAt(b.file.holders, t.readAt) - {cfg.me} == map[])
              || (a.Pass? && a.d >= 0.0 && b.file.holders[cfg.me] <= b.now + a.d)
    ensures Frees(b, a) ==> forall j :: j in b.jobs ==> j in b.late
  {
  }

  // ---------------------------------------------------------------- when jobs hold the box

  /** No lane's way from commit to count overlaps another's or a heartbeat. */
  predicate Apart(b: Box, a: Action) {
    && (a.Lane? && a.lane.LaneCommits? ==> b.beat.Resting? && b.granted == map[])
    && (a == Heart(BeatReads) ==> b.granted == map[])
  }

  /** Heartbeats take effect less than `gap` apart, and the worker's own requests reach the file within
      `stale` of their clock read. */
  predicate Timely(b: Box, a: Action, gap: real, stale: real) {
    && (a.Pass? && a.d >= 0.0 ==> b.now + a.d < b.lastBeat + gap)
    && (OwnAttempt(b, a).Attempt? ==> b.now - OwnAttempt(b, a).readAt <= stale)
  }

  predicate Orderly(cfg: Config, start: LeaseState, actions: seq<Action>, gap: real, stale: real) {
    actions == [] ||
    (var before, a := actions[..|actions| - 1], actions[|actions| - 1];
     var b := Execute(cfg, start, before);
     Orderly(cfg, start, before, gap, stale) && Apart(b, a) && Timely(b, a, gap, stale))
  }

  ghost predicate Holds(cfg: Config, b: Box, model: string, stale: real) {
    Covered(b.file, cfg.me, model, b.now) && b.file.holders[cfg.me] >= b.lastBeat - stale + cfg.ttl
  }

  ghost predicate InTime(b: Box, gap: real) {
    b.lastBeat <= b.now < b.lastBeat + gap
  }

  /** Heartbeat and lanes take turns. */
  ghost predicate TakeTurns(b: Box) {
    && (!b.beat.Resting? ==> b.granted == map[])
    && (forall i, j :: i in b.granted && j in b.granted ==> i == j)
    && (forall j :: j in b.written ==> j in b.granted && b.held == Some(b.granted[j]))
    && (b.beat.HeldRead? || b.beat.Probing? || b.beat.Renewing? || b.beat.Timed? ==> b.held == Some(b.beat.model))
    && (b.beat.Probing? || b.beat.Releasing? || b.beat.Forgetting? ==> b.jobs == map[])
  }

  ghost predicate Held(cfg: Config, b: Box, stale: real) {
    && (forall j :: j in b.granted ==> Holds(cfg, b, b.granted[j], stale))
    && (b.granted == map[] && b.jobs != map[] ==> b.held.Some? && Holds(cfg, b, b.held.value, stale))
  }

  ghost predicate HoldInv(cfg: Config, b: Box, gap: real, stale: real) {
    Inv(cfg, b) && InTime(b, gap) && TakeTurns(b) && Held(cfg, b, stale)
  }

  lemma CommitTakesTurns(cfg: Config, b: Box, job: nat, locked: bool)
    requires Counted(b) && TakeTurns(b) && job in b.asking && b.beat.Resting? && b.granted == map[]
    ensures TakeTurns(Committed(cfg, b, job, locked))
  {
  }

  lemma CountTakesTurns(cfg: Config, b: Box, job: nat)
    requires Counted(b) && TakeTurns(b) && job in b.written
    ensures TakeTurns(LaneStep(cfg, b, LaneCounts(job)))
  {
    assert b.beat.Resting?;
  }

  lemma LaneTakesTurns(cfg: Config, b: Box, a: LaneAction)
    requires Inv(cfg, b) && TakeTurns(b) && Apart(b, Lane(a))
    ensures TakeTurns(LaneStep(cfg, b, a))
  {
    match a {
      case LaneAsks(_, _) =>
      case LaneCommits(job, locked) => if job in b.asking { CommitTakesTurns(cfg, b, job, locked); }
      case LaneHolds(job) => if job in b.granted { assert b.beat.Resting?; }
      case LaneCounts(job) => if job in b.written { CountTakesTurns(cfg, b, job); }
      case JobDone(_) =>
    }
  }

  lemma RivalTakesTurns(cfg: Config, b: Box, a: RivalAction)
    requires TakeTurns(b)
    ensures TakeTurns(RivalStep(cfg, b, a))
  {
  }

  lemma BeatTakesTurns(cfg: Config, b: Box, a: BeatAction)
    requires Inv(cfg, b) && TakeTurns(b) && Apart(b, Heart(a))
    ensures TakeTurns(BeatStep(cfg, b, a))
  {
    if b.active == 0 {
      assert |b.jobs| == 0;
    }
  }

  lemma LaneKeepsHeld(cfg: Config, b: Box, a: LaneAction, gap: real, stale: real)
    requires HoldInv(cfg, b, gap, stale) && gap + stale <= cfg.ttl
    requires Apart(b, Lane(a)) && Timely(b, Lane(a), gap, stale)
    ensures Held(cfg, LaneStep(cfg, b, a), stale)
  {
    match a {
      case LaneAsks(_, _) =>
      case LaneCommits(job, locked) =>
        if job in b.asking && locked {
          if OwnGrant(cfg, b, Lane(a)).Some? {
            GrantKeepsHeld(cfg, b, job, gap, stale);
          } else {
            DenialKeepsHeld(cfg, b, job, stale);
          }
        }
      case LaneHolds(job) =>
      case LaneCounts(job) => if job in b.written { assert b.granted - {job} == map[]; }
      case JobDone(job) =>
    }
  }

  /** A request of the worker's own that is denied leaves its live entry in place. */
  lemma OwnDenialKeeps(me: string, file: LeaseState, model: string, now: real, other: string, readAt: real, ttl: real)
    requires Covered(file, me, model, now) && readAt <= now && !Decide(file, other, me, readAt, ttl).0
    ensures var file' := Decide(file, other, me, readAt, ttl).1;
            Covered(file', me, model, now) && file'.holders[me] == file.holders[me]
  {
    assert me in LiveAt(file.holders, readAt);
  }

  lemma GrantKeepsHeld(cfg: Config, b: Box, job: nat, gap: real, stale: real)
    requires InTime(b, gap) && gap + stale <= cfg.ttl && job in b.asking && b.granted == map[]
    requires b.now - b.asking[job].readAt <= stale
    requires Decide(b.file, b.asking[job].model, cfg.me, b.asking[job].readAt, cfg.ttl).0
    ensures Held(cfg, Committed(cfg, b, job, true), stale)
  {
    var q, b' := b.asking[job], Committed(cfg, b, job, true);
    assert b'.granted == map[job := q.model] && job in b'.granted;
    assert b'.file.model == Some(q.model) && b'.file.holders[cfg.me] == q.readAt + cfg.ttl;
  }

  lemma DenialKeepsHeld(cfg: Config, b: Box, job: nat, stale: real)
    requires Clocks(cfg, b) && Held(cfg, b, stale) && job in b.asking && b.granted == map[]
    requires !Decide(b.file, b.asking[job].model, cfg.me, b.asking[job].readAt, cfg.ttl).0
    ensures Held(cfg, Committed(cfg, b, job, true), stale)
  {
    var q := b.asking[job];
    if b.jobs != map[] {
      OwnDenialKeeps(cfg.me, b.file, b.held.value, b.now, q.model, q.readAt, cfg.ttl);
    }
  }

  lemma BeatKeepsHeld(cfg: Config, b: Box, a: BeatAction, gap: real, stale: real)
    requires HoldInv(cfg, b, gap, stale) && gap + stale <= cfg.ttl
    requires Apart(b, Heart(a)) && Timely(b, Heart(a), gap, stale)
    ensures Held(cfg, BeatStep(cfg, b, a), stale)
  {
    if a.BeatReads? {
      assert b.held.None? ==> b.granted == map[] && b.jobs == map[];
    }
  }

  lemma RivalKeepsHeld(cfg: Config, b: Box, a: RivalAction, stale: real)
    requires Inv(cfg, b) && Held(cfg, b, stale)
    ensures Held(cfg, RivalStep(cfg, b, a), stale)
  {
    match a {
      case Asks(_, _, _, _) =>
      case Commits(id) =>
        if id in b.rivals {
          forall m | Holds(cfg, b, m, stale)
            ensures Holds(cfg, RivalStep(cfg, b, a), m, stale)
          {
            RivalCannotDisplace(cfg, b.file, m, b.now, b.rivals[id]);
          }
        }
      case Releases(holder) =>
        if holder != cfg.me { assert cfg.me in b.file.holders <==> cfg.me in b.file.holders - {holder}; }
    }
  }

  lemma StepKeepsTime(cfg: Config, b: Box, a: Action, gap: real, stale: real)
    requires InTime(b, gap) && Timely(b, a, gap, stale)
    ensures InTime(Step(cfg, b, a), gap)
  {
  }

  lemma StepTakesTurns(cfg: Config, b: Box, a: Action)
    requires Inv(cfg, b) && TakeTurns(b) && Apart(b, a)
    ensures TakeTurns(Step(cfg, b, a))
  {
    match a {
      case Pass(d) =>
      case Rival(r) => RivalTakesTurns(cfg, b, r);
      case Lane(l) => LaneTakesTurns(cfg, b, l);
      case Heart(h) => BeatTakesTurns(cfg, b, h);
    }
  }

  lemma StepKeepsHeld(cfg: Config, b: Box, a: Action, gap: real, stale: real)
    requires HoldInv(cfg, b, gap, stale) && gap + stale <= cfg.ttl && Apart(b, a) && Timely(b, a, gap, stale)
    ensures Held(cfg, Step(cfg, b, a), stale)
  {
    match a {
      case Pass(d) =>
      case Rival(r) => RivalKeepsHeld(cfg, b, r, stale);
      case Lane(l) => LaneKeepsHeld(cfg, b, l, gap, stale);
      case Heart(h) => BeatKeepsHeld(cfg, b, h, gap, stale);
    }
  }

  lemma {:induction false} OrderlyRunsHold(cfg: Config, start: LeaseState, actions: seq<Action>, gap: real, stale: real)
    requires Orderly(cfg, start, actions, gap, stale) && gap > 0.0 && stale >= 0.0 && gap + stale <= cfg.ttl
    ensures HoldInv(cfg, Execute(cfg, start, actions), gap, stale)
  {
    if actions != [] {
      var before, a := actions[..|actions| - 1], actions[|actions| - 1];
      OrderlyRunsHold(cfg, start, before, gap, stale);
      var b := Execute(cfg, start, before);
      StepKeepsInv(cfg, b, a);
      StepKeepsTime(cfg, b, a, gap, stale);
      StepTakesTurns(cfg, b, a);
      StepKeepsHeld(cfg, b, a, gap, stale);
    }
  }

  /** From a granted acquire to the last done, whatever the file said at the start and whoever else asks:
      if lanes and heartbeat do not overlap between commit and count, and the heartbeat gap plus
      the staleness of the worker's own clock reads is within the TTL, then the active count is the
      number of counted jobs, the worker's lease is live, for the held slot once that is set, and no
      other holder's request for a different slot is granted. */
  lemma JobsHoldTheBox(cfg: Config, start: LeaseState, actions: seq<Action>, gap: real, stale: real)
    requires Orderly(cfg, start, actions, gap, stale) && gap > 0.0 && stale >= 0.0 && gap + stale <= cfg.ttl
    ensures var b := Execute(cfg, start, actions);
            && b.active == |b.jobs|
            && (b.jobs != map[] || b.granted != map[] ==>
                  && b.file.model.Some? && Covered(b.file, cfg.me, b.file.model.value, b.now)
                  && (forall j :: j in b.granted ==> b.file.model == Some(b.granted[j]))
                  && (b.granted == map[] || b.written != {} ==> b.held == b.file.model)
                  && forall id :: id in b.rivals && Some(b.rivals[id].model) != b.file.model ==>
                       !Decide(b.file, b.rivals[id].model, b.rivals[id].holder, b.rivals[id].readAt,
                           b.rivals[id].ttl).0)
  {
    OrderlyRunsHold(cfg, start, actions, gap, stale);
    var b := Execute(cfg, start, actions);
    if b.jobs != map[] || b.granted != map[] {
      if b.granted != map[] {
        var j :| j in b.granted;
        assert Holds(cfg, b, b.granted[j], stale);
      }
      forall id | id in b.rivals && Some(b.rivals[id].model) != b.file.model
        ensures !Decide(b.file, b.rivals[id].model, b.rivals[id].holder, b.rivals[id].readAt, b.rivals[id].ttl).0
      {
        RivalCannotDisplace(cfg, b.file, b.file.model.value, b.now, b.rivals[id]);
      }
    }
  }

  // ---------------------------------------------------------------- when they do not

  /** A whole `_box_lease_tick` without interruption; steps for the branch not taken do nothing. */
  function Beaten(cfg: Config, b: Box, resident: bool, locked: bool): Box {
    var b1 := BeatStep(cfg, BeatStep(cfg, b, BeatReads), BeatTests);
    var b2 := BeatStep(cfg, BeatStep(cfg, b1, BeatProbes(resident)), BeatReadsClock);
    BeatStep(cfg, BeatStep(cfg, BeatStep(cfg, b2, BeatRenews(locked)), BeatReleases(locked)), BeatForgets)
  }

  lemma RenewingBeat(cfg: Config, b: Box, resident: bool, locked: bool)
    requires b.beat.Resting? && b.held.Some? && (b.active > 0 || resident)
    ensures var b' := Beaten(cfg, b, resident, locked);
            && SameBut(b, b') && b'.held == b.held
            && b'.file == if locked then Decide(b.file, b.held.value, cfg.me, b.now, cfg.ttl).1 else b.file
  {
    var b1 := BeatStep(cfg, BeatStep(cfg, b, BeatReads), BeatTests);
    var b2 := BeatStep(cfg, BeatStep(cfg, b1, BeatProbes(resident)), BeatReadsClock);
    assert b2 == b.(beat := Timed(b.held.value, b.now), late := {});
  }

  lemma ReleasingBeat(cfg: Config, b: Box, locked: bool)
    requires b.beat.Resting? && b.held.Some? && b.active == 0
    ensures var b' := Beaten(cfg, b, false, locked);
            && SameBut(b, b') && b'.held.None?
            && b'.file == if locked then ReleaseState(b.file, cfg.me) else b.file
  {
    var b1 := BeatStep(cfg, BeatStep(cfg, b, BeatReads), BeatTests);
    var b2 := BeatStep(cfg, BeatStep(cfg, b1, BeatProbes(false)), BeatReadsClock);
    assert b2 == b.(beat := Releasing, late := {});
    assert BeatStep(cfg, b2, BeatRenews(locked)) == b2;
  }

  lemma IdleBeat(cfg: Config, b: Box, resident: bool, locked: bool)
    requires b.beat.Resting? && b.held.None?
    ensures Beaten(cfg, b, resident, locked) == b.(lastBeat := b.now)
  {
    var b1 := BeatStep(cfg, b, BeatReads);
    assert b1 == b.(lastBeat := b.now);
    assert BeatStep(cfg, b1, BeatTests) == b1 && BeatStep(cfg, b1, BeatProbes(resident)) == b1;
    assert BeatStep(cfg, b1, BeatReadsClock) == b1 && BeatStep(cfg, b1, BeatRenews(locked)) == b1;
  }

  /** A whole heartbeat leaves jobs and clock alone. */
  predicate SameBut(b: Box, b': Box) {
    b'.beat.Resting? && b'.active == b.active && b'.now == b.now && b'.jobs == b.jobs && b'.granted == b.granted
  }

  /** A heartbeat between a lane's committed acquire of `model` and that lane's update of `held` and
      `active`. The lane's lease survives it exactly when no slot was held before, or the heartbeat
      renews (a job is active or the old model is resident) and either renews the same slot or is denied
      because another live holder shares the new one. */
  lemma BeatInsideAcquire(cfg: Config, b: Box, model: string, resident: bool)
    requires cfg.ttl > 0.0 && Covered(b.file, cfg.me, model, b.now) && b.beat.Resting?
    ensures Covered(Beaten(cfg, b, resident, true).file, cfg.me, model, b.now) <==>
              || b.held.None?
              || ((b.active > 0 || resident)
                  && (b.held == Some(model) || LiveAt(b.file.holders, b.now) - {cfg.me} != map[]))
  {
    if b.held.None? {
      IdleBeat(cfg, b, resident, true);
    } else if b.active > 0 || resident {
      RenewingBeat(cfg, b, resident, true);
      assert cfg.me in LiveAt(b.file.holders, b.now);
    } else {
      ReleasingBeat(cfg, b, true);
    }
  }

  predicate NoAcquire(actions: seq<Action>) {
    forall i :: 0 <= i < |actions| && actions[i].Lane? ==> !actions[i].lane.LaneCommits? && !actions[i].lane.LaneHolds?
  }

  lemma ExecuteSnoc(cfg: Config, start: LeaseState, s: seq<Action>, a: Action)
    ensures Execute(cfg, start, s + [a]) == Step(cfg, Execute(cfg, start, s), a)
    ensures LastGrant(cfg, start, s + [a]) == NextGrant(cfg, Execute(cfg, start, s), a, LastGrant(cfg, start, s))
  {
    assert (s + [a])[..|s|] == s;
  }

  lemma ForgottenStep(cfg: Config, b: Box, a: Action, g: Option<Grant>)
    requires b.held.None? && b.beat.Resting? && (a.Lane? ==> !a.lane.LaneCommits? && !a.lane.LaneHolds?)
    ensures Step(cfg, b, a).held.None? && Step(cfg, b, a).beat.Resting? && NextGrant(cfg, b, a, g) == g
  {
    match a {
      case Pass(d) =>
      case Rival(r) =>
      case Lane(l) =>
      case Heart(h) =>
    }
  }

  /** Once the held model is forgotten, no heartbeat renews: until another acquire commits or sets the held model,
      the worker's last lease is what it was, however many jobs still run. */
  lemma {:induction false} ForgottenIsNeverRenewed(cfg: Config, start: LeaseState, before: seq<Action>,
      more: seq<Action>)
    requires var b := Execute(cfg, start, before); b.held.None? && b.beat.Resting?
    requires NoAcquire(more)
    ensures var b := Execute(cfg, start, before + more); b.held.None? && b.beat.Resting?
    ensures LastGrant(cfg, start, before + more) == LastGrant(cfg, start, before)
  {
    if more == [] {
      assert before + more == before;
    } else {
      var init, a := more[..|more| - 1], more[|more| - 1];
      ForgottenIsNeverRenewed(cfg, start, before, init);
      ExecuteSnoc(cfg, start, before + init, a);
      ForgottenStep(cfg, Execute(cfg, start, before + init), a, LastGrant(cfg, start, before + init));
      assert before + more == before + init + [a];
    }
  }

  const WORKER := Config("w", 120.0)

  function LeaseOf(model: string, expires: real): LeaseState {
    LeaseState(Some(model), map["w" := expires])
  }

  /** The box is `WORKER`'s alone, so every request of its own is granted. */
  lemma Alone(held: string, expires: real, model: string, readAt: real)
    ensures Decide(LeaseOf(held, expires), model, "w", readAt, 120.0) == (true, LeaseOf(model, readAt + 120.0))
    ensures Decide(NOBODY, model, "w", readAt, 120.0) == (true, LeaseOf(model, readAt + 120.0))
    ensures ReleaseState(LeaseOf(held, expires), "w") == NOBODY
  {
    var live := LiveAt(map["w" := expires], readAt);
    assert live - {"w"} == map[] && live["w" := readAt + 120.0] == map["w" := readAt + 120.0];
    var none: map<string, real> := map[];
    assert LiveAt(none, readAt) - {"w"} == map[];
    assert map["w" := expires] - {"w"} == map[];
  }

  lemma Then(s: seq<Action>, b: Box, a: Action, b': Box)
    requires Execute(WORKER, NOBODY, s) == b && Step(WORKER, b, a) == b'
    ensures Execute(WORKER, NOBODY, s + [a]) == b'
  {
    ExecuteSnoc(WORKER, NOBODY, s, a);
  }

  /** A lane's four steps for a job that is granted, from a moment at which no other lane is acquiring. */
  lemma WholeAcquire(s: seq<Action>, b: Box, job: nat, model: string, file: LeaseState)
      returns (t: seq<Action>, b': Box)
    requires Execute(WORKER, NOBODY, s) == b && b.asking == map[] && b.granted == map[] && b.written == {}
    requires job !in b.jobs && Decide(b.file, model, "w", b.now, 120.0) == (true, file)
    ensures b' == b.(file := file, held := Some(model), active := b.active + 1,
                     jobs := b.jobs[job := model], late := b.late + {job})
    ensures Execute(WORKER, NOBODY, t) == b'
  {
    var b1 := b.(asking := map[job := Request("w", model, b.now, 120.0)]);
    var b2 := b.(file := file, granted := map[job := model]);
    var b3 := b2.(held := Some(model), written := {job});
    b' := b.(file := file, held := Some(model), active := b.active + 1,
             jobs := b.jobs[job := model], late := b.late + {job});
    assert b1.asking - {job} == map[] && b2.granted - {job} == map[] && b3.written - {job} == {};
    Then(s, b, Lane(LaneAsks(job, model)), b1);
    t := s + [Lane(LaneAsks(job, model))];
    Then(t, b1, Lane(LaneCommits(job, true)), b2);
    t := t + [Lane(LaneCommits(job, true))];
    Then(t, b2, Lane(LaneHolds(job)), b3);
    t := t + [Lane(LaneHolds(job))];
    Then(t, b3, Lane(LaneCounts(job)), b');
    t := t + [Lane(LaneCounts(job))];
  }

  /** A worker whose job on A is done, with A still held. */
  const WARM := Initial(NOBODY).(file := LeaseOf("A", 120.0), held := Some("A"), late := {0})

  lemma WarmUp() returns (s: seq<Action>)
    ensures Execute(WORKER, NOBODY, s) == WARM
  {
    var b: Box;
    Alone("A", 0.0, "A", 0.0);
    s, b := WholeAcquire([], Initial(NOBODY), 0, "A", LeaseOf("A", 120.0));
    assert b.jobs - {0} == map[];
    Then(s, b, Lane(JobDone(0)), WARM);
    s := s + [Lane(JobDone(0))];
  }

  /** The rest of a heartbeat that found no active job and the model gone. */
  lemma ReleaseAndForget(s: seq<Action>, b: Box) returns (t: seq<Action>)
    requires Execute(WORKER, NOBODY, s) == b && b.beat.Probing? && b.file == LeaseOf("B", 120.0)
    ensures Execute(WORKER, NOBODY, t) == b.(beat := Resting, file := NOBODY, lastBeat := b.now, held := None)
  {
    Alone("B", 120.0, "B", 0.0);
    var b1 := b.(beat := Releasing);
    var b2 := b.(beat := Forgetting, file := NOBODY, lastBeat := b.now);
    Then(s, b, Heart(BeatProbes(false)), b1);
    t := s + [Heart(BeatProbes(false))];
    Then(t, b1, Heart(BeatReleases(true)), b2);
    t := t + [Heart(BeatReleases(true))];
    Then(t, b2, Heart(BeatForgets), b2.(beat := Resting, held := None));
    t := t + [Heart(BeatForgets)];
  }

  /** An acquire inside a heartbeat. The heartbeat reads A and finds no active job; a lane's acquire of B
      commits and is booked; the heartbeat finds A gone, releases the worker's lease and forgets. The job
      runs, nothing in the file covers it, and by `ForgottenIsNeverRenewed` no heartbeat will. */
  lemma AcquireInsideBeat() returns (actions: seq<Action>)
    ensures var b := Execute(WORKER, NOBODY, actions);
            b.jobs == map[1 := "B"] && b.active == 1 && b.held.None? && b.beat.Resting? && b.file == NOBODY
  {
    actions := WarmUp();
    Then(actions, WARM, Heart(BeatReads), WARM.(beat := HeldRead("A")));
    actions := actions + [Heart(BeatReads)];
    var b := WARM.(beat := Probing("A"), late := {});
    Then(actions, WARM.(beat := HeldRead("A")), Heart(BeatTests), b);
    actions := actions + [Heart(BeatTests)];
    Alone("A", 120.0, "B", 0.0);
    actions, b := WholeAcquire(actions, b, 1, "B", LeaseOf("B", 120.0));
    actions := ReleaseAndForget(actions, b);
  }

  /** A heartbeat inside an acquire. The acquire of B commits; a whole heartbeat finds no active job and A
      gone, and releases; the acquire is booked. The job runs and nothing in the file covers it. */
  lemma BeatInsideAcquireLosesJob() returns (actions: seq<Action>)
    ensures var b := Execute(WORKER, NOBODY, actions);
            b.jobs == map[1 := "B"] && b.active == 1 && b.held == Some("B") && b.file == NOBODY
  {
    actions := CommitThenTest();
    actions := ReleaseAndForget(actions, COMMITTED);
    ExecuteSnoc(WORKER, NOBODY, actions, Lane(LaneHolds(1)));
    actions := actions + [Lane(LaneHolds(1))];
    ExecuteSnoc(WORKER, NOBODY, actions, Lane(LaneCounts(1)));
    actions := actions + [Lane(LaneCounts(1))];
  }

  /** B granted to a lane that has not booked it, and the heartbeat past its test, with A read as held. */
  const COMMITTED :=
    WARM.(file := LeaseOf("B", 120.0), granted := map[1 := "B"], beat := Probing("A"), late := {})

  lemma CommitThenTest() returns (actions: seq<Action>)
    ensures Execute(WORKER, NOBODY, actions) == COMMITTED
  {
    actions := WarmUp();
    Alone("A", 120.0, "B", 0.0);
    var b1 := WARM.(asking := map[1 := Request("w", "B", 0.0, 120.0)]);
    var b2 := WARM.(file := LeaseOf("B", 120.0), granted := map[1 := "B"]);
    var b3 := b2.(beat := HeldRead("A"));
    assert b1.asking - {1} == map[];
    Then(actions, WARM, Lane(LaneAsks(1, "B")), b1);
    actions := actions + [Lane(LaneAsks(1, "B"))];
    Then(actions, b1, Lane(LaneCommits(1, true)), b2);
    actions := actions + [Lane(LaneCommits(1, true))];
    Then(actions, b2, Heart(BeatReads), b3);
    actions := actions + [Heart(BeatReads)];
    Then(actions, b3, Heart(BeatTests), COMMITTED);
    actions := actions + [Heart(BeatTests)];
  }

  /** A heartbeat inside the bookkeeping. A worker that held nothing acquires B and sets the held model; a
      whole heartbeat finds B held, no active job and B not loaded yet, releases and forgets; the job is
      counted. It runs, nothing in the file covers it, and no heartbeat will. */
  lemma BeatInsideBookkeeping() returns (actions: seq<Action>)
    ensures var b := Execute(WORKER, NOBODY, actions);
            b.jobs == map[1 := "B"] && b.active == 1 && b.held.None? && b.beat.Resting? && b.file == NOBODY
  {
    Alone("B", 0.0, "B", 0.0);
    var b0 := Initial(NOBODY);
    var b1 := b0.(asking := map[1 := Request("w", "B", 0.0, 120.0)]);
    var b2 := b0.(file := LeaseOf("B", 120.0), granted := map[1 := "B"]);
    var b3 := b2.(held := Some("B"), written := {1});
    var b4 := b3.(beat := HeldRead("B"));
    assert b1.asking - {1} == map[];
    Then([], b0, Lane(LaneAsks(1, "B")), b1);
    actions := [] + [Lane(LaneAsks(1, "B"))];
    Then(actions, b1, Lane(LaneCommits(1, true)), b2);
    actions := actions + [Lane(LaneCommits(1, true))];
    Then(actions, b2, Lane(LaneHolds(1)), b3);
    actions := actions + [Lane(LaneHolds(1))];
    Then(actions, b3, Heart(BeatReads), b4);
    actions := actions + [Heart(BeatReads)];
    Then(actions, b4, Heart(BeatTests), b3.(beat := Probing("B")));
    actions := actions + [Heart(BeatTests)];
    actions := ReleaseAndForget(actions, b3.(beat := Probing("B")));
    ExecuteSnoc(WORKER, NOBODY, actions, Lane(LaneCounts(1)));
    actions := actions + [Lane(LaneCounts(1))];
  }

  /** A heartbeat that renews for an active job. */
  lemma RenewAndRest(s: seq<Action>, b: Box, model: string, file: LeaseState) returns (t: seq<Action>)
    requires Execute(WORKER, NOBODY, s) == b && b.beat.Resting? && b.held == Some(model) && b.active > 0
    requires Decide(b.file, model, "w", b.now, 120.0) == (true, file)
    ensures Execute(WORKER, NOBODY, t) == b.(file := file, late := {}, lastBeat := b.now)
  {
    var b1, b2, b3 := b.(beat := HeldRead(model)), b.(beat := Renewing(model), late := {}),
        b.(beat := Timed(model, b.now), late := {});
    Then(s, b, Heart(BeatReads), b1);
    t := s + [Heart(BeatReads)];
    Then(t, b1, Heart(BeatTests), b2);
    t := t + [Heart(BeatTests)];
    Then(t, b2, Heart(BeatReadsClock), b3);
    t := t + [Heart(BeatReadsClock)];
    Then(t, b3, Heart(BeatRenews(true)), b.(file := file, late := {}, lastBeat := b.now));
    t := t + [Heart(BeatRenews(true))];
  }

  /** A stale acquire. A clock read at 90 reaches the file at 101, after the heartbeat of 100, and cuts the
      lease back from 220 to 210: at 215 it has lapsed under two running jobs, although the last heartbeat
      is 115 ago and the TTL is 120. */
  lemma StaleAcquireLapses() returns (actions: seq<Action>)
    ensures var b := Execute(WORKER, NOBODY, actions);
            && b.jobs == map[1 := "A", 2 := "A"] && b.held == Some("A")
            && b.now - b.lastBeat == 115.0 && b.file == LeaseOf("A", 210.0) && b.now == 215.0
  {
    var b: Box;
    actions := WarmUp();
    Alone("A", 120.0, "A", 0.0);
    actions, b := WholeAcquire(actions, WARM, 1, "A", LeaseOf("A", 120.0));
    var b1 := b.(now := 90.0);
    Then(actions, b, Action.Pass(90.0), b1);
    actions := actions + [Action.Pass(90.0)];
    var b2 := b1.(asking := map[2 := Request("w", "A", 90.0, 120.0)]);
    Then(actions, b1, Lane(LaneAsks(2, "A")), b2);
    actions := actions + [Lane(LaneAsks(2, "A"))];
    Then(actions, b2, Action.Pass(10.0), b2.(now := 100.0));
    actions := actions + [Action.Pass(10.0)];
    Alone("A", 120.0, "A", 100.0);
    actions := RenewAndRest(actions, b2.(now := 100.0), "A", LeaseOf("A", 220.0));
    actions := CommitLate(actions, b2.(now := 100.0, file := LeaseOf("A", 220.0), late := {}, lastBeat := 100.0));
  }

  lemma CommitLate(s: seq<Action>, b: Box) returns (t: seq<Action>)
    requires Execute(WORKER, NOBODY, s) == b && b.now == 100.0 && b.file == LeaseOf("A", 220.0)
    requires b.asking == map[2 := Request("w", "A", 90.0, 120.0)] && b.granted == map[] && b.written == {}
    requires b.jobs == map[1 := "A"]
    ensures var b' := Execute(WORKER, NOBODY, t);
            && b'.now == 215.0 && b'.file == LeaseOf("A", 210.0) && b'.held == Some("A")
            && b'.jobs == map[1 := "A", 2 := "A"] && b'.lastBeat == b.lastBeat
  {
    Alone("A", 220.0, "A", 90.0);
    var b1 := b.(now := 101.0);
    var b2 := b1.(file := LeaseOf("A", 210.0), asking := map[], granted := map[2 := "A"]);
    assert b.asking - {2} == map[];
    Then(s, b, Action.Pass(1.0), b1);
    t := s + [Action.Pass(1.0)];
    Then(t, b1, Lane(LaneCommits(2, true)), b2);
    t := t + [Lane(LaneCommits(2, true))];
    var b3 := b2.(held := Some("A"), written := {2});
    Then(t, b2, Lane(LaneHolds(2)), b3);
    t := t + [Lane(LaneHolds(2))];
    ExecuteSnoc(WORKER, NOBODY, t, Lane(LaneCounts(2)));
    t := t + [Lane(LaneCounts(2))];
    ExecuteSnoc(WORKER, NOBODY, t, Action.Pass(114.0));
    t := t + [Action.Pass(114.0)];
  }

  // ---------------------------------------------------------------- the worker's own methods

  const SpillPause: real := 1.0
  const SpillPauseMax: real := 30.0

  /** How long gpu claiming pauses after the box denied this worker `streak` times before. */
  function Brake(streak: nat): real {
    var pause := SpillPause * Pow2(if streak < 8 then streak else 8) as real;
    if pause < SpillPauseMax then pause else SpillPauseMax
  }

  /** A whole `_acquire_box_or_spill` without interruption. */
  function Acquired(cfg: Config, b: Box, job: nat, model: string, locked: bool): Box {
    var asked := LaneStep(cfg, b, LaneAsks(job, model));
    LaneStep(cfg, LaneStep(cfg, LaneStep(cfg, asked, LaneCommits(job, locked)), LaneHolds(job)), LaneCounts(job))
  }

  lemma AcquiredEffect(cfg: Config, b: Box, job: nat, model: string, locked: bool)
    requires job !in b.asking && job !in b.granted && job !in b.written && job !in b.jobs
    ensures var b', (granted, file) := Acquired(cfg, b, job, model, locked),
            Decide(b.file, model, cfg.me, b.now, cfg.ttl);
            && b'.file == (if locked then file else b.file)
            && b'.held == (if locked && granted then Some(model) else b.held)
            && b'.active == (if locked && granted then b.active + 1 else b.active)
  {
  }

  /** One second for the first denial in a row, doubled with each further one up to half a minute. */
  lemma BrakeExactly(streak: nat)
    ensures Brake(0) == 1.0
    ensures Brake(streak + 1) == if 2.0 * Brake(streak) < 30.0 then 2.0 * Brake(streak) else 30.0
  {
    assert Pow2(1) == 2 && Pow2(2) == 4 && Pow2(3) == 8 && Pow2(4) == 16 && Pow2(5) == 32;
    if streak >= 5 {
      Pow2AtLeast(if streak < 8 then streak else 8);
      Pow2AtLeast(if streak + 1 < 8 then streak + 1 else 8);
    }
  }

  lemma {:induction false} Pow2AtLeast(n: nat)
    requires n >= 5
    ensures Pow2(n) >= 32
  {
    if n > 5 { Pow2AtLeast(n - 1); } else { assert Pow2(1) == 2 && Pow2(3) == 8; }
  }

  class BoxWorker {
    const cfg: Config
    const lease: LeaseFile
    var held: Option<string>
    var active: nat
    var streak: nat
    var pauseUntil: real

    constructor (cfg: Config, lease: LeaseFile)
      ensures this.cfg == cfg && this.lease == lease && streak == 0 && pauseUntil == 0.0
      ensures Matches(Initial(lease.Read()))
    {
      this.cfg := cfg;
      this.lease := lease;
      held := None;
      active, streak := 0, 0;
      pauseUntil := 0.0;
    }

    /** The worker's fields and the file are those of the protocol state `b`. */
    ghost predicate Matches(b: Box)
      reads this, lease
    {
      b.file == lease.Read() && b.held == held && b.active == active
    }

    /** `_acquire_box_or_spill`, with `_box_acquire_granted`: uninterrupted, the lane's four
        steps. */
    method AcquireBoxOrSpill(model: string, now: real, locked: bool, ghost b: Box, ghost job: nat)
        returns (granted: bool)
      requires Matches(b) && b.now == now
      requires job !in b.asking && job !in b.granted && job !in b.written && job !in b.jobs
      modifies this, lease
      ensures Matches(Acquired(cfg, b, job, model, locked))
      ensures granted == (locked && Decide(b.file, model, cfg.me, now, cfg.ttl).0)
      ensures granted ==> streak == 0 && pauseUntil == 0.0
      ensures !granted ==> streak == old(streak) + 1 && pauseUntil == now + Brake(old(streak))
    {
      AcquiredEffect(cfg, b, job, model, locked);
      granted := lease.Acquire(model, cfg.me, now, cfg.ttl, locked);
      if granted {
        streak := 0;
        pauseUntil := 0.0;
        held := Some(model);
        active := active + 1;
      } else {
        pauseUntil := now + Brake(streak);
        streak := streak + 1;
      }
    }

    /** `_box_job_done`, for a counted job. */
    method BoxJobDone(ghost b: Box, ghost job: nat)
      requires Matches(b) && job in b.jobs
      modifies this`active
      ensures Matches(LaneStep(cfg, b, JobDone(job)))
    {
      if active > 0 {
        active := active - 1;
      }
    }

    /** `_box_lease_tick`, `resident` being the residency probe's answer: uninterrupted, the heartbeat's
        steps. */
    method BoxLeaseTick(now: real, resident: bool, locked: bool, ghost b: Box)
      requires Matches(b) && b.now == now && b.beat.Resting?
      modifies this`held, lease
      ensures Matches(Beaten(cfg, b, resident, locked))
    {
      if held.None? {
        IdleBeat(cfg, b, resident, locked);
        return;
      }
      if active > 0 || resident {
        RenewingBeat(cfg, b, resident, locked);
        var _ := lease.Acquire(held.value, cfg.me, now, cfg.ttl, locked);
      } else {
        ReleasingBeat(cfg, b, locked);
        lease.Release(cfg.me, locked);
        held := None;
      }
    }
  }
}
