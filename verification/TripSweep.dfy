/** A watchdog trip in a threaded worker: before the process exits it re-queues its other claims.
    Many processes share one host label, so a row's label does not say which process claimed it;
    the claim's `started_at` stamp does. Leases lapse and rows are re-claimed at any time, also in
    the middle of a sweep. */
module TripSweep {
  import opened Base

  /** The host label, queue and project a claim is made under. */
  datatype Lane = Lane(host: string, queue: string, project: string)

  /** A row of the queue. `owner` is the process whose claim it is; the database does not know it. */
  datatype JobRow = JobRow(running: bool, startedAt: nat, lane: Lane, owner: nat)

  /** A claim as a process remembers it; a claim statement always returns a stamp. */
  datatype Claim = Claim(job: string, startedAt: Option<nat>)

  /** A trip in progress: its lane, the tripping job, the claims still to visit, and whether it has exited. */
  datatype Sweep = Sweep(lane: Lane, tripping: string, remaining: seq<Claim>, exited: bool)

  datatype World = World(
    clock: nat,
    rows: map<string, JobRow>,
    claims: map<nat, map<nat, Claim>>,
    sweeps: map<nat, Sweep>,
    stamps: map<nat, nat>)

  datatype Action =
    | ClaimRow(proc: nat, token: nat, job: string, lane: Lane)
    | BodyEnds(proc: nat, token: nat)
    | Lapse(job: string)
    | Trip(proc: nat, lane: Lane, tripping: string, snapshot: seq<Claim>)
    | SweepNext(proc: nat, raises: bool)
    | Exit(proc: nat)

  const InitialWorld := World(0, map[], map[], map[], map[])

  function ClaimsOf(w: World, proc: nat): map<nat, Claim> {
    if proc in w.claims then w.claims[proc] else map[]
  }

  predicate Holds(w: World, proc: nat, c: Claim) {
    exists k :: k in ClaimsOf(w, proc) && ClaimsOf(w, proc)[k] == c
  }

  /** The guard of `requeue_running_job`: a row running in this lane, and under this very claim if the
      caller has its stamp. */
  predicate Matches(rows: map<string, JobRow>, lane: Lane, c: Claim) {
    && c.job in rows && rows[c.job].running && rows[c.job].lane == lane
    && (c.startedAt.Some? ==> rows[c.job].startedAt == c.startedAt.value)
  }

  function Requeued(rows: map<string, JobRow>, lane: Lane, c: Claim): map<string, JobRow> {
    if Matches(rows, lane, c) then rows[c.job := rows[c.job].(running := false)] else rows
  }

  function Swept(w: World, proc: nat, raises: bool): World
    requires proc in w.sweeps && w.sweeps[proc].remaining != []
  {
    var s := w.sweeps[proc];
    var c := s.remaining[0];
    var rest := w.(sweeps := w.sweeps[proc := s.(remaining := s.remaining[1..])]);
    if c.job == s.tripping || raises then rest else rest.(rows := Requeued(w.rows, s.lane, c))
  }

  /** Each claim stamps a fresh time. A trip's snapshot is any list of claims the process holds. */
  function Step(w: World, a: Action): World {
    match a
    case ClaimRow(proc, token, job, lane) =>
      if job in w.rows && w.rows[job].running then w
      else
        w.(clock := w.clock + 1,
           rows := w.rows[job := JobRow(true, w.clock, lane, proc)],
           claims := w.claims[proc := ClaimsOf(w, proc)[token := Claim(job, Some(w.clock))]],
           stamps := w.stamps[w.clock := proc])
    case BodyEnds(proc, token) =>
      if token !in ClaimsOf(w, proc) then w
      else
        var c := ClaimsOf(w, proc)[token];
        w.(claims := w.claims[proc := ClaimsOf(w, proc) - {token}],
           rows := if c.job in w.rows then Requeued(w.rows, w.rows[c.job].lane, c) else w.rows)
    case Lapse(job) => if job in w.rows then w.(rows := w.rows[job := w.rows[job].(running := false)]) else w
    case Trip(proc, lane, tripping, snapshot) =>
      if proc in w.sweeps || exists c :: c in snapshot && !Holds(w, proc, c) then w
      else w.(sweeps := w.sweeps[proc := Sweep(lane, tripping, snapshot, false)])
    case SweepNext(proc, raises) =>
      if proc in w.sweeps && w.sweeps[proc].remaining != [] then Swept(w, proc, raises) else w
    case Exit(proc) =>
      if proc in w.sweeps && w.sweeps[proc].remaining == []
      then w.(sweeps := w.sweeps[proc := w.sweeps[proc].(exited := true)])
      else w
  }

  function Execute(actions: seq<Action>): World {
    if actions == [] then InitialWorld
    else Step(Execute(actions[..|actions| - 1]), actions[|actions| - 1])
  }

  ghost predicate Stamped(w: World, stamp: nat, proc: nat) {
    stamp in w.stamps && w.stamps[stamp] == proc
  }

  /** The claim carries a stamp, and it is one of the process's own. */
  ghost predicate OwnClaim(w: World, c: Claim, proc: nat) {
    c.startedAt.Some? && Stamped(w, c.startedAt.value, proc)
  }

  ghost predicate Inv(w: World) {
    && (forall s :: s in w.stamps ==> s < w.clock)
    && (forall j :: j in w.rows && w.rows[j].running ==> Stamped(w, w.rows[j].startedAt, w.rows[j].owner))
    && (forall p, k :: p in w.claims && k in w.claims[p] ==> OwnClaim(w, w.claims[p][k], p))
    && (forall p, i :: p in w.sweeps && 0 <= i < |w.sweeps[p].remaining| ==> OwnClaim(w, w.sweeps[p].remaining[i], p))
  }

  lemma ClaimKeepsInv(w: World, proc: nat, token: nat, job: string, lane: Lane)
    requires Inv(w)
    ensures Inv(Step(w, ClaimRow(proc, token, job, lane)))
  {
    var w' := Step(w, ClaimRow(proc, token, job, lane));
    if w' != w {
      assert w.clock !in w.stamps;
      forall s, p | Stamped(w, s, p) ensures Stamped(w', s, p) {}
    }
  }

  lemma TripKeepsInv(w: World, proc: nat, lane: Lane, tripping: string, snapshot: seq<Claim>)
    requires Inv(w)
    ensures Inv(Step(w, Trip(proc, lane, tripping, snapshot)))
  {
    var w' := Step(w, Trip(proc, lane, tripping, snapshot));
    if w' != w {
      forall i | 0 <= i < |snapshot| ensures OwnClaim(w, snapshot[i], proc) {
        assert snapshot[i] in snapshot && Holds(w, proc, snapshot[i]);
      }
    }
  }

  lemma EndKeepsInv(w: World, proc: nat, token: nat)
    requires Inv(w)
    ensures Inv(Step(w, BodyEnds(proc, token)))
  {
  }

  lemma SweepKeepsInv(w: World, proc: nat, raises: bool)
    requires Inv(w)
    ensures Inv(Step(w, SweepNext(proc, raises)))
  {
  }

  lemma StepKeepsInv(w: World, a: Action)
    requires Inv(w)
    ensures Inv(Step(w, a))
  {
    match a {
      case ClaimRow(proc, token, job, lane) => ClaimKeepsInv(w, proc, token, job, lane);
      case Trip(proc, lane, tripping, snapshot) => TripKeepsInv(w, proc, lane, tripping, snapshot);
      case BodyEnds(proc, token) => EndKeepsInv(w, proc, token);
      case Lapse(job) =>
      case SweepNext(proc, raises) => SweepKeepsInv(w, proc, raises);
      case Exit(proc) =>
    }
  }

  lemma {:induction false} ExecuteKeepsInv(actions: seq<Action>)
    ensures Inv(Execute(actions))
  {
    if actions != [] {
      ExecuteKeepsInv(actions[..|actions| - 1]);
      StepKeepsInv(Execute(actions[..|actions| - 1]), actions[|actions| - 1]);
    }
  }

  /** In every run, a step of a sweep changes at most one row: a running one, whose current claim was made by
      the sweeping process itself, in its lane, and which is not its tripping job; that row is re-queued. */
  lemma SweepsOnlyOwnClaims(actions: seq<Action>, proc: nat, raises: bool, job: string)
    requires job in Execute(actions).rows
    ensures var w := Execute(actions);
            var w' := Step(w, SweepNext(proc, raises));
            && w'.rows.Keys == w.rows.Keys
            && (w'.rows[job] != w.rows[job] ==>
                  && proc in w.sweeps && w.sweeps[proc].remaining != [] && w.sweeps[proc].remaining[0].job == job
                  && w.rows[job].running && w.rows[job].owner == proc && w.rows[job].lane == w.sweeps[proc].lane
                  && job != w.sweeps[proc].tripping && w'.rows[job] == w.rows[job].(running := false))
  {
    ExecuteKeepsInv(actions);
  }

  // ---------------------------------------------------------------- what the steps do

  /** A claim takes a row that is not running, under a stamp no claim had before, and is remembered; it does
      nothing to a running row, or to any other row or claim. */
  lemma ClaimExactly(actions: seq<Action>, proc: nat, token: nat, job: string, lane: Lane)
    ensures var w := Execute(actions);
            var w' := Step(w, ClaimRow(proc, token, job, lane));
            if job in w.rows && w.rows[job].running then w' == w
            else
              && job in w'.rows && w'.rows[job].running && w'.rows[job].owner == proc && w'.rows[job].lane == lane
              && w'.rows[job].startedAt !in w.stamps && proc in w'.claims
              && token in w'.claims[proc] && w'.claims[proc][token] == Claim(job, Some(w'.rows[job].startedAt))
              && (forall x :: x in w.rows && x != job ==> x in w'.rows && w'.rows[x] == w.rows[x])
              && (forall k :: k != token ==> (k in w'.claims[proc] <==> proc in w.claims && k in w.claims[proc]))
              && (forall k ::
                    k != token && proc in w.claims && k in w.claims[proc] ==> w'.claims[proc][k] == w.claims[proc][k])
              && w'.sweeps == w.sweeps
  {
    ExecuteKeepsInv(actions);
  }

  /** A body that ends forgets its claim and, if the row is still that claim's, stops it running; a lapsed
      lease stops its row running. No other row changes. */
  lemma EndExactly(w: World, proc: nat, token: nat, job: string)
    requires proc in w.claims && token in w.claims[proc] && job in w.rows
    ensures var c := w.claims[proc][token];
            var w' := Step(w, BodyEnds(proc, token));
            && proc in w'.claims && w'.claims[proc] == w.claims[proc] - {token}
            && w'.rows.Keys == w.rows.Keys
            && (w'.rows[job].running <==>
                  && w.rows[job].running
                  && !(c.job == job && (c.startedAt.None? || c.startedAt.value == w.rows[job].startedAt)))
            && w'.rows[job] == w.rows[job].(running := w'.rows[job].running)
    ensures var w' := Step(w, Lapse(job));
            w' == w.(rows := w'.rows) && w'.rows == w.rows[job := w.rows[job].(running := false)]
  {
  }

  /** A trip of claims the process holds begins a sweep of all of them, once. */
  lemma TripExactly(w: World, proc: nat, lane: Lane, tripping: string, snapshot: seq<Claim>)
    requires proc in w.claims && forall c :: c in snapshot ==> exists k :: k in w.claims[proc] && w.claims[proc][k] == c
    ensures var w' := Step(w, Trip(proc, lane, tripping, snapshot));
            if proc in w.sweeps then w' == w
            else w' == w.(sweeps := w.sweeps[proc := Sweep(lane, tripping, snapshot, false)])
  {
    forall c | c in snapshot
      ensures Holds(w, proc, c)
    {
      var k :| k in w.claims[proc] && w.claims[proc][k] == c;
      assert k in ClaimsOf(w, proc) && ClaimsOf(w, proc)[k] == c;
    }
  }

  // ---------------------------------------------------------------- the exit always follows

  /** No other process moves a sweep: its remaining claims change only by its own steps. */
  lemma SweepIsPrivate(w: World, a: Action, proc: nat)
    requires proc in w.sweeps
    requires !(a.SweepNext? && a.proc == proc) && !(a.Exit? && a.proc == proc)
    ensures proc in Step(w, a).sweeps && Step(w, a).sweeps[proc] == w.sweeps[proc]
  {
  }

  predicate OwnStep(a: Action, proc: nat) {
    a.SweepNext? && a.proc == proc
  }

  /** The sweep's own steps in a run. */
  function OwnSteps(actions: seq<Action>, proc: nat): nat {
    if actions == [] then 0
    else OwnSteps(actions[..|actions| - 1], proc) + if OwnStep(actions[|actions| - 1], proc) then 1 else 0
  }

  lemma ExecuteSnoc(s: seq<Action>, a: Action)
    ensures Execute(s + [a]) == Step(Execute(s), a)
  {
    assert (s + [a])[..|s|] == s;
  }

  function Dropped(claims: seq<Claim>, n: nat): seq<Claim> {
    if n <= |claims| then claims[n..] else []
  }

  lemma StepDrops(w: World, a: Action, proc: nat, claims: seq<Claim>, n: nat)
    requires proc in w.sweeps && w.sweeps[proc].remaining == Dropped(claims, n)
    ensures proc in Step(w, a).sweeps
    ensures Step(w, a).sweeps[proc].remaining == Dropped(claims, n + if OwnStep(a, proc) then 1 else 0)
  {
    if OwnStep(a, proc) {
      if n < |claims| { assert claims[n..][1..] == claims[n + 1..]; }
    } else if !(a.Exit? && a.proc == proc) {
      SweepIsPrivate(w, a, proc);
    }
  }

  /** Whatever happens around it and however many of its re-queues raise, a sweep has visited as many of its
      claims as it has taken steps. */
  lemma {:induction false} SweepAdvances(before: seq<Action>, more: seq<Action>, proc: nat)
    requires proc in Execute(before).sweeps
    ensures var w := Execute(before + more);
            && proc in w.sweeps
            && w.sweeps[proc].remaining == Dropped(Execute(before).sweeps[proc].remaining, OwnSteps(more, proc))
  {
    if more == [] {
      assert before + more == before;
    } else {
      var init, a := more[..|more| - 1], more[|more| - 1];
      SweepAdvances(before, init, proc);
      ExecuteSnoc(before + init, a);
      StepDrops(Execute(before + init), a, proc, Execute(before).sweeps[proc].remaining, OwnSteps(init, proc));
      assert before + more == before + init + [a];
    }
  }

  /** In any interleaving with other processes, once a sweep has taken as many steps as it had claims to
      visit, the exit goes through, however many re-queues raised. */
  lemma ExitFollows(before: seq<Action>, more: seq<Action>, proc: nat)
    requires proc in Execute(before).sweeps
    requires OwnSteps(more, proc) >= |Execute(before).sweeps[proc].remaining|
    ensures var w := Execute(before + more + [Exit(proc)]);
            proc in w.sweeps && w.sweeps[proc].exited
  {
    SweepAdvances(before, more, proc);
    ExecuteSnoc(before + more, Exit(proc));
  }

  // ---------------------------------------------------------------- the sweep as it runs

  /** A sweep that nobody interrupts. */
  function SweepThrough(w: World, proc: nat, raises: seq<bool>): World
    decreases |raises|
  {
    if raises == [] then w else SweepThrough(Step(w, SweepNext(proc, raises[0])), proc, raises[1..])
  }

  /** The claim's row is running in the lane, under this very claim if it has a stamp. */
  ghost predicate Current(rows: map<string, JobRow>, lane: Lane, c: Claim) {
    exists stamp: nat, owner: nat ::
      && c.job in rows && rows[c.job] == JobRow(true, stamp, lane, owner)
      && (c.startedAt == None || c.startedAt == Some(stamp))
  }

  lemma MatchesIsCurrent(rows: map<string, JobRow>, lane: Lane, c: Claim)
    ensures Matches(rows, lane, c) <==> Current(rows, lane, c)
  {
    if Matches(rows, lane, c) {
      assert rows[c.job] == JobRow(true, rows[c.job].startedAt, lane, rows[c.job].owner);
    }
  }

  /** Some claim the sweep visits without its re-queue raising is the row's current one, and the row is not
      the tripping job. */
  ghost predicate Hit(rows: map<string, JobRow>, s: Sweep, raises: seq<bool>, job: string)
    requires |raises| == |s.remaining|
  {
    && job != s.tripping
    && exists i :: 0 <= i < |raises| && s.remaining[i].job == job && !raises[i] && Current(rows, s.lane, s.remaining[i])
  }

  /** Uninterrupted, a sweep re-queues exactly the rows it hits and touches no other. */
  lemma {:induction false} SweptExactly(w: World, proc: nat, raises: seq<bool>, job: string)
    requires proc in w.sweeps && |raises| == |w.sweeps[proc].remaining| && job in w.rows
    ensures var w' := SweepThrough(w, proc, raises);
            && job in w'.rows
            && w'.rows[job] == w.rows[job].(running := w.rows[job].running && !Hit(w.rows, w.sweeps[proc], raises, job))
    decreases |raises|
  {
    if raises != [] {
      var s, w1 := w.sweeps[proc], Step(w, SweepNext(proc, raises[0]));
      SweptExactly(w1, proc, raises[1..], job);
      HitSplits(w.rows, s, raises, job);
      MatchesIsCurrent(w.rows, s.lane, s.remaining[0]);
      if w1.rows[job] == w.rows[job] {
        HitDependsOnRow(w1.rows, w.rows, w1.sweeps[proc], raises[1..], job);
      }
    }
  }

  lemma HitDependsOnRow(rows: map<string, JobRow>, out: map<string, JobRow>, s: Sweep, raises: seq<bool>, job: string)
    requires |raises| == |s.remaining| && job in rows && job in out && rows[job] == out[job]
    ensures Hit(rows, s, raises, job) <==> Hit(out, s, raises, job)
  {
    forall c: Claim | c.job == job
      ensures Current(rows, s.lane, c) <==> Current(out, s.lane, c)
    {
      MatchesIsCurrent(rows, s.lane, c);
      MatchesIsCurrent(out, s.lane, c);
    }
  }

  lemma HitSplits(rows: map<string, JobRow>, s: Sweep, raises: seq<bool>, job: string)
    requires |raises| == |s.remaining| && raises != []
    ensures Hit(rows, s, raises, job) <==>
            || (job != s.tripping && s.remaining[0].job == job && !raises[0] && Current(rows, s.lane, s.remaining[0]))
            || Hit(rows, s.(remaining := s.remaining[1..]), raises[1..], job)
  {
    var t := s.(remaining := s.remaining[1..]);
    if Hit(rows, s, raises, job) {
      var i :| 0 <= i < |raises| && s.remaining[i].job == job && !raises[i] && Current(rows, s.lane, s.remaining[i]);
      if i > 0 { assert t.remaining[i - 1] == s.remaining[i] && raises[1..][i - 1] == raises[i]; }
    }
    if Hit(rows, t, raises[1..], job) {
      var i :| 0 <= i < |raises[1..]| && t.remaining[i].job == job && !raises[1..][i] &&
               Current(rows, s.lane, t.remaining[i]);
      assert s.remaining[i + 1] == t.remaining[i] && raises[i + 1] == raises[1..][i];
    }
  }

  class JobTable {
    var rows: map<string, JobRow>

    /** `requeue_running_job`: 1 if the row was re-queued. */
    method RequeueRunningJob(lane: Lane, c: Claim) returns (n: nat)
      modifies this
      ensures rows == Requeued(old(rows), lane, c)
      ensures n == if Matches(old(rows), lane, c) then 1 else 0
    {
      if c.job !in rows || !rows[c.job].running || rows[c.job].lane != lane {
        return 0;
      }
      if c.startedAt.Some? && rows[c.job].startedAt != c.startedAt.value {
        return 0;
      }
      rows := rows[c.job := rows[c.job].(running := false)];
      return 1;
    }

    /** `_sweep_then_exit`, `raises` saying which re-queues raise: the rows are those the sweep's steps
        leave, uninterrupted, and the exit goes through. */
    method SweepThenExit(lane: Lane, tripping: string, claims: seq<Claim>, raises: seq<bool>, ghost w: World,
        ghost proc: nat)
      returns (exited: bool)
      requires |raises| == |claims| && rows == w.rows
      requires proc in w.sweeps && w.sweeps[proc] == Sweep(lane, tripping, claims, false)
      modifies this
      ensures rows == SweepThrough(w, proc, raises).rows
      ensures var w' := Step(SweepThrough(w, proc, raises), Exit(proc));
              exited && proc in w'.sweeps && w'.sweeps[proc] == Sweep(lane, tripping, [], true)
    {
      ghost var v := w;
      for i := 0 to |claims|
        invariant rows == v.rows && proc in v.sweeps && v.sweeps[proc] == Sweep(lane, tripping, claims[i..], false)
        invariant SweepThrough(v, proc, raises[i..]) == SweepThrough(w, proc, raises)
      {
        assert claims[i..][0] == claims[i] && claims[i..][1..] == claims[i + 1..];
        assert raises[i..][0] == raises[i] && raises[i..][1..] == raises[i + 1..];
        v := Step(v, SweepNext(proc, raises[i]));
        if claims[i].job != tripping && !raises[i] {
          var _ := RequeueRunningJob(lane, claims[i]);
        }
      }
      assert raises[|claims|..] == [];
      exited := true;
    }
  }
}
