/** `VLLMIdleStopper` of `llm_idle_unload.py`: one tick stops a server nobody uses, or else starts one
    that queued work is waiting for. Every probe's answer, failures included, is an input of the tick. */
module IdleStopper {
  import opened Base

  datatype Activity = Activity(served: bool, running: int, finished: int)

  /** The pending-count probe may raise, answer without a count, or count. */
  datatype Pending = Raises | NoCount | Count(jobs: int)

  /** What one tick's probes return; `None` is a probe that raised. Each half of the tick reads the clock
      and the server itself. */
  datatype Tick = Tick(
    activity: Option<Activity>, now: real, active: Option<int>, pending: Pending, stopWorks: bool,
    mayStart: Option<bool>, startNow: real, startActivity: Option<Activity>, startPending: Pending,
    minQueue: Option<int>, startWorks: bool)

  datatype Config = Config(ttl: real, cooldown: real, canStart: bool, countsPending: bool, gated: bool)

  /** `_seen`, `_last_action_at` and `_failed_starts`. */
  datatype State = State(seen: Option<(int, real)>, lastAction: Option<real>, failed: nat)

  datatype Result = Result(state: State, stopped: bool, started: bool)

  const INITIAL := State(None, None, 0)

  // ---------------------------------------------------------------- one tick

  predicate ShouldStop(served: bool, running: int, active: int, idle: real, ttl: real) {
    ttl > 0.0 && served && running <= 0 && active <= 0 && idle >= ttl
  }

  predicate ShouldStart(served: bool, pending: int, minQueue: int) {
    !served && pending > 0 && pending >= minQueue
  }

  function StopOnce(cfg: Config, s: State, t: Tick): (State, bool) {
    if t.activity.None? then (s, false)
    else
      var a := t.activity.value;
      if !a.served then (s.(seen := None), false)
      else if s.seen.None? || a.finished > s.seen.value.0 || a.running > 0 then
        (s.(failed := 0, seen := Some((a.finished, t.now))), false)
      else if !ShouldStop(a.served, a.running, OrZero(t.active), t.now - s.seen.value.1, cfg.ttl) then (s, false)
      else if cfg.countsPending && !(t.pending.Count? && t.pending.jobs <= 0) then (s, false)
      else if !t.stopWorks then (s, false)
      else (s.(seen := None, lastAction := Some(t.now)), true)
  }

  function Min(a: nat, b: nat): nat { if a <= b then a else b }

  function Backoff(cfg: Config, failed: nat): real {
    cfg.cooldown * Pow2(Min(failed, 5)) as real
  }

  function StartOnce(cfg: Config, s: State, t: Tick): (State, bool) {
    if !cfg.canStart || !cfg.countsPending then (s, false)
    else if cfg.gated && t.mayStart == Some(false) then (s, false)
    else if s.lastAction.Some? && t.startNow - s.lastAction.value < Backoff(cfg, s.failed) then (s, false)
    else if t.startActivity.None? || t.startActivity.value.served then (s, false)
    else if t.startPending.Raises? || t.minQueue.None? then (s, false)
    else if !ShouldStart(t.startActivity.value.served, Jobs(t.startPending), t.minQueue.value) then (s, false)
    else if !t.startWorks then (s, false)
    else (s.(lastAction := Some(t.startNow), failed := s.failed + 1), true)
  }

  function Jobs(p: Pending): int {
    if p.Count? then p.jobs else 0
  }

  function Step(cfg: Config, s: State, t: Tick): Result {
    var (s1, stopped) := StopOnce(cfg, s, t);
    if stopped then Result(s1, true, false)
    else var (s2, started) := StartOnce(cfg, s1, t); Result(s2, false, started)
  }

  function Run(cfg: Config, ts: seq<Tick>): State {
    if ts == [] then INITIAL else Step(cfg, Run(cfg, ts[..|ts| - 1]), ts[|ts| - 1]).state
  }

  // ---------------------------------------------------------------- what a history says

  /** What tick `j` of a history did. */
  function Did(cfg: Config, ts: seq<Tick>, j: nat): Result
    requires j < |ts|
  {
    Step(cfg, Run(cfg, ts[..j]), ts[j])
  }

  predicate Sighted(t: Tick) { t.activity.Some? && t.activity.value.served }

  /** The tick saw nothing, or a serving server with nothing running and no completion beyond `finished`. */
  predicate Quiet(t: Tick, finished: int) {
    t.activity.None? || (t.activity.value.served && t.activity.value.running <= 0
        && t.activity.value.finished <= finished)
  }

  /** Tick `k` saw the server serving; no later tick saw it used or gone; and no tick since stopped it. */
  ghost predicate UnusedSince(cfg: Config, ts: seq<Tick>, k: nat) {
    && k < |ts|
    && Sighted(ts[k])
    && (forall j :: k < j < |ts| ==> Quiet(ts[j], ts[k].activity.value.finished))
    && (forall j :: k <= j < |ts| ==> !Did(cfg, ts, j).stopped)
  }

  ghost predicate ClockRuns(ts: seq<Tick>) {
    && (forall i :: 0 <= i < |ts| ==> ts[i].now <= ts[i].startNow)
    && (forall i, j :: 0 <= i < j < |ts| ==> ts[i].startNow <= ts[j].now)
  }

  /** Ticks of the history that started a server since it was last sighted serving. */
  function StartsSinceSighting(cfg: Config, ts: seq<Tick>): nat {
    if ts == [] then 0
    else
      var before, t := ts[..|ts| - 1], ts[|ts| - 1];
      (if Sighted(t) then 0 else StartsSinceSighting(cfg, before)) +
      (if Step(cfg, Run(cfg, before), t).started then 1 else 0)
  }

  function ActedAt(t: Tick, r: Result): real {
    if r.stopped then t.now else t.startNow
  }

  // ---------------------------------------------------------------- histories grow

  lemma RunSnoc(cfg: Config, ts: seq<Tick>, t: Tick)
    ensures Run(cfg, ts + [t]) == Step(cfg, Run(cfg, ts), t).state
    ensures Did(cfg, ts + [t], |ts|) == Step(cfg, Run(cfg, ts), t)
    ensures forall j :: 0 <= j < |ts| ==> Did(cfg, ts + [t], j) == Did(cfg, ts, j)
    ensures StartsSinceSighting(cfg, ts + [t]) ==
            (if Sighted(t) then 0 else StartsSinceSighting(cfg, ts)) +
            (if Step(cfg, Run(cfg, ts), t).started then 1 else 0)
  {
    assert (ts + [t])[..|ts|] == ts;
    forall j | 0 <= j < |ts|
      ensures Did(cfg, ts + [t], j) == Did(cfg, ts, j)
    {
      assert (ts + [t])[..j] == ts[..j];
    }
  }

  lemma UnusedSinceSnoc(cfg: Config, ts: seq<Tick>, t: Tick, k: nat)
    requires k < |ts| && Sighted(ts[k])
    ensures UnusedSince(cfg, ts + [t], k) <==>
            && UnusedSince(cfg, ts, k)
            && Quiet(t, ts[k].activity.value.finished)
            && !Step(cfg, Run(cfg, ts), t).stopped
  {
    var us := ts + [t];
    RunSnoc(cfg, ts, t);
    assert us[|ts|] == t && us[k] == ts[k];
    if UnusedSince(cfg, us, k) {
      assert forall j :: k < j < |ts| ==> us[j] == ts[j];
      assert Quiet(us[|ts|], ts[k].activity.value.finished);
      assert !Did(cfg, us, |ts|).stopped;
    }
  }

  /** `_seen` is the count and time of a sighting after which the server went unused. */
  ghost predicate SeenIsSighting(cfg: Config, ts: seq<Tick>, seen: (int, real), k: nat) {
    && UnusedSince(cfg, ts, k)
    && ts[k].activity.value.finished == seen.0
    && ts[k].now == seen.1
  }

  lemma {:induction false} SeenComesFromSighting(cfg: Config, ts: seq<Tick>) returns (k: nat)
    requires Run(cfg, ts).seen.Some?
    ensures SeenIsSighting(cfg, ts, Run(cfg, ts).seen.value, k)
  {
    var before, t := ts[..|ts| - 1], ts[|ts| - 1];
    assert ts == before + [t];
    RunSnoc(cfg, before, t);
    var s, s1 := Run(cfg, before), Run(cfg, ts);
    if s1.seen == s.seen {
      if Sighted(t) && s1.seen.value == (t.activity.value.finished, t.now) {
        k := |before|;
      } else {
        k := SeenComesFromSighting(cfg, before);
        UnusedSinceSnoc(cfg, before, t, k);
      }
    } else {
      k := |before|;
    }
  }

  lemma {:induction false} SightingIsSeen(cfg: Config, ts: seq<Tick>, k: nat)
    requires ClockRuns(ts) && UnusedSince(cfg, ts, k)
    ensures var seen := Run(cfg, ts).seen;
            seen.Some? && seen.value.0 >= ts[k].activity.value.finished && seen.value.1 <= ts[k].now
  {
    var before, t := ts[..|ts| - 1], ts[|ts| - 1];
    assert ts == before + [t];
    if k == |before| {
      assert !Did(cfg, ts, k).stopped;
      if Run(cfg, before).seen.Some? {
        SeenInThePast(cfg, before, t);
      }
      SeenAfterSighting(cfg, Run(cfg, before), t);
    } else {
      UnusedBefore(cfg, before, t, k);
      ClockPrefix(before, t);
      SightingIsSeen(cfg, before, k);
      SeenAfterQuiet(cfg, Run(cfg, before), t, before[k].activity.value.finished);
    }
  }

  lemma UnusedBefore(cfg: Config, ts: seq<Tick>, t: Tick, k: nat)
    requires UnusedSince(cfg, ts + [t], k) && k < |ts|
    ensures UnusedSince(cfg, ts, k) && Quiet(t, ts[k].activity.value.finished) && !Step(cfg, Run(cfg, ts), t).stopped
  {
    assert (ts + [t])[k] == ts[k];
    UnusedSinceSnoc(cfg, ts, t, k);
  }

  lemma SeenAfterSighting(cfg: Config, s: State, t: Tick)
    requires Sighted(t) && !Step(cfg, s, t).stopped && (s.seen.Some? ==> s.seen.value.1 <= t.now)
    ensures var seen := Step(cfg, s, t).state.seen;
            seen.Some? && seen.value.0 >= t.activity.value.finished && seen.value.1 <= t.now
  {
  }

  lemma SeenAfterQuiet(cfg: Config, s: State, t: Tick, finished: int)
    requires s.seen.Some? && s.seen.value.0 >= finished && Quiet(t, finished) && !Step(cfg, s, t).stopped
    ensures Step(cfg, s, t).state.seen == s.seen
  {
  }

  lemma SeenInThePast(cfg: Config, ts: seq<Tick>, t: Tick)
    requires ClockRuns(ts + [t]) && Run(cfg, ts).seen.Some?
    ensures Run(cfg, ts).seen.value.1 <= t.now
  {
    var k := SeenComesFromSighting(cfg, ts);
    var us := ts + [t];
    assert us[k] == ts[k] && us[|ts|] == t;
    assert us[k].startNow <= us[|ts|].now;
  }

  // ---------------------------------------------------------------- stopping

  /** No GPU job on the worker and, where the queue is counted, a count that was read and is not positive. */
  predicate NothingWaits(cfg: Config, t: Tick) {
    OrZero(t.active) <= 0 && (cfg.countsPending ==> t.pending.Count? && t.pending.jobs <= 0)
  }

  /** Some sighting a full TTL ago, after which neither history nor this tick saw any use. */
  ghost predicate UnusedForTtl(cfg: Config, ts: seq<Tick>, t: Tick) {
    && Sighted(t)
    && exists k: nat :: UnusedSince(cfg, ts, k) && Quiet(t, ts[k].activity.value.finished)
        && t.now - ts[k].now >= cfg.ttl
  }

  /** After every history a tick stops the server exactly when idling is enabled, nothing runs or waits,
      the stop succeeds, and the server has gone unused for a full TTL. */
  lemma StopsExactlyWhenUnused(cfg: Config, ts: seq<Tick>, t: Tick)
    requires ClockRuns(ts + [t])
    ensures Step(cfg, Run(cfg, ts), t).stopped <==>
            cfg.ttl > 0.0 && NothingWaits(cfg, t) && t.stopWorks && UnusedForTtl(cfg, ts, t)
  {
    var s := Run(cfg, ts);
    if Step(cfg, s, t).stopped {
      var k := SeenComesFromSighting(cfg, ts);
      assert UnusedSince(cfg, ts, k) && Quiet(t, ts[k].activity.value.finished) && t.now - ts[k].now >= cfg.ttl;
    }
    if UnusedForTtl(cfg, ts, t) {
      var k: nat :| UnusedSince(cfg, ts, k) && Quiet(t, ts[k].activity.value.finished) && t.now - ts[k].now >= cfg.ttl;
      ClockPrefix(ts, t);
      SightingIsSeen(cfg, ts, k);
    }
  }

  lemma ClockPrefix(ts: seq<Tick>, t: Tick)
    requires ClockRuns(ts + [t])
    ensures ClockRuns(ts)
  {
    var us := ts + [t];
    assert forall i :: 0 <= i < |ts| ==> us[i] == ts[i];
  }

  // ---------------------------------------------------------------- starting

  /** Each start since the last sighting is still held against the next one. */
  lemma {:induction false} StartsAreHeld(cfg: Config, ts: seq<Tick>)
    ensures StartsSinceSighting(cfg, ts) <= Run(cfg, ts).failed
  {
    if ts != [] {
      StartsAreHeld(cfg, ts[..|ts| - 1]);
    }
  }

  /** `_last_action_at` is no earlier than any action of the history. */
  lemma {:induction false} LastActionIsLast(cfg: Config, ts: seq<Tick>, j: nat)
    requires ClockRuns(ts) && j < |ts| && (Did(cfg, ts, j).stopped || Did(cfg, ts, j).started)
    ensures Run(cfg, ts).lastAction.Some? && Run(cfg, ts).lastAction.value >= ActedAt(ts[j], Did(cfg, ts, j))
  {
    var before, t := ts[..|ts| - 1], ts[|ts| - 1];
    assert ts == before + [t];
    RunSnoc(cfg, before, t);
    StepMovesLastAction(cfg, Run(cfg, before), t);
    if j < |before| {
      ClockPrefix(before, t);
      LastActionIsLast(cfg, before, j);
      assert ts[j] == before[j];
      ActsByEnd(ts[j], Did(cfg, ts, j));
      assert ts[j].startNow <= ts[|before|].now;
    }
  }

  /** One tick leaves `_last_action_at` alone or sets it to when it acted. */
  lemma StepMovesLastAction(cfg: Config, s: State, t: Tick)
    ensures var r := Step(cfg, s, t);
            r.state.lastAction == if r.stopped || r.started then Some(ActedAt(t, r)) else s.lastAction
  {
  }

  lemma ActsByEnd(t: Tick, r: Result)
    requires t.now <= t.startNow
    ensures t.now <= ActedAt(t, r) <= t.startNow
  {
  }

  lemma {:induction false} Pow2Grows(m: nat, n: nat)
    requires m <= n
    ensures Pow2(m) <= Pow2(n)
  {
    if m < n {
      Pow2Grows(m, n - 1);
    }
  }

  lemma BackoffGrows(cfg: Config, m: nat, n: nat)
    requires m <= n && cfg.cooldown >= 0.0
    ensures Backoff(cfg, m) <= Backoff(cfg, n)
  {
    Pow2Grows(Min(m, 5), Min(n, 5));
    var x, y := Pow2(Min(m, 5)) as real, Pow2(Min(n, 5)) as real;
    assert x <= y;
    assert cfg.cooldown * (y - x) >= 0.0;
  }

  /** After every history with `k` starts since the server was last sighted, a start comes at least the
      cooldown times `2^min(k, 5)` after every earlier stop or start; and it answers a count of waiting
      jobs that reached the threshold, on a server its own probe found not serving. */
  lemma StartsBackOff(cfg: Config, ts: seq<Tick>, t: Tick, j: nat)
    requires ClockRuns(ts) && cfg.cooldown >= 0.0
    requires Step(cfg, Run(cfg, ts), t).started
    ensures t.startPending.Count? && t.startPending.jobs > 0
    ensures t.minQueue.Some? && t.startPending.jobs >= t.minQueue.value
    ensures t.startActivity.Some? && !t.startActivity.value.served
    ensures j < |ts| && (Did(cfg, ts, j).stopped || Did(cfg, ts, j).started) ==>
              t.startNow >= ActedAt(ts[j], Did(cfg, ts, j)) +
                            Backoff(cfg, if Sighted(t) then 0 else StartsSinceSighting(cfg, ts))
  {
    if j < |ts| && (Did(cfg, ts, j).stopped || Did(cfg, ts, j).started) {
      LastActionIsLast(cfg, ts, j);
      StartsAreHeld(cfg, ts);
      var k := if Sighted(t) then 0 else StartsSinceSighting(cfg, ts);
      var s1 := StopOnce(cfg, Run(cfg, ts), t).0;
      BackoffGrows(cfg, k, s1.failed);
    }
  }

  /** A sighting forgets the earlier starts exactly when it shows use, or nothing is left to compare it
      with: when there is no earlier sighting since which the server was neither seen used, nor gone,
      nor stopped. */
  lemma SightingResetsExactly(cfg: Config, ts: seq<Tick>, t: Tick)
    requires ClockRuns(ts + [t]) && Sighted(t) && Run(cfg, ts).failed > 0
    ensures StopOnce(cfg, Run(cfg, ts), t).0.failed == 0 <==>
            !exists k: nat :: UnusedSince(cfg, ts, k) && Quiet(t, ts[k].activity.value.finished)
  {
    if StopOnce(cfg, Run(cfg, ts), t).0.failed != 0 {
      var k := SeenComesFromSighting(cfg, ts);
      assert UnusedSince(cfg, ts, k) && Quiet(t, ts[k].activity.value.finished);
    }
    forall k: nat | UnusedSince(cfg, ts, k) && Quiet(t, ts[k].activity.value.finished)
      ensures StopOnce(cfg, Run(cfg, ts), t).0.failed != 0
    {
      ClockPrefix(ts, t);
      SightingIsSeen(cfg, ts, k);
    }
  }

  // ---------------------------------------------------------------- starting, exactly

  /** A sighting that forgets the starts before it. */
  ghost predicate Resets(cfg: Config, ts: seq<Tick>, t: Tick) {
    Sighted(t) && !exists k: nat :: UnusedSince(cfg, ts, k) && Quiet(t, ts[k].activity.value.finished)
  }

  /** Starts of the history not forgotten since. */
  ghost function StartsHeld(cfg: Config, ts: seq<Tick>): nat {
    if ts == [] then 0
    else
      var before, t := ts[..|ts| - 1], ts[|ts| - 1];
      (if Resets(cfg, before, t) then 0 else StartsHeld(cfg, before)) +
      (if Step(cfg, Run(cfg, before), t).started then 1 else 0)
  }

  lemma StopCounts(cfg: Config, ts: seq<Tick>, t: Tick)
    requires ClockRuns(ts + [t])
    ensures StopOnce(cfg, Run(cfg, ts), t).0.failed == if Resets(cfg, ts, t) then 0 else Run(cfg, ts).failed
  {
    if Sighted(t) && Run(cfg, ts).failed > 0 {
      SightingResetsExactly(cfg, ts, t);
    }
  }

  lemma {:induction false} FailedIsStartsHeld(cfg: Config, ts: seq<Tick>)
    requires ClockRuns(ts)
    ensures Run(cfg, ts).failed == StartsHeld(cfg, ts)
  {
    if ts != [] {
      var before, t := ts[..|ts| - 1], ts[|ts| - 1];
      assert ts == before + [t];
      ClockPrefix(before, t);
      FailedIsStartsHeld(cfg, before);
      StopCounts(cfg, before, t);
      StepCounts(cfg, Run(cfg, before), t);
    }
  }

  lemma StepCounts(cfg: Config, s: State, t: Tick)
    ensures var r := Step(cfg, s, t);
            r.state.failed == StopOnce(cfg, s, t).0.failed + if r.started then 1 else 0
  {
  }

  ghost predicate Acted(cfg: Config, ts: seq<Tick>, j: nat) {
    j < |ts| && (Did(cfg, ts, j).stopped || Did(cfg, ts, j).started)
  }

  lemma {:induction false} LastActionWasOne(cfg: Config, ts: seq<Tick>) returns (j: nat)
    requires Run(cfg, ts).lastAction.Some?
    ensures Acted(cfg, ts, j) && Run(cfg, ts).lastAction.value == ActedAt(ts[j], Did(cfg, ts, j))
  {
    var before, t := ts[..|ts| - 1], ts[|ts| - 1];
    assert ts == before + [t];
    RunSnoc(cfg, before, t);
    StepMovesLastAction(cfg, Run(cfg, before), t);
    if Did(cfg, ts, |before|).stopped || Did(cfg, ts, |before|).started {
      j := |before|;
    } else {
      j := LastActionWasOne(cfg, before);
    }
  }

  /** Every earlier stop or start is at least `wait` before the moment `at`. */
  ghost predicate AllAgo(cfg: Config, ts: seq<Tick>, at: real, wait: real) {
    forall j: nat :: Acted(cfg, ts, j) ==> at - ActedAt(ts[j], Did(cfg, ts, j)) >= wait
  }

  lemma CoolsDownExactly(cfg: Config, ts: seq<Tick>, at: real, wait: real)
    requires ClockRuns(ts)
    ensures AllAgo(cfg, ts, at, wait) <==>
            (Run(cfg, ts).lastAction.Some? ==> at - Run(cfg, ts).lastAction.value >= wait)
  {
    if Run(cfg, ts).lastAction.Some? {
      var j := LastActionWasOne(cfg, ts);
    }
    forall j: nat | Acted(cfg, ts, j)
      ensures Run(cfg, ts).lastAction.Some? && Run(cfg, ts).lastAction.value >= ActedAt(ts[j], Did(cfg, ts, j))
    {
      LastActionIsLast(cfg, ts, j);
    }
  }

  /** What the start side's own probes must answer: the gate is not closed, the server does not serve, and a
      count of waiting jobs was read that is positive and reaches the threshold that was read. */
  predicate StartIsWanted(cfg: Config, t: Tick) {
    && cfg.canStart && cfg.countsPending && !(cfg.gated && t.mayStart == Some(false))
    && t.startActivity.Some? && !t.startActivity.value.served
    && t.startPending.Count? && t.minQueue.Some?
    && t.startPending.jobs > 0 && t.startPending.jobs >= t.minQueue.value
  }

  /** After every history a tick starts the server exactly when it stopped none, a start is wanted and
      succeeds, and every earlier stop or start is at least the backoff for the starts still held ago. */
  lemma StartsExactly(cfg: Config, ts: seq<Tick>, t: Tick)
    requires ClockRuns(ts + [t])
    ensures var r := Step(cfg, Run(cfg, ts), t);
            var held := if Resets(cfg, ts, t) then 0 else StartsHeld(cfg, ts);
            r.started <==>
              !r.stopped && StartIsWanted(cfg, t) && t.startWorks && AllAgo(cfg, ts, t.startNow, Backoff(cfg, held))
  {
    ClockPrefix(ts, t);
    FailedIsStartsHeld(cfg, ts);
    StopCounts(cfg, ts, t);
    var held := if Resets(cfg, ts, t) then 0 else StartsHeld(cfg, ts);
    CoolsDownExactly(cfg, ts, t.startNow, Backoff(cfg, held));
    var (s1, stopped) := StopOnce(cfg, Run(cfg, ts), t);
    if !stopped {
      StopKeepsLastAction(cfg, Run(cfg, ts), t);
      StartsFrom(cfg, s1, t);
    }
  }

  lemma StopKeepsLastAction(cfg: Config, s: State, t: Tick)
    requires !StopOnce(cfg, s, t).1
    ensures StopOnce(cfg, s, t).0.lastAction == s.lastAction
  {
  }

  lemma StartsFrom(cfg: Config, s: State, t: Tick)
    ensures StartOnce(cfg, s, t).1 <==>
            && StartIsWanted(cfg, t) && t.startWorks
            && (s.lastAction.Some? ==> t.startNow - s.lastAction.value >= Backoff(cfg, s.failed))
  {
  }

  /** The backoff is the cooldown, doubled for each held start up to the fifth. */
  lemma BackoffDoubles(cfg: Config, held: nat)
    ensures Backoff(cfg, 0) == cfg.cooldown
    ensures held < 5 ==> Backoff(cfg, held + 1) == 2.0 * Backoff(cfg, held)
    ensures held >= 5 ==> Backoff(cfg, held) == 32.0 * cfg.cooldown
  {
    assert Pow2(1) == 2 && Pow2(2) == 4 && Pow2(3) == 8 && Pow2(4) == 16 && Pow2(5) == 32;
  }

  /** The other case does occur: seen serving, a failed probe during which a start is asked for, seen
      serving again with no use in between. The start is still held against the next one. */
  lemma SightingAloneKeepsBackoff()
    ensures exists cfg: Config, ts: seq<Tick> ::
              && ClockRuns(ts) && ts != [] && Sighted(ts[|ts| - 1])
              && StartsSinceSighting(cfg, ts) == 0 && Run(cfg, ts).failed == 1
  {
    var cfg := Config(300.0, 120.0, true, true, false);
    var up, down := Some(Activity(true, 0, 7)), Some(Activity(false, 0, 0));
    var seen := Tick(up, 0.0, Some(0), Count(0), true, None, 0.0, up, Count(0), Some(1), true);
    var blink := Tick(None, 10.0, Some(0), Count(0), true, None, 10.0, down, Count(1), Some(1), true);
    var back := Tick(up, 20.0, Some(0), Count(0), true, None, 20.0, up, Count(0), Some(1), true);
    RunSnoc(cfg, [], seen);
    RunSnoc(cfg, [seen], blink);
    RunSnoc(cfg, [seen, blink], back);
    assert [] + [seen] == [seen] && [seen] + [blink] == [seen, blink];
    var ts := [seen, blink] + [back];
    assert Run(cfg, [seen]) == State(Some((7, 0.0)), None, 0);
    assert Run(cfg, [seen, blink]) == State(Some((7, 0.0)), Some(10.0), 1);
    assert Run(cfg, ts).failed == 1 && ts[|ts| - 1] == back;
    assert ClockRuns(ts);
  }

  // ---------------------------------------------------------------- the object

  class VllmIdleStopper {
    const cfg: Config
    var seen: Option<(int, real)>
    var lastAction: Option<real>
    var failed: nat

    function View(): State reads this { State(seen, lastAction, failed) }

    constructor (cfg: Config)
      ensures this.cfg == cfg && View() == INITIAL
    {
      this.cfg := cfg;
      seen := None;
      lastAction := None;
      failed := 0;
    }

    method StopIdleOnce(t: Tick) returns (stopped: bool)
      modifies this
      ensures (View(), stopped) == StopOnce(cfg, old(View()), t)
    {
      if t.activity.None? {
        return false;
      }
      var a := t.activity.value;
      if !a.served {
        seen := None;
        return false;
      }
      if seen.None? || a.finished > seen.value.0 || a.running > 0 {
        failed := 0;
        seen := Some((a.finished, t.now));
        return false;
      }
      var idle := t.now - seen.value.1;
      var active := if t.active.Some? then t.active.value else 0;
      if !ShouldStop(a.served, a.running, active, idle, cfg.ttl) {
        return false;
      }
      if cfg.countsPending {
        if !t.pending.Count? || t.pending.jobs > 0 {
          return false;
        }
      }
      if !t.stopWorks {
        return false;
      }
      seen := None;
      lastAction := Some(t.now);
      return true;
    }

    method StartIfWantedOnce(t: Tick) returns (started: bool)
      modifies this
      ensures (View(), started) == StartOnce(cfg, old(View()), t)
    {
      if !cfg.canStart || !cfg.countsPending {
        return false;
      }
      if cfg.gated && t.mayStart.Some? && !t.mayStart.value {
        return false;
      }
      var cooldown := cfg.cooldown * Pow2(Min(failed, 5)) as real;
      if lastAction.Some? && t.startNow - lastAction.value < cooldown {
        return false;
      }
      if t.startActivity.None? || t.startActivity.value.served {
        return false;
      }
      if t.startPending.Raises? || t.minQueue.None? {
        return false;
      }
      if !ShouldStart(false, Jobs(t.startPending), t.minQueue.value) || !t.startWorks {
        return false;
      }
      lastAction := Some(t.startNow);
      failed := failed + 1;
      return true;
    }

    /** `tick`: never both a stop and a start, and the state the specification gives. */
    method DoTick(t: Tick) returns (stopped: bool, started: bool)
      modifies this
      ensures Result(View(), stopped, started) == Step(cfg, old(View()), t)
      ensures !(stopped && started)
    {
      started := false;
      stopped := StopIdleOnce(t);
      if !stopped {
        started := StartIfWantedOnce(t);
      }
    }
  }
}
