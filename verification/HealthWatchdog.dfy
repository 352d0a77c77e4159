/** `GpuHealthWatchdog`: trips a GPU job only when a whole window passed with an idle GPU and
    static RAM. A run is a time-ordered sequence of progress beats and polls on a virtual clock;
    every sampled value is part of the event. */
module HealthWatchdog {
  import opened Base

  datatype Config = Config(interval: real, grace: real, idlePct: int, ramDelta: int)

  /** A poll carries its utilisation sample, the RAM read at an evaluation, and the RAM the next
      window would be anchored at. */
  datatype Event =
    | Beat(at: real, ram: Option<int>)
    | Poll(at: real, util: int, ram: Option<int>, anchor: Option<int>)

  /** `first` is how many events had happened when the current window was opened; the window
      opened by `start` has 0. */
  datatype State = State(
    maxUtil: int,
    anchor: Option<int>,
    openedAt: real,
    nextCheckpoint: real,
    first: nat,
    tripped: bool)

  function OpenWindow(now: real, window: real, ram: Option<int>, first: nat): State {
    State(0, ram, now, now + window, first, false)
  }

  predicate RamMoved(anchor: Option<int>, now: Option<int>, delta: int) {
    && anchor.Some? && now.Some?
    && (now.value - anchor.value > delta || anchor.value - now.value > delta)
  }

  /** One beat, or one pass of the polling loop; `n` is the number of events including this one. */
  function Step(cfg: Config, s: State, e: Event, n: nat): State {
    if s.tripped then s
    else
      match e
      case Beat(at, ram) => OpenWindow(at, cfg.interval, ram, n)
      case Poll(at, util, ram, anchor) =>
        var peak := if util > s.maxUtil then util else s.maxUtil;
        if at < s.nextCheckpoint then s.(maxUtil := peak)
        else if peak <= cfg.idlePct && !RamMoved(s.anchor, ram, cfg.ramDelta) then s.(maxUtil := peak, tripped := true)
        else OpenWindow(at, cfg.interval, anchor, n)
  }

  /** `start` at time `t0` with RAM sample `ram0`, then the events. */
  function Execute(cfg: Config, t0: real, ram0: Option<int>, events: seq<Event>): State {
    if events == [] then OpenWindow(t0, cfg.grace, ram0, 0)
    else Step(cfg, Execute(cfg, t0, ram0, events[..|events| - 1]), events[|events| - 1], |events|)
  }

  ghost predicate InOrder(t0: real, events: seq<Event>) {
    && (forall i :: 0 <= i < |events| ==> t0 <= events[i].at)
    && (forall i, j :: 0 <= i < j < |events| ==> events[i].at <= events[j].at)
  }

  function TimeOf(t0: real, events: seq<Event>, k: nat): real
    requires k <= |events|
  {
    if k == 0 then t0 else events[k - 1].at
  }

  function WindowOf(cfg: Config, first: nat): real {
    if first == 0 then cfg.grace else cfg.interval
  }

  /** The RAM a window opened by event `k` is anchored at. */
  function AnchorOf(ram0: Option<int>, events: seq<Event>, k: nat): Option<int>
    requires k <= |events|
  {
    if k == 0 then ram0
    else match events[k - 1] case Beat(_, ram) => ram case Poll(_, _, _, anchor) => anchor
  }

  /** The state knows its window: since event `first` there were only polls, none above `maxUtil`. */
  ghost predicate KnowsWindow(cfg: Config, t0: real, ram0: Option<int>, events: seq<Event>, s: State) {
    && s.first <= |events|
    && s.openedAt == TimeOf(t0, events, s.first)
    && s.nextCheckpoint == s.openedAt + WindowOf(cfg, s.first)
    && s.anchor == AnchorOf(ram0, events, s.first)
    && (forall i :: s.first <= i < |events| ==> events[i].Poll? && events[i].util <= s.maxUtil)
  }

  lemma {:induction false} ExecuteKnowsWindow(cfg: Config, t0: real, ram0: Option<int>, events: seq<Event>)
    ensures var s := Execute(cfg, t0, ram0, events);
            !s.tripped ==> KnowsWindow(cfg, t0, ram0, events, s)
  {
    if events != [] {
      ExecuteKnowsWindow(cfg, t0, ram0, events[..|events| - 1]);
    }
  }

  /** Two RAM readings within the delta of each other, or not both there. */
  ghost predicate Static(a: Option<int>, b: Option<int>, delta: int) {
    a.Some? && b.Some? ==> a.value <= b.value + delta && b.value <= a.value + delta
  }

  /** A trip is justified: the event that trips is a poll; since some event `k` (the start, a beat
      or a healthy evaluation) a full window has passed; in it there was no beat and every sample,
      this one included, was at or under the idle threshold; and RAM is where that window anchored
      it, within the delta, or could not be read. */
  lemma TripIsJustified(cfg: Config, t0: real, ram0: Option<int>, events: seq<Event>, e: Event)
    returns (k: nat)
    requires !Execute(cfg, t0, ram0, events).tripped && Execute(cfg, t0, ram0, events + [e]).tripped
    ensures k <= |events| && e.Poll?
    ensures e.at >= TimeOf(t0, events, k) + WindowOf(cfg, k)
    ensures forall i :: k <= i < |events| ==> events[i].Poll? && events[i].util <= cfg.idlePct
    ensures e.util <= cfg.idlePct && Static(AnchorOf(ram0, events, k), e.ram, cfg.ramDelta)
  {
    assert (events + [e])[..|events|] == events;
    ExecuteKnowsWindow(cfg, t0, ram0, events);
    k := Execute(cfg, t0, ram0, events).first;
  }

  // ---------------------------------------------------------------- a wedged job is tripped

  /** From time `from` on: no beat, no sample above idle, and no two RAM samples apart by more than
      the delta. */
  ghost predicate WedgedFrom(cfg: Config, events: seq<Event>, from: real) {
    && (forall i :: 0 <= i < |events| && events[i].at >= from ==> events[i].Poll? && events[i].util <= cfg.idlePct)
    && (forall i, j :: 0 <= i < j < |events| && events[i].at >= from && events[j].at >= from
                       && events[i].Poll? && events[j].Poll? ==>
          Static(events[i].anchor, events[j].ram, cfg.ramDelta))
  }

  ghost predicate PolledEvery(t0: real, events: seq<Event>, poll: real) {
    forall k :: 0 <= k < |events| ==> Prompt(t0, events, k, poll)
  }

  /** Event `k` comes within one poll of the event before it. */
  ghost predicate Prompt(t0: real, events: seq<Event>, k: nat, poll: real)
    requires k < |events|
  {
    events[k].at <= TimeOf(t0, events, k) + poll
  }

  /** What is known of a watchdog not yet tripped, `from` being the wedge and `now` the last event:
      its checkpoint is ahead, and if its window opened after the wedge it saw only idle samples. */
  ghost predicate Closing(cfg: Config, events: seq<Event>, s: State, from: real, now: real, poll: real) {
    && s.openedAt <= now < s.nextCheckpoint
    && s.first <= |events|
    && (s.openedAt < from || s.first == 0 ==> s.nextCheckpoint <= from + MaxR(cfg.grace, cfg.interval))
    && (s.openedAt >= from && s.first > 0 ==>
          && s.maxUtil <= cfg.idlePct
          && events[s.first - 1].Poll? && events[s.first - 1].at >= from
          && s.anchor == events[s.first - 1].anchor
          && s.nextCheckpoint <= from + MaxR(cfg.grace, cfg.interval) + poll + cfg.interval)
  }

  lemma ClosingStep(cfg: Config, before: seq<Event>, s: State, e: Event, from: real, now: real, poll: real)
    requires cfg.interval > 0.0 && poll >= 0.0 && cfg.idlePct >= 0 && !s.tripped
    requires Closing(cfg, before, s, from, now, poll) && now <= e.at <= now + poll
    requires e.at >= from ==>
               && e.Poll? && e.util <= cfg.idlePct
               && (s.openedAt >= from && s.first > 0 ==> Static(s.anchor, e.ram, cfg.ramDelta))
    ensures var s' := Step(cfg, s, e, |before| + 1);
            s'.tripped || Closing(cfg, before + [e], s', from, e.at, poll)
  {
    var after := before + [e];
    assert after[|before|] == e;
    if s.first > 0 {
      assert after[s.first - 1] == before[s.first - 1];
    }
  }

  lemma {:induction false} WedgeCloses(cfg: Config, t0: real, ram0: Option<int>, events: seq<Event>, from: real,
      poll: real)
    requires cfg.interval > 0.0 && cfg.grace > 0.0 && cfg.idlePct >= 0 && from >= t0 && poll >= 0.0
    requires InOrder(t0, events) && WedgedFrom(cfg, events, from) && PolledEvery(t0, events, poll)
    ensures var s := Execute(cfg, t0, ram0, events);
            s.tripped || Closing(cfg, events, s, from, TimeOf(t0, events, |events|), poll)
  {
    if events != [] {
      var before, e := events[..|events| - 1], events[|events| - 1];
      PrefixFacts(cfg, t0, events, from, poll);
      WedgeCloses(cfg, t0, ram0, before, from, poll);
      assert events == before + [e];
      ExecuteSnoc(cfg, t0, ram0, before, e);
      if !Execute(cfg, t0, ram0, before).tripped {
        WedgeStep(cfg, t0, before, Execute(cfg, t0, ram0, before), e, from, poll);
      }
    }
  }

  lemma ExecuteSnoc(cfg: Config, t0: real, ram0: Option<int>, s: seq<Event>, e: Event)
    ensures Execute(cfg, t0, ram0, s + [e]) == Step(cfg, Execute(cfg, t0, ram0, s), e, |s| + 1)
    ensures TimeOf(t0, s + [e], |s| + 1) == e.at
  {
    assert (s + [e])[..|s|] == s;
  }

  lemma WedgeStep(cfg: Config, t0: real, before: seq<Event>, s: State, e: Event, from: real, poll: real)
    requires cfg.interval > 0.0 && cfg.idlePct >= 0 && poll >= 0.0 && !s.tripped
    requires WedgedFrom(cfg, before + [e], from)
    requires TimeOf(t0, before, |before|) <= e.at <= TimeOf(t0, before, |before|) + poll
    requires Closing(cfg, before, s, from, TimeOf(t0, before, |before|), poll)
    ensures var s' := Step(cfg, s, e, |before| + 1);
            s'.tripped || Closing(cfg, before + [e], s', from, e.at, poll)
  {
    LastEventFacts(cfg, before + [e], from, s.first);
    if s.first > 0 {
      assert (before + [e])[s.first - 1] == before[s.first - 1];
    }
    ClosingStep(cfg, before, s, e, from, TimeOf(t0, before, |before|), poll);
  }

  lemma LastEventFacts(cfg: Config, events: seq<Event>, from: real, k: nat)
    requires events != [] && WedgedFrom(cfg, events, from) && k < |events|
    ensures var e := events[|events| - 1];
            e.at >= from ==>
              && e.Poll? && e.util <= cfg.idlePct
              && (0 < k && events[k - 1].Poll? && events[k - 1].at >= from ==>
                    Static(events[k - 1].anchor, e.ram, cfg.ramDelta))
  {
  }

  lemma PrefixFacts(cfg: Config, t0: real, events: seq<Event>, from: real, poll: real)
    requires events != [] && InOrder(t0, events) && WedgedFrom(cfg, events, from) && PolledEvery(t0, events, poll)
    ensures var before := events[..|events| - 1];
            && InOrder(t0, before) && WedgedFrom(cfg, before, from) && PolledEvery(t0, before, poll)
            && TimeOf(t0, before, |before|) <= events[|events| - 1].at <= TimeOf(t0, before, |before|) + poll
  {
    var before := events[..|events| - 1];
    forall k | 0 <= k < |before|
      ensures Prompt(t0, before, k, poll)
    {
      assert Prompt(t0, events, k, poll);
    }
    assert Prompt(t0, events, |events| - 1, poll);
  }

  /** A job wedged from time `from` on, under polls at most `poll` apart, has been tripped by the
      first event at or after `from` + max(load grace, interval) + interval + one poll; such an
      event comes within one further poll. */
  lemma WedgedJobIsTripped(cfg: Config, t0: real, ram0: Option<int>, events: seq<Event>, from: real, poll: real)
    requires cfg.interval > 0.0 && cfg.grace > 0.0 && cfg.idlePct >= 0 && from >= t0 && poll >= 0.0
    requires InOrder(t0, events) && WedgedFrom(cfg, events, from) && PolledEvery(t0, events, poll)
    requires TimeOf(t0, events, |events|) >= from + MaxR(cfg.grace, cfg.interval) + cfg.interval + poll
    ensures Execute(cfg, t0, ram0, events).tripped
  {
    WedgeCloses(cfg, t0, ram0, events, from, poll);
  }

  // ---------------------------------------------------------------- the watchdog as it runs

  class Watchdog {
    const cfg: Config
    var maxUtil: int
    var anchor: Option<int>
    var nextCheckpoint: real
    var tripped: bool

    /** `start`: armed at once, with the load grace as its first window. */
    constructor (cfg: Config, now: real, ram: Option<int>)
      ensures this.cfg == cfg && Matches(OpenWindow(now, cfg.grace, ram, 0))
    {
      this.cfg := cfg;
      maxUtil := 0;
      anchor := ram;
      nextCheckpoint := now + cfg.grace;
      tripped := false;
    }

    predicate Matches(s: State)
      reads this
    {
      maxUtil == s.maxUtil && anchor == s.anchor && nextCheckpoint == s.nextCheckpoint && tripped == s.tripped
    }

    method ResetWindow(now: real, ram: Option<int>)
      modifies this
      ensures maxUtil == 0 && anchor == ram && nextCheckpoint == now + cfg.interval && tripped == old(tripped)
    {
      maxUtil := 0;
      anchor := ram;
      nextCheckpoint := now + cfg.interval;
    }

    method OnBeat(now: real, ram: Option<int>, ghost s: State, ghost n: nat)
      requires Matches(s) && !tripped
      modifies this
      ensures Matches(Step(cfg, s, Beat(now, ram), n))
    {
      ResetWindow(now, ram);
    }

    /** One pass of `_loop`, with `_evaluate_window_locked`; true when it tripped. */
    method OnPoll(now: real, util: int, ram: Option<int>, rescan: Option<int>, ghost s: State, ghost n: nat)
        returns (trip: bool)
      requires Matches(s) && !tripped
      modifies this
      ensures Matches(Step(cfg, s, Poll(now, util, ram, rescan), n))
      ensures trip == tripped
    {
      if util > maxUtil {
        maxUtil := util;
      }
      if now < nextCheckpoint {
        return false;
      }
      if maxUtil <= cfg.idlePct && !RamMoved(anchor, ram, cfg.ramDelta) {
        tripped := true;
        return true;
      }
      ResetWindow(now, rescan);
      trip := false;
    }
  }
}
