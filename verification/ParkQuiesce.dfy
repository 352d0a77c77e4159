/** The watchdog that clears the card of a parked box (`ParkQuiesce` of `llm_idle_unload.py`):
    it holds off while the worker's own jobs drain, but never beyond a ceiling. */
module ParkQuiesce {
  import opened Base

  /** One pass's probe answers; `None` is a probe that is absent or raised. */
  datatype Tick = Tick(
    inFlight: Option<int>, now: real,
    served: Option<bool>, containerUp: Option<bool>, stopWorks: bool,
    models: Option<set<string>>, unloadWorks: bool)

  datatype Outcome = Withheld | Cleared(stopped: bool, unloaded: set<string>)

  /** `_own_work_in_flight` counts an unreadable probe as no work. */
  predicate Busy(t: Tick) { t.inFlight.Some? && t.inFlight.value > 0 }

  function Clear(t: Tick): Outcome {
    var up := t.served == Some(true) || t.containerUp == Some(true);
    Cleared(up && t.stopWorks, if t.models.Some? && t.unloadWorks then t.models.value else {})
  }

  function Since(since: Option<real>, t: Tick): Option<real> {
    if !Busy(t) then None else if since.Some? then since else Some(t.now)
  }

  function Pass(ceiling: real, since: Option<real>, t: Tick): (Option<real>, Outcome) {
    var since1 := Since(since, t);
    (since1, if since1.Some? && t.now - since1.value < ceiling then Withheld else Clear(t))
  }

  function Run(ts: seq<Tick>): Option<real> {
    if ts == [] then None else Since(Run(ts[..|ts| - 1]), ts[|ts| - 1])
  }

  /** The probe counted at least one job of the worker's own. */
  ghost predicate OwnWork(t: Tick) {
    t.inFlight.Some? && t.inFlight.value >= 1
  }

  lemma BusyIsOwnWork(t: Tick)
    ensures Busy(t) <==> OwnWork(t)
  {
  }

  /** Tick `k` begins the unbroken stretch of busy ticks that the history ends with. */
  ghost predicate StretchBegins(ts: seq<Tick>, k: nat) {
    && k < |ts|
    && (forall j :: k <= j < |ts| ==> OwnWork(ts[j]))
    && (k > 0 ==> !OwnWork(ts[k - 1]))
  }

  lemma {:induction false} SinceIsStretch(ts: seq<Tick>, k: nat)
    requires StretchBegins(ts, k)
    ensures Run(ts) == Some(ts[k].now)
  {
    var before := ts[..|ts| - 1];
    assert OwnWork(ts[|ts| - 1]);
    BusyIsOwnWork(ts[|ts| - 1]);
    if k > 0 { BusyIsOwnWork(ts[k - 1]); }
    if k < |before| {
      assert before[k] == ts[k] && (k > 0 ==> before[k - 1] == ts[k - 1]);
      SinceIsStretch(before, k);
    } else if k > 0 {
      assert before[k - 1] == ts[k - 1];
    }
  }

  lemma {:induction false} StretchExists(ts: seq<Tick>) returns (k: nat)
    requires ts != [] && OwnWork(ts[|ts| - 1])
    ensures StretchBegins(ts, k)
  {
    var before := ts[..|ts| - 1];
    if before == [] || !OwnWork(before[|before| - 1]) {
      k := |before|;
    } else {
      k := StretchExists(before);
      forall j | k <= j < |ts|
        ensures OwnWork(ts[j])
      {
        if j < |before| { assert ts[j] == before[j]; }
      }
    }
  }

  /** After every history, a pass is withheld exactly when it ends an unbroken busy stretch that began
      less than the ceiling ago. Otherwise it stops a server that serves or is still loading, and unloads
      every model it can list. */
  lemma WithheldExactlyWhileDraining(ceiling: real, ts: seq<Tick>, t: Tick)
    ensures Pass(ceiling, Run(ts), t).1 == Withheld <==>
            exists k: nat :: StretchBegins(ts + [t], k) && t.now - (ts + [t])[k].now < ceiling
    ensures Pass(ceiling, Run(ts), t).1 != Withheld ==>
            && (Pass(ceiling, Run(ts), t).1.stopped <==>
                t.stopWorks && (t.served == Some(true) || t.containerUp == Some(true)))
            && (t.models.Some? && t.unloadWorks ==> Pass(ceiling, Run(ts), t).1.unloaded == t.models.value)
  {
    var us := ts + [t];
    assert us[..|ts|] == ts && us[|ts|] == t;
    assert Run(us) == Since(Run(ts), t);
    BusyIsOwnWork(t);
    if OwnWork(t) {
      var k := StretchExists(us);
      SinceIsStretch(us, k);
      if Pass(ceiling, Run(ts), t).1 == Withheld {
        assert StretchBegins(us, k) && t.now - us[k].now < ceiling;
      }
      forall m: nat | StretchBegins(us, m)
        ensures us[m].now == us[k].now
      {
        SinceIsStretch(us, m);
      }
    } else {
      forall m: nat
        ensures !StretchBegins(us, m)
      {
        if m < |us| { assert !OwnWork(us[|ts|]); }
      }
    }
  }

  class Watchdog {
    const ceiling: real
    var holdingSince: Option<real>

    constructor (ceiling: real)
      ensures this.ceiling == ceiling && holdingSince == Run([])
    {
      this.ceiling := ceiling;
      holdingSince := None;
    }

    method OnTick(t: Tick) returns (outcome: Outcome)
      modifies this
      ensures (holdingSince, outcome) == Pass(ceiling, old(holdingSince), t)
    {
      if Busy(t) {
        if holdingSince.None? {
          holdingSince := Some(t.now);
        }
        if t.now - holdingSince.value < ceiling {
          return Withheld;
        }
      } else {
        holdingSince := None;
      }
      var served := t.served.Some? && t.served.value;
      var loading := !served && t.containerUp.Some? && t.containerUp.value;
      var stopped := (served || loading) && t.stopWorks;
      var unloaded := {};
      if t.models.Some? && t.unloadWorks {
        unloaded := t.models.value;
      }
      outcome := Cleared(stopped, unloaded);
    }
  }
}
