/** Absence is debounced, presence is trusted at once: the miss counters behind a box's resident
    models and behind its advertised LLM server kind, against sliding windows over the snapshots. */
module Debounce {
  import opened Base

  /** What was seen in any of the last `n` snapshots. */
  function Window<T(==)>(history: seq<set<T>>, n: nat): set<T> {
    if n == 0 || history == [] then {}
    else history[|history| - 1] + Window(history[..|history| - 1], n - 1)
  }

  /** `x` is in one of the last `n` snapshots. */
  ghost predicate InLast<T>(history: seq<set<T>>, n: nat, x: T) {
    exists i :: 0 <= i < |history| && |history| - n <= i && x in history[i]
  }

  lemma {:induction false} WindowMember<T>(history: seq<set<T>>, n: nat, x: T)
    ensures x in Window(history, n) <==> InLast(history, n, x)
  {
    if n > 0 && history != [] {
      var before := history[..|history| - 1];
      WindowMember(before, n - 1, x);
      if x in Window(before, n - 1) {
        var i :| 0 <= i < |before| && |before| - (n - 1) <= i && x in before[i];
        assert x in history[i];
      }
      if InLast(history, n, x) {
        var i :| 0 <= i < |history| && |history| - n <= i && x in history[i];
        if i < |before| { assert x in before[i]; }
      }
    }
  }

  lemma {:induction false} WindowGrows<T>(history: seq<set<T>>, m: nat, n: nat)
    requires m <= n
    ensures Window(history, m) <= Window(history, n)
  {
    if m > 0 && history != [] {
      WindowGrows(history[..|history| - 1], m - 1, n - 1);
    }
  }

  lemma WindowSnoc<T>(history: seq<set<T>>, seen: set<T>, n: nat)
    requires n > 0
    ensures Window(history + [seen], n) == seen + Window(history, n - 1)
  {
    assert (history + [seen])[..|history|] == history;
  }

  // ---------------------------------------------------------------- resident models

  function MissesOf<T(==)>(misses: map<T, nat>, x: T): nat {
    if x in misses then misses[x] else 0
  }

  /** `x` was last seen `age` snapshots before the last one. */
  ghost predicate LastSeen<T(!new)>(history: seq<set<T>>, x: T, age: nat) {
    x in Window(history, age + 1) && x !in Window(history, age)
  }

  /** The held set is the window, and each miss counter is the model's age. */
  ghost predicate Tracks<T(!new)>(limit: nat, history: seq<set<T>>, misses: map<T, nat>, held: set<T>) {
    && held == Window(history, limit)
    && (forall x :: x in held ==> LastSeen(history, x, MissesOf(misses, x)))
    && misses.Keys <= held
  }

  /** Who survives one more snapshot. */
  function Surviving<T(==)>(limit: nat, misses: map<T, nat>, held: set<T>, seen: set<T>): set<T> {
    set x | x in held && x !in seen && MissesOf(misses, x) + 1 < limit
  }

  lemma SurvivorsAreWindow<T(!new)>(limit: nat, history: seq<set<T>>, misses: map<T, nat>, held: set<T>, seen: set<T>)
    requires limit > 0 && Tracks(limit, history, misses, held)
    ensures Window(history + [seen], limit) == seen + Surviving(limit, misses, held, seen)
  {
    WindowSnoc(history, seen, limit);
    WindowGrows(history, limit - 1, limit);
    forall x | x in held
      ensures x in Window(history, limit - 1) <==> MissesOf(misses, x) + 1 < limit
    {
      var a := MissesOf(misses, x);
      assert LastSeen(history, x, a);
      if a + 1 < limit {
        WindowGrows(history, a + 1, limit - 1);
      } else {
        WindowGrows(history, limit - 1, a);
      }
    }
  }

  lemma AgesAfter<T(!new)>(limit: nat, history: seq<set<T>>, misses: map<T, nat>, held: set<T>, seen: set<T>, x: T)
    requires Tracks(limit, history, misses, held)
    ensures x in seen ==> LastSeen(history + [seen], x, 0)
    ensures x in held && x !in seen ==> LastSeen(history + [seen], x, MissesOf(misses, x) + 1)
  {
    WindowSnoc(history, seen, 1);
    if x in held && x !in seen {
      var a := MissesOf(misses, x);
      assert LastSeen(history, x, a);
      WindowSnoc(history, seen, a + 1);
      WindowSnoc(history, seen, a + 2);
    }
  }

  /** The counters after a snapshot: one more miss for each survivor. */
  ghost predicate CountsAfter<T(!new)>(
    limit: nat, misses: map<T, nat>, held: set<T>, seen: set<T>, counts: map<T, nat>)
  {
    && counts.Keys == Surviving(limit, misses, held, seen)
    && forall x :: x in counts ==> counts[x] == MissesOf(misses, x) + 1
  }

  lemma TracksAfter<T(!new)>(
    limit: nat, history: seq<set<T>>, misses: map<T, nat>, held: set<T>, seen: set<T>, counts: map<T, nat>)
    requires limit > 0 && Tracks(limit, history, misses, held) && CountsAfter(limit, misses, held, seen, counts)
    ensures Tracks(limit, history + [seen], counts, seen + Surviving(limit, misses, held, seen))
  {
    SurvivorsAreWindow(limit, history, misses, held, seen);
    forall x | x in seen + Surviving(limit, misses, held, seen)
      ensures LastSeen(history + [seen], x, MissesOf(counts, x))
    {
      AgesAfter(limit, history, misses, held, seen, x);
    }
  }

  /** Part way through ageing: `rest` is still to be aged. */
  ghost predicate Aging<T(!new)>(
    limit: nat, misses: map<T, nat>, held: set<T>, seen: set<T>, rest: set<T>, counts: map<T, nat>, next: set<T>)
  {
    && rest <= held - seen
    && next == seen + (Surviving(limit, misses, held, seen) - rest)
    && (forall x :: x in rest ==> MissesOf(counts, x) == MissesOf(misses, x))
    && (forall x :: x in counts ==> x in rest || x in Surviving(limit, misses, held, seen))
    && (forall x :: x in Surviving(limit, misses, held, seen) && x !in rest ==>
          x in counts && counts[x] == MissesOf(misses, x) + 1)
  }

  lemma AgeKeeps<T(!new)>(
    limit: nat, misses: map<T, nat>, held: set<T>, seen: set<T>, rest: set<T>, counts: map<T, nat>, next: set<T>, x: T)
    requires Aging(limit, misses, held, seen, rest, counts, next) && x in rest
    requires MissesOf(counts, x) + 1 < limit
    ensures Aging(limit, misses, held, seen, rest - {x}, counts[x := MissesOf(counts, x) + 1], next + {x})
  {
    assert x in Surviving(limit, misses, held, seen);
  }

  lemma AgeDrops<T(!new)>(
    limit: nat, misses: map<T, nat>, held: set<T>, seen: set<T>, rest: set<T>, counts: map<T, nat>, next: set<T>, x: T)
    requires Aging(limit, misses, held, seen, rest, counts, next) && x in rest
    requires MissesOf(counts, x) + 1 >= limit
    ensures Aging(limit, misses, held, seen, rest - {x}, counts - {x}, next)
  {
    assert x !in Surviving(limit, misses, held, seen);
  }

  lemma AgeStarts<T(!new)>(limit: nat, misses: map<T, nat>, held: set<T>, seen: set<T>)
    requires misses.Keys <= held
    ensures Aging(limit, misses, held, seen, held - seen, misses - seen, seen)
  {
  }

  /** The loops of `_debounce_residents`: forget the misses of what was seen, age the rest. */
  method AgeUnseen<T(==,!new)>(limit: nat, misses: map<T, nat>, held: set<T>, seen: set<T>)
    returns (counts: map<T, nat>, next: set<T>)
    requires misses.Keys <= held
    ensures next == seen + Surviving(limit, misses, held, seen)
    ensures CountsAfter(limit, misses, held, seen, counts)
  {
    counts, next := misses - seen, seen;
    var rest := held - seen;
    AgeStarts(limit, misses, held, seen);
    while rest != {}
      invariant Aging(limit, misses, held, seen, rest, counts, next)
      decreases |rest|
    {
      assert AnyOf(rest) in rest;
      var model :| model in rest;
      var n := MissesOf(counts, model) + 1;
      if n < limit {
        AgeKeeps(limit, misses, held, seen, rest, counts, next, model);
        counts := counts[model := n];
        next := next + {model};
      } else {
        AgeDrops(limit, misses, held, seen, rest, counts, next, model);
        counts := counts - {model};
      }
      rest := rest - {model};
    }
  }

  class ResidentDebounce<T(==,!new)> {
    const limit: nat
    var misses: map<T, nat>
    var held: set<T>
    ghost var history: seq<set<T>>

    ghost predicate Valid()
      reads this
    {
      limit > 0 && Tracks(limit, history, misses, held)
    }

    constructor (limit: nat)
      requires limit > 0
      ensures Valid() && history == [] && this.limit == limit
    {
      this.limit := limit;
      misses := map[];
      held := {};
      history := [];
    }

    /** `_debounce_residents`, for a snapshot that was taken successfully: the held set is exactly
        the union of the last `limit` snapshots. */
    method Observe(seen: set<T>)
      requires Valid()
      modifies this
      ensures Valid() && history == old(history) + [seen]
      ensures held == Window(history, limit)
    {
      var counts, next := AgeUnseen(limit, misses, held, seen);
      TracksAfter(limit, history, misses, held, seen, counts);
      misses := counts;
      held := next;
      history := history + [seen];
    }
  }

  // ---------------------------------------------------------------- the advertised server kind

  datatype Kind = Ollama | Vllm

  /** `_served_miss_counts` and `_box_served`, the advertised list as a set. */
  datatype Served = Served(misses: map<Kind, nat>, advertised: set<Kind>)

  predicate Drops(limit: nat, s: Served, observed: set<Kind>, k: Kind) {
    k in s.advertised && k !in observed && MissesOf(s.misses, k) + 1 >= limit
  }

  function Stable(limit: nat, s: Served, observed: set<Kind>): set<Kind> {
    set k | k in {Ollama, Vllm} && (k in observed || (k in s.advertised && !Drops(limit, s, observed, k)))
  }

  /** One probe: join at once, leave after `limit` misses, then advertise vLLM alone if it serves. */
  function Probe(limit: nat, s: Served, observed: set<Kind>): Served {
    var stable := Stable(limit, s, observed);
    var misses :=
      map k | k in {Ollama, Vllm} && (k in observed || k in s.misses || k in s.advertised)
          && !Drops(limit, s, observed, k) ::
        if k in observed then 0
        else if k in s.advertised then MissesOf(s.misses, k) + 1
        else MissesOf(s.misses, k);
    Served(misses, if Vllm in stable then {Vllm} else stable)
  }

  function Probes(limit: nat, history: seq<set<Kind>>): Served {
    if history == [] then Served(map[], {})
    else Probe(limit, Probes(limit, history[..|history| - 1]), history[|history| - 1])
  }

  /** How long ago ollama was last observed, while it counts: forgotten whenever vLLM is advertised. */
  function OllamaAge(limit: nat, history: seq<set<Kind>>): Option<nat> {
    if history == [] || Vllm in Window(history, limit) then None
    else if Ollama in history[|history| - 1] then Some(0)
    else
      var before := OllamaAge(limit, history[..|history| - 1]);
      if before.Some? && before.value + 1 < limit then Some(before.value + 1) else None
  }

  lemma {:induction false} ProbesTrack(limit: nat, history: seq<set<Kind>>)
    requires limit > 0
    ensures var s := Probes(limit, history);
            && (Vllm in s.advertised <==> Vllm in Window(history, limit))
            && (Vllm in s.advertised ==> LastSeen(history, Vllm, MissesOf(s.misses, Vllm)))
            && (Ollama in s.advertised <==> OllamaAge(limit, history).Some?)
            && (Ollama in s.advertised ==> MissesOf(s.misses, Ollama) == OllamaAge(limit, history).value)
  {
    if history != [] {
      var before, seen := history[..|history| - 1], history[|history| - 1];
      assert history == before + [seen];
      ProbesTrack(limit, before);
      VllmStep(limit, Probes(limit, before), before, seen);
    }
  }

  /** vLLM's counter is an exact debounce: nothing ever filters it out. */
  lemma VllmStep(limit: nat, s: Served, before: seq<set<Kind>>, seen: set<Kind>)
    requires limit > 0
    requires Vllm in s.advertised <==> Vllm in Window(before, limit)
    requires Vllm in s.advertised ==> LastSeen(before, Vllm, MissesOf(s.misses, Vllm))
    ensures var s' := Probe(limit, s, seen);
            && (Vllm in s'.advertised <==> Vllm in Window(before + [seen], limit))
            && (Vllm in s'.advertised ==> LastSeen(before + [seen], Vllm, MissesOf(s'.misses, Vllm)))
  {
    WindowSnoc(before, seen, limit);
    WindowSnoc(before, seen, 1);
    WindowGrows(before, limit - 1, limit);
    if Vllm in s.advertised {
      var a := MissesOf(s.misses, Vllm);
      WindowSnoc(before, seen, a + 1);
      WindowSnoc(before, seen, a + 2);
      if a + 1 < limit { WindowGrows(before, a + 1, limit - 1); } else { WindowGrows(before, limit - 1, a); }
    }
  }

  /** The advertised list has at most one kind, and it is vLLM exactly when vLLM was observed in one
      of the last `limit` probes. */
  lemma AdvertisesOneKind(limit: nat, history: seq<set<Kind>>)
    requires limit > 0
    ensures var served := Probes(limit, history).advertised;
            && (served == {} || served == {Ollama} || served == {Vllm})
            && (served == {Vllm} <==> InLast(history, limit, Vllm))
  {
    ProbesTrack(limit, history);
    WindowMember(history, limit, Vllm);
    var served := Probes(limit, history).advertised;
    if Vllm in served {
      assert served == {Vllm};
    } else if Ollama in served {
      assert served == {Ollama};
    } else {
      assert forall k :: k in served ==> k == Ollama || k == Vllm;
      assert served == {};
    }
  }

  /** Ollama was observed at probe `i`, one of the last `limit`, and no probe from it on advertised
      vLLM. */
  ghost predicate OfferedSince(limit: nat, history: seq<set<Kind>>, i: int) {
    && 0 <= i < |history| && |history| - limit <= i
    && Ollama in history[i]
    && forall j :: i < j <= |history| ==> Vllm !in Window(history[..j], limit)
  }

  lemma {:induction false} OllamaAgeMeaning(limit: nat, history: seq<set<Kind>>)
    requires limit > 0
    ensures OllamaAge(limit, history).Some? ==>
            OfferedSince(limit, history, |history| - 1 - OllamaAge(limit, history).value)
    ensures forall i :: OfferedSince(limit, history, i) ==>
              OllamaAge(limit, history).Some? && OllamaAge(limit, history).value <= |history| - 1 - i
  {
    if history != [] {
      var before := history[..|history| - 1];
      OllamaAgeMeaning(limit, before);
      assert history[..|history|] == history;
      forall j | 0 <= j <= |before| ensures history[..j] == before[..j] {}
      forall i | OfferedSince(limit, history, i) && i < |before|
        ensures OfferedSince(limit, before, i)
      {
        forall j | i < j <= |before| ensures Vllm !in Window(before[..j], limit) {
          assert history[..j] == before[..j];
        }
      }
      if OllamaAge(limit, history).Some? {
        var i := |history| - 1 - OllamaAge(limit, history).value;
        forall j | i < j <= |history| ensures Vllm !in Window(history[..j], limit) {
          if j < |history| { assert history[..j] == before[..j]; }
        }
      }
    }
  }

  /** Ollama is advertised exactly when it was observed in one of the last `limit` probes and no probe
      from that one on advertised vLLM. */
  lemma OllamaAdvertisedExactly(limit: nat, history: seq<set<Kind>>)
    requires limit > 0
    ensures Probes(limit, history).advertised == {Ollama} <==> exists i :: OfferedSince(limit, history, i)
  {
    ProbesTrack(limit, history);
    AdvertisesOneKind(limit, history);
    OllamaAgeMeaning(limit, history);
  }

  /** So ollama does not simply return when vLLM is gone: observed in each of the two probes before,
      it is not advertised if it misses the very probe at which vLLM leaves. */
  lemma OllamaIsForgottenBehindVllm()
    ensures var history := [{Ollama, Vllm}, {Ollama}, {Ollama}, {}];
            Ollama in Window(history, 3) && Probes(3, history).advertised == {}
  {
    var h1: seq<set<Kind>> := [{Ollama, Vllm}];
    var h2 := h1 + [{Ollama}];
    var h3 := h2 + [{Ollama}];
    var h4: seq<set<Kind>> := h3 + [{}];
    assert h2[..1] == h1 && h3[..2] == h2 && h4[..3] == h3;
    assert Probes(3, h1[..0]) == Served(map[], {});
    assert Probes(3, h1).advertised == {Vllm} && MissesOf(Probes(3, h1).misses, Vllm) == 0;
    assert Probes(3, h2).advertised == {Vllm} && MissesOf(Probes(3, h2).misses, Vllm) == 1;
    assert Probes(3, h3).advertised == {Vllm} && MissesOf(Probes(3, h3).misses, Vllm) == 2;
    assert Ollama in Window(h3, 2);
    assert Ollama in Window(h4, 3);
    assert h4 == [{Ollama, Vllm}, {Ollama}, {Ollama}, {}];
  }
}
