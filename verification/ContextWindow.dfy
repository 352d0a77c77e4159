/** The context-window arithmetic of `llm_context.py`: how big a window a box could serve, and what
    window to switch to. All quantities are integers (bytes, tokens). */
module ContextWindow {
  import opened Base

  /** Python's floor division by a positive divisor. */
  function FloorDiv(a: int, b: int): int
    requires b > 0
  {
    a / b
  }

  function CeilDiv(a: int, b: int): int
    requires b > 0
  {
    -((-a) / b)
  }

  function FloorGranule(tokens: int, granule: int): int {
    if granule > 0 then FloorDiv(tokens, granule) * granule else tokens
  }

  function MaxI(a: int, b: int): int { if a > b then a else b }

  function MinI(a: int, b: int): int { if a < b then a else b }

  /** `max(ceiling, current or 0) or current`. */
  function NotBelowServed(ceiling: int, current: Option<int>): Option<int> {
    var m := MaxI(ceiling, OrZero(current));
    if m == 0 then current else Some(m)
  }

  /** `ollama_ceiling`. */
  function OllamaCeiling(
    current: Option<int>, modelMax: Option<int>, perToken: Option<int>, weights: Option<int>,
    runner: int, available: Option<int>, reserve: int, granule: int): Option<int>
  {
    if perToken.None? || weights.None? || available.None? then current
    else
      var cache := available.value + runner - reserve - weights.value;
      if cache <= 0 || perToken.value <= 0 then current
      else
        var tokens := FloorDiv(cache, perToken.value);
        var ceiling :=
          if modelMax.Some? && tokens >= modelMax.value then modelMax.value else FloorGranule(tokens, granule);
        NotBelowServed(ceiling, current)
  }

  /** `vllm_ceiling`. */
  function VllmCeiling(current: Option<int>, modelMax: Option<int>, kvTokens: Option<int>, granule: int): Option<int> {
    if modelMax.None? || kvTokens.None? then current
    else
      var tokens := MinI(modelMax.value, kvTokens.value);
      var ceiling := if tokens == modelMax.value then tokens else FloorGranule(tokens, granule);
      NotBelowServed(ceiling, current)
  }

  /** `kv_bytes_per_token_observed`. */
  function ObservedPerToken(runner: Option<int>, weights: Option<int>, context: Option<int>): Option<int> {
    if runner.None? || weights.None? || context.None? then None
    else if runner.value - weights.value <= 0 || context.value <= 0 then None
    else Some(CeilDiv(runner.value - weights.value, context.value))
  }

  /** `load_fits`; `None` when the box cannot say. */
  function LoadFits(weights: Option<int>, kv: Option<int>, available: Option<int>, reserve: int): Option<bool> {
    if weights.None? || available.None? then None
    else Some(weights.value + OrZero(kv) <= available.value - reserve)
  }

  // ---------------------------------------------------------------- ceilings

  lemma FloorDivBounds(a: int, b: int)
    requires b > 0
    ensures FloorDiv(a, b) * b <= a < FloorDiv(a, b) * b + b
  {
  }

  lemma MulMono(a: int, b: int, c: int)
    requires a <= b && c >= 0
    ensures a * c <= b * c
  {
  }

  lemma FloorGranuleBelow(tokens: int, granule: int)
    ensures FloorGranule(tokens, granule) <= tokens
    ensures granule > 0 ==> tokens < FloorGranule(tokens, granule) + granule
  {
    if granule > 0 { FloorDivBounds(tokens, granule); }
  }

  /** Once the current runner's memory is released, the box's own admission check passes a load of
      window `w` at the given cost per token. */
  predicate ReloadLeavesReserve(w: int, perToken: int, weights: int, runner: int, available: int, reserve: int) {
    LoadFits(Some(weights), Some(w * perToken), Some(available + runner), reserve) == Some(true)
  }

  /** Any window up to the computed ceiling leaves at least the reserve free after the reload, unless
      the ceiling is just the window already served. */
  lemma CeilingIsAffordable(
    current: Option<int>, modelMax: Option<int>, perToken: int, weights: int,
    runner: int, available: int, reserve: int, granule: int, w: int)
    requires perToken > 0
    requires var c := OllamaCeiling(current, modelMax, Some(perToken), Some(weights), runner, Some(available), reserve,
            granule);
             c.Some? && w <= c.value && c != current
    ensures ReloadLeavesReserve(w, perToken, weights, runner, available, reserve)
  {
    var cache := available + runner - reserve - weights;
    if cache > 0 {
      var tokens := FloorDiv(cache, perToken);
      FloorDivBounds(cache, perToken);
      FloorGranuleBelow(tokens, granule);
      assert w <= tokens;
      MulMono(w, tokens, perToken);
    }
  }

  /** And the ceiling is not timid: without a model limit in the way, one granule more would not
      have been affordable. */
  lemma CeilingIsTight(
    current: Option<int>, modelMax: Option<int>, perToken: int, weights: int,
    runner: int, available: int, reserve: int, granule: int)
    requires perToken > 0 && granule > 0 && available + runner - reserve - weights > 0 && OrZero(current) >= 0
    requires var c := OllamaCeiling(current, modelMax, Some(perToken), Some(weights), runner, Some(available), reserve,
            granule);
             c.Some? && (modelMax.Some? ==> c.value < modelMax.value)
    ensures var c := OllamaCeiling(current, modelMax, Some(perToken), Some(weights), runner, Some(available), reserve,
            granule);
            !ReloadLeavesReserve(c.value + granule, perToken, weights, runner, available, reserve)
  {
    var cache := available + runner - reserve - weights;
    var tokens := FloorDiv(cache, perToken);
    var c := OllamaCeiling(current, modelMax, Some(perToken), Some(weights), runner, Some(available), reserve,
        granule).value;
    FloorDivBounds(cache, perToken);
    FloorGranuleBelow(tokens, granule);
    assert tokens + 1 <= c + granule;
    MulMono(tokens + 1, c + granule, perToken);
  }

  /** With a known model limit and memory for a positive cache, the ceiling is at most the larger of that limit
      and the served window; it is that larger value exactly when the memory holds the limit's tokens or the
      served window already reaches the limit; and otherwise it is the served window or a multiple of the
      granule. */
  lemma CeilingRespectsModel(
    current: Option<int>, modelMax: int, perToken: int, weights: int,
    runner: int, available: int, reserve: int, granule: int)
    requires perToken > 0 && granule > 0 && modelMax > 0 && OrZero(current) >= 0
    requires available + runner - reserve - weights > 0
    ensures var served := OrZero(current);
            var c := OllamaCeiling(current, Some(modelMax), Some(perToken), Some(weights),
                                   runner, Some(available), reserve, granule);
            && OrZero(c) <= MaxI(modelMax, served)
            && (OrZero(c) == MaxI(modelMax, served) <==>
                  modelMax * perToken <= available + runner - reserve - weights || served >= modelMax)
            && (OrZero(c) == MaxI(modelMax, served) || OrZero(c) == served || OrZero(c) % granule == 0)
  {
    var cache := available + runner - reserve - weights;
    var tokens := FloorDiv(cache, perToken);
    FloorDivBounds(cache, perToken);
    FloorGranuleBelow(tokens, granule);
    FloorGranuleIsMultiple(tokens, granule);
    if modelMax <= tokens {
      MulMono(modelMax, tokens, perToken);
    } else {
      MulMono(tokens + 1, modelMax, perToken);
    }
  }

  lemma FloorGranuleIsMultiple(tokens: int, granule: int)
    requires granule > 0
    ensures FloorGranule(tokens, granule) % granule == 0
  {
    MultipleOf(FloorDiv(tokens, granule), granule);
  }

  lemma MultipleOf(k: int, granule: int)
    requires granule > 0
    ensures k * granule % granule == 0
  {
    assert k * granule == granule * k + 0;
    FloorDivBounds(k * granule, granule);
    var q := FloorDiv(k * granule, granule);
    if q > k {
      MulMono(k + 1, q, granule);
    } else if q < k {
      MulMono(q + 1, k, granule);
    }
  }

  /** Without the readings to prove a bigger window, or without memory for any cache, the ceiling is the
      window already served. */
  lemma CeilingWithoutProof(
    current: Option<int>, modelMax: Option<int>, perToken: Option<int>, weights: Option<int>,
    runner: int, available: Option<int>, reserve: int, granule: int)
    requires || perToken.None? || weights.None? || available.None?
             || perToken.value <= 0 || available.value + runner <= reserve + weights.value
    ensures OllamaCeiling(current, modelMax, perToken, weights, runner, available, reserve, granule) == current
  {
  }

  /** The observed cost is known exactly when a loaded runner is larger than its weights at a positive
      window, and is then the least whole number of bytes that times the window covers the difference. */
  lemma ObservedExactly(runner: Option<int>, weights: Option<int>, context: Option<int>)
    ensures var cost := ObservedPerToken(runner, weights, context);
            && (cost.Some? <==>
                  && runner.Some? && weights.Some? && context.Some?
                  && runner.value > weights.value && context.value > 0)
            && (cost.Some? ==>
                  (cost.value - 1) * context.value < runner.value - weights.value <= cost.value * context.value)
  {
    if ObservedPerToken(runner, weights, context).Some? {
      var cache, w := runner.value - weights.value, context.value;
      FloorDivBounds(-cache, w);
      assert CeilDiv(cache, w) * w == -(((-cache) / w) * w);
      assert (CeilDiv(cache, w) - 1) * w == CeilDiv(cache, w) * w - w;
    }
  }

  /** A ceiling of zero is never invented: it is what was served. */
  lemma NoZeroCeiling(
    current: Option<int>, modelMax: Option<int>, perToken: Option<int>, weights: Option<int>,
    runner: int, available: Option<int>, reserve: int, kvTokens: Option<int>, granule: int)
    ensures var c := OllamaCeiling(current, modelMax, perToken, weights, runner, available, reserve, granule);
            c == Some(0) ==> current == Some(0)
    ensures VllmCeiling(current, modelMax, kvTokens, granule) == Some(0) ==> current == Some(0)
  {
  }

  /** The observed cost never under-prices a window at or above the observed one when the runner's
      memory is a fixed part plus a per-token part: extrapolating up is safe. */
  lemma ObservedCostBoundsLargerWindows(fixed: int, marginal: int, weights: int, context: int, w: int)
    requires fixed >= 0 && marginal >= 0 && context > 0 && w >= context && fixed + marginal * context > 0
    ensures var cost := ObservedPerToken(Some(weights + fixed + marginal * context), Some(weights), Some(context));
            cost.Some? && fixed + marginal * w <= w * cost.value
  {
    var cache := fixed + marginal * context;
    var cost := CeilDiv(cache, context);
    FloorDivBounds(-cache, context);
    assert cost * context >= cache;
    assert (cost - marginal) * context >= fixed;
    if cost < marginal {
      MulMono(cost - marginal, -1, context);
      assert false;
    }
    MulMono(context, w, cost - marginal);
    assert (cost - marginal) * w >= fixed;
  }

  // ---------------------------------------------------------------- switching

  predicate Reachable(need: Option<int>, current: Option<int>, ceiling: int) {
    need.Some? && OrZero(current) < need.value <= ceiling
  }

  function LargestReachable(needs: seq<Option<int>>, current: Option<int>, ceiling: int): (best: Option<int>)
    ensures best.None? <==> forall n :: n in needs ==> !Reachable(n, current, ceiling)
    ensures best.Some? ==> best in needs && Reachable(best, current, ceiling)
    ensures best.Some? ==> forall n :: n in needs && Reachable(n, current, ceiling) ==> n.value <= best.value
  {
    if needs == [] then None
    else
      var rest := LargestReachable(needs[1..], current, ceiling);
      if !Reachable(needs[0], current, ceiling) then rest
      else if rest.Some? && rest.value >= needs[0].value then rest
      else needs[0]
  }

  /** `switch_target`. */
  function SwitchTarget(needs: seq<Option<int>>, current: Option<int>, ceiling: Option<int>,
      granule: int): Option<int> {
    if ceiling.None? then None
    else
      var best := LargestReachable(needs, current, ceiling.value);
      if best.None? then None
      else
        var target := if granule > 0 then CeilDiv(best.value, granule) * granule else best.value;
        Some(MinI(target, ceiling.value))
  }

  lemma CeilGranuleAbove(x: int, granule: int)
    requires granule > 0
    ensures x <= CeilDiv(x, granule) * granule < x + granule
  {
    FloorDivBounds(-x, granule);
    assert CeilDiv(x, granule) * granule == -(((-x) / granule) * granule);
  }

  /** A switch happens exactly when some need is above the window served and within the ceiling; its
      target is strictly above the current window, within the ceiling, covers every reachable need,
      and overshoots the largest by less than a granule. */
  lemma SwitchServesReachableNeeds(needs: seq<Option<int>>, current: Option<int>, ceiling: Option<int>, granule: int)
    ensures var target := SwitchTarget(needs, current, ceiling, granule);
            && (target.Some? <==> ceiling.Some? && exists n :: n in needs && Reachable(n, current, ceiling.value))
            && (target.Some? ==>
                  && OrZero(current) < target.value <= ceiling.value
                  && (forall n :: n in needs && Reachable(n, current, ceiling.value) ==> n.value <= target.value)
                  && (granule > 0 ==>
                        exists n :: n in needs && Reachable(n, current, ceiling.value) &&
                                    target.value < n.value + granule))
  {
    if ceiling.Some? {
      var best := LargestReachable(needs, current, ceiling.value);
      if best.Some? && granule > 0 {
        CeilGranuleAbove(best.value, granule);
      }
    }
  }

  /** One switch settles it: once the box serves the target, the same needs ask for nothing more. */
  lemma SwitchIsIdempotent(needs: seq<Option<int>>, current: Option<int>, ceiling: Option<int>, granule: int)
    requires SwitchTarget(needs, current, ceiling, granule).Some?
    ensures SwitchTarget(needs, SwitchTarget(needs, current, ceiling, granule), ceiling, granule).None?
  {
    SwitchServesReachableNeeds(needs, current, ceiling, granule);
    var target := SwitchTarget(needs, current, ceiling, granule);
    forall n | n in needs
      ensures !Reachable(n, target, ceiling.value)
    {
      if n.Some? && OrZero(current) < n.value <= ceiling.value {
        assert Reachable(n, current, ceiling.value);
      }
    }
  }

  /** A box whose switch target came from its own affordable ceiling can afford the target. */
  lemma SwitchTargetIsAffordable(
    needs: seq<Option<int>>, current: Option<int>, modelMax: Option<int>, perToken: int, weights: int,
    runner: int, available: int, reserve: int, granule: int)
    requires perToken > 0
    requires var c := OllamaCeiling(current, modelMax, Some(perToken), Some(weights), runner, Some(available), reserve,
            granule);
             SwitchTarget(needs, current, c, granule).Some?
    ensures var c := OllamaCeiling(current, modelMax, Some(perToken), Some(weights), runner, Some(available), reserve,
            granule);
            ReloadLeavesReserve(SwitchTarget(needs, current, c, granule).value, perToken, weights, runner, available,
                reserve)
  {
    var c := OllamaCeiling(current, modelMax, Some(perToken), Some(weights), runner, Some(available), reserve, granule);
    SwitchServesReachableNeeds(needs, current, c, granule);
    CeilingIsAffordable(current, modelMax, perToken, weights, runner, available, reserve, granule,
                        SwitchTarget(needs, current, c, granule).value);
  }

  /** A vLLM box's switch target stays within its model's limit and the cache pool it already owns; and
      its ceiling gives up less than a granule of what those allow. */
  lemma VllmSwitchFitsPool(
    needs: seq<Option<int>>, current: Option<int>, modelMax: int, kvTokens: int, granule: int)
    requires granule > 0
    ensures var c := VllmCeiling(current, Some(modelMax), Some(kvTokens), granule);
            && (SwitchTarget(needs, current, c, granule).Some? ==>
                  SwitchTarget(needs, current, c, granule).value <= MinI(modelMax, kvTokens))
            && MinI(modelMax, kvTokens) < MaxI(OrZero(c), 0) + granule
  {
    var c := VllmCeiling(current, Some(modelMax), Some(kvTokens), granule);
    FloorGranuleBelow(MinI(modelMax, kvTokens), granule);
    SwitchServesReachableNeeds(needs, current, c, granule);
  }

  /** An ollama box never switches past its model's limit, whatever its readings. */
  lemma OllamaSwitchWithinModel(
    needs: seq<Option<int>>, current: Option<int>, modelMax: int, perToken: Option<int>, weights: Option<int>,
    runner: int, available: Option<int>, reserve: int, granule: int)
    requires granule > 0 && modelMax > 0 && OrZero(current) >= 0
    ensures var c := OllamaCeiling(current, Some(modelMax), perToken, weights, runner, available, reserve, granule);
            var target := SwitchTarget(needs, current, c, granule);
            target.Some? ==> target.value <= modelMax
  {
    var c := OllamaCeiling(current, Some(modelMax), perToken, weights, runner, available, reserve, granule);
    SwitchServesReachableNeeds(needs, current, c, granule);
    if perToken.Some? && weights.Some? && available.Some? && perToken.value > 0 &&
       available.value + runner - reserve - weights.value > 0
    {
      CeilingRespectsModel(current, modelMax, perToken.value, weights.value, runner, available.value, reserve, granule);
    }
  }

  /** A switch target is a multiple of the granule or the ceiling itself. */
  lemma SwitchTargetIsWhole(needs: seq<Option<int>>, current: Option<int>, ceiling: Option<int>, granule: int)
    requires granule > 0 && SwitchTarget(needs, current, ceiling, granule).Some?
    ensures var target := SwitchTarget(needs, current, ceiling, granule).value;
            target == ceiling.value || target % granule == 0
  {
    MultipleOf(CeilDiv(LargestReachable(needs, current, ceiling.value).value, granule), granule);
  }

  /** A vLLM ceiling is the larger of the served window and what the model and its cache pool allow: the
      model's limit when the pool holds it, else the largest multiple of the granule in the pool. Either
      unknown, it is the window served. */
  lemma VllmCeilingExactly(current: Option<int>, modelMax: Option<int>, kvTokens: Option<int>, granule: int, w: int)
    requires granule > 0 && OrZero(current) >= 0
    ensures var c := VllmCeiling(current, modelMax, kvTokens, granule);
            && (modelMax.None? || kvTokens.None? ==> c == current)
            && (modelMax.Some? && kvTokens.Some? && 0 < modelMax.value <= kvTokens.value ==>
                  OrZero(c) == MaxI(modelMax.value, OrZero(current)))
            && (modelMax.Some? && kvTokens.Some? && 0 <= kvTokens.value < modelMax.value ==>
                  && (OrZero(c) == OrZero(current) || (OrZero(c) % granule == 0 && OrZero(c) <= kvTokens.value))
                  && OrZero(c) >= OrZero(current)
                  && (w % granule == 0 && w <= kvTokens.value ==> w <= OrZero(c)))
  {
    if modelMax.Some? && kvTokens.Some? && 0 <= kvTokens.value < modelMax.value {
      FloorGranuleBelow(kvTokens.value, granule);
      FloorGranuleIsMultiple(kvTokens.value, granule);
      if w % granule == 0 && w <= kvTokens.value {
        MultipleBelow(w, kvTokens.value, granule);
      }
    }
  }

  lemma MultipleBelow(w: int, tokens: int, granule: int)
    requires granule > 0 && w % granule == 0 && w <= tokens
    ensures w <= FloorGranule(tokens, granule)
  {
    FloorDivBounds(tokens, granule);
    var q := w / granule;
    assert w == q * granule;
    if q > FloorDiv(tokens, granule) {
      MulMono(FloorDiv(tokens, granule) + 1, q, granule);
    } else {
      MulMono(q, FloorDiv(tokens, granule), granule);
    }
  }
}
