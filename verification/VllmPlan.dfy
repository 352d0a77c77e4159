/** How `llm_context.py` sizes a vLLM start, over exact reals: the pool as a fraction of total
    memory in hundredths, the concurrency it can honour, or a refusal. */
module VllmPlan {
  import opened Base

  const Granule: real := 0.01
  const DefaultUtilization: real := 0.90

  // ---------------------------------------------------------------- rounding

  function Ceil(r: real): int {
    if r.Floor as real == r then r.Floor else r.Floor + 1
  }

  /** Truncation toward zero, as `int()` does. */
  function Trunc(r: real): int {
    if r >= 0.0 then r.Floor else -((-r).Floor)
  }

  function MinR(a: real, b: real): real { if a < b then a else b }

  /** The nearest integer, ties to even. */
  function Nearest(y: real): int {
    var down := y.Floor;
    var over := y - down as real;
    if over < 0.5 || (over == 0.5 && down % 2 == 0) then down else down + 1
  }

  /** `round(x, 2)`. */
  function Round2(x: real): real {
    Nearest(x * 100.0) as real / 100.0
  }

  ghost predicate Hundredths(x: real) {
    (x * 100.0).Floor as real == x * 100.0
  }

  lemma RoundExact(x: real)
    requires Hundredths(x)
    ensures Round2(x) == x
  {
  }

  lemma GranuleMultiple(k: int)
    ensures Hundredths(k as real * Granule)
  {
    assert k as real * Granule * 100.0 == k as real;
  }

  lemma RoundIsHundredths(x: real)
    ensures Hundredths(Round2(x))
  {
    var k := Nearest(x * 100.0);
    assert k as real / 100.0 == k as real * Granule;
    GranuleMultiple(k);
  }

  /** No hundredth lies strictly between a number and its rounding. */
  lemma RoundIsNearest(x: real, h: real)
    requires Hundredths(h)
    ensures h < x ==> h <= Round2(x)
    ensures h > x ==> h >= Round2(x)
  {
    var k, y := (h * 100.0).Floor, x * 100.0;
    if h < x {
      assert k as real < y;
      assert k <= y.Floor;
    }
    if h > x {
      assert k as real > y;
      assert k >= y.Floor + 1;
    }
  }

  // ---------------------------------------------------------------- the plan

  datatype Profile = Profile(weights: int, kvBytes: int, kvTokens: int, window: int, utilization: real, total: int)

  function PerToken(p: Profile): real {
    if p.kvTokens == 0 then 0.0 else p.kvBytes as real / p.kvTokens as real
  }

  function Overhead(p: Profile): int {
    var rest := Trunc(p.utilization * p.total as real) - p.weights - p.kvBytes;
    if rest > 0 then rest else 0
  }

  /** The largest multiple of the granule whose share of `total` fits `available - reserve`. */
  function Fit(total: int, available: int, reserve: int): real
    requires total > 0
  {
    (MaxR((available - reserve) as real / total as real, 0.0) / Granule).Floor as real * Granule
  }

  /** `vllm_utilization`. */
  function Utilization(configured: Option<real>, total: Option<int>, available: Option<int>,
      reserve: int): Option<real> {
    if total.None? || available.None? || total.value <= 0 then None
    else
      var base := if configured.Some? then configured.value else DefaultUtilization;
      Some(Round2(MinR(base, Fit(total.value, available.value, reserve))))
  }

  datatype Plan =
    | AsConfigured
    | Refused
    | PoolOnly(utilization: real)
    | Sized(utilization: real, maxSeqs: int)

  datatype Request = Request(
    total: Option<int>,
    available: Option<int>,
    reserve: int,
    operatorUtil: Option<real>,
    operatorSeqs: Option<int>,
    window: Option<int>,
    profile: Option<Profile>,
    minUtil: real,
    margin: real)

  function OperatorUtil(q: Request): real {
    if q.operatorUtil.Some? then q.operatorUtil.value else DefaultUtilization
  }

  predicate HasReadings(q: Request) {
    q.total.Some? && q.available.Some? && q.total.value > 0
  }

  /** A profile that prices a token, and a window to price. */
  predicate Profiled(q: Request) {
    q.profile.Some? && PerToken(q.profile.value) > 0.0 && q.window.Some? && q.window.value != 0
  }

  /** What a start may use: what is free less the reserve, capped by the operator's pool. */
  function Cap(q: Request): int
    requires HasReadings(q)
  {
    var budget := q.available.value - q.reserve;
    var pool := Trunc(OperatorUtil(q) * q.total.value as real);
    if budget < pool then budget else pool
  }

  function Fixed(q: Request): real
    requires Profiled(q)
  {
    (q.profile.value.weights + Overhead(q.profile.value)) as real
  }

  function PerSeq(q: Request): real
    requires Profiled(q)
  {
    q.window.value as real * PerToken(q.profile.value)
  }

  function SeqLimit(q: Request): int {
    if q.operatorSeqs.Some? && q.operatorSeqs.value > 1 then q.operatorSeqs.value else 1
  }

  /** The memory `n` full-window requests need, with the margin. */
  function Need(q: Request, n: int): real
    requires Profiled(q)
  {
    NeedOf(Fixed(q), PerSeq(q), n, 1.0 + q.margin)
  }

  function NeedOf(fixed: real, perSeq: real, n: int, k: real): real {
    (fixed + n as real * perSeq) * k
  }

  /** The pool before the operator's and the free-memory ceilings: the need, rounded up. */
  function NeededUtil(q: Request, n: int): real
    requires HasReadings(q) && Profiled(q)
  {
    Ceil(Need(q, n) / q.total.value as real / Granule) as real * Granule
  }

  /** How many whole requests there is room for. */
  function Room(q: Request): int
    requires HasReadings(q) && Profiled(q) && q.margin >= 0.0 && q.window.value >= 0
  {
    RoomIn(Cap(q) as real, 1.0 + q.margin, Fixed(q), PerSeq(q))
  }

  function RoomIn(cap: real, k: real, fixed: real, perSeq: real): int
    requires k != 0.0 && perSeq != 0.0
  {
    ((cap / k - fixed) / perSeq).Floor
  }

  /** The concurrency of a start that is not refused. */
  function Seqs(q: Request): int
    requires HasReadings(q) && Profiled(q) && q.margin >= 0.0 && q.window.value >= 0
  {
    var n := if Room(q) < SeqLimit(q) then Room(q) else SeqLimit(q);
    if n > 1 then n else 1
  }

  /** `vllm_plan`. */
  function VllmPlan(q: Request): Plan
    requires q.margin >= 0.0
    requires q.window.Some? ==> q.window.value >= 0
  {
    if !HasReadings(q) then AsConfigured
    else
      var op := OperatorUtil(q);
      var fitted := Utilization(Some(op), q.total, q.available, q.reserve).value;
      if !Profiled(q) then
        if fitted < q.minUtil then Refused
        else if fitted + 0.005 >= op then AsConfigured
        else PoolOnly(fitted)
      else if Need(q, 1) > Cap(q) as real then Refused
      else
        Sized(Round2(MinR(MinR(NeededUtil(q, Seqs(q)), op), fitted)), Seqs(q))
  }

  // ---------------------------------------------------------------- what the quantities are

  /** Rounding goes to the nearest whole number, and from half way to the even one. */
  lemma RoundsHalfToEven(y: real)
    ensures var k := Nearest(y);
            && k as real - 0.5 <= y <= k as real + 0.5
            && (y == k as real - 0.5 || y == k as real + 0.5 ==> k % 2 == 0)
  {
    var down := y.Floor;
    assert down % 2 == 0 || (down + 1) % 2 == 0;
  }

  /** `k` is `r` cut to a whole number toward zero. */
  ghost predicate CutTo(r: real, k: int) {
    if r >= 0.0 then k as real <= r < k as real + 1.0 else k as real - 1.0 < r <= k as real
  }

  lemma TruncCuts(r: real)
    ensures CutTo(r, Trunc(r))
  {
  }

  /** What a start may use is the smaller of what is free less the reserve and the whole bytes of the
      operator's share of the total, nine tenths if the operator said nothing. */
  lemma CapExactly(q: Request, pool: int)
    requires q.total.Some? && q.available.Some? && q.total.value > 0
    requires CutTo((if q.operatorUtil.Some? then q.operatorUtil.value else 0.9) * q.total.value as real, pool)
    ensures HasReadings(q)
    ensures Cap(q) == if q.available.value - q.reserve <= pool then q.available.value - q.reserve else pool
  {
    TruncCuts(OperatorUtil(q) * q.total.value as real);
  }

  /** A profile prices a start exactly when it counted tokens of a positive size and there is a window. */
  lemma ProfiledExactly(q: Request)
    ensures Profiled(q) <==>
            && q.profile.Some? && q.profile.value.kvTokens != 0
            && q.profile.value.kvBytes as real / q.profile.value.kvTokens as real > 0.0
            && q.window.Some? && q.window.value != 0
  {
  }

  lemma CutIsUnique(r: real, j: int, k: int)
    requires CutTo(r, j) && CutTo(r, k)
    ensures j == k
  {
  }

  lemma OverheadExactly(p: Profile, pool: int)
    requires CutTo(p.utilization * p.total as real, pool)
    ensures Overhead(p) == if pool > p.weights + p.kvBytes then pool - p.weights - p.kvBytes else 0
  {
    var held := p.utilization * p.total as real;
    TruncCuts(held);
    CutIsUnique(held, Trunc(held), pool);
  }

  /** The need of `n` requests: the weights, what the profiled start's pool held beyond weights and cache, if
      anything, and `perSeq`, a full window of tokens, for each request, all with the margin on top. */
  lemma NeedExactly(q: Request, n: int, pool: int, beyond: int, perSeq: real)
    requires Profiled(q) && CutTo(q.profile.value.utilization * q.profile.value.total as real, pool)
    requires var p := q.profile.value;
             beyond == if pool > p.weights + p.kvBytes then pool - p.weights - p.kvBytes else 0
    requires var p := q.profile.value;
             p.kvTokens != 0 && perSeq == q.window.value as real * (p.kvBytes as real / p.kvTokens as real)
    ensures Need(q, n) == ((q.profile.value.weights + beyond) as real + n as real * perSeq) * (1.0 + q.margin)
  {
    OverheadExactly(q.profile.value, pool);
    assert Fixed(q) == (q.profile.value.weights + beyond) as real;
    assert PerSeq(q) == perSeq;
  }

  /** The concurrency asked for is the operator's, or one. */
  lemma SeqLimitExactly(q: Request)
    ensures q.operatorSeqs.Some? && q.operatorSeqs.value >= 1 ==> SeqLimit(q) == q.operatorSeqs.value
    ensures q.operatorSeqs.None? || q.operatorSeqs.value < 1 ==> SeqLimit(q) == 1
  {
  }

  /** Without memory readings a start is left as configured. */
  lemma WithoutReadings(q: Request)
    requires q.margin >= 0.0 && (q.window.Some? ==> q.window.value >= 0)
    requires q.total.None? || q.available.None? || q.total.value <= 0
    ensures VllmPlan(q) == AsConfigured
  {
  }

  // ---------------------------------------------------------------- concurrency

  lemma MulOrder(a: real, b: real, c: real)
    requires c > 0.0
    ensures a <= b <==> a * c <= b * c
  {
    if a <= b {
      assert (b - a) * c >= 0.0;
    } else {
      assert (a - b) * c > 0.0;
    }
  }

  lemma DivCancels(a: real, b: real)
    requires b != 0.0
    ensures a / b * b == a
  {
  }

  lemma PerSeqPositive(q: Request)
    requires Profiled(q) && q.window.value > 0
    ensures PerSeq(q) > 0.0
  {
    MulOrder(0.0, q.window.value as real, PerToken(q.profile.value));
    assert q.window.value as real * PerToken(q.profile.value) != 0.0;
  }

  lemma RoomFor(cap: real, k: real, fixed: real, perSeq: real, n: int)
    requires k > 0.0 && perSeq > 0.0
    ensures NeedOf(fixed, perSeq, n, k) <= cap <==> n <= RoomIn(cap, k, fixed, perSeq)
  {
    var left := cap / k - fixed;
    var room := left / perSeq;
    DivCancels(cap, k);
    DivCancels(left, perSeq);
    MulOrder(fixed + n as real * perSeq, cap / k, k);
    MulOrder(n as real, room, perSeq);
    assert n as real <= room <==> n <= room.Floor;
  }

  /** `n` requests fit exactly when `n` is at most the whole number of requests there is room for. */
  lemma FitsIffRoom(q: Request, n: int)
    requires HasReadings(q) && Profiled(q) && q.window.value > 0 && q.margin >= 0.0
    ensures PerSeq(q) > 0.0
    ensures Need(q, n) <= Cap(q) as real <==> n <= Room(q)
  {
    PerSeqPositive(q);
    RoomFor(Cap(q) as real, 1.0 + q.margin, Fixed(q), PerSeq(q), n);
  }

  /** A profiled start is refused exactly when one request plus margin does not fit; otherwise its
      concurrency is the largest count within the operator's that fits. */
  lemma ConcurrencyIsLargestThatFits(q: Request)
    requires HasReadings(q) && Profiled(q) && q.window.value > 0 && q.margin >= 0.0
    ensures VllmPlan(q).Refused? <==> Need(q, 1) > Cap(q) as real
    ensures !VllmPlan(q).Refused? ==>
              && VllmPlan(q).Sized?
              && 1 <= VllmPlan(q).maxSeqs <= SeqLimit(q)
              && Need(q, VllmPlan(q).maxSeqs) <= Cap(q) as real
              && forall m :: VllmPlan(q).maxSeqs < m <= SeqLimit(q) ==> Need(q, m) > Cap(q) as real
  {
    FitsIffRoom(q, 1);
    if !VllmPlan(q).Refused? {
      FitsIffRoom(q, VllmPlan(q).maxSeqs);
      forall m | VllmPlan(q).maxSeqs < m <= SeqLimit(q)
        ensures Need(q, m) > Cap(q) as real
      {
        FitsIffRoom(q, m);
      }
    }
  }

  // ---------------------------------------------------------------- the pool

  /** A fraction `u` of `total` covers `x` bytes. */
  ghost predicate Covers(u: real, total: real, x: real) { u * total >= x }

  /** It is within `x` and less than one granule of the total below it. */
  ghost predicate JustWithin(u: real, total: real, x: real) {
    u * total <= x && u * total > x - Granule * total
  }

  lemma FloorShare(b: real, t: real)
    requires t > 0.0 && b >= 0.0
    ensures b / t >= 0.0
    ensures var k := (b / t / Granule).Floor as real * Granule;
            k * t <= b && k * t > b - Granule * t
  {
    var share := b / t;
    DivCancels(b, t);
    MulOrder(0.0, share, t);
    var k := (share / Granule).Floor as real * Granule;
    assert k <= share < k + Granule;
    MulOrder(k, share, t);
    MulOrder(k + Granule, share, t);
    assert (k + Granule) * t == k * t + Granule * t;
  }

  lemma FitFits(total: int, available: int, reserve: int)
    requires total > 0 && available >= reserve
    ensures Hundredths(Fit(total, available, reserve))
    ensures JustWithin(Fit(total, available, reserve), total as real, (available - reserve) as real)
  {
    FloorShare((available - reserve) as real, total as real);
    GranuleMultiple(((available - reserve) as real / total as real / Granule).Floor);
  }

  lemma CeilShare(b: real, t: real)
    requires t > 0.0
    ensures Ceil(b / t / Granule) as real * Granule * t >= b
  {
    var share := b / t;
    DivCancels(b, t);
    var k := Ceil(share / Granule) as real * Granule;
    assert share <= k;
    MulOrder(share, k, t);
  }

  /** The least multiple of the granule that covers: one granule less does not. */
  lemma CeilShareTight(b: real, t: real)
    requires t > 0.0
    ensures (Ceil(b / t / Granule) as real * Granule) * t < b + Granule * t
  {
    var share := b / t;
    DivCancels(b, t);
    var k := Ceil(share / Granule) as real * Granule;
    assert k - Granule < share;
    MulOrder(share, k - Granule, t);
    assert (k - Granule) * t == k * t - Granule * t;
  }

  lemma NeededCovers(q: Request, n: int)
    requires HasReadings(q) && Profiled(q)
    ensures Hundredths(NeededUtil(q, n))
    ensures Covers(NeededUtil(q, n), q.total.value as real, Need(q, n))
  {
    CeilShare(Need(q, n), q.total.value as real);
    GranuleMultiple(Ceil(Need(q, n) / q.total.value as real / Granule));
  }

  /** The operator's pool and the free memory both hold `Cap`. */
  lemma CapIsWithin(q: Request)
    requires HasReadings(q) && OperatorUtil(q) >= 0.0
    ensures Cap(q) <= q.available.value - q.reserve
    ensures Covers(OperatorUtil(q), q.total.value as real, Cap(q) as real)
  {
    MulOrder(0.0, OperatorUtil(q), q.total.value as real);
    assert OperatorUtil(q) * q.total.value as real >= 0.0;
  }

  /** A request that fits has a positive need, so there is memory above the reserve. */
  ghost predicate Honest(q: Request) {
    && HasReadings(q) && Profiled(q) && q.window.value > 0 && q.margin >= 0.0
    && OperatorUtil(q) >= 0.0 && q.profile.value.weights >= 0
  }

  lemma NeedPositive(q: Request, n: int)
    requires Honest(q) && n >= 1
    ensures Need(q, n) > 0.0
  {
    PerSeqPositive(q);
    NeedOfPositive(Fixed(q), PerSeq(q), n, 1.0 + q.margin);
  }

  lemma NeedOfPositive(fixed: real, perSeq: real, n: int, k: real)
    requires fixed >= 0.0 && perSeq > 0.0 && n >= 1 && k >= 1.0
    ensures NeedOf(fixed, perSeq, n, k) > 0.0
  {
    MulOrder(1.0, n as real, perSeq);
    var x := fixed + n as real * perSeq;
    assert x > 0.0;
    MulOrder(1.0, k, x);
    assert x * k == k * x;
  }

  /** A pool of fraction `u` of `total`: within the budget, and short of the need by less than one
      granule of the total. */
  ghost predicate PoolOk(u: real, total: real, need: real, budget: real) {
    u * total <= budget && u * total > need - Granule * total
  }

  lemma CoversLess(u: real, t: real, x: real, y: real)
    requires Covers(u, t, x) && y <= x
    ensures Covers(u, t, y)
  {
  }

  /** Rounding moves a number by less than a granule. */
  lemma RoundIsClose(x: real)
    ensures x - Granule < Round2(x) < x + Granule
  {
    var y := x * 100.0;
    var down := y.Floor;
    assert down as real / 100.0 * 100.0 == down as real;
  }

  /** A fraction `u` of `total` fits in `x` bytes. */
  ghost predicate Fits(u: real, total: real, x: real) { u * total <= x }

  lemma LessFits(u: real, fit: real, t: real, budget: real)
    requires t > 0.0 && u <= fit && JustWithin(fit, t, budget)
    ensures Fits(u, t, budget)
  {
    MulOrder(u, fit, t);
  }

  lemma NothingFits(u: real, t: real, budget: real)
    requires t > 0.0 && u >= 0.0 && budget < 0.0
    ensures !Fits(u, t, budget)
  {
    MulOrder(0.0, u, t);
  }

  /** A pool that fits, within a granule of one that covers the need. */
  lemma NearlyCovers(u: real, v: real, fit: real, t: real, need: real, budget: real)
    requires t > 0.0 && u <= fit && JustWithin(fit, t, budget) && Covers(v, t, need) && u > v - Granule
    ensures PoolOk(u, t, need, budget)
  {
    LessFits(u, fit, t, budget);
    MulOrder(u, v - Granule, t);
    assert (v - Granule) * t == v * t - Granule * t;
  }

  lemma AllThereIs(fit: real, t: real, need: real, budget: real)
    requires JustWithin(fit, t, budget) && need <= budget
    ensures PoolOk(fit, t, need, budget)
  {
  }

  /** The pool as `vllm_plan` rounds it: `needed` and `fit` are hundredths, `op` need not be. */
  function RoundedPool(needed: real, op: real, fit: real): real {
    Round2(MinR(MinR(needed, op), Round2(MinR(op, fit))))
  }

  lemma RoundedWithinFit(needed: real, op: real, fit: real)
    requires Hundredths(needed) && Hundredths(fit)
    ensures RoundedPool(needed, op, fit) <= fit
    ensures RoundedPool(needed, op, fit) <= Round2(op)
  {
    RoundExact(fit);
    RoundIsHundredths(op);
    RoundExact(Round2(op));
    RoundBelow(MinR(op, fit), fit);
    RoundBelow(MinR(MinR(needed, op), Round2(MinR(op, fit))), fit);
    RoundMono(MinR(MinR(needed, op), Round2(MinR(op, fit))), op);
  }

  /** A number at most a hundredth rounds to at most that hundredth. */
  lemma RoundBelow(x: real, h: real)
    requires Hundredths(h) && x <= h
    ensures Round2(x) <= h
  {
    if x < h { RoundIsNearest(x, h); } else { RoundExact(h); }
  }

  lemma NearestMono(x: real, y: real)
    requires x <= y
    ensures Nearest(x) <= Nearest(y)
  {
    assert x.Floor <= y.Floor;
  }

  lemma RoundMono(x: real, y: real)
    requires x <= y
    ensures Round2(x) <= Round2(y)
  {
    NearestMono(x * 100.0, y * 100.0);
  }

  lemma RoundedIsOneOf(needed: real, op: real, fit: real)
    requires Hundredths(needed) && Hundredths(fit)
    ensures var u := RoundedPool(needed, op, fit); u == needed || u == Round2(op) || u == fit
  {
    RoundExact(needed);
    RoundExact(fit);
    RoundIsHundredths(op);
    RoundExact(Round2(op));
  }

  lemma RoundedPoolOk(needed: real, op: real, fit: real, t: real, need: real, budget: real)
    requires t > 0.0 && need <= budget && Hundredths(needed) && Hundredths(fit)
    requires Covers(needed, t, need) && Covers(op, t, need) && JustWithin(fit, t, budget)
    ensures PoolOk(RoundedPool(needed, op, fit), t, need, budget)
  {
    var u := RoundedPool(needed, op, fit);
    RoundedWithinFit(needed, op, fit);
    RoundedIsOneOf(needed, op, fit);
    RoundIsClose(op);
    if u == needed {
      NearlyCovers(u, needed, fit, t, need, budget);
    } else if u == Round2(op) {
      NearlyCovers(u, op, fit, t, need, budget);
    } else {
      AllThereIs(fit, t, need, budget);
    }
  }

  /** A profiled start that is not refused. */
  lemma SizedPlan(q: Request)
    requires HasReadings(q) && Profiled(q) && q.window.value > 0 && q.margin >= 0.0 && Need(q, 1) <= Cap(q) as real
    ensures VllmPlan(q) ==
            Sized(RoundedPool(NeededUtil(q, Seqs(q)), OperatorUtil(q),
                Fit(q.total.value, q.available.value, q.reserve)), Seqs(q))
  {
  }

  lemma BudgetAboveReserve(q: Request, n: int)
    requires Honest(q) && n >= 1 && Need(q, n) <= Cap(q) as real
    ensures q.available.value >= q.reserve
  {
    CapIsWithin(q);
    NeedPositive(q, n);
  }

  /** For every operator value: a profiled start that is not refused has a pool within what is free less
      the reserve, short of the computed need by less than one granule of total memory, and at most the
      operator's pool rounded to hundredths, which is the operator's pool if that is in hundredths. */
  lemma PoolIsSizedToNeed(q: Request)
    requires Honest(q) && Need(q, 1) <= Cap(q) as real
    ensures VllmPlan(q).Sized? && VllmPlan(q).maxSeqs == Seqs(q)
    ensures PoolOk(VllmPlan(q).utilization, q.total.value as real, Need(q, Seqs(q)),
            (q.available.value - q.reserve) as real)
    ensures VllmPlan(q).utilization <= Round2(OperatorUtil(q))
    ensures Hundredths(OperatorUtil(q)) ==> VllmPlan(q).utilization <= OperatorUtil(q)
  {
    var op, n := OperatorUtil(q), Seqs(q);
    var fit, needed := Fit(q.total.value, q.available.value, q.reserve), NeededUtil(q, n);
    SizedPlan(q);
    ConcurrencyIsLargestThatFits(q);
    BudgetAboveReserve(q, n);
    CapIsWithin(q);
    NeededCovers(q, n);
    FitFits(q.total.value, q.available.value, q.reserve);
    CoversLess(op, q.total.value as real, Cap(q) as real, Need(q, n));
    RoundedWithinFit(needed, op, fit);
    RoundedPoolOk(needed, op, fit, q.total.value as real, Need(q, n), (q.available.value - q.reserve) as real);
    if Hundredths(op) { RoundExact(op); }
  }

  /** And not oversized: it exceeds the need by less than one granule of total memory. */
  lemma PoolIsNotOversized(q: Request)
    requires Honest(q) && Need(q, 1) <= Cap(q) as real
    ensures VllmPlan(q).Sized?
    ensures Fewer(VllmPlan(q).utilization, q.total.value as real, Need(q, Seqs(q)))
  {
    SizedPlan(q);
    NeededTight(q, Seqs(q));
    FewerBelow(VllmPlan(q).utilization, NeededUtil(q, Seqs(q)), OperatorUtil(q),
               Fit(q.total.value, q.available.value, q.reserve), q.total.value as real, Need(q, Seqs(q)));
  }

  /** A fraction `u` of `total` is less than one granule above `x` bytes. */
  ghost predicate Fewer(u: real, total: real, x: real) { u * total < x + Granule * total }

  lemma NeededTight(q: Request, n: int)
    requires HasReadings(q) && Profiled(q)
    ensures Hundredths(NeededUtil(q, n)) && Fewer(NeededUtil(q, n), q.total.value as real, Need(q, n))
  {
    CeilShareTight(Need(q, n), q.total.value as real);
    NeededCovers(q, n);
  }

  lemma FewerBelow(u: real, needed: real, op: real, fit: real, t: real, need: real)
    requires t > 0.0 && Hundredths(needed) && u == RoundedPool(needed, op, fit) && Fewer(needed, t, need)
    ensures Fewer(u, t, need)
  {
    RoundBelow(MinR(MinR(needed, op), Round2(MinR(op, fit))), needed);
    MulOrder(u, needed, t);
  }

  lemma OvershootsExactly(needed: real, op: real, fit: real)
    requires Hundredths(needed) && Hundredths(fit)
    ensures RoundedPool(needed, op, fit) > op <==> op < needed && op < fit && Round2(op) > op
  {
    RoundExact(fit);
    RoundExact(needed);
    RoundIsHundredths(op);
    RoundExact(Round2(op));
    RoundIsNearest(op, needed);
    RoundIsNearest(op, fit);
  }

  /** The rounded pool of a start that is not refused exceeds the operator's exactly when that value is
      below both the need of the planned concurrency and the free memory, in hundredths, and rounds up. */
  lemma RoundingOvershootsExactly(q: Request)
    requires Honest(q) && Need(q, 1) <= Cap(q) as real
    ensures VllmPlan(q).Sized?
    ensures VllmPlan(q).utilization > OperatorUtil(q) <==>
              && OperatorUtil(q) < NeededUtil(q, Seqs(q))
              && OperatorUtil(q) < Fit(q.total.value, q.available.value, q.reserve)
              && Round2(OperatorUtil(q)) > OperatorUtil(q)
  {
    SizedPlan(q);
    ConcurrencyIsLargestThatFits(q);
    BudgetAboveReserve(q, Seqs(q));
    FitFits(q.total.value, q.available.value, q.reserve);
    NeededCovers(q, Seqs(q));
    OvershootsExactly(NeededUtil(q, Seqs(q)), OperatorUtil(q), Fit(q.total.value, q.available.value, q.reserve));
  }

  const TIGHT :=
    Request(Some(1000), Some(1000), 0, Some(0.756), Some(1), Some(756), Some(Profile(0, 100, 100, 756, 0.0, 1000)),
        0.5, 0.0)

  lemma TightNeed()
    ensures Honest(TIGHT) && Cap(TIGHT) == 756 && Need(TIGHT, 1) == 756.0 && Seqs(TIGHT) == 1
  {
    assert PerToken(TIGHT.profile.value) == 1.0;
    assert PerSeq(TIGHT) == 756.0 && Fixed(TIGHT) == 0.0;
  }

  /** A box of 1000 bytes, all free, an operator's pool of 0.756 and a request of 756: the plan is 0.76. */
  lemma RoundingOvershoots()
    ensures Honest(TIGHT) && VllmPlan(TIGHT) == Sized(0.76, 1)
  {
    TightNeed();
    SizedPlan(TIGHT);
    assert NeededUtil(TIGHT, 1) == 0.76;
    assert Fit(1000, 1000, 0) == 1.0;
    RoundedTight();
  }

  lemma RoundedTight()
    ensures RoundedPool(0.76, 0.756, 1.0) == 0.76
  {
    assert Nearest(0.756 * 100.0) == 76;
  }

  // ---------------------------------------------------------------- the first start of a model

  /** The fraction a start without a profile runs at, unless it is refused. */
  function FirstStartUtil(q: Request): real
    requires q.margin >= 0.0 && (q.window.Some? ==> q.window.value >= 0)
  {
    if VllmPlan(q).PoolOnly? then VllmPlan(q).utilization else OperatorUtil(q)
  }

  lemma HundredthsApart(a: real, b: real)
    requires Hundredths(a) && Hundredths(b) && a < b
    ensures a + 0.01 <= b
  {
    assert (a * 100.0).Floor < (b * 100.0).Floor;
  }

  /** The pool a start without a profile runs at. */
  function StartsAt(op: real, fit: real): real {
    var fitted := Round2(MinR(op, fit));
    if fitted + 0.005 >= op then op else fitted
  }

  lemma StartsWithin(op: real, fit: real, t: real, budget: real)
    requires t > 0.0 && Hundredths(fit) && JustWithin(fit, t, budget)
    ensures StartsAt(op, fit) <= op
    ensures Fits(StartsAt(op, fit), t, budget) <==> !(fit < op <= fit + 0.005 && !Fits(op, t, budget))
  {
    RoundExact(fit);
    RoundBelow(MinR(op, fit), fit);
    if StartsAt(op, fit) <= fit {
      LessFits(StartsAt(op, fit), fit, t, budget);
    }
  }

  lemma FirstPlan(q: Request)
    requires HasReadings(q) && !Profiled(q) && q.margin >= 0.0 && (q.window.Some? ==> q.window.value >= 0)
    ensures var op, fit := OperatorUtil(q), Fit(q.total.value, q.available.value, q.reserve);
            && (VllmPlan(q).Refused? <==> Round2(MinR(op, fit)) < q.minUtil)
            && (!VllmPlan(q).Refused? ==> FirstStartUtil(q) == StartsAt(op, fit))
  {
  }

  /** Without a profile, for every operator value and every reading: a start that is not refused runs at no
      more than the operator's pool; it is refused exactly when the pool that fits, in hundredths, is
      below the minimum; and otherwise it leaves the reserve free exactly when the reserve is free now,
      and not an operator's pool within half a granule above what fits is started as configured although
      it is too large. In hundredths there is no such pool. */
  lemma FirstStartLeavesReserve(q: Request)
    requires q.total.Some? && q.available.Some? && q.total.value > 0 && HasReadings(q) && !Profiled(q)
    requires q.margin >= 0.0 && (q.window.Some? ==> q.window.value >= 0)
    requires OperatorUtil(q) >= 0.0
    ensures var op := if q.operatorUtil.Some? then q.operatorUtil.value else 0.9;
            var fit := Fit(q.total.value, q.available.value, q.reserve);
            var t, budget := q.total.value as real, (q.available.value - q.reserve) as real;
            && (VllmPlan(q).Refused? <==> Round2(MinR(op, fit)) < q.minUtil)
            && (!VllmPlan(q).Refused? ==>
                  && FirstStartUtil(q) <= op
                  && (Fits(FirstStartUtil(q), t, budget) <==>
                        q.available.value >= q.reserve && !(fit < op <= fit + 0.005 && !Fits(op, t, budget))))
            && (Hundredths(op) ==> !(fit < op <= fit + 0.005))
  {
    var op, fit := OperatorUtil(q), Fit(q.total.value, q.available.value, q.reserve);
    var t, budget := q.total.value as real, (q.available.value - q.reserve) as real;
    FirstPlan(q);
    FitIsHundredths(q.total.value, q.available.value, q.reserve);
    if Hundredths(op) && fit < op { HundredthsApart(fit, op); }
    if q.available.value < q.reserve {
      StartsNonNegative(op, fit);
      NothingFits(StartsAt(op, fit), t, budget);
    } else {
      FitFits(q.total.value, q.available.value, q.reserve);
      StartsWithin(op, fit, t, budget);
    }
  }

  lemma StartsNonNegative(op: real, fit: real)
    requires op >= 0.0 && fit >= 0.0
    ensures 0.0 <= StartsAt(op, fit) <= op
  {
    RoundMono(0.0, MinR(op, fit));
    RoundExact(0.0);
  }

  lemma FitIsHundredths(total: int, available: int, reserve: int)
    requires total > 0
    ensures Hundredths(Fit(total, available, reserve)) && Fit(total, available, reserve) >= 0.0
  {
    var share := MaxR((available - reserve) as real / total as real, 0.0);
    GranuleMultiple((share / Granule).Floor);
    assert share / Granule >= 0.0;
  }

  /** An operator's pool of 0.754 on a box with 752 of 1000 bytes free is started as configured. */
  lemma FirstStartMayOvershoot()
    ensures var q := Request(Some(1000), Some(752), 0, Some(0.754), None, None, None, 0.5, 0.0);
            VllmPlan(q) == AsConfigured && FirstStartUtil(q) * 1000.0 > 752.0
  {
    assert Fit(1000, 752, 0) == 0.75;
    assert Round2(0.75) == 0.75;
  }
}
