/** The widened CPU lane: slots are reserved under a lock before a claim, shrunk to the claimed
    row's width, handed to the pool with the job, and released exactly once. Claimers, pool threads
    and a shutdown interleave; tokens identify claim cycles, as the source's UUIDs do. */
module CpuLane {
  import opened Base
  import opened LanePool

  datatype Slot = Slot(job: Option<string>, startedAt: Option<nat>, weight: int)
  type Slots = map<nat, Slot>

  /** Where a claim cycle is: waiting for its claim with `free` slots held, between claim and
      submit, past the pool's closed test, or in the pool's hands. */
  datatype Phase = Reserving(free: int) | Claimed | Submitting | InPool

  /** `freed` counts every release of a token's slot. */
  datatype Lane = Lane(
    width: nat,
    slots: Slots,
    drained: bool,
    phase: map<nat, Phase>,
    used: set<nat>,
    freed: multiset<nat>,
    pool: Pool)

  // ---------------------------------------------------------------- weights

  ghost function Weight(slots: Slots): int {
    if slots == map[] then 0
    else
      var k :| k in slots;
      slots[k].weight + Weight(slots - {k})
  }

  lemma {:induction false} WeightSplit(slots: Slots, k: nat)
    requires k in slots
    ensures Weight(slots) == slots[k].weight + Weight(slots - {k})
    decreases |slots|
  {
    var c :| c in slots && Weight(slots) == slots[c].weight + Weight(slots - {c});
    if c != k {
      WeightSplit(slots - {c}, k);
      WeightSplit(slots - {k}, c);
      assert slots - {c} - {k} == slots - {k} - {c};
    }
  }

  lemma WeightUpdate(slots: Slots, k: nat, s: Slot)
    ensures Weight(slots[k := s]) == Weight(slots) + s.weight - if k in slots then slots[k].weight else 0
  {
    WeightSplit(slots[k := s], k);
    assert slots[k := s] - {k} == slots - {k};
    if k in slots {
      WeightSplit(slots, k);
    } else {
      assert slots - {k} == slots;
    }
  }

  lemma {:induction false} NoMoreSlotsThanWeight(slots: Slots)
    requires forall k :: k in slots ==> slots[k].weight >= 1
    ensures |slots| <= Weight(slots)
    decreases |slots|
  {
    if slots != map[] {
      var k :| k in slots;
      WeightSplit(slots, k);
      NoMoreSlotsThanWeight(slots - {k});
      assert |slots - {k}| == |slots| - 1 by {
        assert (slots - {k}).Keys == slots.Keys - {k};
      }
    }
  }

  /** The width the worker books for a row: `max(1, min(cpu_slots or 1, threads))`. */
  function BookedWidth(cpuSlots: Option<int>, width: int): int {
    var declared := if cpuSlots.None? || cpuSlots.value == 0 then 1 else cpuSlots.value;
    var clamped := if declared < width then declared else width;
    if clamped > 1 then clamped else 1
  }

  /** The width the claim statement tests: `LEAST(GREATEST(COALESCE(cpu_slots, 1), 1), lane)`. */
  function ClaimedWidth(cpuSlots: Option<int>, width: int): int {
    var declared := if cpuSlots.None? then 1 else cpuSlots.value;
    var floored := if declared > 1 then declared else 1;
    if floored < width then floored else width
  }

  /** The worker and the claim statement never disagree about a row's width: what it declares, one if it
      declares nothing, and never outside the lane. */
  lemma WidthsAgree(cpuSlots: Option<int>, width: int)
    requires width >= 1
    ensures BookedWidth(cpuSlots, width) == ClaimedWidth(cpuSlots, width)
    ensures 1 <= BookedWidth(cpuSlots, width) <= width
    ensures cpuSlots.None? ==> BookedWidth(cpuSlots, width) == 1
    ensures cpuSlots.Some? && 1 <= cpuSlots.value <= width ==> BookedWidth(cpuSlots, width) == cpuSlots.value
    ensures cpuSlots.Some? && cpuSlots.value > width ==> BookedWidth(cpuSlots, width) == width
  {
  }

  // ---------------------------------------------------------------- steps

  datatype Action =
    | Reserve(token: nat)
    | ClaimNothing(token: nat)
    | ClaimRow(token: nat, job: string, startedAt: Option<nat>, cpuSlots: Option<int>)
    | PoolRefused(token: nat)
    | TestClosed(token: nat)
    | PutWork(token: nat)
    | ClosePool
    | PutSentinels
    | ThreadTakes(thread: nat)
    | BodyEnds(thread: nat)

  ghost function Free(l: Lane): int {
    l.width - Weight(l.slots)
  }

  function Released(l: Lane, token: nat): Lane {
    l.(slots := l.slots - {token},
       drained := l.drained || l.slots - {token} == map[],
       phase := l.phase - {token},
       freed := l.freed + multiset{token})
  }

  predicate In(l: Lane, token: nat, p: Phase) {
    token in l.phase && l.phase[token] == p
  }

  /** One lock-protected transition. A claim returns only rows whose width fits what is held. */
  ghost function Step(l: Lane, a: Action): Lane {
    match a
    case Reserve(tok) =>
      if tok in l.used || Free(l) < 1 then l
      else
        l.(slots := l.slots[tok := Slot(None, None, Free(l))], drained := false,
           phase := l.phase[tok := Reserving(Free(l))], used := l.used + {tok})
    case ClaimNothing(tok) =>
      if tok in l.phase && l.phase[tok].Reserving? then Released(l, tok) else l
    case ClaimRow(tok, job, startedAt, cpuSlots) =>
      if tok in l.phase && l.phase[tok].Reserving? && ClaimedWidth(cpuSlots, l.width) <= l.phase[tok].free
          && tok in l.slots
      then
        l.(slots := l.slots[tok := Slot(Some(job), startedAt, BookedWidth(cpuSlots, l.width))],
           phase := l.phase[tok := Claimed])
      else l
    case PoolRefused(tok) => if In(l, tok, Claimed) then Released(l, tok) else l
    case TestClosed(tok) =>
      if !In(l, tok, Claimed) then l
      else if l.pool.closed then Released(l, tok)
      else l.(pool := LanePool.Step(l.pool, Check(tok)), phase := l.phase[tok := Submitting])
    case PutWork(tok) =>
      if !In(l, tok, Submitting) then l
      else l.(pool := LanePool.Step(l.pool, Put(tok)), phase := l.phase[tok := InPool])
    case ClosePool => l.(pool := LanePool.Step(l.pool, Close))
    case PutSentinels => l.(pool := LanePool.Step(l.pool, PutSentinel))
    case ThreadTakes(t) => l.(pool := LanePool.Step(l.pool, Take(t)))
    case BodyEnds(t) =>
      if t !in l.pool.busy then l
      else Released(l.(pool := LanePool.Step(l.pool, Finish(t))), l.pool.busy[t])
  }

  ghost function Execute(width: nat, actions: seq<Action>): Lane {
    if actions == [] then Lane(width, map[], true, map[], {}, multiset{}, NewPool(width))
    else Step(Execute(width, actions[..|actions| - 1]), actions[|actions| - 1])
  }

  // ---------------------------------------------------------------- invariants

  /** The slot map: a ceiling, positive widths, the drained flag. */
  ghost predicate SlotsOk(l: Lane) {
    && l.slots.Keys == l.phase.Keys
    && Weight(l.slots) <= l.width
    && (forall tok :: tok in l.slots ==> l.slots[tok].weight >= 1)
    && (l.drained <==> l.slots == map[])
    && (forall tok :: tok in l.phase && l.phase[tok].Reserving? ==> l.slots[tok].weight == l.phase[tok].free)
  }

  /** Every token ever issued either holds its slot or has released it once. */
  ghost predicate FreedOnce(l: Lane) {
    && l.slots.Keys <= l.used
    && forall tok :: l.freed[tok] == if tok in l.used && tok !in l.slots then 1 else 0
  }

  ghost predicate Queued(p: Pool, job: nat) {
    exists i :: 0 <= i < |p.queue| && p.queue[i] == Work(job)
  }

  ghost predicate Running(p: Pool, job: nat) {
    exists t :: t in p.busy && p.busy[t] == job
  }

  ghost predicate PoolOk(l: Lane) {
    l.pool.width == l.width && LanePool.Inv(l.pool) && Distinct(l.pool)
  }

  /** The pool holds exactly the bodies of the tokens handed to it. */
  ghost predicate Handed(l: Lane) {
    && (forall tok :: Queued(l.pool, tok) || Running(l.pool, tok) <==> In(l, tok, InPool))
    && (forall tok :: tok in l.pool.checked <==> In(l, tok, Submitting))
    && (forall tok :: In(l, tok, Claimed) || (tok in l.phase && l.phase[tok].Reserving?) ==> !Seen(l.pool, tok))
    && l.pool.early + l.pool.late + l.pool.checked <= l.used
  }

  ghost predicate Linked(l: Lane) {
    PoolOk(l) && Handed(l)
  }

  ghost predicate Inv(l: Lane) {
    SlotsOk(l) && FreedOnce(l) && Linked(l)
  }

  lemma ReleaseKeepsSlots(l: Lane, token: nat)
    requires SlotsOk(l) && FreedOnce(l) && token in l.slots
    ensures SlotsOk(Released(l, token)) && FreedOnce(Released(l, token))
  {
    WeightSplit(l.slots, token);
  }

  lemma ReserveKeepsInv(l: Lane, tok: nat)
    requires Inv(l)
    ensures Inv(Step(l, Reserve(tok)))
  {
    if tok !in l.used && Free(l) >= 1 {
      WeightUpdate(l.slots, tok, Slot(None, None, Free(l)));
      var l' := Step(l, Reserve(tok));
      assert tok in l'.slots;
    }
  }

  lemma ClaimRowKeepsInv(l: Lane, a: Action)
    requires Inv(l) && a.ClaimRow?
    ensures Inv(Step(l, a))
  {
    var l' := Step(l, a);
    if l' != l {
      var w := BookedWidth(a.cpuSlots, l.width);
      WeightSplit(l.slots, a.token);
      WeightRemaining(l.slots, a.token);
      assert l.width >= 1;
      WidthsAgree(a.cpuSlots, l.width);
      WeightUpdate(l.slots, a.token, Slot(Some(a.job), a.startedAt, w));
      assert a.token in l'.slots;
    }
  }

  lemma WeightRemaining(slots: Slots, k: nat)
    requires k in slots && forall x :: x in slots ==> slots[x].weight >= 1
    ensures Weight(slots - {k}) >= 0
  {
    NoMoreSlotsThanWeight(slots - {k});
  }

  // ---------------------------------------------------------------- the pool's side

  lemma ReleaseKeepsLink(l: Lane, token: nat)
    requires Linked(l) && token in l.phase && (l.phase[token].Reserving? || l.phase[token].Claimed?)
    ensures Linked(Released(l, token))
  {
    var l' := Released(l, token);
    forall tok | tok != token ensures token in l.phase && (tok in l'.phase <==> tok in l.phase) {}
  }

  lemma ReleaseKeepsInv(l: Lane, token: nat)
    requires Inv(l) && token in l.phase && (l.phase[token].Reserving? || l.phase[token].Claimed?)
    ensures Inv(Released(l, token))
  {
    ReleaseKeepsSlots(l, token);
    ReleaseKeepsLink(l, token);
  }

  lemma PutWorkKeepsLink(l: Lane, tok: nat)
    requires Linked(l) && In(l, tok, Submitting)
    ensures Linked(Step(l, PutWork(tok)))
  {
    PutKeepsInv(l.pool, tok);
    StepKeepsDistinct(l.pool, Put(tok));
    PutWorkKeepsHanded(l, tok);
  }

  lemma PutWorkKeepsHanded(l: Lane, tok: nat)
    requires Handed(l) && In(l, tok, Submitting)
    ensures Handed(Step(l, PutWork(tok)))
  {
    var l' := Step(l, PutWork(tok));
    forall x
      ensures Queued(l'.pool, x) || Running(l'.pool, x) <==> Queued(l.pool, x) || Running(l.pool, x) || x == tok
    {
      PutAddsOne(l.pool, tok, x);
    }
  }

  /** Putting a checked body queues it and nothing else. */
  lemma PutAddsOne(p: Pool, tok: nat, x: nat)
    requires tok in p.checked
    ensures var p' := LanePool.Step(p, Put(tok));
            Queued(p', x) || Running(p', x) <==> Queued(p, x) || Running(p, x) || x == tok
  {
    var p' := LanePool.Step(p, Put(tok));
    assert p'.queue == p.queue + [Work(tok)];
    if Queued(p, x) {
      var i :| 0 <= i < |p.queue| && p.queue[i] == Work(x);
      assert p'.queue[i] == Work(x);
    }
    if x == tok { assert p'.queue[|p.queue|] == Work(tok); }
  }

  lemma TakeKeepsLink(l: Lane, t: nat)
    requires Linked(l)
    ensures Linked(Step(l, ThreadTakes(t)))
  {
    var p, p' := l.pool, LanePool.Step(l.pool, Take(t));
    if IdleThread(p, t) && p.queue != [] {
      TakeKeepsInv(p, t);
      StepKeepsDistinct(p, Take(t));
      forall x ensures Queued(p', x) || Running(p', x) <==> Queued(p, x) || Running(p, x) {
        TakeMovesOne(p, t, x);
      }
    }
  }

  /** Taking an item moves its body from the queue to a thread and nothing else. */
  lemma TakeMovesOne(p: Pool, t: nat, x: nat)
    requires IdleThread(p, t) && p.queue != []
    ensures var p' := LanePool.Step(p, Take(t));
            Queued(p', x) || Running(p', x) <==> Queued(p, x) || Running(p, x)
  {
    var p' := LanePool.Step(p, Take(t));
    if Queued(p, x) {
      var i :| 0 <= i < |p.queue| && p.queue[i] == Work(x);
      if i > 0 { assert p'.queue[i - 1] == Work(x); } else { assert t in p'.busy && p'.busy[t] == x; }
    }
    if Running(p, x) {
      var s :| s in p.busy && p.busy[s] == x;
      assert s in p'.busy && p'.busy[s] == x;
    }
    if Queued(p', x) {
      var i :| 0 <= i < |p'.queue| && p'.queue[i] == Work(x);
      assert p.queue[i + 1] == Work(x);
    }
    if Running(p', x) {
      var s :| s in p'.busy && p'.busy[s] == x;
      if s == t && p.queue[0].Work? { assert p.queue[0] == Work(x); } else { assert s in p.busy && p.busy[s] == x; }
    }
  }

  /** Finishing a body removes it and nothing else. */
  lemma FinishDropsOne(p: Pool, t: nat, x: nat)
    requires Distinct(p) && t in p.busy
    ensures var p' := LanePool.Step(p, Finish(t));
            Queued(p', x) || Running(p', x) <==> (Queued(p, x) || Running(p, x)) && x != p.busy[t]
  {
    var p' := LanePool.Step(p, Finish(t));
    if Running(p, x) && x != p.busy[t] {
      var s :| s in p.busy && p.busy[s] == x;
      assert s in p'.busy && p'.busy[s] == x;
    }
  }

  lemma BodyEndsKeepsLink(l: Lane, t: nat)
    requires Linked(l) && t in l.pool.busy
    ensures In(l, l.pool.busy[t], InPool)
    ensures Linked(Step(l, BodyEnds(t)))
  {
    var tok, p, l' := l.pool.busy[t], l.pool, Step(l, BodyEnds(t));
    FinishKeepsInv(p, t);
    StepKeepsDistinct(p, Finish(t));
    assert Running(p, tok);
    forall x ensures Queued(l'.pool, x) || Running(l'.pool, x) <==> In(l', x, InPool) {
      FinishDropsOne(p, t, x);
    }
  }

  lemma BodyEndsKeepsInv(l: Lane, t: nat)
    requires Inv(l) && t in l.pool.busy
    ensures Inv(Step(l, BodyEnds(t)))
  {
    BodyEndsKeepsLink(l, t);
    BodyEndsKeepsSlots(l, t);
  }

  lemma BodyEndsKeepsSlots(l: Lane, t: nat)
    requires SlotsOk(l) && FreedOnce(l) && t in l.pool.busy && l.pool.busy[t] in l.slots
    ensures SlotsOk(Step(l, BodyEnds(t))) && FreedOnce(Step(l, BodyEnds(t)))
  {
    ReleaseKeepsSlots(l.(pool := LanePool.Step(l.pool, Finish(t))), l.pool.busy[t]);
  }

  lemma CloseKeepsLink(l: Lane)
    requires Linked(l)
    ensures Linked(Step(l, ClosePool))
  {
    var p, p' := l.pool, LanePool.Step(l.pool, Close);
    forall x ensures (Queued(p', x) <==> Queued(p, x)) && (Running(p', x) <==> Running(p, x)) {}
  }

  lemma SentinelStepKeepsLink(l: Lane)
    requires Linked(l)
    ensures Linked(Step(l, PutSentinels))
  {
    var p, p' := l.pool, LanePool.Step(l.pool, PutSentinel);
    if p.closed && p.toPut > 0 {
      PutSentinelKeepsInv(p);
      StepKeepsDistinct(p, PutSentinel);
      forall x ensures Queued(p', x) <==> Queued(p, x) {
        if Queued(p, x) {
          var i :| 0 <= i < |p.queue| && p.queue[i] == Work(x);
          assert p'.queue[i] == Work(x);
        }
      }
      forall x ensures Running(p', x) <==> Running(p, x) {}
    }
  }

  lemma TestClosedKeepsInv(l: Lane, tok: nat)
    requires Inv(l) && In(l, tok, Claimed)
    ensures Inv(Step(l, TestClosed(tok)))
  {
    if l.pool.closed {
      ReleaseKeepsInv(l, tok);
    } else {
      OpenTestKeepsLink(l, tok);
    }
  }

  lemma OpenTestKeepsLink(l: Lane, tok: nat)
    requires Linked(l) && In(l, tok, Claimed) && tok in l.used && !l.pool.closed
    ensures Linked(Step(l, TestClosed(tok)))
  {
    StepKeepsDistinct(l.pool, Check(tok));
    CheckKeepsInv(l.pool, tok);
    OpenTestKeepsHanded(l, tok);
  }

  lemma CheckKeepsInv(p: Pool, tok: nat)
    requires LanePool.Inv(p)
    ensures LanePool.Inv(LanePool.Step(p, Check(tok)))
  {
  }

  lemma OpenTestKeepsHanded(l: Lane, tok: nat)
    requires Handed(l) && In(l, tok, Claimed) && tok in l.used && !l.pool.closed
    ensures Handed(Step(l, TestClosed(tok)))
  {
    var l' := Step(l, TestClosed(tok));
    assert l'.pool.queue == l.pool.queue && l'.pool.busy == l.pool.busy;
    forall x ensures (Queued(l'.pool, x) <==> Queued(l.pool, x)) && (Running(l'.pool, x) <==> Running(l.pool, x)) {}
  }

  lemma PoolKeepsSlots(l: Lane, p: Pool)
    requires SlotsOk(l) && FreedOnce(l)
    ensures SlotsOk(l.(pool := p)) && FreedOnce(l.(pool := p))
  {
  }

  lemma PutWorkKeepsSlots(l: Lane, tok: nat)
    requires SlotsOk(l) && FreedOnce(l) && In(l, tok, Submitting)
    ensures SlotsOk(Step(l, PutWork(tok))) && FreedOnce(Step(l, PutWork(tok)))
  {
  }

  lemma StepKeepsInv(l: Lane, a: Action)
    requires Inv(l)
    ensures Inv(Step(l, a))
  {
    match a {
      case Reserve(tok) => ReserveKeepsInv(l, tok);
      case ClaimNothing(tok) => if tok in l.phase && l.phase[tok].Reserving? { ReleaseKeepsInv(l, tok); }
      case ClaimRow(_, _, _, _) => ClaimRowKeepsInv(l, a);
      case PoolRefused(tok) => if In(l, tok, Claimed) { ReleaseKeepsInv(l, tok); }
      case TestClosed(tok) => if In(l, tok, Claimed) { TestClosedKeepsInv(l, tok); }
      case PutWork(tok) =>
        if In(l, tok, Submitting) {
          PutWorkKeepsLink(l, tok);
          PutWorkKeepsSlots(l, tok);
        }
      case ClosePool =>
        CloseKeepsLink(l);
        PoolKeepsSlots(l, LanePool.Step(l.pool, Close));
      case PutSentinels =>
        SentinelStepKeepsLink(l);
        PoolKeepsSlots(l, LanePool.Step(l.pool, PutSentinel));
      case ThreadTakes(t) =>
        TakeKeepsLink(l, t);
        PoolKeepsSlots(l, LanePool.Step(l.pool, Take(t)));
      case BodyEnds(t) => if t in l.pool.busy { BodyEndsKeepsInv(l, t); }
    }
  }

  lemma {:induction false} ExecuteKeepsInv(width: nat, actions: seq<Action>)
    ensures Inv(Execute(width, actions))
  {
    if actions != [] {
      ExecuteKeepsInv(width, actions[..|actions| - 1]);
      StepKeepsInv(Execute(width, actions[..|actions| - 1]), actions[|actions| - 1]);
    }
  }

  // ---------------------------------------------------------------- what every interleaving keeps

  ghost function Unfinished(l: Lane): set<nat> {
    set tok | tok in l.phase && l.phase[tok].InPool?
  }

  /** In every interleaving: the held widths never exceed the lane, the bodies the pool has accepted
      and not finished never outnumber its threads, each reservation is released at most once and,
      once gone, exactly once, and the drained flag says precisely whether a slot is held. */
  lemma LaneIsSafe(width: nat, actions: seq<Action>)
    ensures var l := Execute(width, actions);
            && Weight(l.slots) <= width
            && |Unfinished(l)| <= width
            && (forall tok :: Queued(l.pool, tok) || Running(l.pool, tok) <==> tok in Unfinished(l))
            && (forall tok :: tok in l.used ==> l.freed[tok] == if tok in l.slots then 0 else 1)
            && (l.drained <==> l.slots == map[])
  {
    ExecuteKeepsInv(width, actions);
    var l := Execute(width, actions);
    LaneWidth(width, actions);
    NoMoreSlotsThanWeight(l.slots);
    assert Unfinished(l) <= l.slots.Keys;
    SubsetSize(Unfinished(l), l.slots.Keys);
  }

  lemma {:induction false} LaneWidth(width: nat, actions: seq<Action>)
    ensures Execute(width, actions).width == width
  {
    if actions != [] {
      LaneWidth(width, actions[..|actions| - 1]);
      StepKeepsWidth(Execute(width, actions[..|actions| - 1]), actions[|actions| - 1]);
    }
  }

  lemma StepKeepsWidth(l: Lane, a: Action)
    ensures Step(l, a).width == l.width
  {
  }

  /** A body put behind the last sentinel keeps its slot for ever: in every continuation of the run the
      slot is held, was never released, and the lane does not read drained. That is what the pool's
      "refuses once shut down" rule is there to prevent. */
  lemma LatePutNeverDrains(width: nat, actions: seq<Action>, more: seq<Action>, tok: nat)
    requires tok in Execute(width, actions).pool.late
    ensures var l := Execute(width, actions + more);
            tok in l.slots && l.freed[tok] == 0 && !l.drained
  {
    assert (actions + more)[..|actions|] == actions;
    LateStaysLate(width, actions + more, |actions|, tok);
    LateIsHeld(width, actions + more, tok);
  }

  lemma LateIsHeld(width: nat, actions: seq<Action>, tok: nat)
    requires tok in Execute(width, actions).pool.late
    ensures var l := Execute(width, actions);
            tok in l.slots && l.freed[tok] == 0 && !l.drained
  {
    ExecuteKeepsInv(width, actions);
    var l := Execute(width, actions);
    var i :| 0 <= i < |l.pool.queue| && l.pool.queue[i] == Work(tok);
    assert Queued(l.pool, tok);
    assert In(l, tok, InPool);
  }

  lemma {:induction false} LateStaysLate(width: nat, actions: seq<Action>, n: nat, tok: nat)
    requires n <= |actions| && tok in Execute(width, actions[..n]).pool.late
    ensures tok in Execute(width, actions).pool.late
  {
    if n == |actions| {
      assert actions[..n] == actions;
    } else {
      var init := actions[..|actions| - 1];
      assert init[..n] == actions[..n];
      LateStaysLate(width, init, n, tok);
      LateGrows(Execute(width, init), actions[|actions| - 1]);
    }
  }

  lemma LateGrows(l: Lane, a: Action)
    ensures l.pool.late <= Step(l, a).pool.late
  {
  }

  // ---------------------------------------------------------------- where a slot's claim comes from

  /** Action `i` of the run records a claim for `tok`: its reservation is still waiting for one, and the row
      fits what it holds. */
  ghost predicate ClaimsAt(width: nat, actions: seq<Action>, i: nat, tok: nat) {
    && i < |actions| && actions[i].ClaimRow? && actions[i].token == tok
    && var l := Execute(width, actions[..i]);
       tok in l.phase && l.phase[tok].Reserving? && ClaimedWidth(actions[i].cpuSlots, width) <= l.phase[tok].free
  }

  /** The slot holds what the claim said: its job, its stamp, and the row's width clamped to the lane. */
  ghost predicate HoldsClaim(width: nat, slot: Slot, a: Action)
    requires a.ClaimRow?
  {
    slot.job == Some(a.job) && slot.startedAt == a.startedAt && slot.weight == ClaimedWidth(a.cpuSlots, width)
  }

  /** `tok` waits for its claim with nothing recorded, or it holds what its one claim said. */
  ghost predicate Recorded(width: nat, actions: seq<Action>, l: Lane, tok: nat)
    requires tok in l.slots && tok in l.phase
  {
    if l.phase[tok].Reserving? then
      && l.slots[tok].job.None? && l.slots[tok].startedAt.None?
      && forall i: nat :: !ClaimsAt(width, actions, i, tok)
    else
      exists i: nat ::
        && ClaimsAt(width, actions, i, tok) && HoldsClaim(width, l.slots[tok], actions[i])
        && forall j: nat :: ClaimsAt(width, actions, j, tok) ==> j == i
  }

  /** No token claims before it has reserved. */
  ghost predicate NoneEarly(width: nat, actions: seq<Action>, l: Lane) {
    forall i: nat, tok: nat :: ClaimsAt(width, actions, i, tok) ==> tok in l.used
  }

  lemma ClaimsAtSnoc(width: nat, actions: seq<Action>, a: Action, i: nat, tok: nat)
    ensures i < |actions| ==> (ClaimsAt(width, actions + [a], i, tok) <==> ClaimsAt(width, actions, i, tok))
    ensures i > |actions| ==> !ClaimsAt(width, actions + [a], i, tok)
  {
    if i < |actions| {
      assert (actions + [a])[..i] == actions[..i];
    }
  }

  lemma ClaimsNow(width: nat, actions: seq<Action>, a: Action, tok: nat)
    ensures ClaimsAt(width, actions + [a], |actions|, tok) <==>
            && a.ClaimRow? && a.token == tok
            && var l := Execute(width, actions);
               tok in l.phase && l.phase[tok].Reserving? && ClaimedWidth(a.cpuSlots, width) <= l.phase[tok].free
  {
    assert (actions + [a])[..|actions|] == actions;
  }

  /** The step leaves the claim of `tok` alone. */
  ghost predicate Untouched(l: Lane, a: Action, tok: nat)
    requires tok in l.slots && tok in l.phase
  {
    var l' := Step(l, a);
    && tok in l'.slots && tok in l'.phase && l'.slots[tok] == l.slots[tok]
    && (l'.phase[tok].Reserving? <==> l.phase[tok].Reserving?)
  }

  /** Where a slot held after a step comes from. */
  ghost predicate Accounted(l: Lane, a: Action, tok: nat)
    requires tok in Step(l, a).slots
  {
    var l' := Step(l, a);
    && tok in l'.phase
    && (|| (tok in l.slots && tok in l.phase && Untouched(l, a, tok))
        || (a == Reserve(tok) && tok !in l.used && l'.phase[tok].Reserving?
            && l'.slots[tok].job.None? && l'.slots[tok].startedAt.None?)
        || (a.ClaimRow? && a.token == tok && tok in l.phase && l.phase[tok].Reserving?
            && ClaimedWidth(a.cpuSlots, l.width) <= l.phase[tok].free
            && !l'.phase[tok].Reserving? && HoldsClaim(l.width, l'.slots[tok], a)))
  }

  lemma ReleaseAccounts(l: Lane, a: Action, token: nat, tok: nat)
    requires SlotsOk(l) && Step(l, a).slots == l.slots - {token} && Step(l, a).phase == l.phase - {token}
    requires tok in Step(l, a).slots
    ensures Accounted(l, a, tok)
  {
  }

  lemma PhaseStepAccounts(l: Lane, a: Action, tok: nat)
    requires SlotsOk(l) && (a.TestClosed? || a.PutWork?) && Step(l, a).slots == l.slots && tok in l.slots
    ensures Accounted(l, a, tok)
  {
  }

  lemma ClaimAccounts(l: Lane, a: Action, tok: nat)
    requires SlotsOk(l) && a.ClaimRow? && tok in Step(l, a).slots
    ensures Accounted(l, a, tok)
  {
    if a.token == tok && tok in l.slots {
      WeightSplit(l.slots, tok);
      WeightRemaining(l.slots, tok);
      WidthsAgree(a.cpuSlots, l.width);
    }
  }

  lemma ReserveAccounts(l: Lane, token: nat, tok: nat)
    requires SlotsOk(l) && FreedOnce(l) && tok in Step(l, Reserve(token)).slots
    ensures Accounted(l, Reserve(token), tok)
  {
  }

  lemma SlotAfterStep(l: Lane, a: Action, tok: nat)
    requires Inv(l) && tok in Step(l, a).slots
    ensures Accounted(l, a, tok)
  {
    match a {
      case Reserve(token) => ReserveAccounts(l, token, tok);
      case ClaimNothing(token) => if Step(l, a) != l { ReleaseAccounts(l, a, token, tok); }
      case ClaimRow(_, _, _, _) => ClaimAccounts(l, a, tok);
      case PoolRefused(token) => if Step(l, a) != l { ReleaseAccounts(l, a, token, tok); }
      case TestClosed(token) =>
        if In(l, token, Claimed) && l.pool.closed {
          ReleaseAccounts(l, a, token, tok);
        } else {
          PhaseStepAccounts(l, a, tok);
        }
      case PutWork(token) => PhaseStepAccounts(l, a, tok);
      case ClosePool =>
      case PutSentinels =>
      case ThreadTakes(_) =>
      case BodyEnds(t) => if t in l.pool.busy { ReleaseAccounts(l, a, l.pool.busy[t], tok); }
    }
  }

  lemma StillRecorded(width: nat, actions: seq<Action>, a: Action, tok: nat)
    requires var l := Execute(width, actions);
             && tok in l.slots && tok in l.phase && Untouched(l, a, tok) && Recorded(width, actions, l, tok)
             && !ClaimsAt(width, actions + [a], |actions|, tok)
    ensures var l' := Step(Execute(width, actions), a);
            tok in l'.slots && tok in l'.phase && Recorded(width, actions + [a], l', tok)
  {
    var l, us := Execute(width, actions), actions + [a];
    forall i: nat
      ensures ClaimsAt(width, us, i, tok) <==> ClaimsAt(width, actions, i, tok)
    {
      ClaimsAtSnoc(width, actions, a, i, tok);
    }
    if !l.phase[tok].Reserving? {
      var i: nat :| && ClaimsAt(width, actions, i, tok) && HoldsClaim(width, l.slots[tok], actions[i])
                    && forall j: nat :: ClaimsAt(width, actions, j, tok) ==> j == i;
      assert us[i] == actions[i];
      assert ClaimsAt(width, us, i, tok);
    }
  }

  lemma NewlyRecorded(width: nat, actions: seq<Action>, a: Action, tok: nat)
    requires var l := Execute(width, actions);
             && tok in l.slots && tok in l.phase && l.phase[tok].Reserving? && Recorded(width, actions, l, tok)
             && ClaimsAt(width, actions + [a], |actions|, tok)
    requires var l' := Step(Execute(width, actions), a);
             tok in l'.slots && tok in l'.phase && !l'.phase[tok].Reserving? && HoldsClaim(width, l'.slots[tok], a)
    ensures Recorded(width, actions + [a], Step(Execute(width, actions), a), tok)
  {
    var us := actions + [a];
    forall j: nat | ClaimsAt(width, us, j, tok)
      ensures j == |actions|
    {
      ClaimsAtSnoc(width, actions, a, j, tok);
    }
    assert us[|actions|] == a;
  }

  lemma FreshlyReserved(width: nat, actions: seq<Action>, tok: nat)
    requires NoneEarly(width, actions, Execute(width, actions)) && tok !in Execute(width, actions).used
    requires var l' := Step(Execute(width, actions), Reserve(tok));
             && tok in l'.slots && tok in l'.phase && l'.phase[tok].Reserving?
             && l'.slots[tok].job.None? && l'.slots[tok].startedAt.None?
    ensures Recorded(width, actions + [Reserve(tok)], Step(Execute(width, actions), Reserve(tok)), tok)
  {
    forall i: nat
      ensures !ClaimsAt(width, actions + [Reserve(tok)], i, tok)
    {
      ClaimsAtSnoc(width, actions, Reserve(tok), i, tok);
      ClaimsNow(width, actions, Reserve(tok), tok);
    }
  }

  lemma StillNoneEarly(width: nat, actions: seq<Action>, a: Action)
    requires Inv(Execute(width, actions)) && NoneEarly(width, actions, Execute(width, actions))
    ensures NoneEarly(width, actions + [a], Step(Execute(width, actions), a))
  {
    forall i: nat, tok: nat | ClaimsAt(width, actions + [a], i, tok)
      ensures tok in Step(Execute(width, actions), a).used
    {
      ClaimsAtSnoc(width, actions, a, i, tok);
      ClaimsNow(width, actions, a, tok);
      UsedGrows(Execute(width, actions), a);
    }
  }

  lemma UsedGrows(l: Lane, a: Action)
    ensures l.used <= Step(l, a).used
  {
  }

  lemma {:induction false} AllRecorded(width: nat, actions: seq<Action>)
    ensures NoneEarly(width, actions, Execute(width, actions))
    ensures var l := Execute(width, actions);
            forall tok :: tok in l.slots ==> tok in l.phase && Recorded(width, actions, l, tok)
  {
    if actions != [] {
      var before, a := actions[..|actions| - 1], actions[|actions| - 1];
      assert actions == before + [a];
      AllRecorded(width, before);
      ExecuteKeepsInv(width, before);
      StillNoneEarly(width, before, a);
      forall tok | tok in Execute(width, actions).slots
        ensures tok in Execute(width, actions).phase && Recorded(width, actions, Execute(width, actions), tok)
      {
        RecordedAfter(width, before, a, tok);
      }
    }
  }

  lemma RecordedAfter(width: nat, before: seq<Action>, a: Action, tok: nat)
    requires Inv(Execute(width, before)) && NoneEarly(width, before, Execute(width, before))
    requires var l := Execute(width, before);
             forall t :: t in l.slots ==> t in l.phase && Recorded(width, before, l, t)
    requires tok in Step(Execute(width, before), a).slots
    ensures var l' := Step(Execute(width, before), a);
            tok in l'.phase && Recorded(width, before + [a], l', tok)
  {
    var l := Execute(width, before);
    LaneWidth(width, before);
    SlotAfterStep(l, a, tok);
    ClaimsNow(width, before, a, tok);
    if a == Reserve(tok) && tok !in l.used {
      FreshlyReserved(width, before, tok);
    } else if ClaimsAt(width, before + [a], |before|, tok) {
      ClaimIsTaken(l, a);
      NewlyRecorded(width, before, a, tok);
    } else {
      StillRecorded(width, before, a, tok);
    }
  }

  lemma ClaimIsTaken(l: Lane, a: Action)
    requires Inv(l) && a.ClaimRow? && a.token in l.phase && l.phase[a.token].Reserving?
    requires ClaimedWidth(a.cpuSlots, l.width) <= l.phase[a.token].free
    ensures a.token in Step(l, a).phase && !Step(l, a).phase[a.token].Reserving?
  {
  }

  /** In every interleaving a held slot is one of two things: a reservation for which no claim was recorded and
      which names no job, or exactly what the one claim recorded for its token said: that row's job, that
      claim's stamp, that row's width. */
  lemma SlotsHoldTheirClaims(width: nat, actions: seq<Action>, tok: nat)
    requires tok in Execute(width, actions).slots
    ensures var slot := Execute(width, actions).slots[tok];
            || (slot.job.None? && slot.startedAt.None? && forall i: nat :: !ClaimsAt(width, actions, i, tok))
            || (exists i: nat ::
                  && ClaimsAt(width, actions, i, tok) && HoldsClaim(width, slot, actions[i])
                  && forall j: nat :: ClaimsAt(width, actions, j, tok) ==> j == i)
  {
    AllRecorded(width, actions);
  }

  // ---------------------------------------------------------------- every exit releases

  /** Step `a` gives the slot of `token` back: the claim found nothing, building the pool was refused, the
      submit found it shut down, or the body ended. */
  predicate GivesBack(l: Lane, a: Action, token: nat) {
    match a
    case ClaimNothing(tok) => tok == token && tok in l.phase && l.phase[tok].Reserving?
    case PoolRefused(tok) => tok == token && In(l, tok, Claimed)
    case TestClosed(tok) => tok == token && In(l, tok, Claimed) && l.pool.closed
    case BodyEnds(t) => t in l.pool.busy && l.pool.busy[t] == token
    case _ => false
  }

  lemma GiverHoldsSlot(l: Lane, a: Action, token: nat)
    requires Inv(l) && GivesBack(l, a, token)
    ensures token in l.slots && l.freed[token] == 0 && token in l.used
  {
    if a.BodyEnds? {
      assert Running(l.pool, token);
      assert In(l, token, InPool);
    }
  }

  lemma GivingReleases(l: Lane, a: Action, token: nat)
    requires GivesBack(l, a, token)
    ensures Step(l, a) == Released(l, token).(pool := Step(l, a).pool)
  {
  }

  lemma ReleasedExactly(l: Lane, token: nat)
    requires SlotsOk(l) && token in l.slots && l.freed[token] == 0
    ensures Released(l, token).freed == l.freed[token := 1]
    ensures Released(l, token).drained <==> l.slots.Keys == {token}
  {
    var rest := l.slots - {token};
    assert rest.Keys == l.slots.Keys - {token};
    assert rest == map[] <==> rest.Keys == {};
    assert l.slots.Keys == rest.Keys + {token};
  }

  /** On every exit path, in every interleaving, the slot's whole width is free again, it is released for the
      first and only time, no other slot is touched, and the lane is drained exactly when it was the last. */
  lemma EveryExitReleases(width: nat, actions: seq<Action>, a: Action, token: nat)
    requires GivesBack(Execute(width, actions), a, token)
    ensures var l := Execute(width, actions);
            var l' := Step(l, a);
            && token in l.slots && l'.slots == l.slots - {token} && token !in l'.phase
            && l.freed[token] == 0 && l'.freed == l.freed[token := 1]
            && Weight(l'.slots) == Weight(l.slots) - l.slots[token].weight
            && (l'.drained <==> l.slots.Keys == {token})
  {
    ExecuteKeepsInv(width, actions);
    var l := Execute(width, actions);
    GiverHoldsSlot(l, a, token);
    GivingReleases(l, a, token);
    ReleasedExactly(l, token);
    WeightSplit(l.slots, token);
  }

  // ---------------------------------------------------------------- the lane's pool is a pool

  /** What a step asks of the pool. */
  function PoolAsk(l: Lane, a: Action): Option<LanePool.Action> {
    match a
    case TestClosed(tok) => if In(l, tok, Claimed) then Some(Check(tok)) else None
    case PutWork(tok) => if In(l, tok, Submitting) then Some(Put(tok)) else None
    case ClosePool => Some(Close)
    case PutSentinels => Some(PutSentinel)
    case ThreadTakes(t) => Some(Take(t))
    case BodyEnds(t) => Some(Finish(t))
    case _ => None
  }

  ghost function PoolAsks(width: nat, actions: seq<Action>): seq<LanePool.Action> {
    if actions == [] then []
    else
      var before := actions[..|actions| - 1];
      var ask := PoolAsk(Execute(width, before), actions[|actions| - 1]);
      PoolAsks(width, before) + if ask.Some? then [ask.value] else []
  }

  lemma StepRunsPool(l: Lane, a: Action)
    ensures Step(l, a).pool == if PoolAsk(l, a).Some? then LanePool.Step(l.pool, PoolAsk(l, a).value) else l.pool
  {
  }

  /** In every interleaving the lane's pool is where the steps asked of it lead, so what is proved of every run
      of the pool holds of the lane's. */
  lemma {:induction false} LaneRunsItsPool(width: nat, actions: seq<Action>)
    ensures Execute(width, actions).pool == LanePool.Execute(width, PoolAsks(width, actions))
  {
    if actions != [] {
      var before, a := actions[..|actions| - 1], actions[|actions| - 1];
      LaneRunsItsPool(width, before);
      var l := Execute(width, before);
      StepRunsPool(l, a);
      if PoolAsk(l, a).Some? {
        LanePool.ExecuteSnoc(width, PoolAsks(width, before), PoolAsk(l, a).value);
      } else {
        assert PoolAsks(width, before) + [] == PoolAsks(width, before);
      }
    }
  }

  /** So a lane whose pool threads have all exited has run every body put before the last sentinel. */
  lemma ShutdownDrainsLane(width: nat, actions: seq<Action>, tok: nat)
    requires |Execute(width, actions).pool.exited| == width && tok in Execute(width, actions).pool.early
    ensures tok in Execute(width, actions).pool.finished && tok !in Execute(width, actions).slots
  {
    LaneRunsItsPool(width, actions);
    ShutdownRunsAcceptedJobs(width, PoolAsks(width, actions));
    ExecuteKeepsInv(width, actions);
    FinishedIsReleased(width, actions, tok);
  }

  lemma {:induction false} FinishedIsReleased(width: nat, actions: seq<Action>, tok: nat)
    requires tok in Execute(width, actions).pool.finished
    ensures tok !in Execute(width, actions).slots && tok in Execute(width, actions).used
  {
    var before, a := actions[..|actions| - 1], actions[|actions| - 1];
    var l := Execute(width, before);
    ExecuteKeepsInv(width, before);
    if tok in l.pool.finished {
      FinishedIsReleased(width, before, tok);
      UsedStaysFree(l, a, tok);
    } else {
      FinishingReleases(l, a, tok);
    }
  }

  lemma OnlyEndingFinishes(l: Lane, a: Action, tok: nat)
    requires tok !in l.pool.finished && tok in Step(l, a).pool.finished
    ensures a.BodyEnds? && a.thread in l.pool.busy && l.pool.busy[a.thread] == tok
  {
  }

  lemma FinishingReleases(l: Lane, a: Action, tok: nat)
    requires Inv(l) && tok !in l.pool.finished && tok in Step(l, a).pool.finished
    ensures tok !in Step(l, a).slots && tok in Step(l, a).used
  {
    OnlyEndingFinishes(l, a, tok);
    GiverHoldsSlot(l, a, tok);
  }

  lemma UsedStaysFree(l: Lane, a: Action, tok: nat)
    requires Inv(l) && tok in l.used && tok !in l.slots
    ensures tok !in Step(l, a).slots && tok in Step(l, a).used
  {
    UsedGrows(l, a);
    if tok in Step(l, a).slots {
      SlotAfterStep(l, a, tok);
      assert false;
    }
  }
}
