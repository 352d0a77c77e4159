/** `_CpuLanePool`: `width` threads pulling from one FIFO queue. A submitter checks `_closed` and
    then puts, as two steps; a shutdown sets `_closed` and then puts one sentinel per thread, one
    at a time. Threads, submitters and the shutdown interleave freely. */
module LanePool {

  datatype Item = Work(job: nat) | Sentinel

  /** `checked` have passed the closed test and not yet put; `toPut` sentinels are still owed
      (all of them before the shutdown). `early` and `late` split the jobs put: before the last
      sentinel, or behind it. */
  datatype Pool = Pool(
    width: nat,
    queue: seq<Item>,
    closed: bool,
    toPut: nat,
    busy: map<nat, nat>,
    exited: set<nat>,
    checked: set<nat>,
    early: set<nat>,
    late: set<nat>,
    finished: set<nat>)

  datatype Action =
    | Check(job: nat)
    | Put(job: nat)
    | Close
    | PutSentinel
    | Take(thread: nat)
    | Finish(thread: nat)

  function NewPool(width: nat): Pool {
    Pool(width, [], false, width, map[], {}, {}, {}, {}, {})
  }

  predicate Seen(p: Pool, job: nat) {
    job in p.checked || job in p.early || job in p.late
  }

  predicate IdleThread(p: Pool, t: nat) {
    t < p.width && t !in p.busy && t !in p.exited
  }

  /** One step; a step whose guard fails changes nothing. */
  function Step(p: Pool, a: Action): Pool {
    match a
    case Check(job) => if p.closed || Seen(p, job) then p else p.(checked := p.checked + {job})
    case Put(job) =>
      if job !in p.checked then p
      else
        var put := p.(checked := p.checked - {job}, queue := p.queue + [Work(job)]);
        if p.toPut > 0 then put.(early := p.early + {job}) else put.(late := p.late + {job})
    case Close => p.(closed := true)
    case PutSentinel =>
      if p.closed && p.toPut > 0 then p.(toPut := p.toPut - 1, queue := p.queue + [Sentinel]) else p
    case Take(t) =>
      if !IdleThread(p, t) || p.queue == [] then p
      else if p.queue[0].Work? then p.(queue := p.queue[1..], busy := p.busy[t := p.queue[0].job])
      else p.(queue := p.queue[1..], exited := p.exited + {t})
    case Finish(t) =>
      if t !in p.busy then p else p.(busy := p.busy - {t}, finished := p.finished + {p.busy[t]})
  }

  function Execute(width: nat, actions: seq<Action>): Pool {
    if actions == [] then NewPool(width)
    else Step(Execute(width, actions[..|actions| - 1]), actions[|actions| - 1])
  }

  function Sentinels(q: seq<Item>): nat {
    if q == [] then 0 else (if q[0].Sentinel? then 1 else 0) + Sentinels(q[1..])
  }

  lemma {:induction false} SentinelsSnoc(q: seq<Item>, x: Item)
    ensures Sentinels(q + [x]) == Sentinels(q) + if x.Sentinel? then 1 else 0
  {
    if q != [] {
      SentinelsSnoc(q[1..], x);
      assert (q + [x])[1..] == q[1..] + [x];
    } else {
      assert (q + [x])[1..] == [];
    }
  }

  lemma {:induction false} SentinelCounts(q: seq<Item>, i: nat)
    requires i < |q| && q[i].Sentinel?
    ensures Sentinels(q) > 0
  {
    if i > 0 { SentinelCounts(q[1..], i - 1); }
  }

  lemma {:induction false} NoSentinelMeansZero(q: seq<Item>)
    requires forall i :: 0 <= i < |q| ==> q[i].Work?
    ensures Sentinels(q) == 0
  {
    if q != [] { NoSentinelMeansZero(q[1..]); }
  }

  ghost predicate SentinelBehind(q: seq<Item>, i: nat) {
    exists k :: i < k < |q| && q[k].Sentinel?
  }

  /** Threads exit one per sentinel, and a busy thread has not exited. */
  ghost predicate Counted(p: Pool) {
    && (p.closed || p.toPut == p.width)
    && Sentinels(p.queue) + p.toPut + |p.exited| == p.width
    && (forall t :: t in p.busy ==> t < p.width && t !in p.exited && p.busy[t] in p.early)
    && (forall t :: t in p.exited ==> t < p.width)
    && p.early !! p.late && p.checked !! p.early && p.checked !! p.late
  }

  /** A queued early job has a sentinel behind it, now or still to come; a late one never has. */
  ghost predicate Ordered(p: Pool) {
    forall i :: 0 <= i < |p.queue| && p.queue[i].Work? ==>
      || (p.queue[i].job in p.early && (p.toPut > 0 || SentinelBehind(p.queue, i)))
      || (p.queue[i].job in p.late && p.toPut == 0 && !SentinelBehind(p.queue, i))
  }

  /** No accepted job is lost. */
  ghost predicate Placed(p: Pool) {
    && (forall j :: j in p.early ==> Work(j) in p.queue || j in p.busy.Values || j in p.finished)
    && (forall j :: j in p.late ==> Work(j) in p.queue)
    && p.finished <= p.early
  }

  ghost predicate Inv(p: Pool) {
    Counted(p) && Ordered(p) && Placed(p)
  }

  lemma WorkHidesNoSentinel(q: seq<Item>, job: nat, i: nat)
    requires i <= |q|
    ensures SentinelBehind(q + [Work(job)], i) <==> SentinelBehind(q, i)
  {
    if SentinelBehind(q, i) {
      var k :| i < k < |q| && q[k].Sentinel?;
      assert (q + [Work(job)])[k].Sentinel?;
    }
  }

  lemma PutKeepsOrder(p: Pool, job: nat)
    requires Counted(p) && Ordered(p) && job in p.checked
    ensures Ordered(Step(p, Put(job)))
  {
    var p' := Step(p, Put(job));
    forall i | 0 <= i < |p'.queue| && p'.queue[i].Work?
      ensures || (p'.queue[i].job in p'.early && (p'.toPut > 0 || SentinelBehind(p'.queue, i)))
              || (p'.queue[i].job in p'.late && p'.toPut == 0 && !SentinelBehind(p'.queue, i))
    {
      WorkHidesNoSentinel(p.queue, job, i);
    }
  }

  lemma PutKeepsInv(p: Pool, job: nat)
    requires Inv(p) && job in p.checked
    ensures Inv(Step(p, Put(job)))
  {
    var p' := Step(p, Put(job));
    SentinelsSnoc(p.queue, Work(job));
    PutKeepsOrder(p, job);
    forall j | Work(j) in p.queue || j == job
      ensures Work(j) in p'.queue
    {
      if j == job { assert p'.queue[|p.queue|] == Work(job); }
    }
  }

  lemma PutSentinelKeepsInv(p: Pool)
    requires Inv(p) && p.closed && p.toPut > 0
    ensures Inv(Step(p, PutSentinel))
  {
    var p' := Step(p, PutSentinel);
    SentinelsSnoc(p.queue, Sentinel);
    assert p'.queue[|p.queue|].Sentinel?;
    forall i | 0 <= i < |p.queue| ensures SentinelBehind(p'.queue, i) {}
    forall j | Work(j) in p.queue ensures Work(j) in p'.queue {}
  }

  lemma TailKeepsSentinels(q: seq<Item>, i: nat)
    requires 0 < i < |q|
    ensures SentinelBehind(q[1..], i - 1) <==> SentinelBehind(q, i)
  {
    if SentinelBehind(q, i) {
      var k :| i < k < |q| && q[k].Sentinel?;
      assert q[1..][k - 1].Sentinel?;
    }
  }

  /** A thread that takes work takes an early job: a late one at the head means every sentinel is
      gone, so every thread has exited. */
  lemma HeadIsEarly(p: Pool, t: nat)
    requires Inv(p) && IdleThread(p, t) && p.queue != [] && p.queue[0].Work?
    ensures p.queue[0].job in p.early
  {
    if p.queue[0].job in p.late {
      forall i | 0 <= i < |p.queue| ensures p.queue[i].Work? {}
      NoSentinelMeansZero(p.queue);
      AllThreadsCounted(p.exited, p.width, t);
      assert false;
    }
  }

  lemma {:induction false} AllThreadsCounted(s: set<nat>, n: nat, t: nat)
    requires t < n && t !in s && forall x :: x in s ==> x < n
    ensures |s| < n
  {
    if n > 0 {
      if n - 1 in s {
        AllThreadsCounted(s - {n - 1}, n - 1, if t == n - 1 then 0 else t);
      } else {
        SubsetBelow(s, n - 1);
      }
    }
  }

  lemma {:induction false} SubsetBelow(s: set<nat>, n: nat)
    requires forall x :: x in s ==> x < n
    ensures |s| <= n
  {
    if n == 0 {
      assert s == {};
    } else {
      SubsetBelow(s - {n - 1}, n - 1);
      assert s <= (s - {n - 1}) + {n - 1};
    }
  }

  lemma TakeKeepsInv(p: Pool, t: nat)
    requires Inv(p) && IdleThread(p, t) && p.queue != []
    ensures Inv(Step(p, Take(t)))
  {
    var p' := Step(p, Take(t));
    var q := p.queue[1..];
    forall i | 0 <= i < |q|
      ensures q[i] == p.queue[i + 1] && (SentinelBehind(q, i) <==> SentinelBehind(p.queue, i + 1))
    {
      TailKeepsSentinels(p.queue, i + 1);
    }
    if p.queue[0].Work? {
      HeadIsEarly(p, t);
      assert t in p'.busy && p'.busy[t] == p.queue[0].job;
    }
    forall j | j in p.early && (Work(j) in p.queue || j in p.busy.Values)
      ensures Work(j) in q || j in p'.busy.Values
    {
      if Work(j) in p.queue {
        var i :| 0 <= i < |p.queue| && p.queue[i] == Work(j);
        assert i > 0 ==> q[i - 1] == Work(j);
      } else {
        var s :| s in p.busy && p.busy[s] == j;
        assert s in p'.busy && p'.busy[s] == j;
      }
    }
    forall j | j in p.late
      ensures Work(j) in q
    {
      var i :| 0 <= i < |p.queue| && p.queue[i] == Work(j);
      assert i > 0 && q[i - 1] == Work(j);
    }
  }

  lemma FinishKeepsInv(p: Pool, t: nat)
    requires Inv(p) && t in p.busy
    ensures Inv(Step(p, Finish(t)))
  {
    var p' := Step(p, Finish(t));
    forall j | j in p.early && j in p.busy.Values
      ensures j in p'.busy.Values || j in p'.finished
    {
      var s :| s in p.busy && p.busy[s] == j;
      if s != t { assert s in p'.busy && p'.busy[s] == j; }
    }
  }

  lemma {:induction false} ExecuteKeepsInv(width: nat, actions: seq<Action>)
    ensures Inv(Execute(width, actions))
  {
    if actions != [] {
      ExecuteKeepsInv(width, actions[..|actions| - 1]);
      var p, a := Execute(width, actions[..|actions| - 1]), actions[|actions| - 1];
      match a {
        case Put(job) => if job in p.checked { PutKeepsInv(p, job); }
        case PutSentinel => if p.closed && p.toPut > 0 { PutSentinelKeepsInv(p); }
        case Take(t) => if IdleThread(p, t) && p.queue != [] { TakeKeepsInv(p, t); }
        case Finish(t) => if t in p.busy { FinishKeepsInv(p, t); }
        case _ =>
      }
    }
  }

  // ---------------------------------------------------------------- each job is in one place

  ghost predicate Distinct(p: Pool) {
    && (forall i, j :: 0 <= i < j < |p.queue| && p.queue[i].Work? && p.queue[j].Work? ==>
          p.queue[i].job != p.queue[j].job)
    && (forall s, t :: s in p.busy && t in p.busy && s != t ==> p.busy[s] != p.busy[t])
    && (forall i, t :: 0 <= i < |p.queue| && p.queue[i].Work? && t in p.busy ==> p.queue[i].job != p.busy[t])
  }

  lemma PutKeepsDistinct(p: Pool, job: nat)
    requires Inv(p) && Distinct(p)
    ensures Distinct(Step(p, Put(job)))
  {
  }

  lemma TakeKeepsDistinct(p: Pool, t: nat)
    requires Distinct(p)
    ensures Distinct(Step(p, Take(t)))
  {
  }

  lemma StepKeepsDistinct(p: Pool, a: Action)
    requires Inv(p) && Distinct(p)
    ensures Distinct(Step(p, a))
  {
    match a {
      case Check(_) =>
      case Put(job) => PutKeepsDistinct(p, job);
      case Close =>
      case PutSentinel =>
      case Take(t) => TakeKeepsDistinct(p, t);
      case Finish(_) =>
    }
  }

  /** When a waiting shutdown returns, every thread having exited, the finished jobs are exactly the
      accepted ones that were put before the last sentinel; a submitter that passed the closed test
      and put behind it has its job neither run nor refused. */
  lemma ShutdownRunsAcceptedJobs(width: nat, actions: seq<Action>)
    requires |Execute(width, actions).exited| == width
    ensures var p := Execute(width, actions);
            p.finished == p.early && (forall j :: j in p.late ==> Work(j) in p.queue && j !in p.finished)
    ensures var p := Execute(width, actions); p.finished == p.early + p.late <==> p.late == {}
  {
    ExecuteKeepsInv(width, actions);
    ExecuteWidth(width, actions);
    var p := Execute(width, actions);
    forall j | j in p.early
      ensures j in p.finished
    {
      if Work(j) in p.queue {
        var i :| 0 <= i < |p.queue| && p.queue[i] == Work(j);
        assert SentinelBehind(p.queue, i);
        var k :| i < k < |p.queue| && p.queue[k].Sentinel?;
        SentinelCounts(p.queue, k);
        assert false;
      }
      if j in p.busy.Values {
        var t :| t in p.busy && p.busy[t] == j;
        AllThreadsCounted(p.exited, p.width, t);
        assert false;
      }
    }
  }

  lemma {:induction false} ExecuteWidth(width: nat, actions: seq<Action>)
    ensures Execute(width, actions).width == width
  {
    if actions != [] { ExecuteWidth(width, actions[..|actions| - 1]); }
  }

  /** It does happen: a submitter tests, the pool closes and puts its sentinel, the submitter puts. The
      only thread then exits, and an accepted job has not run. */
  lemma LatePutHappens()
    ensures var p := Execute(1, [Check(7), Close, PutSentinel, Put(7), Take(0)]);
            |p.exited| == 1 && p.late == {7} && p.finished == {}
  {
    var p1 := NewPool(1).(checked := {7});
    var p2 := p1.(closed := true);
    var p3 := p2.(toPut := 0, queue := [Sentinel]);
    var p4 := p3.(checked := {}, queue := [Sentinel, Work(7)], late := {7});
    Then([], NewPool(1), Check(7), p1);
    Then([] + [Check(7)], p1, Close, p2);
    Then([] + [Check(7)] + [Close], p2, PutSentinel, p3);
    Then([] + [Check(7)] + [Close] + [PutSentinel], p3, Put(7), p4);
    ExecuteSnoc(1, [] + [Check(7)] + [Close] + [PutSentinel] + [Put(7)], Take(0));
    assert [] + [Check(7)] + [Close] + [PutSentinel] + [Put(7)] + [Take(0)] ==
           [Check(7), Close, PutSentinel, Put(7), Take(0)];
    assert Step(p4, Take(0)).exited == {0};
  }

  lemma Then(s: seq<Action>, p: Pool, a: Action, p': Pool)
    requires Execute(1, s) == p && Step(p, a) == p'
    ensures Execute(1, s + [a]) == p'
  {
    ExecuteSnoc(1, s, a);
  }

  lemma ExecuteSnoc(width: nat, actions: seq<Action>, a: Action)
    ensures Execute(width, actions + [a]) == Step(Execute(width, actions), a)
  {
    assert (actions + [a])[..|actions|] == actions;
  }
}
