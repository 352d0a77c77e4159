/** The migration runner of `db.py`: `bootstrap` under Postgres' advisory lock, by any number of
    processes, and `downgrade` along the paired down files. `S` is the schema; a migration is a
    function on it, named by its version. */
module Migrations {
  import opened Base

  datatype Db<S> = Db(schema: S, ledger: set<int>)

  type Ups<!S> = int -> S -> S
  type Downs<!S> = int -> Option<S -> S>

  /** `bootstrap`'s loop: every version of `chain` not in `applied`, in order. `applied` is the
      ledger as it was read, not as it grows. */
  function Upgrade<S>(ups: Ups<S>, chain: seq<int>, applied: set<int>, db: Db<S>): Db<S> {
    if chain == [] then db
    else
      var before := Upgrade(ups, chain[..|chain| - 1], applied, db);
      var v := chain[|chain| - 1];
      if v in applied then before else Db(ups(v)(before.schema), before.ledger + {v})
  }

  function Bootstrap<S>(ups: Ups<S>, chain: seq<int>, db: Db<S>): Db<S> {
    Upgrade(ups, chain, db.ledger, db)
  }

  ghost predicate Ascending(chain: seq<int>) {
    forall i, j :: 0 <= i < j < |chain| ==> chain[i] < chain[j]
  }

  function Versions(chain: seq<int>): set<int> {
    set v | v in chain
  }

  lemma {:induction false} UpgradeLedger<S>(ups: Ups<S>, chain: seq<int>, applied: set<int>, db: Db<S>)
    ensures Upgrade(ups, chain, applied, db).ledger == db.ledger + (Versions(chain) - applied)
  {
    if chain != [] {
      UpgradeLedger(ups, chain[..|chain| - 1], applied, db);
      assert chain == chain[..|chain| - 1] + [chain[|chain| - 1]];
      assert Versions(chain) == Versions(chain[..|chain| - 1]) + {chain[|chain| - 1]};
    }
  }

  /** A bootstrap over a chain already in the ledger changes nothing. */
  lemma {:induction false} UpgradeIsNoOp<S>(ups: Ups<S>, chain: seq<int>, applied: set<int>, db: Db<S>)
    requires Versions(chain) <= applied
    ensures Upgrade(ups, chain, applied, db) == db
  {
    if chain != [] {
      assert chain[|chain| - 1] in Versions(chain);
      assert Versions(chain[..|chain| - 1]) <= Versions(chain);
      UpgradeIsNoOp(ups, chain[..|chain| - 1], applied, db);
    }
  }

  /** A second bootstrap of the same chain is a no-op. */
  lemma BootstrapIsIdempotent<S>(ups: Ups<S>, chain: seq<int>, db: Db<S>)
    ensures var once := Bootstrap(ups, chain, db);
            Bootstrap(ups, chain, once) == once
  {
    UpgradeLedger(ups, chain, db.ledger, db);
    UpgradeIsNoOp(ups, chain, Bootstrap(ups, chain, db).ledger, Bootstrap(ups, chain, db));
  }

  // ---------------------------------------------------------------- concurrent bootstraps

  /** A bootstrap in a process: waiting outside, holding the lock, or applying inside its
      transaction with the ledger it read and its uncommitted work. */
  datatype Proc<S> =
    | Outside
    | Locked
    | Applying(next: nat, applied: set<int>, work: Db<S>, added: seq<int>)

  /** `log` is every version whose migration took effect, in order. */
  datatype World<S> = World(db: Db<S>, procs: map<nat, Proc<S>>, log: seq<int>)

  datatype Action =
    | TakeLock(p: nat)
    | ReadLedger(p: nat)
    | ApplyNext(p: nat)
    | Commit(p: nat)
    | Crash(p: nat)

  function ProcOf<S>(w: World<S>, p: nat): Proc<S> {
    if p in w.procs then w.procs[p] else Outside
  }

  predicate LockFree<S>(w: World<S>) {
    forall p :: p in w.procs ==> w.procs[p].Outside?
  }

  /** `chains` gives each process its own migration directory; an older deployment's may be shorter. */
  function Step<S>(ups: Ups<S>, chains: nat -> seq<int>, w: World<S>, a: Action): World<S> {
    match a
    case TakeLock(p) => if LockFree(w) then w.(procs := w.procs[p := Locked]) else w
    case ReadLedger(p) =>
      if ProcOf(w, p).Locked? then w.(procs := w.procs[p := Applying(0, w.db.ledger, w.db, [])]) else w
    case ApplyNext(p) =>
      var s := ProcOf(w, p);
      if !s.Applying? || s.next >= |chains(p)| then w
      else
        var v := chains(p)[s.next];
        if v in s.applied then w.(procs := w.procs[p := s.(next := s.next + 1)])
        else
          w.(procs := w.procs[p := Applying(s.next + 1, s.applied,
                                             Db(ups(v)(s.work.schema), s.work.ledger + {v}), s.added + [v])])
    case Commit(p) =>
      var s := ProcOf(w, p);
      if s.Applying? && s.next >= |chains(p)|
      then World(s.work, w.procs[p := Outside], w.log + s.added)
      else w
    case Crash(p) => w.(procs := w.procs[p := Outside])
  }

  function Execute<S>(ups: Ups<S>, chains: nat -> seq<int>, start: Db<S>, actions: seq<Action>): World<S> {
    if actions == [] then World(start, map[], [])
    else Step(ups, chains, Execute(ups, chains, start, actions[..|actions| - 1]), actions[|actions| - 1])
  }

  function RunUps<S>(ups: Ups<S>, schema: S, log: seq<int>): S {
    if log == [] then schema else ups(log[|log| - 1])(RunUps(ups, schema, log[..|log| - 1]))
  }

  ghost predicate NoDuplicates(log: seq<int>) {
    forall i, j :: 0 <= i < j < |log| ==> log[i] != log[j]
  }

  /** The committed database is the start with exactly the logged migrations applied, each once. */
  ghost predicate Accounts<S>(ups: Ups<S>, start: Db<S>, db: Db<S>, log: seq<int>) {
    && NoDuplicates(log)
    && (forall i :: 0 <= i < |log| ==> log[i] !in start.ledger)
    && db.ledger == start.ledger + Versions(log)
    && db.schema == RunUps(ups, start.schema, log)
  }

  ghost predicate InTxn<S>(ups: Ups<S>, chain: seq<int>, start: Db<S>, w: World<S>, s: Proc<S>)
    requires s.Applying?
  {
    && s.next <= |chain|
    && s.applied == w.db.ledger
    && Accounts(ups, start, s.work, w.log + s.added)
    && s.work.ledger == w.db.ledger + Versions(chain[..s.next])
    && (forall i :: 0 <= i < |s.added| ==> s.added[i] in chain[..s.next])
  }

  ghost predicate Inv<S>(ups: Ups<S>, chains: nat -> seq<int>, start: Db<S>, w: World<S>) {
    && Accounts(ups, start, w.db, w.log)
    && (forall p, q :: p in w.procs && q in w.procs && !w.procs[p].Outside? && !w.procs[q].Outside? ==> p == q)
    && (forall p :: p in w.procs && w.procs[p].Applying? ==> InTxn(ups, chains(p), start, w, w.procs[p]))
  }

  lemma LogSnoc<S>(ups: Ups<S>, start: Db<S>, db: Db<S>, log: seq<int>, v: int)
    requires Accounts(ups, start, db, log) && v !in db.ledger
    ensures Accounts(ups, start, Db(ups(v)(db.schema), db.ledger + {v}), log + [v])
  {
    var log' := log + [v];
    assert log'[..|log|] == log;
    assert Versions(log') == Versions(log) + {v};
    forall i | 0 <= i < |log| ensures log[i] != v {
      assert log[i] in Versions(log);
    }
  }

  lemma ApplyKeepsTxn<S>(ups: Ups<S>, chain: seq<int>, start: Db<S>, w: World<S>, s: Proc<S>)
    requires Ascending(chain) && s.Applying? && s.next < |chain| && InTxn(ups, chain, start, w, s)
    ensures var v := chain[s.next];
            var s' := if v in s.applied then s.(next := s.next + 1)
                      else Applying(s.next + 1, s.applied, Db(ups(v)(s.work.schema), s.work.ledger + {v}),
                          s.added + [v]);
            InTxn(ups, chain, start, w, s')
  {
    var v := chain[s.next];
    assert chain[..s.next + 1] == chain[..s.next] + [v];
    assert Versions(chain[..s.next + 1]) == Versions(chain[..s.next]) + {v};
    if v !in s.applied {
      assert v !in chain[..s.next];
      assert w.log + (s.added + [v]) == w.log + s.added + [v];
      LogSnoc(ups, start, s.work, w.log + s.added, v);
    }
  }

  lemma ReadKeepsInv<S>(ups: Ups<S>, chains: nat -> seq<int>, start: Db<S>, w: World<S>, p: nat)
    requires Inv(ups, chains, start, w)
    ensures Inv(ups, chains, start, Step(ups, chains, w, ReadLedger(p)))
  {
    if ProcOf(w, p).Locked? {
      var s: Proc<S> := Applying(0, w.db.ledger, w.db, []);
      assert w.log + s.added == w.log;
      assert Versions(chains(p)[..0]) == {};
      assert InTxn(ups, chains(p), start, w, s);
    }
  }

  lemma ApplyKeepsInv<S>(ups: Ups<S>, chains: nat -> seq<int>, start: Db<S>, w: World<S>, p: nat)
    requires Inv(ups, chains, start, w) && Ascending(chains(p))
    ensures Inv(ups, chains, start, Step(ups, chains, w, ApplyNext(p)))
  {
    var s, w' := ProcOf(w, p), Step(ups, chains, w, ApplyNext(p));
    if s.Applying? && s.next < |chains(p)| {
      ApplyKeepsTxn(ups, chains(p), start, w, s);
      AdvanceKeepsInv(ups, chains, start, w, p, w'.procs[p]);
    }
  }

  /** The process inside its transaction may go on in it. */
  lemma AdvanceKeepsInv<S>(ups: Ups<S>, chains: nat -> seq<int>, start: Db<S>, w: World<S>, p: nat, s: Proc<S>)
    requires Inv(ups, chains, start, w) && p in w.procs && w.procs[p].Applying?
    requires s.Applying? && InTxn(ups, chains(p), start, w, s)
    ensures Inv(ups, chains, start, w.(procs := w.procs[p := s]))
  {
  }

  /** Nobody else is inside a transaction when one commits. */
  lemma CommitKeepsInv<S>(ups: Ups<S>, chains: nat -> seq<int>, start: Db<S>, w: World<S>, p: nat)
    requires Inv(ups, chains, start, w)
    ensures Inv(ups, chains, start, Step(ups, chains, w, Commit(p)))
  {
    var s := ProcOf(w, p);
    if s.Applying? && s.next >= |chains(p)| {
      assert InTxn(ups, chains(p), start, w, s);
    }
  }

  lemma StepKeepsInv<S>(ups: Ups<S>, chains: nat -> seq<int>, start: Db<S>, w: World<S>, a: Action)
    requires Inv(ups, chains, start, w) && (forall p :: Ascending(chains(p)))
    ensures Inv(ups, chains, start, Step(ups, chains, w, a))
  {
    match a {
      case TakeLock(_) =>
      case ReadLedger(p) => ReadKeepsInv(ups, chains, start, w, p);
      case ApplyNext(p) => ApplyKeepsInv(ups, chains, start, w, p);
      case Commit(p) => CommitKeepsInv(ups, chains, start, w, p);
      case Crash(_) =>
    }
  }

  lemma {:induction false} ExecuteKeepsInv<S>(ups: Ups<S>, chains: nat -> seq<int>, start: Db<S>, actions: seq<Action>)
    requires forall p :: Ascending(chains(p))
    ensures Inv(ups, chains, start, Execute(ups, chains, start, actions))
  {
    if actions != [] {
      ExecuteKeepsInv(ups, chains, start, actions[..|actions| - 1]);
      StepKeepsInv(ups, chains, start, Execute(ups, chains, start, actions[..|actions| - 1]), actions[|actions| - 1]);
    }
  }

  /** However bootstraps race, crash and retry: no version takes effect twice, none that was applied
      before takes effect again, and the committed schema and ledger are the start with exactly
      those migrations applied in commit order. */
  lemma EachVersionOnce<S>(ups: Ups<S>, chains: nat -> seq<int>, start: Db<S>, actions: seq<Action>)
    requires forall p :: Ascending(chains(p))
    ensures var w := Execute(ups, chains, start, actions);
            Accounts(ups, start, w.db, w.log)
  {
    ExecuteKeepsInv(ups, chains, start, actions);
  }

  /** A process that commits leaves its whole chain in the ledger, whoever applied it, so every later
      bootstrap of that chain is a no-op. */
  lemma CommitCompletesChain<S>(ups: Ups<S>, chains: nat -> seq<int>, start: Db<S>, actions: seq<Action>, p: nat)
    requires forall q :: Ascending(chains(q))
    requires var s := ProcOf(Execute(ups, chains, start, actions), p); s.Applying? && s.next == |chains(p)|
    ensures var w := Step(ups, chains, Execute(ups, chains, start, actions), Commit(p));
            Versions(chains(p)) <= w.db.ledger && Bootstrap(ups, chains(p), w.db) == w.db
  {
    ExecuteKeepsInv(ups, chains, start, actions);
    var w := Execute(ups, chains, start, actions);
    assert chains(p)[..|chains(p)|] == chains(p);
    var w' := Step(ups, chains, w, Commit(p));
    UpgradeIsNoOp(ups, chains(p), w'.db.ledger, w'.db);
  }

  /** `n` further migrations of process `p`. */
  function ApplyMore<S>(ups: Ups<S>, chains: nat -> seq<int>, w: World<S>, p: nat, n: nat): World<S> {
    if n == 0 then w else Step(ups, chains, ApplyMore(ups, chains, w, p, n - 1), ApplyNext(p))
  }

  lemma {:induction false} ApplyMoreIsUpgrade<S>(ups: Ups<S>, chains: nat -> seq<int>, w: World<S>, p: nat, n: nat)
    requires p in w.procs && w.procs[p] == Applying(0, w.db.ledger, w.db, []) && n <= |chains(p)|
    ensures var w' := ApplyMore(ups, chains, w, p, n);
            && w'.db == w.db && w'.log == w.log && p in w'.procs && w'.procs[p].Applying?
            && w'.procs[p].next == n && w'.procs[p].applied == w.db.ledger
            && w'.procs[p].work == Upgrade(ups, chains(p)[..n], w.db.ledger, w.db)
            && forall q :: q != p ==> (q in w'.procs <==> q in w.procs) && (q in w.procs ==> w'.procs[q] == w.procs[q])
  {
    if n > 0 {
      ApplyMoreIsUpgrade(ups, chains, w, p, n - 1);
      assert chains(p)[..n][..n - 1] == chains(p)[..n - 1];
    }
  }

  lemma ExecuteSnoc<S>(ups: Ups<S>, chains: nat -> seq<int>, start: Db<S>, s: seq<Action>, a: Action)
    ensures Execute(ups, chains, start, s + [a]) == Step(ups, chains, Execute(ups, chains, start, s), a)
  {
    assert (s + [a])[..|s|] == s;
  }

  lemma {:induction false} ExecuteApplies<S>(
    ups: Ups<S>, chains: nat -> seq<int>, start: Db<S>, s: seq<Action>, p: nat, n: nat)
    ensures Execute(ups, chains, start, s + seq(n, _ => ApplyNext(p))) ==
            ApplyMore(ups, chains, Execute(ups, chains, start, s), p, n)
  {
    if n == 0 {
      assert s + seq(n, _ => ApplyNext(p)) == s;
    } else {
      ExecuteApplies(ups, chains, start, s, p, n - 1);
      ExecuteSnoc(ups, chains, start, s + seq(n - 1, _ => ApplyNext(p)), ApplyNext(p));
      assert s + seq(n, _ => ApplyNext(p)) == s + seq(n - 1, _ => ApplyNext(p)) + [ApplyNext(p)];
    }
  }

  /** After every run that leaves the lock free, a bootstrap nobody interrupts commits exactly what the
      function says, and leaves the lock free. */
  lemma AloneIsBootstrap<S>(ups: Ups<S>, chains: nat -> seq<int>, start: Db<S>, actions: seq<Action>, p: nat)
    requires forall q :: q in Execute(ups, chains, start, actions).procs ==>
               Execute(ups, chains, start, actions).procs[q] == Outside
    ensures var alone := [TakeLock(p), ReadLedger(p)] + seq(|chains(p)|, _ => ApplyNext(p)) + [Commit(p)];
            var w' := Execute(ups, chains, start, actions + alone);
            && w'.db == Bootstrap(ups, chains(p), Execute(ups, chains, start, actions).db)
            && forall q :: q in w'.procs ==> w'.procs[q] == Outside
  {
    var begin, applies := actions + [TakeLock(p)] + [ReadLedger(p)], seq(|chains(p)|, _ => ApplyNext(p));
    ExecuteSnoc(ups, chains, start, actions, TakeLock(p));
    ExecuteSnoc(ups, chains, start, actions + [TakeLock(p)], ReadLedger(p));
    ExecuteApplies(ups, chains, start, begin, p, |chains(p)|);
    ExecuteSnoc(ups, chains, start, begin + applies, Commit(p));
    ApplyMoreIsUpgrade(ups, chains, Execute(ups, chains, start, begin), p, |chains(p)|);
    assert chains(p)[..|chains(p)|] == chains(p);
    assert actions + ([TakeLock(p), ReadLedger(p)] + applies + [Commit(p)]) == begin + applies + [Commit(p)];
  }

  /** A crash rolls back: the committed database is what it was, and the process no longer holds the lock. A
      process that finds the lock taken waits. */
  lemma CrashRollsBack<S>(ups: Ups<S>, chains: nat -> seq<int>, w: World<S>, p: nat, q: nat)
    ensures var w' := Step(ups, chains, w, Crash(p));
            && w'.db == w.db && w'.log == w.log && p in w'.procs && w'.procs[p] == Outside
            && (q != p && q in w.procs ==> q in w'.procs && w'.procs[q] == w.procs[q])
    ensures q in w.procs && w.procs[q] != Outside ==> Step(ups, chains, w, TakeLock(p)) == w
  {
  }

  // ---------------------------------------------------------------- downgrade

  datatype Reverted<S> = Done(db: Db<S>) | MissingDown(version: int)

  ghost predicate IsMax(s: set<int>, v: int) {
    v in s && forall x :: x in s ==> x <= v
  }

  lemma MaxExists(s: set<int>) returns (v: int)
    requires s != {}
    ensures IsMax(s, v)
    decreases |s|
  {
    var x := AnyOf(s);
    var rest := s - {x};
    assert forall y :: y in s ==> y == x || y in rest;
    if rest == {} {
      v := x;
      assert forall y :: y in s ==> y !in rest;
    } else {
      var w := MaxExists(rest);
      v := if w > x then w else x;
    }
  }

  ghost function Max(s: set<int>): (v: int)
    requires s != {}
    ensures IsMax(s, v)
  {
    assert exists v :: IsMax(s, v) by { var v := MaxExists(s); }
    var v :| IsMax(s, v);
    v
  }

  /** `downgrade`: revert the highest version while it is above `to`. A missing down file raises, and
      the transaction is rolled back. */
  ghost function Downgrade<S>(downs: Downs<S>, to: int, db: Db<S>): Reverted<S>
    decreases |db.ledger|
  {
    if db.ledger == {} || Max(db.ledger) <= to then Done(db)
    else
      var v := Max(db.ledger);
      if downs(v).None? then MissingDown(v)
      else Downgrade(downs, to, Db(downs(v).value(db.schema), db.ledger - {v}))
  }

  function UpTo(ledger: set<int>, to: int): set<int> {
    set v | v in ledger && v <= to
  }

  /** A downgrade that succeeds leaves exactly the versions up to `to`; it succeeds exactly when every
      version above `to` has a down file. */
  lemma {:induction false} DowngradeLedger<S>(downs: Downs<S>, to: int, db: Db<S>)
    ensures Downgrade(downs, to, db).Done? <==> forall v :: v in db.ledger && v > to ==> downs(v).Some?
    ensures Downgrade(downs, to, db).Done? ==> Downgrade(downs, to, db).db.ledger == UpTo(db.ledger, to)
    decreases |db.ledger|
  {
    if db.ledger != {} && Max(db.ledger) > to && downs(Max(db.ledger)).Some? {
      var v := Max(db.ledger);
      DowngradeLedger(downs, to, Db(downs(v).value(db.schema), db.ledger - {v}));
      assert UpTo(db.ledger - {v}, to) == UpTo(db.ledger, to);
    }
  }

  ghost predicate Undoes<S(!new)>(ups: Ups<S>, downs: Downs<S>, v: int) {
    downs(v).Some? && forall s: S :: downs(v).value(ups(v)(s)) == s
  }

  /** If each new version's down undoes its up, and the ledger was a prefix (nothing new is below
      what was applied), downgrading to the prior version after a bootstrap restores both schema and
      ledger. */
  lemma {:induction false} DowngradeUndoesBootstrap<S(!new)>(ups: Ups<S>, downs: Downs<S>, chain: seq<int>, db: Db<S>,
      prior: int)
    requires Ascending(chain)
    requires forall v :: v in db.ledger ==> v <= prior
    requires forall v :: v in chain && v !in db.ledger ==> v > prior && Undoes(ups, downs, v)
    ensures Downgrade(downs, prior, Bootstrap(ups, chain, db)) == Done(db)
    decreases |chain|
  {
    var after := Bootstrap(ups, chain, db);
    UpgradeLedger(ups, chain, db.ledger, db);
    if chain != [] && chain[|chain| - 1] !in db.ledger {
      var rest, v := chain[..|chain| - 1], chain[|chain| - 1];
      var before := Bootstrap(ups, rest, db);
      UpgradeLedger(ups, rest, db.ledger, db);
      assert v !in before.ledger;
      assert after.ledger - {v} == before.ledger;
      assert IsMax(after.ledger, v);
      assert Undoes(ups, downs, v);
      assert downs(v).value(after.schema) == before.schema;
      DowngradeUndoesBootstrap(ups, downs, rest, db, prior);
    } else if chain != [] {
      DowngradeUndoesBootstrap(ups, downs, chain[..|chain| - 1], db, prior);
    } else {
      assert after == db;
    }
  }

  /** The ledger comes back to what it was before the bootstrap exactly when `prior` separates the old
      versions from the new ones. */
  lemma LedgerRestoredExactly<S>(ups: Ups<S>, downs: Downs<S>, chain: seq<int>, db: Db<S>, prior: int)
    requires Downgrade(downs, prior, Bootstrap(ups, chain, db)).Done?
    ensures Downgrade(downs, prior, Bootstrap(ups, chain, db)).db.ledger == db.ledger <==>
              && (forall v :: v in db.ledger ==> v <= prior)
              && (forall v :: v in chain && v !in db.ledger ==> v > prior)
  {
    var after := Bootstrap(ups, chain, db);
    UpgradeLedger(ups, chain, db.ledger, db);
    DowngradeLedger(downs, prior, after);
    if UpTo(after.ledger, prior) == db.ledger {
      forall v | v in chain && v !in db.ledger ensures v > prior {
        assert v in after.ledger;
        assert v !in UpTo(after.ledger, prior);
      }
    }
  }

  // ---------------------------------------------------------------- the loops as they run

  class Database<S(==)> {
    var schema: S
    var ledger: set<int>

    constructor (schema: S, ledger: set<int>)
      ensures this.schema == schema && this.ledger == ledger
    {
      this.schema := schema;
      this.ledger := ledger;
    }

    function View(): Db<S>
      reads this
    {
      Db(schema, ledger)
    }

    /** The body of `bootstrap`, inside the lock. */
    method ApplyPending(ups: Ups<S>, chain: seq<int>)
      modifies this
      ensures View() == Bootstrap(ups, chain, old(View()))
    {
      var applied := ledger;
      for i := 0 to |chain|
        invariant View() == Upgrade(ups, chain[..i], applied, old(View()))
      {
        assert chain[..i + 1][..i] == chain[..i];
        if chain[i] !in applied {
          schema := ups(chain[i])(schema);
          ledger := ledger + {chain[i]};
        }
      }
      assert chain[..|chain|] == chain;
    }

    /** `downgrade`; `descending` is the applied versions, highest first. On a missing down file the
        transaction rolls back and nothing has changed. */
    method Revert(downs: Downs<S>, to: int, descending: seq<int>) returns (missing: Option<int>, reverted: seq<int>)
      requires Versions(descending) == ledger && Descending(descending)
      modifies this
      ensures missing.Some? ==> View() == old(View()) && Downgrade(downs, to, old(View())) == MissingDown(missing.value)
      ensures missing.None? ==> Downgrade(downs, to, old(View())) == Done(View())
      ensures reverted <= descending && forall v :: v in reverted ==> v > to
      ensures missing.None? ==> forall v :: v in reverted <==> v in old(ledger) && v > to
    {
      var db := Db(schema, ledger);
      missing, reverted, db := RevertAll(downs, to, descending, db);
      if missing.None? {
        schema, ledger := db.schema, db.ledger;
      }
    }
  }

  /** The loop of `downgrade`, inside its transaction. */
  method RevertAll<S>(downs: Downs<S>, to: int, descending: seq<int>, db: Db<S>)
    returns (missing: Option<int>, reverted: seq<int>, out: Db<S>)
    requires Versions(descending) == db.ledger && Descending(descending)
    ensures Downgrade(downs, to, db) == if missing.Some? then MissingDown(missing.value) else Done(out)
    ensures reverted <= descending && forall v :: v in reverted ==> v > to
    ensures missing.None? ==> forall v :: v in reverted <==> v in db.ledger && v > to
  {
    missing, out := None, db;
    var i := 0;
    while i < |descending| && descending[i] > to
      invariant 0 <= i <= |descending|
      invariant Versions(descending[i..]) == out.ledger
      invariant forall j :: 0 <= j < i ==> descending[j] > to
      invariant Downgrade(downs, to, out) == Downgrade(downs, to, db)
    {
      var v := descending[i];
      NextToRevert(downs, to, descending, i, out);
      if downs(v).None? {
        return Some(v), descending[..i], out;
      }
      out := Db(downs(v).value(out.schema), out.ledger - {v});
      i := i + 1;
    }
    reverted := descending[..i];
    RevertedExactly(to, descending, i);
    RestIsKept(downs, to, descending[i..], out);
  }

  lemma NextToRevert<S>(downs: Downs<S>, to: int, descending: seq<int>, i: nat, db: Db<S>)
    requires i < |descending| && Descending(descending) && Versions(descending[i..]) == db.ledger && descending[i] > to
    ensures Versions(descending[i + 1..]) == db.ledger - {descending[i]}
    ensures Downgrade(downs, to, db) ==
            var down := downs(descending[i]);
            if down.None? then MissingDown(descending[i])
            else Downgrade(downs, to, Db(down.value(db.schema), db.ledger - {descending[i]}))
  {
    var rest := descending[i..];
    assert rest[0] == descending[i] && rest[1..] == descending[i + 1..];
    HeadIsMax(rest);
    DowngradeUnfolds(downs, to, db, descending[i]);
  }

  lemma RevertedExactly(to: int, descending: seq<int>, i: nat)
    requires i <= |descending| && Descending(descending) && (forall j :: 0 <= j < i ==> descending[j] > to)
    requires i < |descending| ==> descending[i] <= to
    ensures forall v :: v in descending[..i] <==> v in Versions(descending) && v > to
  {
    forall v
      ensures v in descending[..i] <==> v in Versions(descending) && v > to
    {
      if v in Versions(descending) && v > to {
        var j :| 0 <= j < |descending| && descending[j] == v;
        assert j < i;
        assert descending[..i][j] == v;
      }
    }
  }

  lemma RestIsKept<S>(downs: Downs<S>, to: int, rest: seq<int>, db: Db<S>)
    requires Versions(rest) == db.ledger && Descending(rest) && (rest != [] ==> rest[0] <= to)
    ensures Downgrade(downs, to, db) == Done(db)
  {
    if rest != [] {
      HeadIsMax(rest);
      DowngradeUnfolds(downs, to, db, rest[0]);
    } else {
      assert db.ledger == {};
    }
  }

  ghost predicate Descending(s: seq<int>) {
    forall i, j :: 0 <= i < j < |s| ==> s[i] > s[j]
  }

  /** One turn of the revert loop, at the highest version `v`. */
  lemma {:induction false} DowngradeUnfolds<S>(downs: Downs<S>, to: int, db: Db<S>, v: int)
    requires db.ledger != {} && Max(db.ledger) == v
    ensures Downgrade(downs, to, db) ==
              if v <= to then Done(db)
              else if downs(v).None? then MissingDown(v)
              else Downgrade(downs, to, Db(downs(v).value(db.schema), db.ledger - {v}))
  {
  }

  lemma HeadIsMax(s: seq<int>)
    requires s != [] && Descending(s)
    ensures Versions(s) != {} && Max(Versions(s)) == s[0]
    ensures Versions(s[1..]) == Versions(s) - {s[0]}
  {
    assert s[0] in Versions(s);
    assert IsMax(Versions(s), s[0]);
    assert s == [s[0]] + s[1..];
  }
}
