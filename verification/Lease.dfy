/** The box-wide model lease of `gpu_model_lease.py`: a pure decision over a shared file, and the
    cross-process protocol around it. A process reads its clock BEFORE it takes the file lock, so
    commits carry times that may be stale, in any order, and several requests of one holder (its
    lanes) may be in flight at once. */
module Lease {
  import opened Base

  /** Which model is resident, and each holder's expiry time. */
  datatype LeaseState = LeaseState(model: Option<string>, holders: map<string, real>)

  function LiveAt(holders: map<string, real>, now: real): map<string, real> {
    map h | h in holders && holders[h] > now :: holders[h]
  }

  /** `decide`: may `holder` load `model`? */
  function Decide(state: LeaseState, model: string, holder: string, now: real, ttl: real): (bool, LeaseState) {
    var live := LiveAt(state.holders, now);
    var others := live - {holder};
    if state.model == Some(model) then (true, LeaseState(Some(model), live[holder := now + ttl]))
    else if others == map[] then (true, LeaseState(Some(model), map[holder := now + ttl]))
    else (false, LeaseState(state.model, live))
  }

  /** `release_state`: the slot clears once nobody holds it. */
  function ReleaseState(state: LeaseState, holder: string): LeaseState {
    var holders := state.holders - {holder};
    LeaseState(if holders == map[] then None else state.model, holders)
  }

  // ---------------------------------------------------------------- the shared file

  const NOBODY := LeaseState(None, map[])

  /** `FileLeaseStore`: one read-modify-write under the file lock, or nothing at all when the lock was
      not obtained in time. `content` is `None` when the file is missing, blank or cannot be parsed,
      which reads as a box nobody holds. */
  class LeaseFile {
    var content: Option<LeaseState>

    constructor (content: Option<LeaseState>)
      ensures this.content == content
    {
      this.content := content;
    }

    function Read(): LeaseState
      reads this
    {
      if content.Some? then content.value else NOBODY
    }

    /** `ModelLease.acquire` (and `renew`), `now` having been read before the lock. */
    method Acquire(model: string, holder: string, now: real, ttl: real, locked: bool) returns (granted: bool)
      modifies this
      ensures !locked ==> !granted && content == old(content)
      ensures locked ==> content.Some? && (granted, Read()) == Decide(old(Read()), model, holder, now, ttl)
    {
      if !locked {
        return false;
      }
      var (ok, next) := Decide(Read(), model, holder, now, ttl);
      content := Some(next);
      granted := ok;
    }

    /** `ModelLease.release`. */
    method Release(holder: string, locked: bool)
      modifies this
      ensures !locked ==> content == old(content)
      ensures locked ==> content == Some(ReleaseState(old(Read()), holder))
    {
      if locked {
        content := Some(ReleaseState(Read(), holder));
      }
    }
  }

  // ---------------------------------------------------------------- the protocol

  datatype Request = Request(holder: string, model: string, readAt: real, ttl: real)

  /** What a process was told: it may use `model` until `expires`. */
  datatype Grant = Grant(model: string, expires: real)

  /** `now` is true time; `grants` is each holder's latest grant, `promises` its best unreleased
      one for the model it holds. Neither is part of the file. */
  datatype World = World(
    now: real,
    file: LeaseState,
    pending: map<nat, Request>,
    grants: map<string, Grant>,
    promises: map<string, Grant>)

  datatype Action =
    | Pass(d: real)
    | Ask(id: nat, holder: string, model: string, ttl: real)
    | Commit(id: nat)
    | Contended(id: nat)
    | Release(holder: string, locked: bool)

  const InitialWorld := World(0.0, LeaseState(None, map[]), map[], map[], map[])

  function Better(promises: map<string, Grant>, holder: string, g: Grant): Grant {
    if holder in promises && promises[holder].model == g.model && promises[holder].expires > g.expires
    then promises[holder]
    else g
  }

  function Step(w: World, a: Action): World {
    match a
    case Pass(d) => if d < 0.0 then w else w.(now := w.now + d)
    case Ask(id, holder, model, ttl) =>
      if id in w.pending then w else w.(pending := w.pending[id := Request(holder, model, w.now, ttl)])
    case Commit(id) =>
      if id !in w.pending then w
      else
        var q := w.pending[id];
        var (granted, file) := Decide(w.file, q.model, q.holder, q.readAt, q.ttl);
        var g := Grant(q.model, q.readAt + q.ttl);
        w.(file := file, pending := w.pending - {id},
           grants := if granted then w.grants[q.holder := g] else w.grants,
           promises := if granted then w.promises[q.holder := Better(w.promises, q.holder, g)] else w.promises)
    case Contended(id) => w.(pending := w.pending - {id})
    case Release(holder, locked) =>
      w.(file := if locked then ReleaseState(w.file, holder) else w.file,
         grants := w.grants - {holder}, promises := w.promises - {holder})
  }

  function Execute(actions: seq<Action>): World {
    if actions == [] then InitialWorld
    else Step(Execute(actions[..|actions| - 1]), actions[|actions| - 1])
  }

  /** Every unexpired grant is written in the file, and clocks are never ahead of true time. */
  ghost predicate Inv(w: World) {
    && (forall id :: id in w.pending ==> w.pending[id].readAt <= w.now)
    && (forall h :: h in w.grants && w.grants[h].expires > w.now ==> Recorded(w.file, h, w.grants[h]))
  }

  ghost predicate Recorded(file: LeaseState, h: string, g: Grant) {
    file.model == Some(g.model) && h in file.holders && file.holders[h] == g.expires
  }

  /** A decision at a stale clock never disturbs another holder's unexpired lease. */
  lemma DecideKeepsOthers(file: LeaseState, q: Request, now: real, h: string, g: Grant)
    requires q.readAt <= now && g.expires > now && Recorded(file, h, g) && h != q.holder
    ensures var (granted, file') := Decide(file, q.model, q.holder, q.readAt, q.ttl);
            Recorded(file', h, g) && (granted ==> q.model == g.model)
  {
    var others := LiveAt(file.holders, q.readAt) - {q.holder};
    assert h in others;
  }

  lemma CommitKeepsInv(w: World, id: nat)
    requires Inv(w) && id in w.pending
    ensures Inv(Step(w, Commit(id)))
  {
    var q := w.pending[id];
    var w' := Step(w, Commit(id));
    forall h | h in w'.grants && w'.grants[h].expires > w'.now
      ensures Recorded(w'.file, h, w'.grants[h])
    {
      if h != q.holder {
        DecideKeepsOthers(w.file, q, w.now, h, w.grants[h]);
      }
    }
  }

  lemma ReleaseKeepsInv(w: World, holder: string, locked: bool)
    requires Inv(w)
    ensures Inv(Step(w, Release(holder, locked)))
  {
    var w' := Step(w, Release(holder, locked));
    forall h | h in w'.grants && w'.grants[h].expires > w'.now
      ensures Recorded(w'.file, h, w'.grants[h])
    {
      assert h in w.file.holders - {holder};
    }
  }

  lemma {:induction false} ExecuteKeepsInv(actions: seq<Action>)
    ensures Inv(Execute(actions))
  {
    if actions != [] {
      ExecuteKeepsInv(actions[..|actions| - 1]);
      var w, a := Execute(actions[..|actions| - 1]), actions[|actions| - 1];
      match a {
        case Commit(id) => if id in w.pending { CommitKeepsInv(w, id); }
        case Release(holder, locked) => ReleaseKeepsInv(w, holder, locked);
        case _ =>
      }
    }
  }

  /** One model per box: at any moment of any run, two holders with unexpired leases hold the same
      model, however stale the clocks their requests were decided with. */
  lemma OneModelPerBox(actions: seq<Action>, h1: string, h2: string)
    ensures var w := Execute(actions);
            && h1 in w.grants && w.grants[h1].expires > w.now
            && h2 in w.grants && w.grants[h2].expires > w.now
            ==> w.grants[h1].model == w.grants[h2].model
  {
    ExecuteKeepsInv(actions);
    var w := Execute(actions);
    assert h1 in w.grants && w.grants[h1].expires > w.now ==> Recorded(w.file, h1, w.grants[h1]);
    assert h2 in w.grants && w.grants[h2].expires > w.now ==> Recorded(w.file, h2, w.grants[h2]);
  }

  /** A holder with an unexpired lease renews at every attempt, whatever else has happened and
      however stale its clock; so does one that lapsed while its model is still resident. */
  lemma HoldersRenew(actions: seq<Action>, h: string, model: string, readAt: real, ttl: real)
    ensures var w := Execute(actions);
            (h in w.grants && w.grants[h].expires > w.now && w.grants[h].model == model) || w.file.model == Some(model)
            ==> Decide(w.file, model, h, readAt, ttl).0
  {
    ExecuteKeepsInv(actions);
    var w := Execute(actions);
    assert h in w.grants && w.grants[h].expires > w.now ==> Recorded(w.file, h, w.grants[h]);
  }

  /** A dead worker cannot hold the box for ever: once every lease in the file has lapsed at the
      request's clock, any request is granted, and its holder is then the only one recorded live. */
  lemma LapsedBoxIsGranted(file: LeaseState, model: string, h: string, now: real, ttl: real)
    requires forall x :: x in file.holders ==> file.holders[x] <= now
    ensures var (granted, file') := Decide(file, model, h, now, ttl);
            granted && file' == LeaseState(Some(model), map[h := now + ttl])
  {
    assert LiveAt(file.holders, now) == map[];
    assert LiveAt(file.holders, now) - {h} == map[];
  }

  /** A release that gets the lock takes the holder, and only the holder, out of the file; the box's slot
      clears with the last one, and any request is then granted. */
  lemma ReleaseExactly(w: World, holder: string, h: string, model: string, readAt: real, ttl: real)
    ensures var w' := Step(w, Release(holder, true));
            && holder !in w'.file.holders && holder !in w'.grants && holder !in w'.promises
            && (h != holder ==> (h in w'.file.holders <==> h in w.file.holders))
            && (h != holder && h in w.file.holders ==>
                  && w'.file.holders[h] == w.file.holders[h] && w'.file.model == w.file.model)
            && ((forall x :: x in w.file.holders ==> x == holder) ==>
                  w'.file.model == None && Decide(w'.file, model, h, readAt, ttl).0)
            && w'.pending == w.pending && w'.now == w.now
  {
    var w' := Step(w, Release(holder, true));
    if h != holder && h in w.file.holders {
      assert h in w'.file.holders;
    }
    if forall x :: x in w.file.holders ==> x == holder {
      assert w.file.holders - {holder} == map[];
      assert LiveAt(w'.file.holders, readAt) - {h} == map[];
    }
  }

  /** Without the lock a release leaves the file to the TTL, and a request is dropped with nothing changed. */
  lemma ContendedChangesNoFile(w: World, holder: string, id: nat)
    ensures Step(w, Release(holder, false)).file == w.file
    ensures Step(w, Contended(id)) == w.(pending := w.pending - {id}) && id !in Step(w, Contended(id)).pending
  {
  }

  // ---------------------------------------------------------------- promises

  lemma ExecuteSnoc(s: seq<Action>, a: Action)
    ensures Execute(s + [a]) == Step(Execute(s), a)
  {
    assert (s + [a])[..|s|] == s;
  }

  lemma Then(s: seq<Action>, w: World, a: Action, w': World)
    requires Execute(s) == w && Step(w, a) == w'
    ensures Execute(s + [a]) == w'
  {
    ExecuteSnoc(s, a);
  }

  /** One holder's requests of 0 and 5 are in flight; the later one commits first. */
  lemma OverlappingAsks() returns (actions: seq<Action>)
    ensures Execute(actions) ==
            World(5.0, LeaseState(Some("x"), map["p" := 10.0]), map[], map["p" := Grant("x", 10.0)],
                  map["p" := Grant("x", 15.0)])
  {
    var p0, p5 := Request("p", "x", 0.0, 10.0), Request("p", "x", 5.0, 10.0);
    var long := map["p" := Grant("x", 15.0)];
    var w0 := InitialWorld.(pending := map[0 := p0]);
    var w1 := w0.(now := 5.0);
    var w2 := w1.(pending := map[0 := p0, 1 := p5]);
    var w3 := World(5.0, LeaseState(Some("x"), map["p" := 15.0]), map[0 := p0], long, long);
    var w4 := World(5.0, LeaseState(Some("x"), map["p" := 10.0]), map[], map["p" := Grant("x", 10.0)], long);
    Then([], InitialWorld, Ask(0, "p", "x", 10.0), w0);
    actions := [] + [Ask(0, "p", "x", 10.0)];
    Then(actions, w0, Pass(5.0), w1);
    actions := actions + [Pass(5.0)];
    Then(actions, w1, Ask(1, "p", "x", 10.0), w2);
    actions := actions + [Ask(1, "p", "x", 10.0)];
    assert LiveAt(w2.file.holders, 5.0) - {"p"} == map[];
    Then(actions, w2, Commit(1), w3);
    actions := actions + [Commit(1)];
    assert LiveAt(w3.file.holders, 0.0) == map["p" := 15.0];
    Then(actions, w3, Commit(0), w4);
    actions := actions + [Commit(0)];
  }

  /** Two requests of one holder in flight at once: the one with the older clock commits last and
      shortens the lease the other was just promised, and a rival takes the box inside it. */
  lemma OverlappingAsksBreakPromises() returns (actions: seq<Action>)
    ensures var w := Execute(actions);
            && "p" in w.promises && w.promises["p"].expires > w.now && w.promises["p"].model == "x"
            && "q" in w.grants && w.grants["q"].expires > w.now && w.grants["q"].model == "y"
  {
    actions := OverlappingAsks();
    var w0 := Execute(actions);
    var w1 := w0.(now := 11.0);
    var w2 := w1.(pending := map[2 := Request("q", "y", 11.0, 10.0)]);
    Then(actions, w0, Pass(6.0), w1);
    actions := actions + [Pass(6.0)];
    Then(actions, w1, Ask(2, "q", "y", 10.0), w2);
    actions := actions + [Ask(2, "q", "y", 10.0)];
    assert LiveAt(w2.file.holders, 11.0) - {"q"} == map[];
    ExecuteSnoc(actions, Commit(2));
    actions := actions + [Commit(2)];
  }

  /** Committing `id` is granted and renews its holder's own model to an earlier expiry than a promise of
      the holder's that is still running. */
  predicate StaleRenewal(w: World, id: nat) {
    && id in w.pending
    && var q := w.pending[id];
       && Decide(w.file, q.model, q.holder, q.readAt, q.ttl).0
       && q.holder in w.promises && w.promises[q.holder].model == q.model
       && q.readAt + q.ttl < w.promises[q.holder].expires
       && w.promises[q.holder].expires > w.now
  }

  predicate NoStaleRenewal(actions: seq<Action>) {
    actions == [] ||
    (var before, a := actions[..|actions| - 1], actions[|actions| - 1];
     NoStaleRenewal(before) && !(a.Commit? && StaleRenewal(Execute(before), a.id)))
  }

  /** Every promise still running is the holder's latest grant. */
  ghost predicate PromisesAreGrants(w: World) {
    forall h :: h in w.promises && w.promises[h].expires > w.now ==> h in w.grants && w.grants[h] == w.promises[h]
  }

  lemma CommitKeepsPromises(w: World, id: nat)
    requires PromisesAreGrants(w) && id in w.pending && !StaleRenewal(w, id)
    ensures PromisesAreGrants(Step(w, Commit(id)))
  {
    var w', q := Step(w, Commit(id)), w.pending[id];
    forall h | h in w'.promises && w'.promises[h].expires > w'.now
      ensures h in w'.grants && w'.grants[h] == w'.promises[h]
    {
      if h == q.holder && Decide(w.file, q.model, q.holder, q.readAt, q.ttl).0 {
        assert w'.promises[h] == Better(w.promises, h, Grant(q.model, q.readAt + q.ttl));
      }
    }
  }

  lemma {:induction false} PromisesAreRecorded(actions: seq<Action>)
    requires NoStaleRenewal(actions)
    ensures PromisesAreGrants(Execute(actions))
  {
    if actions != [] {
      PromisesAreRecorded(actions[..|actions| - 1]);
      var w, a := Execute(actions[..|actions| - 1]), actions[|actions| - 1];
      if a.Commit? && a.id in w.pending {
        CommitKeepsPromises(w, a.id);
      }
    }
  }

  /** In every run none of whose commits renews a running promise to an earlier expiry, whatever requests
      overlap and whatever their TTLs, every lease a process was promised excludes other models until the
      time it was promised for. */
  lemma PromisesExclude(actions: seq<Action>, h1: string, h2: string)
    requires NoStaleRenewal(actions)
    ensures var w := Execute(actions);
            && h1 in w.promises && w.promises[h1].expires > w.now
            && h2 in w.promises && w.promises[h2].expires > w.now
            ==> w.promises[h1].model == w.promises[h2].model
  {
    PromisesAreRecorded(actions);
    OneModelPerBox(actions, h1, h2);
  }

  /** The continuation in which, after `d`, `rival` asks for `model` and its request commits at once. */
  function AfterRivalAsks(w: World, id: nat, rival: string, model: string, ttl: real, d: real): World {
    Step(Step(Step(w, Pass(d)), Ask(id, rival, model, ttl)), Commit(id))
  }

  /** `rival` has an unexpired lease for another model while `holder`'s promise is still running. */
  predicate Broken(w: World, holder: string, rival: string) {
    && holder in w.promises && w.promises[holder].expires > w.now
    && rival in w.grants && w.grants[rival].expires > w.now
    && w.grants[rival].model != w.promises[holder].model
  }

  /** Every entry but the rival's own lapses before `until`. */
  predicate LapsesBefore(file: LeaseState, rival: string, until: real) {
    forall x :: x in file.holders && x != rival ==> file.holders[x] < until
  }

  lemma RivalOutcome(w: World, id: nat, rival: string, model: string, ttl: real, d: real)
    requires id !in w.pending && d >= 0.0
    ensures var w' := AfterRivalAsks(w, id, rival, model, ttl, d);
            && w'.now == w.now + d
            && w'.grants == (if Decide(w.file, model, rival, w.now + d, ttl).0
                             then w.grants[rival := Grant(model, w.now + d + ttl)] else w.grants)
            && (forall h :: h != rival ==> (h in w'.promises <==> h in w.promises))
            && (forall h :: h != rival && h in w.promises ==> w'.promises[h] == w.promises[h])
  {
    var w1 := Step(w, Pass(d));
    var w2 := Step(w1, Ask(id, rival, model, ttl));
    assert w2.pending[id] == Request(rival, model, w.now + d, ttl);
    assert w2.file == w.file && w2.now == w.now + d;
  }

  /** A moment from `now` on, before `until`, at which every entry but the rival's has lapsed. */
  lemma {:induction false} LapseTime(holders: map<string, real>, keys: set<string>, rival: string, now: real,
      until: real)
    returns (at: real)
    requires now < until && keys <= holders.Keys
    requires forall x :: x in keys && x != rival ==> holders[x] < until
    ensures now <= at < until
    ensures forall x :: x in keys && x != rival ==> holders[x] <= at
    decreases |keys|
  {
    if keys == {} {
      at := now;
    } else {
      var x := AnyOf(keys);
      at := LapseTime(holders, keys - {x}, rival, now, until);
      if x != rival && holders[x] > at {
        at := holders[x];
      }
    }
  }

  lemma LapsedForRival(file: LeaseState, rival: string, at: real)
    requires forall x :: x in file.holders && x != rival ==> file.holders[x] <= at
    ensures LiveAt(file.holders, at) - {rival} == map[]
  {
  }

  lemma LiveRivalIsDenied(file: LeaseState, model: string, rival: string, at: real, ttl: real, x: string)
    requires file.model != Some(model) && x in file.holders && x != rival && file.holders[x] > at
    ensures !Decide(file, model, rival, at, ttl).0
  {
    assert x in LiveAt(file.holders, at) - {rival};
  }

  /** If all others lapse in time, the rival is granted inside the promise. */
  lemma LapseLetsRivalIn(w: World, id: nat, holder: string, rival: string, model: string, ttl: real) returns (d: real)
    requires id !in w.pending && ttl > 0.0 && rival != holder
    requires holder in w.promises && w.promises[holder].expires > w.now && w.promises[holder].model != model
    requires LapsesBefore(w.file, rival, w.promises[holder].expires)
    ensures d >= 0.0 && Broken(AfterRivalAsks(w, id, rival, model, ttl, d), holder, rival)
  {
    var at := LapseTime(w.file.holders, w.file.holders.Keys, rival, w.now, w.promises[holder].expires);
    d := at - w.now;
    LapsedForRival(w.file, rival, at);
    RivalOutcome(w, id, rival, model, ttl, d);
  }

  /** A rival that gets in inside the promise found everyone else lapsed. */
  lemma RivalInMeansLapse(w: World, id: nat, holder: string, rival: string, model: string, ttl: real, d: real)
    requires id !in w.pending && d >= 0.0 && rival != holder && w.file.model != Some(model)
    requires holder in w.promises && !Broken(w, holder, rival)
    requires Broken(AfterRivalAsks(w, id, rival, model, ttl, d), holder, rival)
    ensures LapsesBefore(w.file, rival, w.promises[holder].expires)
  {
    RivalOutcome(w, id, rival, model, ttl, d);
    forall x | x in w.file.holders && x != rival
      ensures w.file.holders[x] < w.promises[holder].expires
    {
      if w.file.holders[x] > w.now + d {
        LiveRivalIsDenied(w.file, model, rival, w.now + d, ttl, x);
      }
    }
  }

  /** A stale renewal leaves its holder's file entry short of the promise. From then on, if nothing else
      happens, a rival can be granted another model inside the promise exactly when every other
      process's entry lapses before the promise does too. */
  lemma StaleRenewalOpensTheBox(w: World, id: nat, rival: string, model: string, ttl: real)
    requires StaleRenewal(w, id) && ttl > 0.0
    requires rival != w.pending[id].holder && model != w.pending[id].model
    requires !Broken(Step(w, Commit(id)), w.pending[id].holder, rival)
    ensures var holder, w' := w.pending[id].holder, Step(w, Commit(id));
            && holder in w'.promises
            && w'.file.holders[holder] < w'.promises[holder].expires
            && ((exists d: real :: d >= 0.0 && Broken(AfterRivalAsks(w', id, rival, model, ttl, d), holder, rival))
                <==> LapsesBefore(w'.file, rival, w'.promises[holder].expires))
  {
    var q, w' := w.pending[id], Step(w, Commit(id));
    assert w'.file.model == Some(q.model) && w'.promises[q.holder] == w.promises[q.holder];
    if LapsesBefore(w'.file, rival, w'.promises[q.holder].expires) {
      var d := LapseLetsRivalIn(w', id, q.holder, rival, model, ttl);
    }
    forall d: real | d >= 0.0 && Broken(AfterRivalAsks(w', id, rival, model, ttl, d), q.holder, rival)
      ensures LapsesBefore(w'.file, rival, w'.promises[q.holder].expires)
    {
      RivalInMeansLapse(w', id, q.holder, rival, model, ttl, d);
    }
  }
}
