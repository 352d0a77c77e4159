/** The slot map of the widened CPU lane as the worker keeps it, each lock-protected method one step of the
    protocol in `CpuLane`. */
module ClaimLane {
  import opened Base
  import opened CpuLane

  class ClaimLane {
    const threads: nat
    var inflight: Slots
    var drained: bool

    constructor (threads: nat)
      ensures this.threads == threads && Matches(Execute(threads, []))
    {
      this.threads := threads;
      inflight := map[];
      drained := true;
    }

    /** The lane's fields are those of the protocol state `l`. */
    ghost predicate Matches(l: Lane)
      reads this
    {
      l.width == threads && l.slots == inflight && l.drained == drained
    }

    /** `_inflight_weight_locked`. */
    method InflightWeight() returns (w: int)
      ensures w == Weight(inflight)
    {
      w := 0;
      var rest := inflight;
      while rest != map[]
        invariant w + Weight(rest) == Weight(inflight)
        decreases |rest|
      {
        var k :| k in rest;
        WeightSplit(rest, k);
        assert (rest - {k}).Keys == rest.Keys - {k};
        w := w + rest[k].weight;
        rest := rest - {k};
      }
    }

    /** `_reserve_slot`: all the free capacity, or nothing when there is none. */
    method ReserveSlot(token: nat, ghost l: Lane) returns (held: Option<int>)
      requires Matches(l) && token !in l.used
      modifies this`inflight, this`drained
      ensures Matches(Step(l, Reserve(token)))
      ensures held == if Free(l) < 1 then None else Some(Free(l))
    {
      var w := InflightWeight();
      var free := threads - w;
      if free < 1 {
        return None;
      }
      inflight := inflight[token := Slot(None, None, free)];
      drained := false;
      held := Some(free);
    }

    /** `_set_slot_weight`, for a row the claim statement found to fit: record the claim and give the
        surplus back. */
    method SetSlotWeight(token: nat, job: string, startedAt: Option<nat>, cpuSlots: Option<int>, ghost l: Lane)
      requires Matches(l) && token in l.phase && l.phase[token].Reserving?
      requires ClaimedWidth(cpuSlots, l.width) <= l.phase[token].free
      modifies this`inflight
      ensures Matches(Step(l, ClaimRow(token, job, startedAt, cpuSlots)))
      ensures inflight.Keys == old(inflight.Keys)
      ensures token in inflight && threads >= 1 ==>
                HoldsClaim(threads, inflight[token], ClaimRow(token, job, startedAt, cpuSlots))
      ensures forall k :: k in inflight && k != token ==> inflight[k] == old(inflight)[k]
    {
      if threads >= 1 { WidthsAgree(cpuSlots, threads); }
      if token in inflight {
        inflight := inflight[token := Slot(Some(job), startedAt, BookedWidth(cpuSlots, threads))];
      }
    }

    /** `_release_slot`, on whichever exit path: the slot's whole width is free again, it counts as
        released once, and the lane is drained exactly when it was the last. */
    method ReleaseSlot(token: nat, ghost l: Lane, ghost a: Action)
      requires Matches(l) && GivesBack(l, a, token)
      modifies this`inflight, this`drained
      ensures Matches(Step(l, a))
      ensures Inv(l) ==> Inv(Step(l, a)) && token in l.slots && Free(Step(l, a)) == Free(l) + l.slots[token].weight
      ensures Inv(l) ==> l.freed[token] == 0 && Step(l, a).freed[token] == 1 && (drained <==> inflight == map[])
    {
      if Inv(l) {
        GiverHoldsSlot(l, a, token);
        StepKeepsInv(l, a);
        WeightSplit(l.slots, token);
      }
      inflight := inflight - {token};
      if inflight == map[] {
        drained := true;
      }
    }

    /** `_inflight_claims`: exactly the jobs of the claims this process made and still holds, by id, each with
        the stamp of one of those claims; of two claims of one job only one is kept. */
    method InflightClaims(ghost actions: seq<Action>) returns (claims: map<string, Option<nat>>)
      requires Matches(Execute(threads, actions))
      ensures forall j :: j in claims ==>
                exists i: nat, tok: nat ::
                  && ClaimsAt(threads, actions, i, tok) && tok in inflight
                  && actions[i].job == j && actions[i].startedAt == claims[j]
      ensures forall i: nat, tok: nat ::
                ClaimsAt(threads, actions, i, tok) && tok in inflight ==> actions[i].job in claims
    {
      claims := CollectClaims(inflight);
      forall j | j in claims
        ensures exists i: nat, tok: nat ::
                  && ClaimsAt(threads, actions, i, tok) && tok in inflight
                  && actions[i].job == j && actions[i].startedAt == claims[j]
      {
        var tok :| tok in inflight && inflight[tok].job == Some(j) && inflight[tok].startedAt == claims[j];
        SlotsHoldTheirClaims(threads, actions, tok);
      }
      forall i: nat, tok: nat | ClaimsAt(threads, actions, i, tok) && tok in inflight
        ensures actions[i].job in claims
      {
        SlotsHoldTheirClaims(threads, actions, tok);
      }
    }
  }

  method CollectClaims(slots: Slots) returns (claims: map<string, Option<nat>>)
    ensures forall k :: k in slots && slots[k].job.Some? ==> slots[k].job.value in claims
    ensures forall j :: j in claims ==>
              exists k :: k in slots && slots[k].job == Some(j) && slots[k].startedAt == claims[j]
  {
    claims := map[];
    var rest := slots;
    while rest != map[]
      invariant forall k :: k in rest ==> k in slots && rest[k] == slots[k]
      invariant forall j :: j in claims ==>
                  exists k :: k in slots && slots[k].job == Some(j) && slots[k].startedAt == claims[j]
      invariant forall k :: k in slots && k !in rest && slots[k].job.Some? ==> slots[k].job.value in claims
      decreases |rest|
    {
      var k :| k in rest;
      assert (rest - {k}).Keys == rest.Keys - {k};
      if rest[k].job.Some? {
        claims := claims[rest[k].job.value := rest[k].startedAt];
      }
      rest := rest - {k};
    }
  }
}
