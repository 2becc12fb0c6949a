/** Fulfilments with a callback between preparing and finishing: anything may happen before a request is finished,
    and what is handed back may be stale. */
module RandomnessCallbacks {
  import opened Common
  import opened Ledger
  import opened Prefixes
  import opened RandomnessTypes
  import opened Randomness
  import opened RandomnessCounting
  import opened RandomnessRuns
  import opened RandomnessEscrow

  /** An ordinary event, or a call that finishes whatever request it is given. */
  datatype CallbackEvent =
    | Ordinary(event: Event)
    | Finish(id: RequestId, request: Request<RequestInfo>, deposit: Balance, caller: Address, cost: Balance,
             accepted: bool, accepted': bool)

  /** What cannot happen leaves no trace. */
  function Step(chain: Chain, m: Machine, e: CallbackEvent): Machine {
    match e
    case Ordinary(event) =>
      (match Next(chain, m, event)
       case Some(m') => m'
       case None => m)
    case Finish(id, r, deposit, caller, cost, accepted, accepted') =>
      if m.open
      then m.(state := FinishFulfillment(chain, m.state, id, r, deposit, caller, cost, accepted, accepted'))
      else m
  }

  function After(chain: Chain, m: Machine, events: seq<CallbackEvent>): Machine {
    if events == [] then m else Step(chain, After(chain, m, events[..|events| - 1]), events[|events| - 1])
  }

  // ---- Arbitrary arguments --------------------------------------------------------------------

  /** A finished request is live and waits for the key it is given with, or there is nothing to release. */
  predicate Releases(m: Machine, e: CallbackEvent) {
    e.Finish? && m.open ==>
      var key := ToType(e.request.info);
      if e.id in m.state.requests then Key(m.state.requests[e.id]) == key else key !in m.state.results
  }

  lemma StepKeepsCountedIff(chain: Chain, m: Machine, e: CallbackEvent)
    requires CountedState(m.state)
    ensures CountedState(Step(chain, m, e).state) <==> Releases(m, e)
  {
    match e
    case Ordinary(event) =>
      if Next(chain, m, event).Some? {
        NextKeepsCounted(chain, m, event);
      }
    case Finish(id, r, deposit, caller, cost, accepted, accepted') =>
      FinishKeepsCountedIff(chain, m.state, id, r, deposit, caller, cost, accepted, accepted');
  }

  ghost function CountedAfter(chain: Chain, m: Machine): seq<CallbackEvent> -> bool {
    events => CountedState(After(chain, m, events).state)
  }

  ghost function ReleasesNext(chain: Chain, m: Machine): (seq<CallbackEvent>, CallbackEvent) -> bool {
    (events, e) => Releases(After(chain, m, events), e)
  }

  /** Whatever is finished with whatever arguments: the counts are right throughout a run exactly when every
      finished request is live with the key it is given with, or has nothing to release. */
  lemma CountsStayRightIff(chain: Chain, m: Machine, events: seq<CallbackEvent>)
    requires CountedState(m.state)
    ensures (forall i :: 0 <= i <= |events| ==> CountedState(After(chain, m, events[..i]).state))
            <==> (forall i :: 0 <= i < |events| ==> Releases(After(chain, m, events[..i]), events[i]))
  {
    var p, q := CountedAfter(chain, m), ReleasesNext(chain, m);
    forall prefix, e | p(prefix)
      ensures p(prefix + [e]) <==> q(prefix, e)
    {
      assert (prefix + [e])[..|prefix|] == prefix;
      StepKeepsCountedIff(chain, After(chain, m, prefix), e);
    }
    ThroughoutIff(events, p, q);
    assert AfterEvery(events, p)
           <==> forall i :: 0 <= i <= |events| ==> CountedState(After(chain, m, events[..i]).state);
  }

  // ---- What was prepared is handed back -------------------------------------------------------

  ghost predicate IdsBelowCounter(s: State) {
    forall id :: id in s.requests ==> id < s.requestCount
  }

  /** A live request is the one just made, with the next id, or was live before and keeps all but its fee. */
  lemma StepKeepsRequests(chain: Chain, m: Machine, e: CallbackEvent, id: RequestId)
    ensures var s, s' := m.state, Step(chain, m, e).state;
            && s.requestCount <= s'.requestCount
            && (id in s'.requests ==>
                  || (id in s.requests && Raised(s.requests[id], s'.requests[id]))
                  || id == s.requestCount < s'.requestCount)
  {
    if e.Ordinary? && e.event.Do? && m.open {
      var op := e.event.op;
      ApplyMakesIdsInOrder(chain, m.cfg, m.state, op, id);
      if id in Apply(chain, m.cfg, m.state, op).requests {
        ApplyRequests(chain, m.cfg, m.state, op, id);
      }
    }
  }

  lemma {:induction false} RunKeepsIdsBelow(chain: Chain, m: Machine, events: seq<CallbackEvent>)
    requires IdsBelowCounter(m.state)
    ensures IdsBelowCounter(After(chain, m, events).state)
  {
    if events == [] {
    } else {
      RunKeepsIdsBelow(chain, m, events[..|events| - 1]);
      forall id | id in After(chain, m, events).state.requests
        ensures id < After(chain, m, events).state.requestCount
      {
        StepKeepsRequests(chain, After(chain, m, events[..|events| - 1]), events[|events| - 1], id);
      }
    }
  }

  /** A request that was live at `j` and is live at `i` is the same but for a fee that may have been raised. */
  lemma {:induction false} LiveRequestIsKept(chain: Chain, m: Machine, events: seq<CallbackEvent>, j: nat, i: nat,
                                             id: RequestId)
    requires IdsBelowCounter(m.state)
    requires j <= i <= |events|
    requires id in After(chain, m, events[..j]).state.requests
    ensures var s, s' := After(chain, m, events[..j]).state, After(chain, m, events[..i]).state;
            id < s'.requestCount && (id in s'.requests ==> Raised(s.requests[id], s'.requests[id]))
    decreases i
  {
    if i == j {
      RunKeepsIdsBelow(chain, m, events[..j]);
    } else {
      LiveRequestIsKept(chain, m, events, j, i - 1, id);
      assert events[..i][..i - 1] == events[..i - 1];
      StepKeepsRequests(chain, After(chain, m, events[..i - 1]), events[i - 1], id);
    }
  }

  /** Event `i` hands back a request and a deposit that the run had stored under that id before. */
  ghost predicate HandsBack(chain: Chain, m: Machine, events: seq<CallbackEvent>, i: nat)
    requires i < |events|
  {
    events[i].Finish? ==> exists j: nat :: j <= i && StoredAfter(chain, m, events[..j], events[i])
  }

  ghost predicate StoredAfter(chain: Chain, m: Machine, events: seq<CallbackEvent>, e: CallbackEvent)
    requires e.Finish?
  {
    var s := After(chain, m, events).state;
    e.id in s.requests && s.requests[e.id] == RequestState(e.request, e.deposit)
  }

  lemma HandedBackIsRaised(chain: Chain, m: Machine, events: seq<CallbackEvent>, i: nat)
    requires IdsBelowCounter(m.state)
    requires i < |events| && events[i].Finish? && HandsBack(chain, m, events, i)
    ensures var s, e := After(chain, m, events[..i]).state, events[i];
            e.id in s.requests ==> Raised(RequestState(e.request, e.deposit), s.requests[e.id])
  {
    var j: nat :| j <= i && StoredAfter(chain, m, events[..j], events[i]);
    LiveRequestIsKept(chain, m, events, j, i, events[i].id);
  }

  /** The request that is finished is still live, or nobody waits for its key any more. */
  predicate NotYetFinished(m: Machine, e: CallbackEvent) {
    e.Finish? && m.open ==> e.id in m.state.requests || ToType(e.request.info) !in m.state.results
  }

  lemma HandedBackReleasesIff(chain: Chain, m: Machine, events: seq<CallbackEvent>, i: nat)
    requires IdsBelowCounter(m.state)
    requires i < |events| && HandsBack(chain, m, events, i)
    ensures var m' := After(chain, m, events[..i]);
            Releases(m', events[i]) <==> NotYetFinished(m', events[i])
  {
    if events[i].Finish? {
      HandedBackIsRaised(chain, m, events, i);
    }
  }

  /** When every call that finishes a request hands back what was stored for it, as a caller does that prepared
      it, then, whatever the callbacks in between do, the counts are right throughout exactly when no request is
      finished that is gone already while others wait for its key. */
  lemma CallbacksKeepCountsIff(chain: Chain, m: Machine, events: seq<CallbackEvent>)
    requires CountedState(m.state)
    requires forall i: nat :: i < |events| ==> HandsBack(chain, m, events, i)
    ensures (forall i :: 0 <= i <= |events| ==> CountedState(After(chain, m, events[..i]).state))
            <==> (forall i :: 0 <= i < |events| ==> NotYetFinished(After(chain, m, events[..i]), events[i]))
  {
    forall i: nat | i < |events|
      ensures Releases(After(chain, m, events[..i]), events[i])
              <==> NotYetFinished(After(chain, m, events[..i]), events[i])
    {
      HandedBackReleasesIff(chain, m, events, i);
    }
    CountsStayRightIff(chain, m, events);
  }

  // ---- Escrow ---------------------------------------------------------------------------------

  /** Ordinary events are fair, and a finished request is still live and covers its cost. */
  ghost predicate FairStep(chain: Chain, m: Machine, e: CallbackEvent) {
    match e
    case Ordinary(event) => Next(chain, m, event).Some? ==> FairTo(chain, m.state, event)
    case Finish(id, r, deposit, _, cost, _, _) => m.open ==> id in m.state.requests && cost <= deposit + r.fee
  }

  /** What a step leaves in the pallet account for no live request.  A fee that was raised after the request was
      prepared stays there. */
  function StepLeaves(chain: Chain, m: Machine, e: CallbackEvent): int {
    match e
    case Ordinary(Do(op)) => if m.open then Leaves(chain, m.state, op) else 0
    case Ordinary(_) => 0
    case Finish(id, r, deposit, caller, cost, accepted, accepted') =>
      if m.open && id in m.state.requests then
        Escrow(m.state.requests[id]) - (deposit + r.fee)
        + Retained(chain,
                   FinishFulfill(chain, m.state.ledger, r, deposit, caller, cost, accepted, accepted').payouts)
      else 0
  }

  lemma FinishKeepsEscrow(chain: Chain, s: State, id: RequestId, r: Request<RequestInfo>, deposit: Balance,
                          caller: Address, cost: Balance, accepted: bool, accepted': bool)
    requires EscrowInvariant(chain, s)
    requires id in s.requests && Raised(RequestState(r, deposit), s.requests[id])
    requires cost <= deposit + r.fee
    ensures var s' := FinishFulfillment(chain, s, id, r, deposit, caller, cost, accepted, accepted');
            var payouts := FinishFulfill(chain, s.ledger, r, deposit, caller, cost, accepted, accepted').payouts;
            && Surplus(chain, s')
               == Surplus(chain, s) + Escrow(s.requests[id]) - (deposit + r.fee) + Retained(chain, payouts)
            && EscrowInvariant(chain, s')
  {
    SolventEscrowFits(chain, s, id);
    FinishSurplus(chain, s, id, r, deposit, caller, cost, accepted, accepted');
  }

  lemma StepKeepsEscrow(chain: Chain, m: Machine, e: CallbackEvent)
    requires chain.existentialDeposit >= 1
    requires EscrowInvariant(chain, m.state)
    requires FairStep(chain, m, e)
    requires e.Finish? && e.id in m.state.requests ==>
               Raised(RequestState(e.request, e.deposit), m.state.requests[e.id])
    ensures var s' := Step(chain, m, e).state;
            && StepLeaves(chain, m, e) >= 0
            && Surplus(chain, s') == Surplus(chain, m.state) + StepLeaves(chain, m, e)
            && EscrowInvariant(chain, s')
  {
    match e
    case Ordinary(Begin(_, _)) =>
    case Ordinary(End) =>
    case Ordinary(Do(op)) =>
      if m.open {
        ApplySurplus(chain, m.cfg, m.state, op);
        ApplyKeepsOutsiders(chain, m.cfg, m.state, op);
      }
    case Finish(id, r, deposit, caller, cost, accepted, accepted') =>
      if m.open {
        FinishKeepsEscrow(chain, m.state, id, r, deposit, caller, cost, accepted, accepted');
      }
  }

  /** Everything the run left in the pallet account for no live request. */
  function RunLeaves(chain: Chain, m: Machine, events: seq<CallbackEvent>): int {
    if events == [] then 0
    else
      var init, e := events[..|events| - 1], events[|events| - 1];
      RunLeaves(chain, m, init) + StepLeaves(chain, After(chain, m, init), e)
  }

  ghost predicate FairlyHandedBack(chain: Chain, m: Machine, events: seq<CallbackEvent>) {
    forall i: nat :: i < |events| ==>
      HandsBack(chain, m, events, i) && FairStep(chain, After(chain, m, events[..i]), events[i])
  }

  lemma FairPrefix(chain: Chain, m: Machine, events: seq<CallbackEvent>)
    requires events != [] && FairlyHandedBack(chain, m, events)
    ensures FairlyHandedBack(chain, m, events[..|events| - 1])
  {
    var init := events[..|events| - 1];
    forall i: nat | i < |init|
      ensures HandsBack(chain, m, init, i) && FairStep(chain, After(chain, m, init[..i]), init[i])
    {
      assert HandsBack(chain, m, events, i) && FairStep(chain, After(chain, m, events[..i]), events[i]);
      assert init[..i] == events[..i];
      if init[i].Finish? {
        var j: nat :| j <= i && StoredAfter(chain, m, events[..j], events[i]);
        assert init[..j] == events[..j];
      }
    }
  }

  /** Whatever callbacks do between preparing and finishing, also raise the fee of the very request: as long as a
      finished request is still live, the account has gained exactly the escrows of the live requests and what
      was left there, and stays solvent. */
  lemma {:induction false} CallbacksKeepEscrow(chain: Chain, m: Machine, events: seq<CallbackEvent>)
    requires chain.existentialDeposit >= 1
    requires Genesis(m)
    requires FairlyHandedBack(chain, m, events)
    ensures var s := After(chain, m, events).state;
            && BalanceOf(s.ledger, chain.palletAccount) - BalanceOf(m.state.ledger, chain.palletAccount)
               == Held(s) + RunLeaves(chain, m, events)
            && RunLeaves(chain, m, events) >= 0
            && Held(s) <= BalanceOf(s.ledger, chain.palletAccount)
            && EscrowInvariant(chain, s)
  {
    if events == [] {
      assert Escrows(m.state.requests) == map[];
    } else {
      var n := |events| - 1;
      FairPrefix(chain, m, events);
      CallbacksKeepEscrow(chain, m, events[..n]);
      assert HandsBack(chain, m, events, n) && FairStep(chain, After(chain, m, events[..n]), events[n]);
      if events[n].Finish? {
        HandedBackIsRaised(chain, m, events, n);
      }
      StepKeepsEscrow(chain, After(chain, m, events[..n]), events[n]);
    }
  }
}
