/** When results are filled: exactly when the errors that the pallet calls bugs can occur. */
module RandomnessFilling {
  import opened Common
  import opened RandomnessTypes
  import opened Randomness
  import opened RandomnessCounting
  import opened RandomnessRuns

  predicate Filled(results: map<RequestType, RandomnessResult>, key: RequestType) {
    key in results && results[key].randomness.Some?
  }

  /** Everything that can be fulfilled has its value. */
  ghost predicate DueFilled(s: State) {
    forall k :: k in s.results && Due(k, s.blockNumber, s.relayEpoch) ==> s.results[k].randomness.Some?
  }

  /** Inside a block the pallet's first block has begun, and before that there are no results. */
  ghost predicate BlockDiscipline(m: Machine) {
    && (m.open ==> m.state.notFirstBlock)
    && (!m.state.notFirstBlock ==> m.state.results == map[])
  }

  // ---- Single steps ---------------------------------------------------------------------------

  /** What an operation can do to the results: drop some, count differently, fill the epoch's own,
      or add one unfilled result for a request that was accepted. */
  lemma ApplyResults(chain: Chain, cfg: Config, s: State, op: Op, k: RequestType)
    requires k in Apply(chain, cfg, s, op).results
    ensures var s' := Apply(chain, cfg, s, op);
            && s'.blockNumber == s.blockNumber
            && s'.notFirstBlock == s.notFirstBlock
            && (k !in s.results ==>
                  && op.MakeRequest? && op.request.info == k
                  && RequestRandomness(chain, cfg, s, op.request, op.accepted).Ok?
                  && s'.results[k].randomness == None)
            && (k in s.results && s'.results[k].randomness != s.results[k].randomness ==>
                  && op.Inherent? && k == BabeEpoch(op.epoch) && op.epoch > s.relayEpoch
                  && op.randomness.Some? && s'.results[k].randomness == op.randomness)
            && (op.Inherent? ==> s'.relayEpoch == op.epoch)
            && (!op.Inherent? ==> s'.relayEpoch == s.relayEpoch)
  {
  }

  /** A request that is accepted leaves everything due filled exactly when what it waits for is still
      to come, or has been supplied already. */
  lemma RequestKeepsDueFilledIff(chain: Chain, cfg: Config, s: State, r: Request<RequestType>, accepted: bool)
    requires DueFilled(s)
    requires RequestRandomness(chain, cfg, s, r, accepted).Ok?
    ensures DueFilled(RequestRandomness(chain, cfg, s, r, accepted).value)
            <==> !Due(r.info, s.blockNumber, s.relayEpoch) || Filled(s.results, r.info)
  {
  }

  /** The inherent skips no epoch that somebody waits for, and brings the value if somebody waits for the
      epoch it reports. */
  ghost predicate ServesEpochs(s: State, epoch: nat, randomness: Option<Hash>) {
    forall e: nat :: BabeEpoch(e) in s.results && s.relayEpoch < e <= epoch ==>
      s.results[BabeEpoch(e)].randomness.Some? || (e == epoch && randomness.Some?)
  }

  lemma InherentKeepsDueFilledIff(s: State, epoch: nat, randomness: Option<Hash>)
    requires DueFilled(s)
    ensures DueFilled(SetBabeRandomnessResults(s, epoch, randomness)) <==> ServesEpochs(s, epoch, randomness)
  {
    var s' := SetBabeRandomnessResults(s, epoch, randomness);
    if DueFilled(s') {
      forall e: nat | BabeEpoch(e) in s.results && s.relayEpoch < e <= epoch
        ensures s.results[BabeEpoch(e)].randomness.Some? || (e == epoch && randomness.Some?)
      {
        assert Due(BabeEpoch(e), s'.blockNumber, s'.relayEpoch);
        assert BabeEpoch(e) in s'.results;
      }
    } else {
      var k :| k in s'.results && Due(k, s'.blockNumber, s'.relayEpoch) && s'.results[k].randomness.None?;
      assert k in s.results && s.results[k].randomness.None?;
      assert BabeEpoch(k.epoch) in s.results;
    }
  }

  /** The pallet does not check the epoch of a request: one for an epoch that is not in the future
      meets the error that is called a bug, unless the epoch's value is still held for someone else. */
  lemma LateEpochRequestHitsNotFilled(chain: Chain, cfg: Config, blake: Hash -> Hash, s: State,
                                      r: Request<RequestType>, accepted: bool)
    requires r.info.BabeEpoch? && r.info.epoch <= s.relayEpoch
    requires RequestRandomness(chain, cfg, s, r, accepted).Ok?
    ensures var s' := RequestRandomness(chain, cfg, s, r, accepted).value;
            PrepareFulfillment(blake, s', s.requestCount) == Err(RandomnessResultNotFilled)
            <==> !Filled(s.results, r.info)
  {
  }

  /** What an event must meet for everything due to stay filled: an accepted request waits for something still
      to come or already supplied, and an inherent serves the epochs that are waited for. */
  ghost function KeepsFilled(chain: Chain): (Machine, Event) -> bool {
    (m: Machine, e: Event) =>
      match e
      case Do(MakeRequest(r, accepted)) =>
        RequestRandomness(chain, m.cfg, m.state, r, accepted).Ok? ==>
          !Due(r.info, m.state.blockNumber, m.state.relayEpoch) || Filled(m.state.results, r.info)
      case Do(Inherent(epoch, randomness)) => ServesEpochs(m.state, epoch, randomness)
      case _ => true
  }

  /** One event leaves everything due filled exactly when it meets its condition. */
  lemma NextKeepsDueFilledIff(chain: Chain, m: Machine, e: Event)
    requires BlockDiscipline(m) && DueFilled(m.state)
    requires Next(chain, m, e).Some?
    ensures DueFilled(Next(chain, m, e).value.state) <==> KeepsFilled(chain)(m, e)
  {
    match e
    case Begin(_, _) =>
    case End =>
    case Do(op) =>
      match op
      case MakeRequest(r, accepted) =>
        if RequestRandomness(chain, m.cfg, m.state, r, accepted).Ok? {
          RequestKeepsDueFilledIff(chain, m.cfg, m.state, r, accepted);
        }
      case Inherent(epoch, randomness) => InherentKeepsDueFilledIff(m.state, epoch, randomness);
      case _ => OtherOpsKeepDueFilled(chain, m.cfg, m.state, op);
  }

  lemma OtherOpsKeepDueFilled(chain: Chain, cfg: Config, s: State, op: Op)
    requires DueFilled(s)
    requires !op.MakeRequest? && !op.Inherent?
    ensures DueFilled(Apply(chain, cfg, s, op))
  {
    var s' := Apply(chain, cfg, s, op);
    forall k | k in s'.results && Due(k, s'.blockNumber, s'.relayEpoch)
      ensures s'.results[k].randomness.Some?
    {
      ApplyResults(chain, cfg, s, op, k);
    }
  }

  lemma NextKeepsDiscipline(chain: Chain, m: Machine, e: Event)
    requires BlockDiscipline(m)
    requires Next(chain, m, e).Some?
    ensures BlockDiscipline(Next(chain, m, e).value)
  {
  }

  lemma {:induction false} RunKeepsDiscipline(chain: Chain, m: Machine, events: seq<Event>)
    requires Genesis(m)
    requires Run(chain, m, events).Some?
    ensures BlockDiscipline(Run(chain, m, events).value)
  {
    if events == [] {
    } else {
      RunKeepsDiscipline(chain, m, events[..|events| - 1]);
      NextKeepsDiscipline(chain, Run(chain, m, events[..|events| - 1]).value, events[|events| - 1]);
    }
  }

  // ---- Whole runs -----------------------------------------------------------------------------

  /** Everything due is filled in every state of a run exactly when every event meets its condition. */
  lemma DueFilledThroughoutIff(chain: Chain, m: Machine, events: seq<Event>)
    requires Genesis(m)
    requires Run(chain, m, events).Some?
    ensures (forall i: nat :: i <= |events| ==> DueFilled(At(chain, m, events, i).state))
            <==> Throughout(chain, m, events, KeepsFilled(chain))
  {
    var inv := (x: Machine) => DueFilled(x.state);
    forall i: nat | i < |events| && inv(At(chain, m, events, i))
      ensures inv(At(chain, m, events, i + 1)) <==> KeepsFilled(chain)(At(chain, m, events, i), events[i])
    {
      PrefixRuns(chain, m, events, i);
      RunKeepsDiscipline(chain, m, events[..i]);
      AtSteps(chain, m, events, i);
      NextKeepsDueFilledIff(chain, At(chain, m, events, i), events[i]);
    }
    InvariantIff(chain, m, events, inv, KeepsFilled(chain));
    assert forall i: nat :: i <= |events| ==>
      (inv(At(chain, m, events, i)) <==> DueFilled(At(chain, m, events, i).state));
  }

  /** Every live request can be prepared for fulfilment exactly when it is due. */
  ghost predicate Fulfillable(blake: Hash -> Hash, s: State) {
    forall id :: id in s.requests ==>
      (PrepareFulfillment(blake, s, id).Ok? <==> Due(Key(s.requests[id]), s.blockNumber, s.relayEpoch))
  }

  lemma FulfillableIffDueFilled(blake: Hash -> Hash, s: State)
    requires CountedState(s)
    ensures Fulfillable(blake, s) <==> DueFilled(s)
  {
    if Fulfillable(blake, s) {
      forall k | k in s.results && Due(k, s.blockNumber, s.relayEpoch)
        ensures s.results[k].randomness.Some?
      {
        var id :| id in Waiting(s.requests, k);
        assert PrepareFulfillment(blake, s, id).Ok?;
      }
    }
  }

  /** In every state of a run, every due request can be fulfilled, so that neither of the two errors is ever
      met, exactly when every accepted request waits for something still to come or already supplied, and
      every inherent serves the epochs that are waited for. */
  lemma RequestsAreFulfillableIff(chain: Chain, blake: Hash -> Hash, m: Machine, events: seq<Event>)
    requires Genesis(m)
    requires Run(chain, m, events).Some?
    ensures (forall i: nat :: i <= |events| ==> Fulfillable(blake, At(chain, m, events, i).state))
            <==> Throughout(chain, m, events, KeepsFilled(chain))
  {
    forall i: nat | i <= |events|
      ensures Fulfillable(blake, At(chain, m, events, i).state) <==> DueFilled(At(chain, m, events, i).state)
    {
      PrefixRuns(chain, m, events, i);
      RunKeepsCounted(chain, m, events[..i]);
      FulfillableIffDueFilled(blake, At(chain, m, events, i).state);
    }
    DueFilledThroughoutIff(chain, m, events);
  }

  // ---- Configurations and relay chains that meet the condition --------------------------------

  /** Local requests are always for a later block. */
  predicate DelaysAreReal(m: Machine, e: Event) {
    e.Begin? ==> e.cfg.minBlockDelay >= 1
  }

  /** Inherents serve the epochs that are waited for, and an accepted request for epoch randomness is for a
      later epoch or one whose value is held. */
  ghost function EpochsAreServed(chain: Chain): (Machine, Event) -> bool {
    (m: Machine, e: Event) =>
      match e
      case Do(Inherent(epoch, randomness)) => ServesEpochs(m.state, epoch, randomness)
      case Do(MakeRequest(r, accepted)) =>
        r.info.BabeEpoch? && RequestRandomness(chain, m.cfg, m.state, r, accepted).Ok? ==>
          r.info.epoch > m.state.relayEpoch || Filled(m.state.results, r.info)
      case _ => true
  }

  lemma {:induction false} DelayInForce(chain: Chain, m: Machine, events: seq<Event>)
    requires Genesis(m)
    requires Run(chain, m, events).Some?
    requires Throughout(chain, m, events, DelaysAreReal)
    ensures Run(chain, m, events).value.open ==> Run(chain, m, events).value.cfg.minBlockDelay >= 1
  {
    if events == [] {
    } else {
      ThroughoutPrefix(chain, m, events, DelaysAreReal);
      DelayInForce(chain, m, events[..|events| - 1]);
    }
  }

  lemma ServedEventKeepsFilled(chain: Chain, m: Machine, e: Event)
    requires Next(chain, m, e).Some?
    requires m.open ==> m.cfg.minBlockDelay >= 1
    requires EpochsAreServed(chain)(m, e)
    ensures KeepsFilled(chain)(m, e)
  {
  }

  lemma {:induction false} ServedRunsKeepFilled(chain: Chain, m: Machine, events: seq<Event>)
    requires Genesis(m)
    requires Run(chain, m, events).Some?
    requires Throughout(chain, m, events, DelaysAreReal)
    requires Throughout(chain, m, events, EpochsAreServed(chain))
    ensures Throughout(chain, m, events, KeepsFilled(chain))
  {
    if events == [] {
    } else {
      var n := |events| - 1;
      ThroughoutPrefix(chain, m, events, DelaysAreReal);
      ThroughoutPrefix(chain, m, events, EpochsAreServed(chain));
      ServedRunsKeepFilled(chain, m, events[..n]);
      DelayInForce(chain, m, events[..n]);
      AtPrefix(chain, m, events);
      forall i: nat | i < |events|
        ensures KeepsFilled(chain)(At(chain, m, events, i), events[i])
      {
        if i < n {
          assert KeepsFilled(chain)(At(chain, m, events[..n], i), events[..n][i]);
        } else {
          ServedEventKeepsFilled(chain, At(chain, m, events, n), events[n]);
        }
      }
    }
  }

  /** With real delays and served epochs every live request can be fulfilled exactly when it is due.  The
      relay epoch may start anywhere, jump over epochs nobody waits for, and go back. */
  lemma AllRequestsAreFulfillable(chain: Chain, blake: Hash -> Hash, m: Machine, events: seq<Event>, id: RequestId)
    requires Genesis(m)
    requires Run(chain, m, events).Some?
    requires Throughout(chain, m, events, DelaysAreReal)
    requires Throughout(chain, m, events, EpochsAreServed(chain))
    requires id in Run(chain, m, events).value.state.requests
    ensures var s := Run(chain, m, events).value.state;
            PrepareFulfillment(blake, s, id).Ok? <==> Due(Key(s.requests[id]), s.blockNumber, s.relayEpoch)
  {
    ServedRunsKeepFilled(chain, m, events);
    RequestsAreFulfillableIff(chain, blake, m, events);
    assert events[..|events|] == events;
    assert Fulfillable(blake, At(chain, m, events, |events|).state);
  }

  /** The relay chain's own promise: epochs advance by at most one, with a value, except while nobody waits for
      one; and accepted requests are for later epochs. */
  ghost function RelayIsOrderly(chain: Chain): (Machine, Event) -> bool {
    (m: Machine, e: Event) =>
      match e
      case Do(Inherent(epoch, randomness)) =>
        || (forall k :: k in m.state.results ==> k.Local?)
        || (&& epoch <= m.state.relayEpoch + 1
            && (epoch == m.state.relayEpoch + 1 ==> randomness.Some?))
      case Do(MakeRequest(r, accepted)) =>
        r.info.BabeEpoch? && RequestRandomness(chain, m.cfg, m.state, r, accepted).Ok? ==>
          r.info.epoch > m.state.relayEpoch
      case _ => true
  }

  lemma OrderlyEventServes(chain: Chain, m: Machine, e: Event)
    requires RelayIsOrderly(chain)(m, e)
    ensures EpochsAreServed(chain)(m, e)
  {
  }

  /** On an orderly relay chain, started at any epoch, every live request can be fulfilled exactly when due. */
  lemma OrderlyRelayIsEnough(chain: Chain, blake: Hash -> Hash, m: Machine, events: seq<Event>, id: RequestId)
    requires Genesis(m)
    requires Run(chain, m, events).Some?
    requires Throughout(chain, m, events, DelaysAreReal)
    requires Throughout(chain, m, events, RelayIsOrderly(chain))
    requires id in Run(chain, m, events).value.state.requests
    ensures var s := Run(chain, m, events).value.state;
            PrepareFulfillment(blake, s, id).Ok? <==> Due(Key(s.requests[id]), s.blockNumber, s.relayEpoch)
  {
    forall i: nat | i < |events|
      ensures EpochsAreServed(chain)(At(chain, m, events, i), events[i])
    {
      assert RelayIsOrderly(chain)(At(chain, m, events, i), events[i]);
      OrderlyEventServes(chain, At(chain, m, events, i), events[i]);
    }
    AllRequestsAreFulfillable(chain, blake, m, events, id);
  }

  // ---- Local requests -------------------------------------------------------------------------

  /** A local result is filled exactly from its block on. */
  ghost predicate LocalReady(s: State) {
    forall d: nat :: Local(d) in s.results ==> (s.results[Local(d)].randomness.Some? <==> d <= s.blockNumber)
  }

  lemma ApplyKeepsLocalReady(chain: Chain, cfg: Config, s: State, op: Op)
    requires LocalReady(s)
    requires cfg.minBlockDelay >= 1
    ensures LocalReady(Apply(chain, cfg, s, op))
  {
    var s' := Apply(chain, cfg, s, op);
    forall d: nat | Local(d) in s'.results
      ensures s'.results[Local(d)].randomness.Some? <==> d <= s'.blockNumber
    {
      ApplyResults(chain, cfg, s, op, Local(d));
    }
  }

  lemma {:induction false} RunKeepsReady(chain: Chain, m: Machine, events: seq<Event>)
    requires Genesis(m)
    requires Run(chain, m, events).Some?
    requires Throughout(chain, m, events, DelaysAreReal)
    ensures LocalReady(Run(chain, m, events).value.state)
  {
    if events == [] {
    } else {
      var init := events[..|events| - 1];
      ThroughoutPrefix(chain, m, events, DelaysAreReal);
      RunKeepsReady(chain, m, init);
      RunKeepsDiscipline(chain, m, init);
      DelayInForce(chain, m, init);
      var m' := Run(chain, m, init).value;
      match events[|events| - 1]
      case Begin(_, _) =>
      case Do(op) => ApplyKeepsLocalReady(chain, m'.cfg, m'.state, op);
      case End =>
    }
  }

  /** In every state of every run with real delays, whatever the relay chain does, a live local request can be
      prepared for fulfilment exactly from its block on, and then yields its stored data and the words of its
      block's value. */
  lemma LocalRequestsAreFulfillable(chain: Chain, blake: Hash -> Hash, m: Machine, events: seq<Event>, id: RequestId)
    requires Genesis(m)
    requires Run(chain, m, events).Some?
    requires Throughout(chain, m, events, DelaysAreReal)
    requires var s := Run(chain, m, events).value.state; id in s.requests && Key(s.requests[id]).Local?
    ensures var s := Run(chain, m, events).value.state;
            var r := s.requests[id];
            if r.request.info.blockDue <= s.blockNumber then
              && Filled(s.results, Key(r))
              && var value := s.results[Key(r)].randomness.value;
                 PrepareFulfillment(blake, s, id)
                 == Ok(FulfillArgs(r.request, r.deposit,
                                   RandomWords.Words(blake, value, r.request.salt, r.request.numWords)))
            else PrepareFulfillment(blake, s, id) == Err(RequestCannotYetBeFulfilled)
  {
    var s := Run(chain, m, events).value.state;
    RunKeepsCounted(chain, m, events);
    RunKeepsReady(chain, m, events);
    assert Local(s.requests[id].request.info.blockDue) in s.results;
  }
}
