/** What each call and hook of the randomness pallet answers, and all that it changes. */
module RandomnessAnswers {
  import opened Common
  import opened Ledger
  import opened RandomnessTypes
  import opened Randomness
  import opened RandomnessRuns

  // ---- Requests -------------------------------------------------------------------------------

  /** The block a local request asks for lies outside the delays, or they cannot be added to the block number. */
  predicate TooLate(cfg: Config, s: State, key: RequestType) {
    key.Local? && (s.blockNumber + cfg.maxBlockDelay > U32_MAX || key.block > s.blockNumber + cfg.maxBlockDelay)
  }

  predicate TooEarly(cfg: Config, s: State, key: RequestType) {
    key.Local? && (s.blockNumber + cfg.minBlockDelay > U32_MAX || key.block < s.blockNumber + cfg.minBlockDelay)
  }

  /** Which error is given, the first that applies, and what an accepted request stores.  It expires a number of
      blocks or epochs after the current one, at most at the end of time. */
  lemma RequestAnswers(chain: Chain, cfg: Config, s: State, r: Request<RequestType>, accepted: bool)
    ensures var o := RequestRandomness(chain, cfg, s, r, accepted);
            var total := Min(cfg.deposit + r.fee, MAX_BALANCE);
            var from, pallet := chain.account(r.contractAddress), chain.palletAccount;
            if r.numWords > cfg.maxRandomWords then o == Err(CannotRequestMoreWordsThanMax)
            else if r.numWords == 0 then o == Err(MustRequestAtLeastOneWord)
            else if TooLate(cfg, s, r.info) then o == Err(CannotRequestRandomnessAfterMaxDelay)
            else if TooEarly(cfg, s, r.info) then o == Err(CannotRequestRandomnessBeforeMinDelay)
            else if s.requestCount >= U64_MAX then o == Err(RequestCounterOverflowed)
            else if !Payable(s.ledger, chain.existentialDeposit, from, pallet, total, accepted) then
              o == Err(TransferFailed)
            else
              var info := match r.info {
                            case Local(due) => LocalInfo(due, Min(s.blockNumber + cfg.blockExpirationDelay, U32_MAX))
                            case BabeEpoch(due) =>
                              BabeEpochInfo(due, Min(s.relayEpoch + cfg.epochExpirationDelay, U64_MAX))
                          };
              var request := Request(r.refundAddress, r.contractAddress, r.fee, r.gasLimit, r.numWords, r.salt, info);
              && o.Ok?
              && Moved(s.ledger, o.value.ledger, from, pallet, total)
              && o.value == s.(ledger := o.value.ledger, results := o.value.results,
                               requestCount := s.requestCount + 1,
                               requests := s.requests[s.requestCount := RequestState(request, cfg.deposit)])
  {
    TransferIff(s.ledger, chain.existentialDeposit, chain.account(r.contractAddress), chain.palletAccount,
                Min(cfg.deposit + r.fee, MAX_BALANCE), accepted);
  }

  /** Only the requesting contract can raise the fee; it pays exactly the increase, and nothing else changes. */
  lemma IncreaseFeeAnswers(chain: Chain, s: State, caller: Address, id: RequestId, increase: Balance, accepted: bool)
    ensures var o := IncreaseRequestFee(chain, s, caller, id, increase, accepted);
            var from, pallet := chain.account(caller), chain.palletAccount;
            if id !in s.requests then o == Err(RequestDNE)
            else if caller != s.requests[id].request.contractAddress then o == Err(OnlyRequesterCanIncreaseFee)
            else if s.requests[id].request.fee + increase > MAX_BALANCE then o == Err(RequestFeeOverflowed)
            else if !Payable(s.ledger, chain.existentialDeposit, from, pallet, increase, accepted) then
              o == Err(TransferFailed)
            else
              && o.Ok?
              && Moved(s.ledger, o.value.ledger, from, pallet, increase)
              && id in o.value.requests
              && Raised(s.requests[id], o.value.requests[id])
              && o.value.requests[id].request.fee == s.requests[id].request.fee + increase
              && o.value == s.(ledger := o.value.ledger, requests := s.requests[id := o.value.requests[id]])
  {
    TransferIff(s.ledger, chain.existentialDeposit, chain.account(caller), chain.palletAccount, increase, accepted);
  }

  // ---- Fulfilment -----------------------------------------------------------------------------

  /** The first error that applies, or the stored request and deposit with as many words as asked for, each the
      hash of the value, the salt and its index. */
  lemma PreparationAnswers(blake: Hash -> Hash, s: State, id: RequestId)
    ensures var o := PrepareFulfillment(blake, s, id);
            if id !in s.requests then o == Err(RequestDNE)
            else
              var r := s.requests[id];
              var key := match r.request.info {
                           case LocalInfo(block, _) => Local(block)
                           case BabeEpochInfo(epoch, _) => BabeEpoch(epoch)
                         };
              var due := match r.request.info {
                           case LocalInfo(block, _) => block <= s.blockNumber
                           case BabeEpochInfo(epoch, _) => epoch <= s.relayEpoch
                         };
              if !due then o == Err(RequestCannotYetBeFulfilled)
              else if key !in s.results then o == Err(RandomnessResultDNE)
              else if s.results[key].randomness == None then o == Err(RandomnessResultNotFilled)
              else
                && o.Ok? && o.value.request == r.request && o.value.deposit == r.deposit
                && |o.value.randomness| == r.request.numWords
                && forall i: byte :: i < r.request.numWords ==>
                     o.value.randomness[i] == blake(s.results[key].randomness.value + r.request.salt + [i])
  {
    if PrepareFulfillment(blake, s, id).Ok? {
      var r := s.requests[id];
      WordsHashTheirIndex(blake, s.results[Key(r)].randomness.value, r.request.salt, r.request.numWords);
    }
  }

  lemma WordsHashTheirIndex(blake: Hash -> Hash, value: Hash, salt: Hash, numWords: byte)
    ensures var words := RandomWords.Words(blake, value, salt, numWords);
            |words| == numWords && forall i: byte :: i < numWords ==> words[i] == blake(value + salt + [i])
  {
    forall i: byte | i < numWords
      ensures RandomWords.Words(blake, value, salt, numWords)[i] == blake(value + salt + [i])
    {
      assert RandomWords.Preimage(value, salt, i) == value + salt + [i];
    }
  }

  // ---- Expiry ---------------------------------------------------------------------------------

  /** A local request has expired from its expiry block on, an epoch request from its expiry epoch on.  Then the
      deposit goes to the contract and the fee to the caller, in one payment if they are the same, all or nothing;
      and exactly that request is gone. */
  lemma ExpirationAnswers(chain: Chain, s: State, caller: Address, id: RequestId, accepted: bool, accepted': bool)
    ensures var o := ExecuteRequestExpiration(chain, s, caller, id, accepted, accepted');
            if id !in s.requests then o == Err(RequestDNE)
            else
              var r, ed, pallet := s.requests[id], chain.existentialDeposit, chain.palletAccount;
              var contract, to := chain.account(r.request.contractAddress), chain.account(caller);
              var early := match r.request.info {
                             case LocalInfo(_, expires) => s.blockNumber < expires
                             case BabeEpochInfo(_, expires) => s.relayEpoch < expires
                           };
              var first := if to == contract then Min(r.deposit + r.request.fee, MAX_BALANCE) else r.deposit;
              if early then o == Err(RequestHasNotExpired)
              else if !Payable(s.ledger, ed, pallet, contract, first, accepted) then o == Err(TransferFailed)
              else
                var l := Transfer(s.ledger, ed, pallet, contract, first, accepted).value;
                if to != contract && !Payable(l, ed, pallet, to, r.request.fee, accepted') then o == Err(TransferFailed)
                else
                  && o.Ok?
                  && Moved(l, o.value.ledger, pallet, to, if to == contract then 0 else r.request.fee)
                  && o.value == s.(ledger := o.value.ledger, results := o.value.results, requests := s.requests - {id})
  {
    if id in s.requests {
      ExpirationPayments(chain, s.ledger, s.requests[id], chain.account(caller), accepted, accepted');
    }
  }

  lemma ExpirationPayments(chain: Chain, l: Balances, r: RequestState, to: AccountId, accepted: bool, accepted': bool)
    ensures var o := ExecuteExpiration(chain, l, r, to, accepted, accepted');
            var ed, pallet, contract := chain.existentialDeposit, chain.palletAccount,
                                        chain.account(r.request.contractAddress);
            var first := if to == contract then Min(r.deposit + r.request.fee, MAX_BALANCE) else r.deposit;
            if !Payable(l, ed, pallet, contract, first, accepted) then o == None
            else
              && Transfer(l, ed, pallet, contract, first, accepted).Some?
              && var l1 := Transfer(l, ed, pallet, contract, first, accepted).value;
                 if to != contract && !Payable(l1, ed, pallet, to, r.request.fee, accepted') then o == None
                 else o.Some? && Moved(l1, o.value, pallet, to, if to == contract then 0 else r.request.fee)
  {
    var ed, pallet, contract := chain.existentialDeposit, chain.palletAccount, chain.account(r.request.contractAddress);
    if to != contract {
      TransferIff(l, ed, pallet, contract, r.deposit, accepted);
      if Payable(l, ed, pallet, contract, r.deposit, accepted) {
        var l1 := Transfer(l, ed, pallet, contract, r.deposit, accepted).value;
        TransferIff(l1, ed, pallet, to, r.request.fee, accepted');
      }
    }
  }

  /** On every run: a live request was made by an event of the run, and asking for its expiry is too early exactly
      before so many blocks or epochs after that event as the configuration then in force says, and never too early
      at the end of time. */
  lemma RequestsExpireAsConfigured(chain: Chain, m: Machine, events: seq<Event>, id: RequestId, caller: Address,
                                   accepted: bool, accepted': bool) returns (i: nat)
    requires Genesis(m)
    requires Run(chain, m, events).Some?
    requires id in Run(chain, m, events).value.state.requests
    ensures AcceptedAt(chain, m, events, i) && At(chain, m, events, i).state.requestCount == id
    ensures var made, now := At(chain, m, events, i), Run(chain, m, events).value.state;
            ExecuteRequestExpiration(chain, now, caller, id, accepted, accepted') == Err(RequestHasNotExpired)
            <==> if events[i].op.request.info.Local?
                 then now.blockNumber < Min(made.state.blockNumber + made.cfg.blockExpirationDelay, U32_MAX)
                 else now.relayEpoch < Min(made.state.relayEpoch + made.cfg.epochExpirationDelay, U64_MAX)
  {
    var now := Run(chain, m, events).value.state;
    RequestsMeetTheirConfiguration(chain, m, events, id);
    i :| MadeAt(chain, m, events, i, id, now.requests[id]);
    ExpirationAnswers(chain, now, caller, id, accepted, accepted');
  }

  // ---- Calls in a block -----------------------------------------------------------------------

  /** The new state if the call succeeds, the old one if it fails. */
  ghost predicate TakesEffect(s: State, o: Result<State, Error>, s': State) {
    s' == if o.Ok? then o.value else s
  }

  /** Inside a block every call takes effect if it succeeds and changes nothing if it fails, under the
      configuration of the block, and a fulfilment finishes a live request with what is stored for it; outside
      there are none. */
  lemma CallsTakeEffect(chain: Chain, m: Machine, op: Op)
    ensures var o, s := Next(chain, m, Do(op)), m.state;
            && (o.Some? <==> m.open)
            && (o.Some? ==>
                  && o.value.cfg == m.cfg && o.value.open
                  && var s' := o.value.state;
                     match op
                     case MakeRequest(r, accepted) =>
                       TakesEffect(s, RequestRandomness(chain, m.cfg, s, r, accepted), s')
                     case Fulfill(caller, id, cost, accepted, accepted') =>
                       if id !in s.requests then s' == s
                       else
                         var r := s.requests[id];
                         s' == FinishFulfillment(chain, s, id, r.request, r.deposit, caller, cost, accepted, accepted')
                     case IncreaseFee(caller, id, increase, accepted) =>
                       TakesEffect(s, IncreaseRequestFee(chain, s, caller, id, increase, accepted), s')
                     case Expire(caller, id, accepted, accepted') =>
                       TakesEffect(s, ExecuteRequestExpiration(chain, s, caller, id, accepted, accepted'), s')
                     case Inherent(epoch, randomness) => s' == SetBabeRandomnessResults(s, epoch, randomness)
                     case Elsewhere(ledger) => s' == s.(ledger := ledger))
  {
  }

  // ---- The inherent and the hooks -------------------------------------------------------------

  /** The inherent notes the epoch and that it came; a value goes to the results that wait for an epoch which is
      new, and to nobody else. */
  lemma InherentEffect(s: State, epoch: nat, randomness: Option<Hash>)
    ensures var s' := SetBabeRandomnessResults(s, epoch, randomness);
            && s' == s.(results := s'.results, relayEpoch := epoch, inherentIncluded := true)
            && s'.results.Keys == s.results.Keys
            && (forall k :: k in s.results ==>
                  && s'.results[k].requestCount == s.results[k].requestCount
                  && s'.results[k].randomness
                     == if k == BabeEpoch(epoch) && epoch > s.relayEpoch && randomness.Some? then randomness
                        else s.results[k].randomness)
  {
  }

  /** A block opens after the last one was closed, with the next number.  The author's output is kept and goes to
      the results that wait for this block, except in the pallet's first block, which has none. */
  lemma BeginEffect(chain: Chain, m: Machine, cfg: Config, vrf: Hash)
    ensures var o, s := Next(chain, m, Begin(cfg, vrf)), m.state;
            && (o.Some? <==> !m.open && s.blockNumber < U32_MAX)
            && (o.Some? ==>
                  var s' := o.value.state;
                  && o.value == Machine(s', cfg, true)
                  && s' == s.(results := s'.results, localVrfOutput := s'.localVrfOutput, notFirstBlock := true,
                              blockNumber := s.blockNumber + 1)
                  && s'.localVrfOutput == Some(if s.notFirstBlock then vrf else seq(32, _ => 0))
                  && s'.results.Keys == s.results.Keys
                  && (forall k :: k in s.results ==>
                        && s'.results[k].requestCount == s.results[k].requestCount
                        && s'.results[k].randomness
                           == if s.notFirstBlock && k == Local(s.blockNumber + 1) then Some(vrf)
                              else s.results[k].randomness))
  {
  }

  /** A block is valid exactly with the inherent and an output, which becomes the seed for the next block. */
  lemma EndEffect(chain: Chain, m: Machine)
    ensures var o, s := Next(chain, m, End), m.state;
            && (o.Some? <==> m.open && s.inherentIncluded && s.localVrfOutput.Some?)
            && (o.Some? ==>
                  o.value == m.(state := s.(inherentIncluded := false,
                                            previousLocalVrfOutput := s.localVrfOutput.value),
                                open := false))
  {
  }

  /** Between blocks the flag is down; inside one it is up exactly if the inherent came since the block began. */
  lemma {:induction false} InherentIsNoted(chain: Chain, m: Machine, events: seq<Event>, i: nat)
    requires !m.open && !m.state.inherentIncluded
    requires Run(chain, m, events).Some?
    requires i <= |events| && (i == 0 || events[i - 1].Begin?)
    requires forall k :: i <= k < |events| ==> !events[k].Begin?
    ensures var m' := Run(chain, m, events).value;
            m'.state.inherentIncluded <==>
            m'.open && exists k :: i <= k < |events| && events[k].Do? && events[k].op.Inherent?
  {
    if events == [] {
    } else {
      var n := |events| - 1;
      var init, e := events[..n], events[n];
      PrefixRuns(chain, m, events, n);
      var m1 := Run(chain, m, init).value;
      if i == |events| {
        FlagIsDownBetweenBlocks(chain, m, init);
      } else {
        InherentIsNoted(chain, m, init, i);
        if e.Do? {
          ApplyKeepsOutputs(chain, m1.cfg, m1.state, e.op);
        }
        if m1.state.inherentIncluded {
          var k :| i <= k < n && init[k].Do? && init[k].op.Inherent?;
          assert events[k] == init[k];
        }
      }
    }
  }

  lemma {:induction false} FlagIsDownBetweenBlocks(chain: Chain, m: Machine, events: seq<Event>)
    requires !m.open && !m.state.inherentIncluded
    requires Run(chain, m, events).Some?
    ensures var m' := Run(chain, m, events).value; !m'.open ==> !m'.state.inherentIncluded
  {
    if events == [] {
    } else {
      PrefixRuns(chain, m, events, |events| - 1);
      FlagIsDownBetweenBlocks(chain, m, events[..|events| - 1]);
    }
  }

  /** Every block that was closed contains the mandatory inherent. */
  lemma ClosedBlocksHaveTheInherent(chain: Chain, m: Machine, events: seq<Event>, i: nat, j: nat)
    requires !m.open && !m.state.inherentIncluded
    requires Run(chain, m, events).Some?
    requires i < j < |events| && events[i].Begin? && events[j].End?
    requires forall k :: i < k < j ==> !events[k].Begin?
    ensures exists k :: i < k < j && events[k].Do? && events[k].op.Inherent?
  {
    var before := events[..j];
    PrefixRuns(chain, m, events, j);
    AtSteps(chain, m, events, j);
    EndEffect(chain, At(chain, m, events, j));
    InherentIsNoted(chain, m, before, i + 1);
    var k :| i + 1 <= k < j && before[k].Do? && before[k].op.Inherent?;
    assert events[k] == before[k];
  }
}
