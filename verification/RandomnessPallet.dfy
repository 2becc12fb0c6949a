/** The randomness pallet as the object it is: storage items that calls and hooks overwrite. */
module RandomnessPallet {
  import opened Common
  import opened Ledger
  import opened RandomnessTypes
  import Spec = Randomness
  import RandomWords
  import opened RandomnessVrf

  class Pallet {
    const chain: Chain

    var requests: map<RequestId, RequestState>
    var requestCount: nat
    var results: map<RequestType, RandomnessResult>
    var localVrfOutput: Option<Hash>
    var previousLocalVrfOutput: Hash
    var relayEpoch: nat
    var inherentIncluded: bool
    var notFirstBlock: bool
    // Storage of other pallets that this one reads or asks to change.
    var blockNumber: nat
    var ledger: Balances

    constructor (chain: Chain, blockNumber: nat, ledger: Balances)
      ensures this.chain == chain
      ensures Spec.Genesis(Spec.Machine(State(), Config(0, 0, 0, 0, 0, 0), false))
      ensures this.blockNumber == blockNumber && this.ledger == ledger
    {
      this.chain := chain;
      requests, requestCount, results := map[], 0, map[];
      localVrfOutput, previousLocalVrfOutput := None, DefaultHash();
      relayEpoch, inherentIncluded, notFirstBlock := 0, false, false;
      this.blockNumber, this.ledger := blockNumber, ledger;
    }

    ghost function State(): Spec.State
      reads this
    {
      Spec.State(requests, requestCount, results, localVrfOutput, previousLocalVrfOutput, relayEpoch,
                 inherentIncluded, notFirstBlock, blockNumber, ledger)
    }

    method TryTransfer(from: AccountId, to: AccountId, amount: nat, accepted: bool) returns (ok: bool)
      modifies this`ledger
      ensures var o := Transfer(old(ledger), chain.existentialDeposit, from, to, amount, accepted);
              ok == o.Some? && ledger == if o.Some? then o.value else old(ledger)
    {
      var o := Transfer(ledger, chain.existentialDeposit, from, to, amount, accepted);
      ok := o.Some?;
      if ok {
        ledger := o.value;
      }
    }

    method RequestRandomness(cfg: Config, r: Request<RequestType>, accepted: bool)
      returns (id: RequestId, error: Option<Error>)
      modifies this
      ensures Follows(Spec.RequestRandomness(chain, cfg, old(State()), r, accepted), old(State()), State(), error)
      ensures error.None? ==> id == old(requestCount)
    {
      id := 0;
      var request := WithInfo(r, ToInfo(cfg, blockNumber, relayEpoch, r.info));
      error := Validate(cfg, blockNumber, request);
      if error.Some? {
        return;
      }
      var state := RequestState(request, cfg.deposit);
      var totalToReserve := SaturatingAdd(cfg.deposit, request.fee, MAX_BALANCE);
      id := requestCount;
      if id + 1 > U64_MAX {
        error := Some(RequestCounterOverflowed);
        return;
      }
      var ok := TryTransfer(chain.account(request.contractAddress), chain.palletAccount, totalToReserve, accepted);
      if !ok {
        error := Some(TransferFailed);
        return;
      }
      AcquireResult(ToType(request.info));
      requestCount := id + 1;
      requests := requests[id := state];
    }

    /** Add one request to the count of a key. */
    method AcquireResult(key: RequestType)
      modifies this`results
      ensures results == Spec.Acquire(old(results), key)
    {
      if key in results {
        var existing := results[key];
        results := results - {key};
        results := results[key := Increment(existing)];
      } else {
        results := results[key := NewResult()];
      }
    }

    method PrepareFulfillment(blake: Hash -> Hash, id: RequestId) returns (o: Result<FulfillArgs, Error>)
      ensures o == Spec.PrepareFulfillment(blake, State(), id)
    {
      if id !in requests {
        return Err(RequestDNE);
      }
      var state := requests[id];
      var key := ToType(state.request.info);
      if !Due(key, blockNumber, relayEpoch) {
        return Err(RequestCannotYetBeFulfilled);
      }
      if key !in results {
        return Err(RandomnessResultDNE);
      }
      match results[key].randomness
      case None => return Err(RandomnessResultNotFilled);
      case Some(value) =>
        var words := RandomWords.ComputeRandomWords(blake, value, state.request.salt, state.request.numWords);
        return Ok(FulfillArgs(state.request, state.deposit, words));
    }

    /** Take one request off the count of a key. */
    method ReleaseResult(key: RequestType)
      modifies this`results
      ensures results == Spec.Release(old(results), key)
    {
      if key in results {
        var result := results[key];
        results := results - {key};
        var fewer := Decrement(result);
        if fewer.Some? {
          results := results[key := fewer.value];
        }
      }
    }

    method FinishFulfill(r: Request<RequestInfo>, deposit: Balance, caller: Address, cost: Balance, accepted: bool,
                         accepted': bool)
      modifies this`ledger
      ensures ledger == Spec.FinishFulfill(chain, old(ledger), r, deposit, caller, cost, accepted, accepted').ledger
    {
      var refundable := SaturatingAdd(deposit, r.fee, MAX_BALANCE);
      if cost <= refundable {
        var excess := refundable - cost;
        if r.refundAddress == caller {
          var _ := TryTransfer(chain.palletAccount, chain.account(r.refundAddress),
                               SaturatingAdd(excess, cost, MAX_BALANCE), accepted);
          return;
        }
        var _ := TryTransfer(chain.palletAccount, chain.account(r.refundAddress), excess, accepted);
      }
      var _ := TryTransfer(chain.palletAccount, chain.account(caller), cost, accepted');
    }

    method FinishFulfillment(id: RequestId, r: Request<RequestInfo>, deposit: Balance, caller: Address, cost: Balance,
                             accepted: bool, accepted': bool)
      modifies this
      ensures State() == Spec.FinishFulfillment(chain, old(State()), id, r, deposit, caller, cost, accepted, accepted')
    {
      FinishFulfill(r, deposit, caller, cost, accepted, accepted');
      ReleaseResult(ToType(r.info));
      requests := requests - {id};
    }

    method IncreaseRequestFee(caller: Address, id: RequestId, increase: Balance, accepted: bool)
      returns (error: Option<Error>)
      modifies this
      ensures Follows(Spec.IncreaseRequestFee(chain, old(State()), caller, id, increase, accepted), old(State()),
                      State(), error)
    {
      if id !in requests {
        return Some(RequestDNE);
      }
      var state := requests[id];
      if caller != state.request.contractAddress {
        return Some(OnlyRequesterCanIncreaseFee);
      }
      if state.request.fee + increase > MAX_BALANCE {
        return Some(RequestFeeOverflowed);
      }
      var ok := TryTransfer(chain.account(caller), chain.palletAccount, increase, accepted);
      if !ok {
        return Some(TransferFailed);
      }
      state := state.(request := state.request.(fee := state.request.fee + increase));
      requests := requests[id := state];
      error := None;
    }

    /** The transfers of an expiry; when the second fails, the error takes the first one back with it. */
    method ExecuteExpiration(state: RequestState, caller: AccountId, accepted: bool, accepted': bool) returns (ok: bool)
      modifies this`ledger
      ensures var o := Spec.ExecuteExpiration(chain, old(ledger), state, caller, accepted, accepted');
              ok == o.Some? && ledger == if o.Some? then o.value else old(ledger)
    {
      var before := ledger;
      var contract := chain.account(state.request.contractAddress);
      if caller == contract {
        ok := TryTransfer(chain.palletAccount, contract, SaturatingAdd(state.deposit, state.request.fee, MAX_BALANCE),
                          accepted);
      } else {
        ok := TryTransfer(chain.palletAccount, contract, state.deposit, accepted);
        if ok {
          ok := TryTransfer(chain.palletAccount, caller, state.request.fee, accepted');
          if !ok {
            ledger := before;
          }
        }
      }
    }

    method ExecuteRequestExpiration(caller: Address, id: RequestId, accepted: bool, accepted': bool)
      returns (error: Option<Error>)
      modifies this
      ensures Follows(Spec.ExecuteRequestExpiration(chain, old(State()), caller, id, accepted, accepted'),
                      old(State()), State(), error)
    {
      if id !in requests {
        return Some(RequestDNE);
      }
      var state := requests[id];
      if !IsExpired(state.request.info, blockNumber, relayEpoch) {
        return Some(RequestHasNotExpired);
      }
      var ok := ExecuteExpiration(state, chain.account(caller), accepted, accepted');
      if !ok {
        return Some(TransferFailed);
      }
      ReleaseResult(ToType(state.request.info));
      requests := requests - {id};
      error := None;
    }

    method SetBabeRandomnessResults(epoch: nat, randomness: Option<Hash>)
      modifies this
      ensures State() == Spec.SetBabeRandomnessResults(old(State()), epoch, randomness)
    {
      if epoch > relayEpoch {
        var key := BabeEpoch(epoch);
        if key in results {
          var result := results[key];
          if randomness.Some? {
            result := result.(randomness := randomness);
            results := results[key := result];
          }
        }
      }
      relayEpoch := epoch;
      inherentIncluded := true;
    }

    /** `verify` checks the author's proof over the previous output and turns it into randomness; none
        stands for a proof that does not verify.  An invalid block leaves no trace. */
    method OnInitialize(logs: seq<Item>, lookup: NimbusId -> Option<VrfId>,
                        verify: (VrfId, Hash, PreDigest) -> Option<Hash>)
      returns (valid: bool)
      modifies this
      ensures !valid ==> State() == old(State())
      ensures valid ==> exists vrf :: State() == Spec.OnInitialize(old(State()), vrf)
      ensures !old(notFirstBlock) ==> valid
      ensures old(notFirstBlock) ==>
                (valid <==> exists i: nat, j: nat ::
                              && Selects(logs, lookup, i, j)
                              && verify(lookup(logs[j].id.value).value,
                                        if old(localVrfOutput).Some? then old(localVrfOutput).value else DefaultHash(),
                                        logs[i].pre.value).Some?)
      ensures forall i: nat, j: nat :: old(notFirstBlock) && valid && Selects(logs, lookup, i, j) ==>
                localVrfOutput
                == verify(lookup(logs[j].id.value).value,
                          if old(localVrfOutput).Some? then old(localVrfOutput).value else DefaultHash(),
                          logs[i].pre.value)
    {
      if !notFirstBlock {
        notFirstBlock := true;
        localVrfOutput := Some(DefaultHash());
        assert State() == Spec.OnInitialize(old(State()), []);
        return true;
      }
      var found := ScanDigest(logs, lookup);
      if found.None? {
        return false;
      }
      var input := if localVrfOutput.Some? then localVrfOutput.value else DefaultHash();
      var verified := verify(found.value.0, input, found.value.1);
      if verified.None? {
        return false;
      }
      localVrfOutput := verified;
      var key := Local(blockNumber);
      if key in results {
        var result := results[key];
        result := result.(randomness := verified);
        results := results[key := result];
      }
      assert State() == Spec.OnInitialize(old(State()), verified.value);
      return true;
    }

    method OnFinalize() returns (valid: bool)
      modifies this
      ensures var o := Spec.OnFinalize(old(State()));
              valid == o.Some? && State() == if o.Some? then o.value else old(State())
    {
      if !inherentIncluded || localVrfOutput.None? {
        return false;
      }
      inherentIncluded := false;
      previousLocalVrfOutput := localVrfOutput.value;
      valid := true;
    }
  }
}
