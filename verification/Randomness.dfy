/** The randomness pallet as a state machine: its storage, its calls and its block hooks. */
module Randomness {
  import opened Common
  import opened Ledger
  import opened RandomnessTypes
  import RandomWords

  datatype State = State(
    requests: map<RequestId, RequestState>,
    requestCount: nat,
    results: map<RequestType, RandomnessResult>,
    localVrfOutput: Option<Hash>,
    previousLocalVrfOutput: Hash,
    relayEpoch: nat,
    inherentIncluded: bool,
    notFirstBlock: bool,
    blockNumber: nat,
    ledger: Balances)

  function Key(r: RequestState): RequestType {
    ToType(r.request.info)
  }

  /** What a request has put in escrow. */
  function Escrow(r: RequestState): nat {
    r.deposit + r.request.fee
  }

  // ---- Shared results -------------------------------------------------------------------------

  /** One more request waits for `key`. */
  function Acquire(results: map<RequestType, RandomnessResult>, key: RequestType)
    : map<RequestType, RandomnessResult>
  {
    results[key := if key in results then Increment(results[key]) else NewResult()]
  }

  /** One request fewer waits for `key`. */
  function Release(results: map<RequestType, RandomnessResult>, key: RequestType)
    : map<RequestType, RandomnessResult>
  {
    if key !in results then results
    else
      match Decrement(results[key])
      case Some(r) => results[key := r]
      case None => results - {key}
  }

  /** Supply the random value to everybody who waits for `key`. */
  function Fill(results: map<RequestType, RandomnessResult>, key: RequestType, randomness: Hash)
    : map<RequestType, RandomnessResult>
  {
    if key in results then results[key := results[key].(randomness := Some(randomness))] else results
  }

  // ---- Calls made through the precompile ------------------------------------------------------

  function RequestRandomness(chain: Chain, cfg: Config, s: State, r: Request<RequestType>, accepted: bool)
    : Result<State, Error>
  {
    var request := WithInfo(r, ToInfo(cfg, s.blockNumber, s.relayEpoch, r.info));
    match Validate(cfg, s.blockNumber, request)
    case Some(e) => Err(e)
    case None =>
      if s.requestCount + 1 > U64_MAX then Err(RequestCounterOverflowed)
      else
        var total := SaturatingAdd(cfg.deposit, r.fee, MAX_BALANCE);
        match Transfer(s.ledger, chain.existentialDeposit, chain.account(r.contractAddress),
                       chain.palletAccount, total, accepted)
        case None => Err(TransferFailed)
        case Some(ledger) =>
          Ok(s.(ledger := ledger,
                results := Acquire(s.results, r.info),
                requestCount := s.requestCount + 1,
                requests := s.requests[s.requestCount := RequestState(request, cfg.deposit)]))
  }

  /** Everything the consumer's callback needs, or the reason why it cannot be made. */
  function PrepareFulfillment(blake: Hash -> Hash, s: State, id: RequestId): Result<FulfillArgs, Error> {
    if id !in s.requests then Err(RequestDNE)
    else
      var r := s.requests[id];
      var key := Key(r);
      if !Due(key, s.blockNumber, s.relayEpoch) then Err(RequestCannotYetBeFulfilled)
      else if key !in s.results then Err(RandomnessResultDNE)
      else if s.results[key].randomness.None? then Err(RandomnessResultNotFilled)
      else
        Ok(FulfillArgs(r.request, r.deposit,
                       RandomWords.Words(blake, s.results[key].randomness.value, r.request.salt, r.request.numWords)))
  }

  /** One payment out of the escrow that was attempted, and whether the currency made it. */
  datatype Payout = Payout(to: AccountId, amount: nat, paid: bool)

  datatype Settlement = Settlement(ledger: Balances, payouts: seq<Payout>)

  function Pay(chain: Chain, b: Settlement, to: AccountId, amount: nat, accepted: bool): Settlement {
    match Transfer(b.ledger, chain.existentialDeposit, chain.palletAccount, to, amount, accepted)
    case Some(ledger) => Settlement(ledger, b.payouts + [Payout(to, amount, true)])
    case None => Settlement(b.ledger, b.payouts + [Payout(to, amount, false)])
  }

  /** The payments of a fulfilment: the excess to the refund address and the cost to the caller, in
      one payment when the two are the same address.  A payment that fails is only logged. */
  function FinishFulfill(chain: Chain, l: Balances, r: Request<RequestInfo>, deposit: Balance, caller: Address,
                         cost: Balance, accepted: bool, accepted': bool): Settlement
  {
    var start := Settlement(l, []);
    var refundable := SaturatingAdd(deposit, r.fee, MAX_BALANCE);
    var refundTo := chain.account(r.refundAddress);
    if cost > refundable then
      Pay(chain, start, chain.account(caller), cost, accepted')
    else if r.refundAddress == caller then
      Pay(chain, start, refundTo, SaturatingAdd(refundable - cost, cost, MAX_BALANCE), accepted)
    else
      Pay(chain, Pay(chain, start, refundTo, refundable - cost, accepted), chain.account(caller), cost, accepted')
  }

  /** The request, its deposit and its id all come from the caller. */
  function FinishFulfillment(chain: Chain, s: State, id: RequestId, r: Request<RequestInfo>, deposit: Balance,
                             caller: Address, cost: Balance, accepted: bool, accepted': bool): State
  {
    s.(ledger := FinishFulfill(chain, s.ledger, r, deposit, caller, cost, accepted, accepted').ledger,
       results := Release(s.results, ToType(r.info)),
       requests := s.requests - {id})
  }

  function IncreaseRequestFee(chain: Chain, s: State, caller: Address, id: RequestId, increase: Balance, accepted: bool)
    : Result<State, Error>
  {
    if id !in s.requests then Err(RequestDNE)
    else
      var r := s.requests[id];
      if caller != r.request.contractAddress then Err(OnlyRequesterCanIncreaseFee)
      else if r.request.fee + increase > MAX_BALANCE then Err(RequestFeeOverflowed)
      else
        match Transfer(s.ledger, chain.existentialDeposit, chain.account(caller), chain.palletAccount, increase,
                       accepted)
        case None => Err(TransferFailed)
        case Some(ledger) =>
          Ok(s.(ledger := ledger,
                requests := s.requests[id := r.(request := r.request.(fee := r.request.fee + increase))]))
  }

  /** The payments of an expiry: the deposit back to the contract and the fee to the caller, in one
      payment when they are the same account.  All are made, or none. */
  function ExecuteExpiration(chain: Chain, l: Balances, r: RequestState, caller: AccountId,
                             accepted: bool, accepted': bool): Option<Balances>
  {
    var contract := chain.account(r.request.contractAddress);
    var pallet := chain.palletAccount;
    var ed := chain.existentialDeposit;
    if caller == contract then
      Transfer(l, ed, pallet, contract, SaturatingAdd(r.deposit, r.request.fee, MAX_BALANCE), accepted)
    else
      match Transfer(l, ed, pallet, contract, r.deposit, accepted)
      case None => None
      case Some(l1) => Transfer(l1, ed, pallet, caller, r.request.fee, accepted')
  }

  function ExecuteRequestExpiration(chain: Chain, s: State, caller: Address, id: RequestId,
                                    accepted: bool, accepted': bool): Result<State, Error>
  {
    if id !in s.requests then Err(RequestDNE)
    else
      var r := s.requests[id];
      if !IsExpired(r.request.info, s.blockNumber, s.relayEpoch) then Err(RequestHasNotExpired)
      else
        match ExecuteExpiration(chain, s.ledger, r, chain.account(caller), accepted, accepted')
        case None => Err(TransferFailed)
        case Some(ledger) =>
          Ok(s.(ledger := ledger, results := Release(s.results, Key(r)), requests := s.requests - {id}))
  }

  // ---- Inherent and block hooks ---------------------------------------------------------------

  /** The mandatory inherent: note the relay epoch and, when it has moved forward, fill the results
      that wait for it, if the relay chain supplied its randomness. */
  function SetBabeRandomnessResults(s: State, epoch: nat, randomness: Option<Hash>): State {
    s.(results := if epoch > s.relayEpoch && randomness.Some?
                  then Fill(s.results, BabeEpoch(epoch), randomness.value) else s.results,
       relayEpoch := epoch,
       inherentIncluded := true)
  }

  /** `vrf` is the verified output of the block's author.  The very first block has none. */
  function OnInitialize(s: State, vrf: Hash): State {
    if !s.notFirstBlock then
      s.(notFirstBlock := true, localVrfOutput := Some(DefaultHash()))
    else
      s.(localVrfOutput := Some(vrf), results := Fill(s.results, Local(s.blockNumber), vrf))
  }

  /** None when the block is invalid. */
  function OnFinalize(s: State): Option<State> {
    if s.inherentIncluded && s.localVrfOutput.Some? then
      Some(s.(inherentIncluded := false, previousLocalVrfOutput := s.localVrfOutput.value))
    else None
  }

  // ---- Runs -----------------------------------------------------------------------------------

  /** What can happen inside a block.  Every flag `accepted` is the currency's choice. */
  datatype Op =
    | MakeRequest(request: Request<RequestType>, accepted: bool)
    | Fulfill(fulfiller: Address, id: RequestId, cost: Balance, accepted: bool, accepted': bool)
    | IncreaseFee(payer: Address, id: RequestId, increase: Balance, accepted: bool)
    | Expire(caller: Address, id: RequestId, accepted: bool, accepted': bool)
    | Inherent(epoch: nat, randomness: Option<Hash>)
    | Elsewhere(ledger: Balances)

  /** A call that returns an error changes nothing.  `Fulfill` finishes a live request, handing back
      what is stored for it; `Elsewhere` is anything the rest of the runtime does to balances. */
  function Apply(chain: Chain, cfg: Config, s: State, op: Op): State {
    match op
    case MakeRequest(r, accepted) => OrElse(RequestRandomness(chain, cfg, s, r, accepted), s)
    case Fulfill(caller, id, cost, accepted, accepted') =>
      if id in s.requests then
        FinishFulfillment(chain, s, id, s.requests[id].request, s.requests[id].deposit, caller, cost, accepted,
                          accepted')
      else s
    case IncreaseFee(caller, id, increase, accepted) =>
      OrElse(IncreaseRequestFee(chain, s, caller, id, increase, accepted), s)
    case Expire(caller, id, accepted, accepted') =>
      OrElse(ExecuteRequestExpiration(chain, s, caller, id, accepted, accepted'), s)
    case Inherent(epoch, randomness) => SetBabeRandomnessResults(s, epoch, randomness)
    case Elsewhere(ledger) => s.(ledger := ledger)
  }

  function OrElse(r: Result<State, Error>, s: State): State {
    match r
    case Ok(s') => s'
    case Err(_) => s
  }

  /** A block opens under the configuration then in force, performs operations, and closes. */
  datatype Event = Begin(cfg: Config, vrf: Hash) | Do(op: Op) | End

  datatype Machine = Machine(state: State, cfg: Config, open: bool)

  /** None when the event cannot happen, or makes the block invalid so that it leaves no trace. */
  function Next(chain: Chain, m: Machine, e: Event): Option<Machine> {
    match e
    case Begin(cfg, vrf) =>
      if m.open || m.state.blockNumber >= BLOCK_MAX then None
      else Some(Machine(OnInitialize(m.state.(blockNumber := m.state.blockNumber + 1), vrf), cfg, true))
    case Do(op) =>
      if m.open then Some(m.(state := Apply(chain, m.cfg, m.state, op))) else None
    case End =>
      if !m.open then None
      else
        match OnFinalize(m.state)
        case Some(s) => Some(m.(state := s, open := false))
        case None => None
  }

  function Run(chain: Chain, m: Machine, events: seq<Event>): Option<Machine> {
    if events == [] then Some(m)
    else
      match Run(chain, m, events[..|events| - 1])
      case None => None
      case Some(m') => Next(chain, m', events[|events| - 1])
  }

  /** Before the pallet's first block: nothing requested yet. */
  ghost predicate Genesis(m: Machine) {
    && !m.open
    && !m.state.notFirstBlock
    && m.state.requests == map[]
    && m.state.results == map[]
    && m.state.requestCount <= U64_MAX
  }
}
