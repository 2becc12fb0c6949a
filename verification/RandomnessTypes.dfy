/** Requests for randomness, the shared results that answer them, and the checks on both. */
module RandomnessTypes {
  import opened Common
  import opened Ledger

  type RequestId = nat

  /** The hash type's default value. */
  function DefaultHash(): Hash {
    seq(32, _ => 0)
  }

  /** Largest block number. */
  const BLOCK_MAX := U32_MAX

  /** What a request waits for; the key of the shared result. */
  datatype RequestType = BabeEpoch(epoch: nat) | Local(block: nat)

  /** What a request waits for, with the epoch or block at which it expires. */
  datatype RequestInfo =
    | BabeEpochInfo(epochDue: nat, epochExpires: nat)
    | LocalInfo(blockDue: nat, blockExpires: nat)

  /** A raw random value, absent until it is known, shared by `requestCount` requests. */
  datatype RandomnessResult = RandomnessResult(randomness: Option<Hash>, requestCount: nat)

  datatype Request<Info> = Request(
    refundAddress: Address,
    contractAddress: Address,
    fee: Balance,
    gasLimit: nat,
    numWords: byte,
    salt: Hash,
    info: Info)

  datatype RequestState = RequestState(request: Request<RequestInfo>, deposit: Balance)

  datatype FulfillArgs = FulfillArgs(request: Request<RequestInfo>, deposit: Balance, randomness: seq<Hash>)

  /** The constants of the runtime, which an upgrade may change between two blocks. */
  datatype Config = Config(
    deposit: Balance,
    maxRandomWords: byte,
    minBlockDelay: nat,
    maxBlockDelay: nat,
    blockExpirationDelay: nat,
    epochExpirationDelay: nat)

  /** What stays fixed over the life of a chain. */
  datatype Chain = Chain(account: Address -> AccountId, palletAccount: AccountId, existentialDeposit: nat)

  datatype Error =
    | RequestCounterOverflowed
    | RequestFeeOverflowed
    | MustRequestAtLeastOneWord
    | CannotRequestMoreWordsThanMax
    | CannotRequestRandomnessAfterMaxDelay
    | CannotRequestRandomnessBeforeMinDelay
    | RequestDNE
    | RequestCannotYetBeFulfilled
    | OnlyRequesterCanIncreaseFee
    | RequestHasNotExpired
    | RandomnessResultDNE
    | RandomnessResultNotFilled
    | TransferFailed

  function ToType(info: RequestInfo): RequestType {
    match info
    case BabeEpochInfo(epoch, _) => BabeEpoch(epoch)
    case LocalInfo(block, _) => Local(block)
  }

  /** Adds the expiry, counted from the epoch or the block in which the request is made. */
  function ToInfo(cfg: Config, block: nat, epoch: nat, key: RequestType): RequestInfo {
    match key
    case BabeEpoch(due) => BabeEpochInfo(due, SaturatingAdd(epoch, cfg.epochExpirationDelay, U64_MAX))
    case Local(due) => LocalInfo(due, SaturatingAdd(block, cfg.blockExpirationDelay, BLOCK_MAX))
  }

  function WithInfo(r: Request<RequestType>, info: RequestInfo): Request<RequestInfo> {
    Request(r.refundAddress, r.contractAddress, r.fee, r.gasLimit, r.numWords, r.salt, info)
  }

  predicate IsExpired(info: RequestInfo, block: nat, epoch: nat) {
    match info
    case BabeEpochInfo(_, expires) => epoch >= expires
    case LocalInfo(_, expires) => block >= expires
  }

  /** Whether the epoch or the block a key stands for has been reached. */
  predicate Due(key: RequestType, block: nat, epoch: nat) {
    match key
    case BabeEpoch(due) => due <= epoch
    case Local(due) => due <= block
  }

  /** The first objection to a new request, if there is one. */
  function Validate(cfg: Config, block: nat, r: Request<RequestInfo>): Option<Error> {
    if r.numWords > cfg.maxRandomWords then Some(CannotRequestMoreWordsThanMax)
    else if r.numWords < 1 then Some(MustRequestAtLeastOneWord)
    else
      match r.info
      case BabeEpochInfo(_, _) => None
      case LocalInfo(due, _) =>
        if block + cfg.maxBlockDelay > BLOCK_MAX || due > block + cfg.maxBlockDelay then
          Some(CannotRequestRandomnessAfterMaxDelay)
        else if block + cfg.minBlockDelay > BLOCK_MAX || due < block + cfg.minBlockDelay then
          Some(CannotRequestRandomnessBeforeMinDelay)
        else None
  }

  function NewResult(): RandomnessResult {
    RandomnessResult(None, 1)
  }

  function Increment(r: RandomnessResult): RandomnessResult {
    r.(requestCount := SaturatingAdd(r.requestCount, 1, U64_MAX))
  }

  /** The result with one request fewer; none when no request would be left. */
  function Decrement(r: RandomnessResult): Option<RandomnessResult> {
    if r.requestCount <= 1 then None else Some(r.(requestCount := r.requestCount - 1))
  }
}

/** The random words handed to a consumer. */
module RandomWords {
  import opened Common

  /** The bytes that are hashed into word `index`. */
  function Preimage(randomness: Hash, salt: Hash, index: byte): Hash {
    randomness + salt + [index]
  }

  /** One word for each index below `numWords`. */
  function Words(blake: Hash -> Hash, randomness: Hash, salt: Hash, numWords: byte): seq<Hash> {
    seq(numWords, i requires 0 <= i < numWords => blake(Preimage(randomness, salt, i)))
  }

  /** The loop over one reused buffer yields, word by word, the hash of the index's own preimage. */
  method ComputeRandomWords(blake: Hash -> Hash, randomness: Hash, salt: Hash, numWords: byte)
    returns (output: seq<Hash>)
    ensures |output| == numWords
    ensures forall i :: 0 <= i < numWords ==> output[i] == blake(randomness + salt + [i])
    ensures output == Words(blake, randomness, salt, numWords)
  {
    output := [];
    var word: Hash := [];
    for index := 0 to numWords
      invariant word == []
      invariant |output| == index
      invariant forall i :: 0 <= i < index ==> output[i] == blake(Preimage(randomness, salt, i))
    {
      word := word + randomness;
      word := word + salt;
      word := word + [index];
      assert word == Preimage(randomness, salt, index);
      output := output + [blake(word)];
      word := [];
    }
  }

  /** No two words of a request, and no two requests with different salts for the same value, hash
      the same bytes: salts are all 32 bytes long. */
  lemma PreimagesDistinct(randomness: Hash, salt: Hash, i: byte, salt': Hash, j: byte)
    requires |salt| == |salt'|
    ensures Preimage(randomness, salt, i) == Preimage(randomness, salt', j) <==> salt == salt' && i == j
  {
    var p, q := Preimage(randomness, salt, i), Preimage(randomness, salt', j);
    if p == q {
      assert p[|p| - 1] == i && q[|q| - 1] == j;
      assert p[|randomness|..|p| - 1] == salt;
      assert q[|randomness|..|q| - 1] == salt';
    }
  }
}
