/** The ERC-20 face of the balances pallet: allowances, transfers on behalf of others, and signed permits. */
module Erc20 {
  import opened Common
  import opened Ledger

  type Signature = Bytes

  const U256_MAX := U128_MAX * (U128_MAX + 2)

  datatype State = State(approvals: map<(AccountId, AccountId), Balance>, balances: Balances, nonces: map<Address, nat>)

  /** What the owner of an allowance signs. */
  datatype Permit = Permit(owner: Address, spender: Address, value: nat, nonce: nat, deadline: nat)

  /** The account of an address, the digest of a permit for this precompile on this chain, and the signer of
      a digest. */
  datatype Env = Env(account: Address -> AccountId, digest: Permit -> Hash,
                     recover: (Signature, Hash) -> Option<Address>)

  datatype Error =
    | ValueTooLarge
    | SpenderNotAllowed
    | SpendsMoreThanAllowed
    | DispatchFailed
    | PermitExpired
    | InvalidPermit
    | NonceOverflow

  function ToAmount(value: nat): Option<Balance> {
    if value <= MAX_BALANCE then Some(value) else None
  }

  /** An approved value saturates instead of failing. */
  function Saturated(value: nat): Balance {
    Min(value, MAX_BALANCE)
  }

  function Allowance(s: State, owner: AccountId, spender: AccountId): Balance {
    if (owner, spender) in s.approvals then s.approvals[(owner, spender)] else 0
  }

  function Nonce(s: State, owner: Address): nat {
    if owner in s.nonces then s.nonces[owner] else 0
  }

  function Approve(env: Env, s: State, caller: Address, spender: Address, value: nat): State {
    s.(approvals := s.approvals[(env.account(caller), env.account(spender)) := Saturated(value)])
  }

  /** The dispatched transfer, which may empty the sender. */
  function Dispatch(s: State, from: AccountId, to: AccountId, amount: Balance, accepted: bool): Result<State, Error> {
    match Transfer(s.balances, 0, from, to, amount, accepted)
    case Some(balances) => Ok(s.(balances := balances))
    case None => Err(DispatchFailed)
  }

  function TransferTo(env: Env, s: State, caller: Address, to: Address, value: nat, accepted: bool)
    : Result<State, Error>
  {
    if ToAmount(value).None? then Err(ValueTooLarge)
    else Dispatch(s, env.account(caller), env.account(to), value, accepted)
  }

  function TransferFrom(env: Env, s: State, caller: Address, from: Address, to: Address, value: nat, accepted: bool)
    : Result<State, Error>
  {
    var spender, owner := env.account(caller), env.account(from);
    if ToAmount(value).None? then Err(ValueTooLarge)
    else if spender == owner then Dispatch(s, owner, env.account(to), value, accepted)
    else if (owner, spender) !in s.approvals then Err(SpenderNotAllowed)
    else if s.approvals[(owner, spender)] < value then Err(SpendsMoreThanAllowed)
    else
      Dispatch(s.(approvals := s.approvals[(owner, spender) := s.approvals[(owner, spender)] - value]),
               owner, env.account(to), value, accepted)
  }

  /** Whether the signature is the owner's own, on the permit with this nonce. */
  predicate Signed(env: Env, p: Permit, signature: Signature) {
    p.owner != 0 && env.recover(signature, env.digest(p)) == Some(p.owner)
  }

  /** Time is kept in milliseconds, deadlines in seconds. */
  function UsePermit(env: Env, s: State, owner: Address, spender: Address, value: nat, deadline: nat,
                     signature: Signature, now: nat): Result<State, Error>
  {
    var nonce := Nonce(s, owner);
    if deadline < now / 1000 then Err(PermitExpired)
    else if !Signed(env, Permit(owner, spender, value, nonce, deadline), signature) then Err(InvalidPermit)
    else if nonce + 1 > U256_MAX then Err(NonceOverflow)
    else Ok(Approve(env, s, owner, spender, value).(nonces := s.nonces[owner := nonce + 1]))
  }

  // ---- Runs -----------------------------------------------------------------------------------

  datatype Op =
    | ApproveOp(caller: Address, spender: Address, value: nat)
    | TransferOp(caller: Address, to: Address, value: nat, accepted: bool)
    | TransferFromOp(caller: Address, from: Address, to: Address, value: nat, accepted: bool)
    | PermitOp(owner: Address, spender: Address, value: nat, deadline: nat, signature: Signature, now: nat)
    | Elsewhere(balances: Balances)

  function Call(env: Env, s: State, op: Op): Result<State, Error> {
    match op
    case ApproveOp(caller, spender, value) => Ok(Approve(env, s, caller, spender, value))
    case TransferOp(caller, to, value, accepted) => TransferTo(env, s, caller, to, value, accepted)
    case TransferFromOp(caller, from, to, value, accepted) => TransferFrom(env, s, caller, from, to, value, accepted)
    case PermitOp(owner, spender, value, deadline, signature, now) =>
      UsePermit(env, s, owner, spender, value, deadline, signature, now)
    case Elsewhere(balances) => Ok(s.(balances := balances))
  }

  /** An error reverts everything. */
  function Step(env: Env, s: State, op: Op): State {
    match Call(env, s, op)
    case Ok(s') => s'
    case Err(_) => s
  }

  function Run(env: Env, s: State, ops: seq<Op>): State {
    if ops == [] then s else Step(env, Run(env, s, ops[..|ops| - 1]), ops[|ops| - 1])
  }

  // ---- Allowances -----------------------------------------------------------------------------

  /** The value that an accepted operation grants from `owner` to `spender`. */
  function Grant(env: Env, s: State, op: Op, owner: AccountId, spender: AccountId): Option<nat> {
    if Call(env, s, op).Err? then None
    else
      match op
      case ApproveOp(c, p, value) => if env.account(c) == owner && env.account(p) == spender then Some(value) else None
      case PermitOp(o, p, value, _, _, _) =>
        if env.account(o) == owner && env.account(p) == spender then Some(value) else None
      case _ => None
  }

  /** What an accepted operation spends of the allowance. */
  function Spends(env: Env, s: State, op: Op, owner: AccountId, spender: AccountId): nat {
    if Call(env, s, op).Ok? && op.TransferFromOp? && env.account(op.from) == owner && env.account(op.caller) == spender
    then op.value else 0
  }

  /** The value of the last grant of a run; the initial allowance when there was none. */
  function Granted(env: Env, s: State, ops: seq<Op>, owner: AccountId, spender: AccountId): nat {
    if ops == [] then Allowance(s, owner, spender)
    else
      var init, op := ops[..|ops| - 1], ops[|ops| - 1];
      match Grant(env, Run(env, s, init), op, owner, spender)
      case Some(value) => value
      case None => Granted(env, s, init, owner, spender)
  }

  /** The total spent since the last grant. */
  function SpentSince(env: Env, s: State, ops: seq<Op>, owner: AccountId, spender: AccountId): nat {
    if ops == [] then 0
    else
      var init, op := ops[..|ops| - 1], ops[|ops| - 1];
      match Grant(env, Run(env, s, init), op, owner, spender)
      case Some(_) => 0
      case None => SpentSince(env, s, init, owner, spender) + Spends(env, Run(env, s, init), op, owner, spender)
  }

  lemma StepAllowance(env: Env, s: State, op: Op, owner: AccountId, spender: AccountId)
    requires owner != spender
    ensures var s' := Step(env, s, op);
            match Grant(env, s, op, owner, spender) {
              case Some(value) => Allowance(s', owner, spender) == Saturated(value)
              case None =>
                Allowance(s', owner, spender) == Allowance(s, owner, spender) - Spends(env, s, op, owner, spender)
            }
  {
  }

  /** Over any interleaving: the allowance that is left and what was spent since the last grant add up to
      the value then granted, or to the largest balance if that is less. */
  lemma {:induction false} AllowanceIsAccounted(env: Env, s: State, ops: seq<Op>, owner: AccountId, spender: AccountId)
    requires owner != spender
    ensures Allowance(Run(env, s, ops), owner, spender) + SpentSince(env, s, ops, owner, spender)
            == Min(Granted(env, s, ops, owner, spender), MAX_BALANCE)
  {
    if ops == [] {
    } else {
      AllowanceIsAccounted(env, s, ops[..|ops| - 1], owner, spender);
      StepAllowance(env, Run(env, s, ops[..|ops| - 1]), ops[|ops| - 1], owner, spender);
    }
  }

  /** All allowances are the same, but for one pair perhaps. */
  ghost predicate SameAllowances(s: State, s': State, except: set<(AccountId, AccountId)>) {
    forall pair :: pair !in except ==>
      && (pair in s'.approvals <==> pair in s.approvals)
      && (pair in s.approvals ==> s'.approvals[pair] == s.approvals[pair])
  }

  /** An approval sets the allowance of the caller's account for the spender's, at most to the largest balance,
      and nothing else. */
  lemma ApproveEffect(env: Env, s: State, caller: Address, spender: Address, value: nat)
    ensures var s', pair := Approve(env, s, caller, spender, value), (env.account(caller), env.account(spender));
            && pair in s'.approvals && s'.approvals[pair] == Min(value, MAX_BALANCE)
            && SameAllowances(s, s', {pair})
            && s'.balances == s.balances && s'.nonces == s.nonces
  {
  }

  /** Exactly when a transfer is made: the value goes from the caller's account to the receiver's, and no
      allowance and no nonce changes. */
  lemma TransferToIff(env: Env, s: State, caller: Address, to: Address, value: nat, accepted: bool)
    ensures var o := TransferTo(env, s, caller, to, value, accepted);
            var sender, receiver := env.account(caller), env.account(to);
            if value > MAX_BALANCE then o == Err(ValueTooLarge)
            else if !Payable(s.balances, 0, sender, receiver, value, accepted) then o == Err(DispatchFailed)
            else
              && o.Ok?
              && Moved(s.balances, o.value.balances, sender, receiver, value)
              && Issuance(o.value.balances) == Issuance(s.balances)
              && o.value.approvals == s.approvals && o.value.nonces == s.nonces
  {
    TransferIff(s.balances, 0, env.account(caller), env.account(to), value, accepted);
  }

  /** A transfer on behalf of another needs a granted allowance that covers it, even for nothing, and uses it up;
      one on one's own behalf does not touch allowances.  Both move exactly the value. */
  lemma TransferFromIff(env: Env, s: State, caller: Address, from: Address, to: Address, value: nat, accepted: bool)
    ensures var owner, spender, receiver := env.account(from), env.account(caller), env.account(to);
            var o := TransferFrom(env, s, caller, from, to, value, accepted);
            if value > MAX_BALANCE then o == Err(ValueTooLarge)
            else if owner != spender && (owner, spender) !in s.approvals then o == Err(SpenderNotAllowed)
            else if owner != spender && s.approvals[(owner, spender)] < value then o == Err(SpendsMoreThanAllowed)
            else if !Payable(s.balances, 0, owner, receiver, value, accepted) then o == Err(DispatchFailed)
            else
              && o.Ok?
              && Moved(s.balances, o.value.balances, owner, receiver, value)
              && Issuance(o.value.balances) == Issuance(s.balances)
              && o.value.nonces == s.nonces
              && (owner == spender ==> o.value.approvals == s.approvals)
              && (owner != spender ==>
                    && Allowance(o.value, owner, spender) == Allowance(s, owner, spender) - value
                    && SameAllowances(s, o.value, {(owner, spender)}))
  {
    TransferIff(s.balances, 0, env.account(from), env.account(to), value, accepted);
  }

  /** What an accepted operation takes from an account. */
  function Sends(env: Env, s: State, op: Op, a: AccountId): nat {
    if Call(env, s, op).Err? then 0
    else
      match op
      case TransferOp(caller, _, value, _) => if env.account(caller) == a then value else 0
      case TransferFromOp(_, from, _, value, _) => if env.account(from) == a then value else 0
      case _ => 0
  }

  /** What an accepted operation gives to an account. */
  function Gets(env: Env, s: State, op: Op, a: AccountId): nat {
    if Call(env, s, op).Err? then 0
    else
      match op
      case TransferOp(_, to, value, _) => if env.account(to) == a then value else 0
      case TransferFromOp(_, _, to, value, _) => if env.account(to) == a then value else 0
      case _ => 0
  }

  function Sent(env: Env, s: State, ops: seq<Op>, a: AccountId): nat {
    if ops == [] then 0
    else
      var init := ops[..|ops| - 1];
      Sent(env, s, init, a) + Sends(env, Run(env, s, init), ops[|ops| - 1], a)
  }

  function Got(env: Env, s: State, ops: seq<Op>, a: AccountId): nat {
    if ops == [] then 0
    else
      var init := ops[..|ops| - 1];
      Got(env, s, init, a) + Gets(env, Run(env, s, init), ops[|ops| - 1], a)
  }

  lemma StepBalance(env: Env, s: State, op: Op, a: AccountId)
    requires !op.Elsewhere?
    ensures var s' := Step(env, s, op);
            && BalanceOf(s'.balances, a) == BalanceOf(s.balances, a) - Sends(env, s, op, a) + Gets(env, s, op, a)
            && Issuance(s'.balances) == Issuance(s.balances)
  {
    match op
    case TransferOp(caller, to, value, accepted) => TransferToIff(env, s, caller, to, value, accepted);
    case TransferFromOp(caller, from, to, value, accepted) =>
      TransferFromIff(env, s, caller, from, to, value, accepted);
    case ApproveOp(_, _, _) =>
    case PermitOp(_, _, _, _, _, _) =>
  }

  /** Over any interleaving of the precompile's operations: an account holds what it had, less the transfers made
      from it and plus those made to it, and nothing is minted or burnt. */
  lemma {:induction false} BalancesAreAccounted(env: Env, s: State, ops: seq<Op>, a: AccountId)
    requires forall i :: 0 <= i < |ops| ==> !ops[i].Elsewhere?
    ensures BalanceOf(Run(env, s, ops).balances, a)
            == BalanceOf(s.balances, a) - Sent(env, s, ops, a) + Got(env, s, ops, a)
    ensures Issuance(Run(env, s, ops).balances) == Issuance(s.balances)
  {
    if ops == [] {
    } else {
      var init := ops[..|ops| - 1];
      BalancesAreAccounted(env, s, init, a);
      StepBalance(env, Run(env, s, init), ops[|ops| - 1], a);
    }
  }

  // ---- Permits --------------------------------------------------------------------------------

  /** The permits of an owner that a run accepts, each as it was signed, and when, in milliseconds. */
  function Redeemed(env: Env, s: State, ops: seq<Op>, owner: Address): seq<(Permit, Signature, nat)> {
    if ops == [] then []
    else
      var init, op := ops[..|ops| - 1], ops[|ops| - 1];
      var s1 := Run(env, s, init);
      Redeemed(env, s, init, owner)
      + if op.PermitOp? && op.owner == owner && Call(env, s1, op).Ok?
        then [(Permit(owner, op.spender, op.value, Nonce(s1, owner), op.deadline), op.signature, op.now)] else []
  }

  /** A permit is accepted exactly until its deadline, in seconds, and with the owner's signature over the next
      nonce; it then sets that allowance, uses the nonce, and changes nothing else. */
  lemma PermitIff(env: Env, s: State, owner: Address, spender: Address, value: nat, deadline: nat,
                  signature: Signature, now: nat)
    ensures var o := UsePermit(env, s, owner, spender, value, deadline, signature, now);
            var nonce := if owner in s.nonces then s.nonces[owner] else 0;
            var pair := (env.account(owner), env.account(spender));
            if 1000 * (deadline + 1) <= now then o == Err(PermitExpired)
            else if owner == 0 || env.recover(signature, env.digest(Permit(owner, spender, value, nonce, deadline)))
                                  != Some(owner)
            then o == Err(InvalidPermit)
            else if nonce >= U256_MAX then o == Err(NonceOverflow)
            else
              && o.Ok?
              && pair in o.value.approvals && o.value.approvals[pair] == Min(value, MAX_BALANCE)
              && SameAllowances(s, o.value, {pair})
              && o.value.nonces == s.nonces[owner := nonce + 1]
              && o.value.balances == s.balances
  {
    ApproveEffect(env, s, owner, spender, value);
  }

  lemma StepNonce(env: Env, s: State, op: Op, owner: Address)
    ensures var used := op.PermitOp? && op.owner == owner && Call(env, s, op).Ok?;
            && Nonce(Step(env, s, op), owner) == Nonce(s, owner) + (if used then 1 else 0)
            && (used ==> op.now < 1000 * (op.deadline + 1))
            && (used ==> Signed(env, Permit(owner, op.spender, op.value, Nonce(s, owner), op.deadline), op.signature))
  {
    if op.PermitOp? {
      PermitIff(env, s, op.owner, op.spender, op.value, op.deadline, op.signature, op.now);
    }
  }

  /** Accepted permits of an owner carry consecutive nonces, each its owner's signature, and came before the
      second of their deadline was over. */
  lemma {:induction false} PermitsUseConsecutiveNonces(env: Env, s: State, ops: seq<Op>, owner: Address)
    ensures var redeemed := Redeemed(env, s, ops, owner);
            && Nonce(Run(env, s, ops), owner) == Nonce(s, owner) + |redeemed|
            && (forall i :: 0 <= i < |redeemed| ==>
                  && redeemed[i].0.owner == owner && redeemed[i].0.nonce == Nonce(s, owner) + i
                  && Signed(env, redeemed[i].0, redeemed[i].1)
                  && redeemed[i].2 < 1000 * (redeemed[i].0.deadline + 1))
  {
    if ops == [] {
    } else {
      PermitsUseConsecutiveNonces(env, s, ops[..|ops| - 1], owner);
      StepNonce(env, Run(env, s, ops[..|ops| - 1]), ops[|ops| - 1], owner);
    }
  }

  lemma {:induction false} NonceNeverDecreases(env: Env, s: State, ops: seq<Op>, i: nat, owner: Address)
    requires i <= |ops|
    ensures Nonce(Run(env, s, ops[..i]), owner) <= Nonce(Run(env, s, ops), owner)
    decreases |ops|
  {
    if i == |ops| {
      assert ops[..i] == ops;
    } else {
      NonceNeverDecreases(env, s, ops[..|ops| - 1], i, owner);
      StepNonce(env, Run(env, s, ops[..|ops| - 1]), ops[|ops| - 1], owner);
      assert ops[..|ops| - 1][..i] == ops[..i];
    }
  }

  /** A permit whose signature fits one nonce only is accepted at most once, however much later it is
      submitted again. */
  lemma PermitCannotBeReplayed(env: Env, s: State, ops: seq<Op>, i: nat, j: nat)
    requires i < j < |ops| && ops[i].PermitOp? && ops[j].PermitOp?
    requires ops[j] == ops[i].(now := ops[j].now)
    requires var p := ops[i];
             forall m: nat, n: nat ::
               && Signed(env, Permit(p.owner, p.spender, p.value, m, p.deadline), p.signature)
               && Signed(env, Permit(p.owner, p.spender, p.value, n, p.deadline), p.signature)
               ==> m == n
    requires Call(env, Run(env, s, ops[..i]), ops[i]).Ok?
    ensures Call(env, Run(env, s, ops[..j]), ops[j]).Err?
  {
    var owner := ops[i].owner;
    assert ops[..i + 1][..i] == ops[..i];
    StepNonce(env, Run(env, s, ops[..i]), ops[i], owner);
    NonceNeverDecreases(env, s, ops[..j], i + 1, owner);
    assert ops[..j][..i + 1] == ops[..i + 1];
  }

  // ---- The precompile -------------------------------------------------------------------------

  class Precompile {
    const env: Env
    var approvals: map<(AccountId, AccountId), Balance>
    var balances: Balances
    var nonces: map<Address, nat>

    constructor (env: Env, balances: Balances)
      ensures this.env == env && Contents() == State(map[], balances, map[])
    {
      this.env := env;
      approvals, this.balances, nonces := map[], balances, map[];
    }

    ghost function Contents(): State
      reads this
    {
      State(approvals, balances, nonces)
    }

    method SetAllowance(caller: Address, spender: Address, value: nat)
      modifies this`approvals
      ensures Contents() == Approve(env, old(Contents()), caller, spender, value)
    {
      var amount := ToAmount(value);
      var stored := if amount.Some? then amount.value else MAX_BALANCE;
      approvals := approvals[(env.account(caller), env.account(spender)) := stored];
    }

    method TransferBalance(caller: Address, to: Address, value: nat, accepted: bool) returns (error: Option<Error>)
      modifies this
      ensures Follows(TransferTo(env, old(Contents()), caller, to, value, accepted), old(Contents()), Contents(), error)
    {
      if ToAmount(value).None? {
        return Some(ValueTooLarge);
      }
      var moved := Transfer(balances, 0, env.account(caller), env.account(to), value, accepted);
      if moved.None? {
        return Some(DispatchFailed);
      }
      balances := moved.value;
      error := None;
    }

    /** The allowance is written before the transfer is tried; its failure takes that back. */
    method TransferBalanceFrom(caller: Address, from: Address, to: Address, value: nat, accepted: bool)
      returns (error: Option<Error>)
      modifies this
      ensures Follows(TransferFrom(env, old(Contents()), caller, from, to, value, accepted), old(Contents()),
                      Contents(), error)
    {
      var before := approvals;
      var spender, owner := env.account(caller), env.account(from);
      if ToAmount(value).None? {
        return Some(ValueTooLarge);
      }
      if spender != owner {
        if (owner, spender) !in approvals {
          return Some(SpenderNotAllowed);
        }
        var allowed := approvals[(owner, spender)];
        if allowed < value {
          return Some(SpendsMoreThanAllowed);
        }
        approvals := approvals[(owner, spender) := allowed - value];
      }
      var moved := Transfer(balances, 0, owner, env.account(to), value, accepted);
      if moved.None? {
        approvals := before;
        return Some(DispatchFailed);
      }
      balances := moved.value;
      error := None;
    }

    method RedeemPermit(owner: Address, spender: Address, value: nat, deadline: nat, signature: Signature, now: nat)
      returns (error: Option<Error>)
      modifies this
      ensures Follows(UsePermit(env, old(Contents()), owner, spender, value, deadline, signature, now),
                      old(Contents()), Contents(), error)
    {
      if deadline < now / 1000 {
        return Some(PermitExpired);
      }
      var nonce := if owner in nonces then nonces[owner] else 0;
      var permit := Permit(owner, spender, value, nonce, deadline);
      var signer := env.recover(signature, env.digest(permit));
      if signer.None? || signer.value == 0 || signer.value != owner {
        return Some(InvalidPermit);
      }
      if nonce + 1 > U256_MAX {
        return Some(NonceOverflow);
      }
      nonces := nonces[owner := nonce + 1];
      SetAllowance(owner, spender, value);
      error := None;
    }
  }
}
