/** Escrow: the pallet account holds the deposits and fees of the live requests, payment by payment. */
module RandomnessEscrow {
  import opened Common
  import opened MapSums
  import opened Ledger
  import opened RandomnessTypes
  import opened Randomness

  ghost function Escrows(requests: map<RequestId, RequestState>): map<RequestId, int> {
    map id | id in requests :: Escrow(requests[id])
  }

  /** The deposits and fees of all live requests. */
  ghost function Held(s: State): int {
    Sum(Escrows(s.requests))
  }

  /** What the pallet account owns beyond what it holds for live requests. */
  ghost function Surplus(chain: Chain, s: State): int {
    BalanceOf(s.ledger, chain.palletAccount) - Held(s)
  }

  function Total(payouts: seq<Payout>): nat {
    if payouts == [] then 0 else Total(payouts[..|payouts| - 1]) + payouts[|payouts| - 1].amount
  }

  /** The part of the payouts that stayed: it failed, or was addressed to the pallet account. */
  function Retained(chain: Chain, payouts: seq<Payout>): nat {
    if payouts == [] then 0
    else
      var p := payouts[|payouts| - 1];
      Retained(chain, payouts[..|payouts| - 1]) + if p.paid && p.to != chain.palletAccount then 0 else p.amount
  }

  /** What the payouts brought to an account. */
  function Received(payouts: seq<Payout>, a: AccountId): nat {
    if payouts == [] then 0
    else
      var p := payouts[|payouts| - 1];
      Received(payouts[..|payouts| - 1], a) + if p.paid && p.to == a then p.amount else 0
  }

  // ---- Payouts --------------------------------------------------------------------------------

  /** All accounts and the record of payouts agree. */
  ghost predicate Balanced(chain: Chain, before: Balances, b: Settlement) {
    && (forall a :: a != chain.palletAccount ==>
          BalanceOf(b.ledger, a) == BalanceOf(before, a) + Received(b.payouts, a))
    && BalanceOf(b.ledger, chain.palletAccount)
       == BalanceOf(before, chain.palletAccount) - Total(b.payouts) + Retained(chain, b.payouts)
    && Issuance(b.ledger) == Issuance(before)
  }

  lemma PayKeepsBalanced(chain: Chain, before: Balances, b: Settlement, to: AccountId, amount: nat, accepted: bool)
    requires Balanced(chain, before, b)
    ensures var b' := Pay(chain, b, to, amount, accepted);
            Balanced(chain, before, b') && Total(b'.payouts) == Total(b.payouts) + amount
  {
    var b' := Pay(chain, b, to, amount, accepted);
    assert b'.payouts[..|b'.payouts| - 1] == b.payouts;
    if b'.payouts[|b.payouts|].paid {
      TransferConserves(b.ledger, chain.existentialDeposit, chain.palletAccount, to, amount, accepted);
    }
  }

  /** Payouts of `total` altogether, all accounted for. */
  ghost predicate Settles(chain: Chain, before: Balances, b: Settlement, total: nat) {
    Balanced(chain, before, b) && Total(b.payouts) == total
  }

  lemma OnePaymentSettles(chain: Chain, l: Balances, to: AccountId, amount: nat, accepted: bool)
    ensures Settles(chain, l, Pay(chain, Settlement(l, []), to, amount, accepted), amount)
  {
    PayKeepsBalanced(chain, l, Settlement(l, []), to, amount, accepted);
  }

  lemma TwoPaymentsSettle(chain: Chain, l: Balances, to: AccountId, amount: nat, accepted: bool,
                          to': AccountId, amount': nat, accepted': bool)
    ensures Settles(chain, l, Pay(chain, Pay(chain, Settlement(l, []), to, amount, accepted), to', amount', accepted'),
                    amount + amount')
  {
    OnePaymentSettles(chain, l, to, amount, accepted);
    PayKeepsBalanced(chain, l, Pay(chain, Settlement(l, []), to, amount, accepted), to', amount', accepted');
  }

  /** A fulfilment tries to pay out exactly the escrow, or the cost when that is more; the account
      loses exactly what was really paid to somebody else. */
  lemma FinishFulfillSettles(chain: Chain, l: Balances, r: Request<RequestInfo>, deposit: Balance, caller: Address,
                             cost: Balance, accepted: bool, accepted': bool)
    requires deposit + r.fee <= MAX_BALANCE
    ensures Settles(chain, l, FinishFulfill(chain, l, r, deposit, caller, cost, accepted, accepted'),
                    Max(deposit + r.fee, cost))
  {
    var b := FinishFulfill(chain, l, r, deposit, caller, cost, accepted, accepted');
    var start, refundable := Settlement(l, []), deposit + r.fee;
    var refundTo, callerTo := chain.account(r.refundAddress), chain.account(caller);
    if cost > refundable {
      assert b == Pay(chain, start, callerTo, cost, accepted');
      OnePaymentSettles(chain, l, callerTo, cost, accepted');
    } else if r.refundAddress == caller {
      assert b == Pay(chain, start, refundTo, refundable, accepted);
      OnePaymentSettles(chain, l, refundTo, refundable, accepted);
    } else {
      assert b == Pay(chain, Pay(chain, start, refundTo, refundable - cost, accepted), callerTo, cost, accepted');
      TwoPaymentsSettle(chain, l, refundTo, refundable - cost, accepted, callerTo, cost, accepted');
    }
  }

  /** Who is paid, and whether: the refund address gets the excess and the caller the cost, or one address gets
      both; when the cost exceeds the escrow, the caller alone is to get all of it.  A payment is made exactly
      when the currency makes it possible at that point. */
  lemma FulfillmentPays(chain: Chain, l: Balances, r: Request<RequestInfo>, deposit: Balance, caller: Address,
                        cost: Balance, accepted: bool, accepted': bool)
    ensures var payouts := FinishFulfill(chain, l, r, deposit, caller, cost, accepted, accepted').payouts;
            var escrow, ed := Min(deposit + r.fee, MAX_BALANCE), chain.existentialDeposit;
            var pallet := chain.palletAccount;
            var refundTo, callerTo := chain.account(r.refundAddress), chain.account(caller);
            if cost > escrow then
              payouts == [Payout(callerTo, cost, Payable(l, ed, pallet, callerTo, cost, accepted'))]
            else if caller == r.refundAddress then
              payouts == [Payout(callerTo, escrow, Payable(l, ed, pallet, callerTo, escrow, accepted))]
            else
              var first := Transfer(l, ed, pallet, refundTo, escrow - cost, accepted);
              var l1 := if first.Some? then first.value else l;
              payouts == [Payout(refundTo, escrow - cost, Payable(l, ed, pallet, refundTo, escrow - cost, accepted)),
                          Payout(callerTo, cost, Payable(l1, ed, pallet, callerTo, cost, accepted'))]
  {
  }

  // ---- Changes of the sum ---------------------------------------------------------------------

  lemma HeldAfterInsert(s: State, id: RequestId, r: RequestState)
    requires id !in s.requests
    ensures Held(s.(requests := s.requests[id := r])) == Held(s) + Escrow(r)
  {
    SumInsert(Escrows(s.requests), id, Escrow(r));
    assert Escrows(s.requests[id := r]) == Escrows(s.requests)[id := Escrow(r)];
  }

  lemma HeldAfterUpdate(s: State, id: RequestId, r: RequestState)
    requires id in s.requests
    ensures Held(s.(requests := s.requests[id := r])) == Held(s) - Escrow(s.requests[id]) + Escrow(r)
  {
    SumUpdate(Escrows(s.requests), id, Escrow(r));
    assert Escrows(s.requests[id := r]) == Escrows(s.requests)[id := Escrow(r)];
  }

  lemma HeldAfterRemove(s: State, id: RequestId)
    requires id in s.requests
    ensures Held(s.(requests := s.requests - {id})) == Held(s) - Escrow(s.requests[id])
  {
    SumRemove(Escrows(s.requests), id);
    assert Escrows(s.requests - {id}) == Escrows(s.requests) - {id};
  }

  /** In a solvent account no single escrow exceeds the balance type. */
  lemma SolventEscrowFits(chain: Chain, s: State, id: RequestId)
    requires Surplus(chain, s) >= 0
    requires id in s.requests
    ensures Escrow(s.requests[id]) <= BalanceOf(s.ledger, chain.palletAccount) <= MAX_BALANCE
  {
    SumAtLeast(Escrows(s.requests), id);
  }

  // ---- Calls ----------------------------------------------------------------------------------

  /** Exactly which requests are accepted, what is stored for them, and what they pay. */
  lemma RequestAcceptedIff(chain: Chain, cfg: Config, s: State, r: Request<RequestType>, accepted: bool)
    ensures var o := RequestRandomness(chain, cfg, s, r, accepted);
            var from, pallet := chain.account(r.contractAddress), chain.palletAccount;
            var total := Min(cfg.deposit + r.fee, MAX_BALANCE);
            && (o.Ok? <==>
                  && 1 <= r.numWords <= cfg.maxRandomWords
                  && (r.info.Local? ==>
                        && s.blockNumber + cfg.minBlockDelay <= r.info.block <= s.blockNumber + cfg.maxBlockDelay
                        && s.blockNumber + cfg.minBlockDelay <= BLOCK_MAX
                        && s.blockNumber + cfg.maxBlockDelay <= BLOCK_MAX)
                  && s.requestCount < U64_MAX
                  && (|| total == 0
                      || from == pallet
                      || (accepted && total + chain.existentialDeposit <= BalanceOf(s.ledger, from)
                          && BalanceOf(s.ledger, pallet) + total <= MAX_BALANCE)))
            && (o.Ok? ==>
                  var stored := o.value.requests[s.requestCount];
                  && stored.deposit == cfg.deposit && Escrow(stored) == cfg.deposit + r.fee && Key(stored) == r.info
                  && stored.request.contractAddress == r.contractAddress
                  && stored.request.refundAddress == r.refundAddress
                  && stored.request.salt == r.salt && stored.request.numWords == r.numWords
                  && (from != pallet ==> BalanceOf(o.value.ledger, from) == BalanceOf(s.ledger, from) - total))
  {
  }

  /** A request is backed by its payment exactly when it pays for itself: it is not made from the
      pallet account and its escrow fits the balance type (or there is nothing to pay). */
  lemma RequestKeepsSurplusIff(chain: Chain, cfg: Config, s: State, r: Request<RequestType>, accepted: bool)
    requires s.requestCount !in s.requests
    requires RequestRandomness(chain, cfg, s, r, accepted).Ok?
    ensures var s' := RequestRandomness(chain, cfg, s, r, accepted).value;
            && Surplus(chain, s') <= Surplus(chain, s)
            && Issuance(s'.ledger) == Issuance(s.ledger)
            && (Surplus(chain, s') == Surplus(chain, s)
                <==> cfg.deposit + r.fee == 0
                     || (chain.account(r.contractAddress) != chain.palletAccount && cfg.deposit + r.fee <= MAX_BALANCE))
  {
    var s' := RequestRandomness(chain, cfg, s, r, accepted).value;
    TransferConserves(s.ledger, chain.existentialDeposit, chain.account(r.contractAddress), chain.palletAccount,
                      SaturatingAdd(cfg.deposit, r.fee, MAX_BALANCE), accepted);
    HeldAfterInsert(s, s.requestCount, s'.requests[s.requestCount]);
  }

  /** With an existential deposit, a sender that must stay alive cannot send the largest balance, so
      the saturating sum of deposit and fee never saturates in an accepted request. */
  lemma AcceptedRequestDoesNotSaturate(chain: Chain, cfg: Config, s: State, r: Request<RequestType>, accepted: bool)
    requires chain.existentialDeposit >= 1
    requires chain.account(r.contractAddress) != chain.palletAccount
    requires RequestRandomness(chain, cfg, s, r, accepted).Ok?
    ensures cfg.deposit + r.fee < MAX_BALANCE
  {
  }

  /** Without one it can: the account then holds less than the request is credited with. */
  lemma SaturatedRequestIsUnderfunded(s: State)
    requires s.requests == map[] && s.requestCount == 0
    requires s.ledger == map[7 := MAX_BALANCE]
    ensures var chain := Chain(a => a, 0, 0);
            var cfg := Config(1, 1, 1, 1, 1, 1);
            var o := RequestRandomness(chain, cfg, s, Request(7, 7, MAX_BALANCE, 0, 1, [], BabeEpoch(0)), true);
            o.Ok? && Surplus(chain, s) == 0 && Surplus(chain, o.value) == -1
  {
    var chain := Chain(a => a, 0, 0);
    var cfg := Config(1, 1, 1, 1, 1, 1);
    var o := RequestRandomness(chain, cfg, s, Request(7, 7, MAX_BALANCE, 0, 1, [], BabeEpoch(0)), true);
    assert Escrows(s.requests) == map[];
    HeldAfterInsert(s, 0, o.value.requests[0]);
  }

  lemma IncreaseFeeKeepsSurplus(chain: Chain, s: State, caller: Address, id: RequestId, increase: Balance,
                                accepted: bool)
    requires IncreaseRequestFee(chain, s, caller, id, increase, accepted).Ok?
    ensures var s' := IncreaseRequestFee(chain, s, caller, id, increase, accepted).value;
            && Issuance(s'.ledger) == Issuance(s.ledger)
            && Surplus(chain, s')
               == Surplus(chain, s) - if chain.account(caller) == chain.palletAccount then increase else 0
  {
    var s' := IncreaseRequestFee(chain, s, caller, id, increase, accepted).value;
    TransferConserves(s.ledger, chain.existentialDeposit, chain.account(caller), chain.palletAccount, increase,
                      accepted);
    HeldAfterUpdate(s, id, s'.requests[id]);
  }

  /** Whatever id and request the caller hands in: the account gains the escrow that stops being owed and
      what the payouts failed to move, and pays what it was told to.  A stale or foreign request is paid
      for by the others. */
  lemma FinishSurplus(chain: Chain, s: State, id: RequestId, r: Request<RequestInfo>, deposit: Balance, caller: Address,
                      cost: Balance, accepted: bool, accepted': bool)
    requires deposit + r.fee <= MAX_BALANCE
    ensures var s' := FinishFulfillment(chain, s, id, r, deposit, caller, cost, accepted, accepted');
            var payouts := FinishFulfill(chain, s.ledger, r, deposit, caller, cost, accepted, accepted').payouts;
            && Surplus(chain, s') == Surplus(chain, s) + (if id in s.requests then Escrow(s.requests[id]) else 0)
                                     + Retained(chain, payouts) - Max(deposit + r.fee, cost)
            && Issuance(s'.ledger) == Issuance(s.ledger)
  {
    FinishFulfillSettles(chain, s.ledger, r, deposit, caller, cost, accepted, accepted');
    if id in s.requests {
      HeldAfterRemove(s, id);
    } else {
      assert s.requests - {id} == s.requests;
    }
  }

  /** A fulfilment with what is stored leaves in the account what its payouts failed to move, and digs into
      the surplus by exactly the part of the cost that the escrow does not cover. */
  lemma FulfillmentSurplus(chain: Chain, s: State, id: RequestId, caller: Address, cost: Balance, accepted: bool,
                           accepted': bool)
    requires Surplus(chain, s) >= 0
    requires id in s.requests
    ensures var r := s.requests[id];
            var s' := FinishFulfillment(chain, s, id, r.request, r.deposit, caller, cost, accepted, accepted');
            var payouts := FinishFulfill(chain, s.ledger, r.request, r.deposit, caller, cost, accepted,
                                         accepted').payouts;
            && Surplus(chain, s') == Surplus(chain, s) + Retained(chain, payouts) - Max(0, cost - Escrow(r))
            && Issuance(s'.ledger) == Issuance(s.ledger)
  {
    SolventEscrowFits(chain, s, id);
    FinishSurplus(chain, s, id, s.requests[id].request, s.requests[id].deposit, caller, cost, accepted, accepted');
  }

  /** The payouts of an expiry that the pallet account makes to itself. */
  function PaidToSelf(chain: Chain, r: RequestState, caller: Address): nat {
    (if chain.account(r.request.contractAddress) == chain.palletAccount then r.deposit else 0)
    + if chain.account(caller) == chain.palletAccount then r.request.fee else 0
  }

  lemma ExpirationSurplus(chain: Chain, s: State, caller: Address, id: RequestId, accepted: bool, accepted': bool)
    requires Surplus(chain, s) >= 0
    requires ExecuteRequestExpiration(chain, s, caller, id, accepted, accepted').Ok?
    ensures var s' := ExecuteRequestExpiration(chain, s, caller, id, accepted, accepted').value;
            && Surplus(chain, s') == Surplus(chain, s) + PaidToSelf(chain, s.requests[id], caller)
            && Issuance(s'.ledger) == Issuance(s.ledger)
  {
    var r := s.requests[id];
    var contract, to := chain.account(r.request.contractAddress), chain.account(caller);
    SolventEscrowFits(chain, s, id);
    HeldAfterRemove(s, id);
    var ed, pallet := chain.existentialDeposit, chain.palletAccount;
    if to == contract {
      TransferConserves(s.ledger, ed, pallet, contract, Escrow(r), accepted);
    } else {
      TransferConserves(s.ledger, ed, pallet, contract, r.deposit, accepted);
      TransferConserves(Transfer(s.ledger, ed, pallet, contract, r.deposit, accepted).value, ed, pallet, to,
                        r.request.fee, accepted');
    }
  }

  /** Who is paid by an expiry: the contract gets its deposit back, the caller the fee. */
  lemma ExpirationPays(chain: Chain, s: State, caller: Address, id: RequestId, accepted: bool, accepted': bool)
    requires Surplus(chain, s) >= 0
    requires ExecuteRequestExpiration(chain, s, caller, id, accepted, accepted').Ok?
    ensures var s' := ExecuteRequestExpiration(chain, s, caller, id, accepted, accepted').value;
            var r := s.requests[id];
            var contract := chain.account(r.request.contractAddress);
            forall a :: a != chain.palletAccount ==>
              BalanceOf(s'.ledger, a) == BalanceOf(s.ledger, a)
                                         + (if a == contract then r.deposit else 0)
                                         + if a == chain.account(caller) then r.request.fee else 0
  {
    var r := s.requests[id];
    var contract, to := chain.account(r.request.contractAddress), chain.account(caller);
    SolventEscrowFits(chain, s, id);
    var ed, pallet := chain.existentialDeposit, chain.palletAccount;
    if to == contract {
      TransferConserves(s.ledger, ed, pallet, contract, Escrow(r), accepted);
    } else {
      TransferConserves(s.ledger, ed, pallet, contract, r.deposit, accepted);
      TransferConserves(Transfer(s.ledger, ed, pallet, contract, r.deposit, accepted).value, ed, pallet, to,
                        r.request.fee, accepted');
    }
  }

  /** When the currency has no objection of its own and nobody's balance would overflow, an expired
      request of outsiders is paid back exactly when the account keeps its existential deposit. */
  lemma ExpirationSucceedsIff(chain: Chain, s: State, caller: Address, id: RequestId)
    requires Surplus(chain, s) >= 0
    requires id in s.requests
    requires IsExpired(s.requests[id].request.info, s.blockNumber, s.relayEpoch)
    requires chain.account(caller) != chain.palletAccount
    requires chain.account(s.requests[id].request.contractAddress) != chain.palletAccount
    requires BalanceOf(s.ledger, chain.account(caller)) + Escrow(s.requests[id]) <= MAX_BALANCE
    requires BalanceOf(s.ledger, chain.account(s.requests[id].request.contractAddress)) + Escrow(s.requests[id])
             <= MAX_BALANCE
    ensures ExecuteRequestExpiration(chain, s, caller, id, true, true).Ok?
            <==> Escrow(s.requests[id]) == 0
                 || BalanceOf(s.ledger, chain.palletAccount) - Escrow(s.requests[id]) >= chain.existentialDeposit
    ensures Surplus(chain, s) >= chain.existentialDeposit ==>
              ExecuteRequestExpiration(chain, s, caller, id, true, true).Ok?
  {
    SolventEscrowFits(chain, s, id);
    HeldAfterRemove(s, id);
    assert forall x :: x in Escrows(s.requests - {id}) ==> Escrows(s.requests - {id})[x] >= 0;
    SumNonNegative(Escrows(s.requests - {id}));
  }

  // ---- Whole runs -----------------------------------------------------------------------------

  /** Requesters are outsiders, a fulfilment costs no more than its escrow, and the rest of the runtime
      takes nothing from the pallet account. */
  ghost predicate FairTo(chain: Chain, s: State, e: Event) {
    match e
    case Do(MakeRequest(r, _)) => chain.account(r.contractAddress) != chain.palletAccount
    case Do(Fulfill(_, id, cost, _, _)) => id in s.requests ==> cost <= Escrow(s.requests[id])
    case Do(Elsewhere(l)) => BalanceOf(l, chain.palletAccount) >= BalanceOf(s.ledger, chain.palletAccount)
    case _ => true
  }

  /** What an operation leaves in the pallet account for no live request: payouts that failed or were
      addressed to the account itself, and gifts. */
  function Leaves(chain: Chain, s: State, op: Op): int {
    match op
    case Fulfill(caller, id, cost, accepted, accepted') =>
      if id in s.requests then
        var r := s.requests[id];
        Retained(chain, FinishFulfill(chain, s.ledger, r.request, r.deposit, caller, cost, accepted, accepted').payouts)
      else 0
    case Expire(caller, id, accepted, accepted') =>
      if ExecuteRequestExpiration(chain, s, caller, id, accepted, accepted').Ok?
      then PaidToSelf(chain, s.requests[id], caller) else 0
    case Elsewhere(l) => BalanceOf(l, chain.palletAccount) - BalanceOf(s.ledger, chain.palletAccount)
    case _ => 0
  }

  ghost predicate Outsiders(chain: Chain, s: State) {
    forall id :: id in s.requests ==> chain.account(s.requests[id].request.contractAddress) != chain.palletAccount
  }

  ghost predicate EscrowInvariant(chain: Chain, s: State) {
    && Surplus(chain, s) >= 0
    && Outsiders(chain, s)
    && (forall id :: id in s.requests ==> id < s.requestCount)
  }

  lemma ApplyKeepsOutsiders(chain: Chain, cfg: Config, s: State, op: Op)
    requires EscrowInvariant(chain, s)
    requires FairTo(chain, s, Do(op))
    ensures var s' := Apply(chain, cfg, s, op);
            Outsiders(chain, s') && forall id :: id in s'.requests ==> id < s'.requestCount
  {
  }

  lemma ApplySurplus(chain: Chain, cfg: Config, s: State, op: Op)
    requires chain.existentialDeposit >= 1
    requires EscrowInvariant(chain, s)
    requires FairTo(chain, s, Do(op))
    ensures var s' := Apply(chain, cfg, s, op);
            && Leaves(chain, s, op) >= 0
            && Surplus(chain, s') == Surplus(chain, s) + Leaves(chain, s, op)
            && (!op.Elsewhere? ==> Issuance(s'.ledger) == Issuance(s.ledger))
  {
    match op
    case MakeRequest(r, accepted) =>
      if RequestRandomness(chain, cfg, s, r, accepted).Ok? {
        AcceptedRequestDoesNotSaturate(chain, cfg, s, r, accepted);
        RequestKeepsSurplusIff(chain, cfg, s, r, accepted);
      }
    case Fulfill(caller, id, cost, accepted, accepted') =>
      if id in s.requests {
        FulfillmentSurplus(chain, s, id, caller, cost, accepted, accepted');
      }
    case IncreaseFee(caller, id, increase, accepted) =>
      if IncreaseRequestFee(chain, s, caller, id, increase, accepted).Ok? {
        IncreaseFeeKeepsSurplus(chain, s, caller, id, increase, accepted);
      }
    case Expire(caller, id, accepted, accepted') =>
      if ExecuteRequestExpiration(chain, s, caller, id, accepted, accepted').Ok? {
        ExpirationSurplus(chain, s, caller, id, accepted, accepted');
      }
    case Inherent(epoch, randomness) =>
    case Elsewhere(l) =>
  }

  /** Everything the run left in the pallet account for no live request. */
  function LeftBehind(chain: Chain, m: Machine, events: seq<Event>): int {
    if events == [] then 0
    else
      var init, e := events[..|events| - 1], events[|events| - 1];
      LeftBehind(chain, m, init)
      + match (Run(chain, m, init), e) {
          case (Some(m'), Do(op)) => Leaves(chain, m'.state, op)
          case _ => 0
        }
  }

  ghost predicate Fair(chain: Chain, m: Machine, events: seq<Event>) {
    forall i :: 0 <= i < |events| && Run(chain, m, events[..i]).Some? ==>
      FairTo(chain, Run(chain, m, events[..i]).value.state, events[i])
  }

  /** In every state of every fair run the pallet account has gained exactly the escrows of the live
      requests and what payouts and gifts left there.  It is solvent, and no escrow ever exceeds the
      balance type. */
  lemma {:induction false} EscrowIsConserved(chain: Chain, m: Machine, events: seq<Event>)
    requires chain.existentialDeposit >= 1
    requires Genesis(m)
    requires Run(chain, m, events).Some?
    requires Fair(chain, m, events)
    ensures var s := Run(chain, m, events).value.state;
            && BalanceOf(s.ledger, chain.palletAccount) - BalanceOf(m.state.ledger, chain.palletAccount)
               == Held(s) + LeftBehind(chain, m, events)
            && LeftBehind(chain, m, events) >= 0
            && Held(s) <= BalanceOf(s.ledger, chain.palletAccount)
            && (forall id :: id in s.requests ==> Escrow(s.requests[id]) <= MAX_BALANCE)
            && EscrowInvariant(chain, s)
  {
    if events == [] {
      assert Escrows(m.state.requests) == map[];
    } else {
      var init, e := events[..|events| - 1], events[|events| - 1];
      assert Fair(chain, m, init) by {
        forall i | 0 <= i < |init| && Run(chain, m, init[..i]).Some?
          ensures FairTo(chain, Run(chain, m, init[..i]).value.state, init[i])
        {
          assert init[..i] == events[..i];
        }
      }
      EscrowIsConserved(chain, m, init);
      var m' := Run(chain, m, init).value;
      if e.Do? {
        ApplySurplus(chain, m'.cfg, m'.state, e.op);
        ApplyKeepsOutsiders(chain, m'.cfg, m'.state, e.op);
      }
    }
    var s := Run(chain, m, events).value.state;
    forall id | id in s.requests
      ensures Escrow(s.requests[id]) <= MAX_BALANCE
    {
      SolventEscrowFits(chain, s, id);
    }
  }
}
