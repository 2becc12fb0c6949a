/** Account balances and the transfer of the balances pallet, seen from its callers. */
module Ledger {
  import opened Common
  import opened MapSums

  /** Largest value of the 128-bit balance type. */
  const MAX_BALANCE := U128_MAX

  type Balance = n: nat | n <= MAX_BALANCE

  type Balances = map<AccountId, Balance>

  function BalanceOf(l: Balances, a: AccountId): Balance {
    if a in l then l[a] else 0
  }

  /** Move `amount` between two different accounts. */
  function Move(l: Balances, from: AccountId, to: AccountId, amount: nat): Balances
    requires from != to
    requires amount <= BalanceOf(l, from)
    requires BalanceOf(l, to) + amount <= MAX_BALANCE
  {
    l[from := BalanceOf(l, from) - amount][to := BalanceOf(l, to) + amount]
  }

  /** A transfer that must leave at least `floor` in the sender.  A self-transfer and a zero transfer
      succeed and move nothing.  `accepted` stands for everything else the currency may object to
      (locks, holds, a receiver that would stay below the existential deposit). */
  function Transfer(l: Balances, floor: nat, from: AccountId, to: AccountId, amount: nat, accepted: bool)
    : Option<Balances>
  {
    if amount == 0 || from == to then Some(l)
    else if accepted && amount + floor <= BalanceOf(l, from) && BalanceOf(l, to) + amount <= MAX_BALANCE then
      Some(Move(l, from, to, amount))
    else None
  }

  ghost function Amounts(l: Balances): map<AccountId, int> {
    map a | a in l :: l[a]
  }

  /** The sum of all balances. */
  ghost function Issuance(l: Balances): int {
    Sum(Amounts(l))
  }

  lemma IssuanceSet(l: Balances, a: AccountId, v: Balance)
    ensures Issuance(l[a := v]) == Issuance(l) - BalanceOf(l, a) + v
  {
    assert Amounts(l[a := v]) == Amounts(l)[a := v];
    if a in l {
      SumUpdate(Amounts(l), a, v);
    } else {
      SumInsert(Amounts(l), a, v);
    }
  }

  /** A successful transfer neither mints nor burns, takes the amount from the sender, gives it to
      the receiver, and leaves every other account alone. */
  lemma TransferConserves(l: Balances, floor: nat, from: AccountId, to: AccountId, amount: nat, accepted: bool)
    requires Transfer(l, floor, from, to, amount, accepted).Some?
    ensures var l' := Transfer(l, floor, from, to, amount, accepted).value;
            && Issuance(l') == Issuance(l)
            && (from == to ==> l' == l)
            && (from != to ==> BalanceOf(l', from) == BalanceOf(l, from) - amount)
            && (from != to ==> BalanceOf(l', to) == BalanceOf(l, to) + amount)
            && (forall a :: a != from && a != to ==> BalanceOf(l', a) == BalanceOf(l, a))
  {
    if amount != 0 && from != to {
      IssuanceSet(l, from, BalanceOf(l, from) - amount);
      IssuanceSet(l[from := BalanceOf(l, from) - amount], to, BalanceOf(l, to) + amount);
    }
  }

  /** What the currency makes possible. */
  predicate Payable(l: Balances, floor: nat, from: AccountId, to: AccountId, amount: nat, accepted: bool) {
    || amount == 0
    || from == to
    || (&& accepted
        && amount + floor <= BalanceOf(l, from)
        && BalanceOf(l, to) + amount <= MAX_BALANCE)
  }

  /** The amount went from one account to the other, and nothing else happened. */
  ghost predicate Moved(l: Balances, l': Balances, from: AccountId, to: AccountId, amount: nat) {
    forall a :: BalanceOf(l', a) == BalanceOf(l, a) - (if a == from then amount else 0) + if a == to then amount else 0
  }

  /** Exactly when a transfer is made, and what it does. */
  lemma TransferIff(l: Balances, floor: nat, from: AccountId, to: AccountId, amount: nat, accepted: bool)
    ensures var o := Transfer(l, floor, from, to, amount, accepted);
            && (o.Some? <==> Payable(l, floor, from, to, amount, accepted))
            && (o.Some? ==> Moved(l, o.value, from, to, amount) && Issuance(o.value) == Issuance(l))
  {
    if Transfer(l, floor, from, to, amount, accepted).Some? {
      TransferConserves(l, floor, from, to, amount, accepted);
    }
  }
}
