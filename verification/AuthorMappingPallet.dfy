/** The author-mapping pallet as the object it is: two maps and reserved balances that calls overwrite. */
module AuthorMappingPallet {
  import opened Common
  import opened Ledger
  import Spec = AuthorMapping
  import opened AuthorMapping

  class Pallet {
    const keysFrom: NimbusId -> Keys

    var registrations: map<NimbusId, Registration>
    var lookup: map<AccountId, NimbusId>
    // Balances of the deposit currency.
    var free: Balances
    var reserved: Balances

    ghost function State(): Spec.State
      reads this
    {
      Spec.State(registrations, lookup, free, reserved)
    }

    /** Genesis: a registration that fails is logged and skipped. */
    constructor (keysFrom: NimbusId -> Keys, free: Balances, reserved: Balances, entries: seq<GenesisEntry>)
      ensures this.keysFrom == keysFrom
      ensures State() == Spec.Genesis(keysFrom, Spec.State(map[], map[], free, reserved), entries)
    {
      this.keysFrom := keysFrom;
      registrations, lookup := map[], map[];
      this.free, this.reserved := free, reserved;
      new;
      ghost var start := State();
      for i := 0 to |entries|
        invariant State() == Spec.Genesis(keysFrom, start, entries[..i])
      {
        assert entries[..i + 1][..i] == entries[..i];
        var _ := EnactRegistration(entries[i].deposit, entries[i].id, entries[i].account, keysFrom(entries[i].id),
                                   entries[i].accepted);
      }
      assert entries[..|entries|] == entries;
    }

    method Reserve(a: AccountId, amount: Balance, accepted: bool) returns (ok: bool)
      modifies this`free, this`reserved
      ensures var o := Spec.Reserve(old(State()), a, amount, accepted);
              ok == o.Some? && State() == if o.Some? then o.value else old(State())
    {
      if amount == 0 {
        return true;
      }
      var available, held := BalanceOf(free, a), BalanceOf(reserved, a);
      if !accepted || amount > available || held + amount > MAX_BALANCE {
        return false;
      }
      free := free[a := available - amount];
      reserved := reserved[a := held + amount];
      ok := true;
    }

    method Unreserve(a: AccountId, amount: Balance)
      modifies this`free, this`reserved
      ensures State() == Spec.Unreserve(old(State()), a, amount)
    {
      var actual := Min(amount, BalanceOf(reserved, a));
      reserved := reserved[a := BalanceOf(reserved, a) - actual];
      free := free[a := SaturatingAdd(BalanceOf(free, a), actual, MAX_BALANCE)];
    }

    method EnactRegistration(deposit: Balance, id: NimbusId, account: AccountId, keys: Keys, accepted: bool)
      returns (error: Option<Error>)
      modifies this
      ensures Follows(Spec.EnactRegistration(old(State()), deposit, id, account, keys, accepted), old(State()),
                      State(), error)
    {
      var ok := Reserve(account, deposit, accepted);
      if !ok {
        return Some(CannotAffordSecurityDeposit);
      }
      registrations := registrations[id := Registration(account, deposit, keys)];
      lookup := lookup[account := id];
      error := None;
    }

    method RegisterKeys(deposit: Balance, id: NimbusId, account: AccountId, keys: Keys, accepted: bool)
      returns (error: Option<Error>)
      modifies this
      ensures Follows(Spec.RegisterKeys(old(State()), deposit, id, account, keys, accepted), old(State()), State(),
                      error)
    {
      if id in registrations {
        return Some(AlreadyAssociated);
      }
      error := EnactRegistration(deposit, id, account, keys, accepted);
    }

    method RotateKeys(oldId: NimbusId, newId: NimbusId, account: AccountId, keys: Keys) returns (error: Option<Error>)
      modifies this
      ensures Follows(Spec.RotateKeys(old(State()), oldId, newId, account, keys), old(State()), State(), error)
    {
      if oldId !in registrations {
        return Some(AssociationNotFound);
      }
      var stored := registrations[oldId];
      if account != stored.account {
        return Some(NotYourAssociation);
      }
      if oldId != newId {
        if newId in registrations {
          return Some(AlreadyAssociated);
        }
      }
      registrations := registrations - {oldId};
      registrations := registrations[newId := stored.(keys := keys)];
      lookup := lookup[account := newId];
      error := None;
    }

    method RmKeys(id: NimbusId, account: AccountId) returns (error: Option<Error>)
      modifies this
      ensures Follows(Spec.RmKeys(old(State()), id, account), old(State()), State(), error)
    {
      if id !in registrations {
        return Some(AssociationNotFound);
      }
      var stored := registrations[id];
      if account != stored.account {
        return Some(NotYourAssociation);
      }
      registrations := registrations - {id};
      lookup := lookup - {account};
      Unreserve(account, stored.deposit);
      error := None;
    }

    method RemoveKeys(account: AccountId) returns (error: Option<Error>)
      modifies this
      ensures Follows(Spec.RemoveKeys(old(State()), account), old(State()), State(), error)
    {
      if account !in lookup {
        return Some(OldAuthorIdNotFound);
      }
      error := RmKeys(lookup[account], account);
    }

    method SetKeys(deposit: Balance, account: AccountId, input: KeysInput, accepted: bool)
      returns (error: Option<Error>)
      modifies this
      ensures Follows(Spec.SetKeys(old(State()), deposit, account, input, accepted), old(State()), State(), error)
    {
      match input
      case WrongSize => error := Some(WrongKeySize);
      case BadNimbus => error := Some(DecodeNimbusFailed);
      case BadKeys => error := Some(DecodeKeysFailed);
      case Decoded(id, keys) =>
        if account in lookup {
          error := RotateKeys(lookup[account], id, account, keys);
        } else {
          error := RegisterKeys(deposit, id, account, keys, accepted);
        }
    }
  }
}
