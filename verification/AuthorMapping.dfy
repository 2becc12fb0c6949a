/** The author mapping: which account an author key belongs to, and the deposit that stands behind it. */
module AuthorMapping {
  import opened Common
  import opened MapSums
  import opened Prefixes
  import opened Ledger

  type Keys = nat

  datatype Registration = Registration(account: AccountId, deposit: Balance, keys: Keys)

  datatype State = State(
    registrations: map<NimbusId, Registration>,
    lookup: map<AccountId, NimbusId>,
    free: Balances,
    reserved: Balances)

  datatype Error =
    | AssociationNotFound
    | NotYourAssociation
    | CannotAffordSecurityDeposit
    | AlreadyAssociated
    | OldAuthorIdNotFound
    | WrongKeySize
    | DecodeNimbusFailed
    | DecodeKeysFailed

  // ---- Reserving ------------------------------------------------------------------------------

  /** `accepted` stands for what the currency checks beyond the free balance. */
  function Reserve(s: State, a: AccountId, amount: Balance, accepted: bool): Option<State> {
    if amount == 0 then Some(s)
    else if accepted && amount <= BalanceOf(s.free, a) && BalanceOf(s.reserved, a) + amount <= MAX_BALANCE then
      Some(s.(free := s.free[a := BalanceOf(s.free, a) - amount],
              reserved := s.reserved[a := BalanceOf(s.reserved, a) + amount]))
    else None
  }

  /** Frees `amount`, or all there is. */
  function Unreserve(s: State, a: AccountId, amount: Balance): State {
    var actual := Min(amount, BalanceOf(s.reserved, a));
    s.(free := s.free[a := SaturatingAdd(BalanceOf(s.free, a), actual, MAX_BALANCE)],
       reserved := s.reserved[a := BalanceOf(s.reserved, a) - actual])
  }

  // ---- Calls ----------------------------------------------------------------------------------

  function EnactRegistration(s: State, deposit: Balance, id: NimbusId, account: AccountId, keys: Keys, accepted: bool)
    : Result<State, Error>
  {
    match Reserve(s, account, deposit, accepted)
    case None => Err(CannotAffordSecurityDeposit)
    case Some(s1) =>
      Ok(s1.(registrations := s.registrations[id := Registration(account, deposit, keys)],
             lookup := s.lookup[account := id]))
  }

  function RegisterKeys(s: State, deposit: Balance, id: NimbusId, account: AccountId, keys: Keys, accepted: bool)
    : Result<State, Error>
  {
    if id in s.registrations then Err(AlreadyAssociated)
    else EnactRegistration(s, deposit, id, account, keys, accepted)
  }

  function RotateKeys(s: State, oldId: NimbusId, newId: NimbusId, account: AccountId, keys: Keys)
    : Result<State, Error>
  {
    if oldId !in s.registrations then Err(AssociationNotFound)
    else if s.registrations[oldId].account != account then Err(NotYourAssociation)
    else if oldId != newId && newId in s.registrations then Err(AlreadyAssociated)
    else
      Ok(s.(registrations := (s.registrations - {oldId})[newId := s.registrations[oldId].(keys := keys)],
            lookup := s.lookup[account := newId]))
  }

  function RmKeys(s: State, id: NimbusId, account: AccountId): Result<State, Error> {
    if id !in s.registrations then Err(AssociationNotFound)
    else if s.registrations[id].account != account then Err(NotYourAssociation)
    else
      Ok(Unreserve(s, account, s.registrations[id].deposit)
         .(registrations := s.registrations - {id}, lookup := s.lookup - {account}))
  }

  function RemoveKeys(s: State, account: AccountId): Result<State, Error> {
    if account !in s.lookup then Err(OldAuthorIdNotFound) else RmKeys(s, s.lookup[account], account)
  }

  /** What decoding the argument of `set_keys` yields. */
  datatype KeysInput = WrongSize | BadNimbus | BadKeys | Decoded(id: NimbusId, keys: Keys)

  function SetKeys(s: State, deposit: Balance, account: AccountId, input: KeysInput, accepted: bool)
    : Result<State, Error>
  {
    match input
    case WrongSize => Err(WrongKeySize)
    case BadNimbus => Err(DecodeNimbusFailed)
    case BadKeys => Err(DecodeKeysFailed)
    case Decoded(id, keys) =>
      if account in s.lookup then RotateKeys(s, s.lookup[account], id, account, keys)
      else RegisterKeys(s, deposit, id, account, keys, accepted)
  }

  // ---- Runs -----------------------------------------------------------------------------------

  /** The deposit asked for, and the currency's choice, belong to each call; `Elsewhere` is any change of
      free balances by the rest of the runtime. */
  datatype Op =
    | AddAssociation(account: AccountId, id: NimbusId, deposit: Balance, accepted: bool)
    | UpdateAssociation(account: AccountId, oldId: NimbusId, newId: NimbusId)
    | ClearAssociation(account: AccountId, id: NimbusId)
    | RemoveKeysOp(account: AccountId)
    | SetKeysOp(account: AccountId, input: KeysInput, deposit: Balance, accepted: bool)
    | Elsewhere(free: Balances)

  /** `keysFrom` gives the default keys of an author. */
  function Call(keysFrom: NimbusId -> Keys, s: State, op: Op): Result<State, Error> {
    match op
    case AddAssociation(account, id, deposit, accepted) => RegisterKeys(s, deposit, id, account, keysFrom(id), accepted)
    case UpdateAssociation(account, oldId, newId) => RotateKeys(s, oldId, newId, account, keysFrom(newId))
    case ClearAssociation(account, id) => RmKeys(s, id, account)
    case RemoveKeysOp(account) => RemoveKeys(s, account)
    case SetKeysOp(account, input, deposit, accepted) => SetKeys(s, deposit, account, input, accepted)
    case Elsewhere(free) => Ok(s.(free := free))
  }

  /** A call that returns an error changes nothing. */
  function Step(keysFrom: NimbusId -> Keys, s: State, op: Op): State {
    match Call(keysFrom, s, op)
    case Ok(s') => s'
    case Err(_) => s
  }

  function Run(keysFrom: NimbusId -> Keys, s: State, ops: seq<Op>): State {
    if ops == [] then s else Step(keysFrom, Run(keysFrom, s, ops[..|ops| - 1]), ops[|ops| - 1])
  }

  datatype GenesisEntry = GenesisEntry(id: NimbusId, account: AccountId, deposit: Balance, accepted: bool)

  /** Genesis enacts its entries one by one without asking whether an id is taken. */
  function Genesis(keysFrom: NimbusId -> Keys, s: State, entries: seq<GenesisEntry>): State {
    if entries == [] then s
    else
      var before, e := Genesis(keysFrom, s, entries[..|entries| - 1]), entries[|entries| - 1];
      match EnactRegistration(before, e.deposit, e.id, e.account, keysFrom(e.id), e.accepted)
      case Ok(s') => s'
      case Err(_) => before
  }

  // ---- What the calls answer ------------------------------------------------------------------

  /** Registering a free id: the deposit is reserved, or the call fails; then the id is the account's, both ways. */
  ghost predicate AnswersRegistration(s: State, o: Result<State, Error>, account: AccountId, id: NimbusId, keys: Keys,
                                      deposit: Balance, accepted: bool)
  {
    if id in s.registrations then o == Err(AlreadyAssociated)
    else if deposit != 0 && (|| !accepted
                             || BalanceOf(s.free, account) < deposit
                             || BalanceOf(s.reserved, account) + deposit > MAX_BALANCE)
    then o == Err(CannotAffordSecurityDeposit)
    else
      && o.Ok?
      && o.value.registrations == s.registrations[id := Registration(account, deposit, keys)]
      && o.value.lookup == s.lookup[account := id]
      && forall a ::
           && BalanceOf(o.value.free, a) == BalanceOf(s.free, a) - (if a == account then deposit else 0)
           && BalanceOf(o.value.reserved, a) == BalanceOf(s.reserved, a) + if a == account then deposit else 0
  }

  /** Moving one's own registration to a free id, or the same, with its deposit and new keys. */
  ghost predicate AnswersRotation(s: State, o: Result<State, Error>, account: AccountId, oldId: NimbusId,
                                  newId: NimbusId, keys: Keys)
  {
    if oldId !in s.registrations then o == Err(AssociationNotFound)
    else if s.registrations[oldId].account != account then o == Err(NotYourAssociation)
    else if newId != oldId && newId in s.registrations then o == Err(AlreadyAssociated)
    else
      && o.Ok?
      && o.value.registrations
         == (s.registrations - {oldId})[newId := Registration(account, s.registrations[oldId].deposit, keys)]
      && o.value.lookup == s.lookup[account := newId]
      && o.value.free == s.free && o.value.reserved == s.reserved
  }

  /** Removing one's own registration: both entries go, and as much of the deposit is freed as is reserved. */
  ghost predicate AnswersRemoval(s: State, o: Result<State, Error>, account: AccountId, id: NimbusId) {
    if id !in s.registrations then o == Err(AssociationNotFound)
    else if s.registrations[id].account != account then o == Err(NotYourAssociation)
    else
      && o.Ok?
      && o.value.registrations == s.registrations - {id} && o.value.lookup == s.lookup - {account}
      && var freed := Min(s.registrations[id].deposit, BalanceOf(s.reserved, account));
         forall a ::
           && BalanceOf(o.value.free, a)
              == (if a == account then Min(BalanceOf(s.free, a) + freed, MAX_BALANCE) else BalanceOf(s.free, a))
           && BalanceOf(o.value.reserved, a) == BalanceOf(s.reserved, a) - if a == account then freed else 0
  }

  lemma RegistrationAnswers(s: State, deposit: Balance, id: NimbusId, account: AccountId, keys: Keys, accepted: bool)
    ensures AnswersRegistration(s, RegisterKeys(s, deposit, id, account, keys, accepted), account, id, keys, deposit,
                                accepted)
  {
  }

  lemma RotationAnswers(s: State, oldId: NimbusId, newId: NimbusId, account: AccountId, keys: Keys)
    ensures AnswersRotation(s, RotateKeys(s, oldId, newId, account, keys), account, oldId, newId, keys)
  {
  }

  lemma RemovalAnswers(s: State, id: NimbusId, account: AccountId)
    ensures AnswersRemoval(s, RmKeys(s, id, account), account, id)
  {
  }

  /** What every call answers and does.  Calls that give no keys use those of the id they register. */
  lemma CallAnswers(keysFrom: NimbusId -> Keys, s: State, op: Op)
    ensures var o := Call(keysFrom, s, op);
            match op
            case AddAssociation(account, id, deposit, accepted) =>
              AnswersRegistration(s, o, account, id, keysFrom(id), deposit, accepted)
            case UpdateAssociation(account, oldId, newId) =>
              AnswersRotation(s, o, account, oldId, newId, keysFrom(newId))
            case ClearAssociation(account, id) => AnswersRemoval(s, o, account, id)
            case RemoveKeysOp(account) =>
              if account !in s.lookup then o == Err(OldAuthorIdNotFound)
              else AnswersRemoval(s, o, account, s.lookup[account])
            case SetKeysOp(_, WrongSize, _, _) => o == Err(WrongKeySize)
            case SetKeysOp(_, BadNimbus, _, _) => o == Err(DecodeNimbusFailed)
            case SetKeysOp(_, BadKeys, _, _) => o == Err(DecodeKeysFailed)
            case SetKeysOp(account, Decoded(id, keys), deposit, accepted) =>
              if account in s.lookup then AnswersRotation(s, o, account, s.lookup[account], id, keys)
              else AnswersRegistration(s, o, account, id, keys, deposit, accepted)
            case Elsewhere(free) => o == Ok(s.(free := free))
  {
    match op
    case AddAssociation(account, id, deposit, accepted) =>
      RegistrationAnswers(s, deposit, id, account, keysFrom(id), accepted);
    case UpdateAssociation(account, oldId, newId) => RotationAnswers(s, oldId, newId, account, keysFrom(newId));
    case ClearAssociation(account, id) => RemovalAnswers(s, id, account);
    case RemoveKeysOp(account) =>
      if account in s.lookup {
        RemovalAnswers(s, s.lookup[account], account);
      }
    case SetKeysOp(account, input, deposit, accepted) =>
      if input.Decoded? && account in s.lookup {
        RotationAnswers(s, s.lookup[account], input.id, account, input.keys);
      } else if input.Decoded? {
        RegistrationAnswers(s, deposit, input.id, account, input.keys, accepted);
      }
    case Elsewhere(_) =>
  }

  // ---- Invariants -----------------------------------------------------------------------------

  /** The reverse map only names registrations of the account itself. */
  ghost predicate Sound(s: State) {
    forall a :: a in s.lookup ==> s.lookup[a] in s.registrations && s.registrations[s.lookup[a]].account == a
  }

  ghost function DepositsOf(registrations: map<NimbusId, Registration>, a: AccountId): map<NimbusId, int> {
    map id | id in registrations && registrations[id].account == a :: registrations[id].deposit
  }

  /** The deposits of all registrations of an account. */
  ghost function Pledged(s: State, a: AccountId): int {
    Sum(DepositsOf(s.registrations, a))
  }

  /** The reserve of every account is what it was before, plus its deposits. */
  ghost predicate Backed(s: State, base: AccountId -> nat) {
    forall a :: BalanceOf(s.reserved, a) == base(a) + Pledged(s, a)
  }

  /** No reserve is too small for the deposits it stands behind. */
  ghost predicate Covered(s: State, base: AccountId -> nat) {
    forall a :: BalanceOf(s.reserved, a) >= base(a) + Pledged(s, a)
  }

  lemma PledgedAfterInsert(s: State, id: NimbusId, r: Registration, a: AccountId)
    requires id !in s.registrations
    ensures Pledged(s.(registrations := s.registrations[id := r]), a)
            == Pledged(s, a) + if r.account == a then r.deposit else 0
  {
    var d, d' := DepositsOf(s.registrations, a), DepositsOf(s.registrations[id := r], a);
    if r.account == a {
      assert d' == d[id := r.deposit];
      SumInsert(d, id, r.deposit);
    } else {
      assert d' == d;
    }
  }

  lemma PledgedAfterRemove(s: State, id: NimbusId, a: AccountId)
    requires id in s.registrations
    ensures Pledged(s.(registrations := s.registrations - {id}), a)
            == Pledged(s, a) - if s.registrations[id].account == a then s.registrations[id].deposit else 0
  {
    var d, d' := DepositsOf(s.registrations, a), DepositsOf(s.registrations - {id}, a);
    assert d' == d - {id};
    if id in d {
      SumRemove(d, id);
    } else {
      assert d' == d;
    }
  }

  // ---- The reverse map ------------------------------------------------------------------------

  /** Enacting a registration keeps the reverse map right exactly when the id is free, or is held by the
      same account, or its holder is known under another id. */
  lemma EnactKeepsSoundIff(s: State, deposit: Balance, id: NimbusId, account: AccountId, keys: Keys, accepted: bool)
    requires Sound(s)
    requires EnactRegistration(s, deposit, id, account, keys, accepted).Ok?
    ensures Sound(EnactRegistration(s, deposit, id, account, keys, accepted).value)
            <==> (id in s.registrations && s.registrations[id].account != account ==>
                    !(s.registrations[id].account in s.lookup && s.lookup[s.registrations[id].account] == id))
  {
    var s' := EnactRegistration(s, deposit, id, account, keys, accepted).value;
    if id in s.registrations {
      var holder := s.registrations[id].account;
      if holder != account && holder in s.lookup && s.lookup[holder] == id {
        assert holder in s'.lookup && s'.lookup[holder] == id;
      }
    }
  }

  lemma StepKeepsSound(keysFrom: NimbusId -> Keys, s: State, op: Op)
    requires Sound(s)
    ensures Sound(Step(keysFrom, s, op))
  {
  }

  // ---- Genesis --------------------------------------------------------------------------------

  /** The genesis entries that can pay their deposit; the others are skipped. */
  function Accepted(keysFrom: NimbusId -> Keys, s: State, entries: seq<GenesisEntry>): seq<GenesisEntry> {
    if entries == [] then []
    else
      var init, e := entries[..|entries| - 1], entries[|entries| - 1];
      var enters := EnactRegistration(Genesis(keysFrom, s, init), e.deposit, e.id, e.account, keysFrom(e.id),
                                      e.accepted).Ok?;
      Accepted(keysFrom, s, init) + if enters then [e] else []
  }

  /** No later entry is for the same account. */
  ghost predicate LastOfAccount(entries: seq<GenesisEntry>, i: nat) {
    i < |entries| && forall j :: i < j < |entries| ==> entries[j].account != entries[i].account
  }

  /** No later entry is for the same id. */
  ghost predicate LastOfId(entries: seq<GenesisEntry>, i: nat) {
    i < |entries| && forall j :: i < j < |entries| ==> entries[j].id != entries[i].id
  }

  /** The reverse map holds the last entry of each account. */
  ghost predicate MirrorsAccounts(s: State, entries: seq<GenesisEntry>) {
    && (forall i: nat :: LastOfAccount(entries, i) ==>
          entries[i].account in s.lookup && s.lookup[entries[i].account] == entries[i].id)
    && (forall a :: a in s.lookup ==> exists i: nat :: LastOfAccount(entries, i) && entries[i].account == a)
  }

  /** The registrations are the last entries of each id. */
  ghost predicate MirrorsIds(keysFrom: NimbusId -> Keys, s: State, entries: seq<GenesisEntry>) {
    && (forall i: nat :: LastOfId(entries, i) ==>
          var e := entries[i];
          e.id in s.registrations && s.registrations[e.id] == Registration(e.account, e.deposit, keysFrom(e.id)))
    && (forall id :: id in s.registrations ==> exists i: nat :: LastOfId(entries, i) && entries[i].id == id)
  }

  /** The last entries after one more: the new one, and those before for another account or id. */
  lemma LastAfterAppend(entries: seq<GenesisEntry>, e: GenesisEntry, i: nat)
    ensures LastOfAccount(entries + [e], i)
            <==> i == |entries| || (LastOfAccount(entries, i) && entries[i].account != e.account)
    ensures LastOfId(entries + [e], i) <==> i == |entries| || (LastOfId(entries, i) && entries[i].id != e.id)
  {
    var all := entries + [e];
    if i < |entries| {
      assert forall j :: i < j < |entries| ==> all[j] == entries[j];
      assert all[|entries|] == e;
    }
  }

  lemma EnactMirrorsAccounts(s: State, entries: seq<GenesisEntry>, e: GenesisEntry, keys: Keys)
    requires MirrorsAccounts(s, entries)
    requires EnactRegistration(s, e.deposit, e.id, e.account, keys, e.accepted).Ok?
    ensures MirrorsAccounts(EnactRegistration(s, e.deposit, e.id, e.account, keys, e.accepted).value, entries + [e])
  {
    var s', all := EnactRegistration(s, e.deposit, e.id, e.account, keys, e.accepted).value, entries + [e];
    forall i: nat | LastOfAccount(all, i)
      ensures all[i].account in s'.lookup && s'.lookup[all[i].account] == all[i].id
    {
      LastAfterAppend(entries, e, i);
    }
    forall a | a in s'.lookup
      ensures exists i: nat :: LastOfAccount(all, i) && all[i].account == a
    {
      var k: nat := |entries|;
      if a != e.account {
        k :| LastOfAccount(entries, k) && entries[k].account == a;
      }
      LastAfterAppend(entries, e, k);
      assert LastOfAccount(all, k);
    }
  }

  lemma EnactMirrorsIds(keysFrom: NimbusId -> Keys, s: State, entries: seq<GenesisEntry>, e: GenesisEntry)
    requires MirrorsIds(keysFrom, s, entries)
    requires EnactRegistration(s, e.deposit, e.id, e.account, keysFrom(e.id), e.accepted).Ok?
    ensures MirrorsIds(keysFrom, EnactRegistration(s, e.deposit, e.id, e.account, keysFrom(e.id), e.accepted).value,
                       entries + [e])
  {
    var s', all := EnactRegistration(s, e.deposit, e.id, e.account, keysFrom(e.id), e.accepted).value, entries + [e];
    forall i: nat | LastOfId(all, i)
      ensures all[i].id in s'.registrations
      ensures s'.registrations[all[i].id] == Registration(all[i].account, all[i].deposit, keysFrom(all[i].id))
    {
      LastAfterAppend(entries, e, i);
    }
    forall id | id in s'.registrations
      ensures exists i: nat :: LastOfId(all, i) && all[i].id == id
    {
      var k: nat := |entries|;
      if id != e.id {
        k :| LastOfId(entries, k) && entries[k].id == id;
      }
      LastAfterAppend(entries, e, k);
      assert LastOfId(all, k);
    }
  }

  /** After genesis, an account is known under the id it was last entered under, and an id is registered with the
      account, the deposit and the keys of its last entry. */
  lemma {:induction false} GenesisMirrors(keysFrom: NimbusId -> Keys, s: State, entries: seq<GenesisEntry>)
    requires s.registrations == map[] && s.lookup == map[]
    ensures MirrorsAccounts(Genesis(keysFrom, s, entries), Accepted(keysFrom, s, entries))
    ensures MirrorsIds(keysFrom, Genesis(keysFrom, s, entries), Accepted(keysFrom, s, entries))
  {
    if entries == [] {
    } else {
      var init, e := entries[..|entries| - 1], entries[|entries| - 1];
      GenesisMirrors(keysFrom, s, init);
      var before, accepted := Genesis(keysFrom, s, init), Accepted(keysFrom, s, init);
      if EnactRegistration(before, e.deposit, e.id, e.account, keysFrom(e.id), e.accepted).Ok? {
        EnactMirrorsAccounts(before, accepted, e, keysFrom(e.id));
        EnactMirrorsIds(keysFrom, before, accepted, e);
      } else {
        assert accepted + [] == accepted;
      }
    }
  }

  /** Each entry is followed, or is itself, by the last one of its id. */
  lemma {:induction false} LastOfIdFrom(entries: seq<GenesisEntry>, i: nat) returns (k: nat)
    requires i < |entries|
    ensures i <= k && LastOfId(entries, k) && entries[k].id == entries[i].id
    decreases |entries| - i
  {
    if LastOfId(entries, i) {
      k := i;
    } else {
      var j :| i < j < |entries| && entries[j].id == entries[i].id;
      k := LastOfIdFrom(entries, j);
    }
  }

  /** Every account is last entered under an id that nobody else takes after it. */
  ghost predicate KeepTheirIds(entries: seq<GenesisEntry>) {
    forall i: nat :: LastOfAccount(entries, i) ==> LastOfId(entries, i)
  }

  /** After genesis the reverse map is right exactly when no account loses the id it was last entered under
      to a later entry. */
  lemma GenesisIsSoundIff(keysFrom: NimbusId -> Keys, s: State, entries: seq<GenesisEntry>)
    requires s.registrations == map[] && s.lookup == map[]
    ensures Sound(Genesis(keysFrom, s, entries)) <==> KeepTheirIds(Accepted(keysFrom, s, entries))
  {
    GenesisMirrors(keysFrom, s, entries);
    var g, accepted := Genesis(keysFrom, s, entries), Accepted(keysFrom, s, entries);
    forall i: nat | LastOfAccount(accepted, i)
      ensures LastOfId(accepted, i)
              <==> accepted[i].id in g.registrations && g.registrations[accepted[i].id].account == accepted[i].account
    {
      var k := LastOfIdFrom(accepted, i);
    }
  }

  /** Distinct ids are enough. */
  lemma {:induction false} DistinctIdsAreKept(keysFrom: NimbusId -> Keys, s: State, entries: seq<GenesisEntry>)
    requires forall i, j :: 0 <= i < j < |entries| ==> entries[i].id != entries[j].id
    ensures var accepted := Accepted(keysFrom, s, entries);
            && (forall i, j :: 0 <= i < j < |accepted| ==> accepted[i].id != accepted[j].id)
            && (forall i :: 0 <= i < |accepted| ==> accepted[i] in entries)
            && KeepTheirIds(accepted)
  {
    if entries == [] {
      assert Accepted(keysFrom, s, []) == [];
    } else {
      var init := entries[..|entries| - 1];
      DistinctIdsAreKept(keysFrom, s, init);
      forall e | e in init
        ensures e.id != entries[|entries| - 1].id
      {
        var i :| 0 <= i < |init| && init[i] == e;
        assert entries[i].id != entries[|entries| - 1].id;
      }
    }
  }

  /** Two genesis entries for one id leave the first account with a reverse entry that is not its own. */
  lemma DuplicateGenesisIsUnsound(keysFrom: NimbusId -> Keys, id: NimbusId, a: AccountId, b: AccountId)
    requires a != b
    ensures var s := State(map[], map[], map[], map[]);
            !Sound(Genesis(keysFrom, s, [GenesisEntry(id, a, 0, true), GenesisEntry(id, b, 0, true)]))
  {
    var s := State(map[], map[], map[], map[]);
    var entries := [GenesisEntry(id, a, 0, true), GenesisEntry(id, b, 0, true)];
    assert entries[..1] == [GenesisEntry(id, a, 0, true)];
    assert Genesis(keysFrom, s, entries[..1][..0]) == s;
    var first := Genesis(keysFrom, s, entries[..1]);
    assert first == EnactRegistration(s, 0, id, a, keysFrom(id), true).value;
    var g := Genesis(keysFrom, s, entries);
    assert a in g.lookup && g.lookup[a] == id && g.registrations[id].account == b;
  }

  lemma {:induction false} RunKeepsSound(keysFrom: NimbusId -> Keys, s: State, ops: seq<Op>)
    requires Sound(s)
    ensures Sound(Run(keysFrom, s, ops))
  {
    if ops == [] {
    } else {
      RunKeepsSound(keysFrom, s, ops[..|ops| - 1]);
      StepKeepsSound(keysFrom, Run(keysFrom, s, ops[..|ops| - 1]), ops[|ops| - 1]);
    }
  }

  /** In every reachable state the reverse map is right, several ids per account or not.  So the two calls
      that go through it never meet a missing or a foreign registration, and `remove_keys` fails only for
      an account without an entry. */
  lemma ReverseLookupsSucceed(keysFrom: NimbusId -> Keys, s0: State, entries: seq<GenesisEntry>, ops: seq<Op>,
                              account: AccountId, input: KeysInput, deposit: Balance, accepted: bool)
    requires s0.registrations == map[] && s0.lookup == map[]
    requires KeepTheirIds(Accepted(keysFrom, s0, entries))
    ensures var s := Run(keysFrom, Genesis(keysFrom, s0, entries), ops);
            && Sound(s)
            && (RemoveKeys(s, account).Ok? <==> account in s.lookup)
            && SetKeys(s, deposit, account, input, accepted) != Err(AssociationNotFound)
            && SetKeys(s, deposit, account, input, accepted) != Err(NotYourAssociation)
            && (account in s.lookup && input.Decoded? ==>
                  (SetKeys(s, deposit, account, input, accepted).Ok?
                   <==> input.id == s.lookup[account] || input.id !in s.registrations))
  {
    GenesisIsSoundIff(keysFrom, s0, entries);
    RunKeepsSound(keysFrom, Genesis(keysFrom, s0, entries), ops);
  }

  // ---- Accounts without a reverse entry -------------------------------------------------------

  /** Every account with a registration has a reverse entry. */
  ghost predicate Listed(s: State) {
    forall id :: id in s.registrations ==> s.registrations[id].account in s.lookup
  }

  /** The account holds an id other than this one. */
  ghost predicate HoldsAnother(s: State, account: AccountId, id: NimbusId) {
    exists other :: other != id && other in s.registrations && s.registrations[other].account == account
  }

  /** The call removes one of several ids of an account. */
  ghost predicate Orphans(s: State, op: Op) {
    || (op.ClearAssociation? && RmKeys(s, op.id, op.account).Ok? && HoldsAnother(s, op.account, op.id))
    || (op.RemoveKeysOp? && RemoveKeys(s, op.account).Ok? && HoldsAnother(s, op.account, s.lookup[op.account]))
  }

  lemma RmKeepsListedIff(s: State, id: NimbusId, account: AccountId)
    requires Listed(s)
    requires RmKeys(s, id, account).Ok?
    ensures Listed(RmKeys(s, id, account).value) <==> !HoldsAnother(s, account, id)
  {
    var s' := RmKeys(s, id, account).value;
    if HoldsAnother(s, account, id) {
      var other :| other != id && other in s.registrations && s.registrations[other].account == account;
      assert other in s'.registrations && s'.registrations[other].account !in s'.lookup;
    }
  }

  /** A call keeps a reverse entry for every holder exactly when it does not remove one of several ids of an
      account: `rm_keys` takes the account's only reverse entry with it. */
  lemma StepKeepsListedIff(keysFrom: NimbusId -> Keys, s: State, op: Op)
    requires Listed(s)
    ensures Listed(Step(keysFrom, s, op)) <==> !Orphans(s, op)
  {
    if op.ClearAssociation? && RmKeys(s, op.id, op.account).Ok? {
      RmKeepsListedIff(s, op.id, op.account);
    } else if op.RemoveKeysOp? && RemoveKeys(s, op.account).Ok? {
      RmKeepsListedIff(s, s.lookup[op.account], op.account);
    }
  }

  lemma {:induction false} GenesisIsListed(keysFrom: NimbusId -> Keys, s: State, entries: seq<GenesisEntry>)
    requires s.registrations == map[]
    ensures Listed(Genesis(keysFrom, s, entries))
  {
    if entries == [] {
      assert Listed(s);
    } else {
      GenesisIsListed(keysFrom, s, entries[..|entries| - 1]);
    }
  }

  ghost function ListedAfter(keysFrom: NimbusId -> Keys, s: State): seq<Op> -> bool {
    ops => Listed(Run(keysFrom, s, ops))
  }

  ghost function KeepsEntries(keysFrom: NimbusId -> Keys, s: State): (seq<Op>, Op) -> bool {
    (ops, op) => !Orphans(Run(keysFrom, s, ops), op)
  }

  /** Over a whole run: every holder keeps a reverse entry throughout exactly when no call removes one of
      several ids of an account. */
  lemma RunKeepsListedIff(keysFrom: NimbusId -> Keys, s: State, ops: seq<Op>)
    requires Listed(s)
    ensures (forall i :: 0 <= i <= |ops| ==> Listed(Run(keysFrom, s, ops[..i])))
            <==> (forall i :: 0 <= i < |ops| ==> !Orphans(Run(keysFrom, s, ops[..i]), ops[i]))
  {
    var p, q := ListedAfter(keysFrom, s), KeepsEntries(keysFrom, s);
    forall ops, op | p(ops)
      ensures p(ops + [op]) <==> q(ops, op)
    {
      assert (ops + [op])[..|ops|] == ops;
      StepKeepsListedIff(keysFrom, Run(keysFrom, s, ops), op);
    }
    ThroughoutIff(ops, p, q);
    assert AfterEvery(ops, p) <==> forall i :: 0 <= i <= |ops| ==> Listed(Run(keysFrom, s, ops[..i]));
  }

  /** From any genesis on: every holder has a reverse entry in every state of the run exactly when no call
      removes one of several ids of an account. */
  lemma HoldersStayListedIff(keysFrom: NimbusId -> Keys, s0: State, entries: seq<GenesisEntry>, ops: seq<Op>)
    requires s0.registrations == map[]
    ensures var g := Genesis(keysFrom, s0, entries);
            (forall i :: 0 <= i <= |ops| ==> Listed(Run(keysFrom, g, ops[..i])))
            <==> (forall i :: 0 <= i < |ops| ==> !Orphans(Run(keysFrom, g, ops[..i]), ops[i]))
  {
    GenesisIsListed(keysFrom, s0, entries);
    RunKeepsListedIff(keysFrom, Genesis(keysFrom, s0, entries), ops);
  }

  /** A holder without a reverse entry cannot remove its keys, and pays another deposit to set them. */
  lemma OrphanPaysAgain(s: State, account: AccountId, deposit: Balance, input: KeysInput, accepted: bool)
    requires account !in s.lookup
    ensures RemoveKeys(s, account) == Err(OldAuthorIdNotFound)
    ensures SetKeys(s, deposit, account, input, accepted).Ok? ==>
              BalanceOf(SetKeys(s, deposit, account, input, accepted).value.reserved, account)
              == BalanceOf(s.reserved, account) + deposit
  {
  }

  /** An account registers two ids and clears one: it still has a registration and a deposit, but the next
      `set_keys` takes another deposit. */
  lemma SecondDepositIsTaken(keysFrom: NimbusId -> Keys, a: AccountId, keys: Keys)
    ensures var ops := [AddAssociation(a, 1, 5, true), AddAssociation(a, 2, 5, true), ClearAssociation(a, 1),
                        SetKeysOp(a, Decoded(3, keys), 5, true)];
            var s0 := State(map[], map[], map[a := 10], map[]);
            var before, after := Run(keysFrom, s0, ops[..3]), Run(keysFrom, s0, ops);
            && 2 in before.registrations && before.registrations[2].account == a
            && BalanceOf(before.reserved, a) == 5 && BalanceOf(after.reserved, a) == 10
  {
    var ops := [AddAssociation(a, 1, 5, true), AddAssociation(a, 2, 5, true), ClearAssociation(a, 1),
                SetKeysOp(a, Decoded(3, keys), 5, true)];
    var s0 := State(map[], map[], map[a := 10], map[]);
    assert ops[..3][..2] == ops[..2] && ops[..2][..1] == ops[..1] && ops[..1][..0] == [];
    assert Run(keysFrom, s0, ops[..1]) == Step(keysFrom, s0, ops[0]);
    assert Run(keysFrom, s0, ops[..2]) == Step(keysFrom, Run(keysFrom, s0, ops[..1]), ops[1]);
    assert Run(keysFrom, s0, ops[..3]) == Step(keysFrom, Run(keysFrom, s0, ops[..2]), ops[2]);
  }

  /** An accepted `set_keys` makes the given id the account's own, with the given keys; a registration it
      replaces is gone, and nobody else's changes. */
  lemma SetKeysTakesEffect(s: State, deposit: Balance, account: AccountId, input: KeysInput, accepted: bool)
    requires Sound(s)
    requires SetKeys(s, deposit, account, input, accepted).Ok?
    ensures var s' := SetKeys(s, deposit, account, input, accepted).value;
            && account in s'.lookup && s'.lookup[account] == input.id
            && input.id in s'.registrations
            && s'.registrations[input.id].account == account && s'.registrations[input.id].keys == input.keys
            && (account in s.lookup ==>
                  && s'.registrations[input.id].deposit == s.registrations[s.lookup[account]].deposit
                  && (s.lookup[account] != input.id ==> s.lookup[account] !in s'.registrations))
            && (forall id :: id != input.id && !(account in s.lookup && s.lookup[account] == id) ==>
                  (id in s'.registrations <==> id in s.registrations)
                  && (id in s.registrations ==> s'.registrations[id] == s.registrations[id]))
            && (forall a :: a != account ==>
                  (a in s'.lookup <==> a in s.lookup) && (a in s.lookup ==> s'.lookup[a] == s.lookup[a]))
  {
  }

  // ---- Deposits -------------------------------------------------------------------------------

  /** Enacting a registration never leaves a reserve too small, and keeps the books exactly when it overwrites
      no deposit. */
  lemma EnactKeepsBackedIff(s: State, deposit: Balance, id: NimbusId, account: AccountId, keys: Keys, accepted: bool,
                            base: AccountId -> nat)
    requires Covered(s, base)
    requires EnactRegistration(s, deposit, id, account, keys, accepted).Ok?
    ensures var s' := EnactRegistration(s, deposit, id, account, keys, accepted).value;
            && Covered(s', base)
            && (Backed(s', base) <==> Backed(s, base) && (id in s.registrations ==> s.registrations[id].deposit == 0))
  {
    var s' := EnactRegistration(s, deposit, id, account, keys, accepted).value;
    forall a
      ensures BalanceOf(s'.reserved, a) - Pledged(s', a)
              == BalanceOf(s.reserved, a) - Pledged(s, a) + Overwritten(s, id, a)
    {
      PledgedAfterOverwrite(s, id, Registration(account, deposit, keys), a);
    }
    if id in s.registrations && s.registrations[id].deposit != 0 {
      var holder := s.registrations[id].account;
      assert BalanceOf(s'.reserved, holder) != base(holder) + Pledged(s', holder);
    } else if !Backed(s, base) {
      var a :| BalanceOf(s.reserved, a) != base(a) + Pledged(s, a);
      assert BalanceOf(s'.reserved, a) != base(a) + Pledged(s', a);
    }
  }

  /** What an account loses when an id is registered anew. */
  function Overwritten(s: State, id: NimbusId, a: AccountId): nat {
    if id in s.registrations && s.registrations[id].account == a then s.registrations[id].deposit else 0
  }

  lemma PledgedAfterOverwrite(s: State, id: NimbusId, r: Registration, a: AccountId)
    ensures Pledged(s.(registrations := s.registrations[id := r]), a)
            == Pledged(s, a) - Overwritten(s, id, a) + if a == r.account then r.deposit else 0
  {
    var cleared := s.(registrations := s.registrations - {id});
    assert s.registrations[id := r] == cleared.registrations[id := r];
    if id in s.registrations {
      PledgedAfterRemove(s, id, a);
    } else {
      assert cleared.registrations == s.registrations;
    }
    PledgedAfterInsert(cleared, id, r, a);
  }

  /** A rotation moves a deposit from one id to another and changes no account's total. */
  lemma RotateKeepsPledged(s: State, oldId: NimbusId, newId: NimbusId, account: AccountId, keys: Keys, a: AccountId)
    requires RotateKeys(s, oldId, newId, account, keys).Ok?
    ensures var s' := RotateKeys(s, oldId, newId, account, keys).value;
            Pledged(s', a) == Pledged(s, a) && s'.reserved == s.reserved && s'.free == s.free
  {
    PledgedAfterRemove(s, oldId, a);
    PledgedAfterInsert(s.(registrations := s.registrations - {oldId}), newId, s.registrations[oldId].(keys := keys), a);
  }

  /** Clearing an association works exactly for its owner; it frees exactly the deposit taken for it and
      touches nobody else. */
  lemma ClearFreesTheDeposit(s: State, id: NimbusId, account: AccountId, base: AccountId -> nat)
    requires Backed(s, base)
    requires forall a :: BalanceOf(s.free, a) + BalanceOf(s.reserved, a) <= MAX_BALANCE
    ensures RmKeys(s, id, account).Ok? <==> id in s.registrations && s.registrations[id].account == account
    ensures RmKeys(s, id, account).Ok? ==>
              var s' := RmKeys(s, id, account).value;
              && Backed(s', base)
              && BalanceOf(s'.reserved, account) == BalanceOf(s.reserved, account) - s.registrations[id].deposit
              && BalanceOf(s'.free, account) == BalanceOf(s.free, account) + s.registrations[id].deposit
              && (forall a :: a != account ==>
                    && BalanceOf(s'.free, a) == BalanceOf(s.free, a)
                    && BalanceOf(s'.reserved, a) == BalanceOf(s.reserved, a))
  {
    if RmKeys(s, id, account).Ok? {
      DepositIsReserved(s, id, base);
      RmKeepsBacked(s, id, account, base);
    }
  }

  lemma DepositIsReserved(s: State, id: NimbusId, base: AccountId -> nat)
    requires Backed(s, base)
    requires id in s.registrations
    ensures s.registrations[id].deposit <= BalanceOf(s.reserved, s.registrations[id].account)
  {
    var a := s.registrations[id].account;
    SumAtLeast(DepositsOf(s.registrations, a), id);
    assert BalanceOf(s.reserved, a) == base(a) + Pledged(s, a);
  }

  lemma RmKeepsBacked(s: State, id: NimbusId, account: AccountId, base: AccountId -> nat)
    requires Backed(s, base)
    requires RmKeys(s, id, account).Ok?
    ensures Backed(RmKeys(s, id, account).value, base)
  {
    var s' := RmKeys(s, id, account).value;
    DepositIsReserved(s, id, base);
    forall a
      ensures BalanceOf(s'.reserved, a) == base(a) + Pledged(s', a)
    {
      PledgedAfterRemove(s, id, a);
    }
  }

  lemma RotateKeepsBacked(s: State, oldId: NimbusId, newId: NimbusId, account: AccountId, keys: Keys,
                          base: AccountId -> nat)
    requires Backed(s, base)
    requires RotateKeys(s, oldId, newId, account, keys).Ok?
    ensures Backed(RotateKeys(s, oldId, newId, account, keys).value, base)
  {
    var s' := RotateKeys(s, oldId, newId, account, keys).value;
    forall a
      ensures BalanceOf(s'.reserved, a) == base(a) + Pledged(s', a)
    {
      RotateKeepsPledged(s, oldId, newId, account, keys, a);
    }
  }

  lemma StepKeepsBacked(keysFrom: NimbusId -> Keys, s: State, op: Op, base: AccountId -> nat)
    requires Backed(s, base)
    ensures Backed(Step(keysFrom, s, op), base)
  {
    if Call(keysFrom, s, op).Ok? {
      match op
      case AddAssociation(account, id, deposit, accepted) =>
        EnactKeepsBackedIff(s, deposit, id, account, keysFrom(id), accepted, base);
      case UpdateAssociation(account, oldId, newId) =>
        RotateKeepsBacked(s, oldId, newId, account, keysFrom(newId), base);
      case ClearAssociation(account, id) => RmKeepsBacked(s, id, account, base);
      case RemoveKeysOp(account) => RmKeepsBacked(s, s.lookup[account], account, base);
      case SetKeysOp(account, input, deposit, accepted) =>
        if account in s.lookup {
          RotateKeepsBacked(s, s.lookup[account], input.id, account, input.keys, base);
        } else {
          EnactKeepsBackedIff(s, deposit, input.id, account, input.keys, accepted, base);
        }
      case Elsewhere(free) =>
        forall a
          ensures Pledged(s.(free := free), a) == Pledged(s, a)
        {
        }
    }
  }

  /** Only entries without a deposit are overwritten by later ones. */
  ghost predicate OverwritesNoDeposit(entries: seq<GenesisEntry>) {
    forall i: nat :: i < |entries| && !LastOfId(entries, i) ==> entries[i].deposit == 0
  }

  lemma OverwritesAfterAppend(keysFrom: NimbusId -> Keys, s: State, entries: seq<GenesisEntry>, e: GenesisEntry)
    requires MirrorsIds(keysFrom, s, entries)
    ensures OverwritesNoDeposit(entries + [e])
            <==> OverwritesNoDeposit(entries) && (e.id in s.registrations ==> s.registrations[e.id].deposit == 0)
  {
    var all := entries + [e];
    forall i: nat | i < |entries|
      ensures all[i] == entries[i] && (LastOfId(all, i) <==> LastOfId(entries, i) && entries[i].id != e.id)
    {
      LastAfterAppend(entries, e, i);
    }
    LastAfterAppend(entries, e, |entries|);
    if e.id in s.registrations {
      var i: nat :| LastOfId(entries, i) && entries[i].id == e.id;
      assert !LastOfId(all, i);
    }
  }

  /** After genesis the books are right exactly when no entry with a deposit is overwritten by a later one. */
  lemma {:induction false} GenesisIsBackedIff(keysFrom: NimbusId -> Keys, s: State, entries: seq<GenesisEntry>,
                                              base: AccountId -> nat)
    requires s.registrations == map[] && s.lookup == map[]
    requires forall a :: base(a) == BalanceOf(s.reserved, a)
    ensures var g := Genesis(keysFrom, s, entries);
            Covered(g, base) && (Backed(g, base) <==> OverwritesNoDeposit(Accepted(keysFrom, s, entries)))
  {
    if entries == [] {
      forall a
        ensures Pledged(s, a) == 0
      {
        assert DepositsOf(s.registrations, a) == map[];
      }
    } else {
      var init, e := entries[..|entries| - 1], entries[|entries| - 1];
      GenesisIsBackedIff(keysFrom, s, init, base);
      GenesisMirrors(keysFrom, s, init);
      var before, accepted := Genesis(keysFrom, s, init), Accepted(keysFrom, s, init);
      if EnactRegistration(before, e.deposit, e.id, e.account, keysFrom(e.id), e.accepted).Ok? {
        EnactKeepsBackedIff(before, e.deposit, e.id, e.account, keysFrom(e.id), e.accepted, base);
        OverwritesAfterAppend(keysFrom, before, accepted, e);
      } else {
        assert accepted + [] == accepted;
      }
    }
  }

  /** In every reachable state each account's reserve is its initial reserve plus the deposits of its
      registrations, whatever deposits were asked for along the way. */
  lemma {:induction false} DepositsAreConserved(keysFrom: NimbusId -> Keys, s0: State, entries: seq<GenesisEntry>,
                                                ops: seq<Op>, base: AccountId -> nat)
    requires s0.registrations == map[] && s0.lookup == map[]
    requires OverwritesNoDeposit(Accepted(keysFrom, s0, entries))
    requires forall a :: base(a) == BalanceOf(s0.reserved, a)
    ensures Backed(Run(keysFrom, Genesis(keysFrom, s0, entries), ops), base)
  {
    if ops == [] {
      GenesisIsBackedIff(keysFrom, s0, entries, base);
    } else {
      DepositsAreConserved(keysFrom, s0, entries, ops[..|ops| - 1], base);
      StepKeepsBacked(keysFrom, Run(keysFrom, Genesis(keysFrom, s0, entries), ops[..|ops| - 1]), ops[|ops| - 1], base);
    }
  }
}
