/** Foreign assets: one map from asset ids to foreign assets and one back. */
module ForeignAssets {
  import opened Common
  import opened Prefixes

  type AssetId = nat
  type ForeignAsset = nat

  datatype State = State(foreignOf: map<AssetId, ForeignAsset>, idOf: map<ForeignAsset, AssetId>)

  datatype Error = AssetAlreadyExists | AssetDoesNotExist | FungiblesFailed

  /** `accepted` is the answer of the fungibles pallet that creates or destroys the asset. */
  datatype Op =
    | Create(foreign: ForeignAsset, id: AssetId, accepted: bool)
    | Change(id: AssetId, foreign: ForeignAsset)
    | Remove(id: AssetId)
    | Destroy(id: AssetId, accepted: bool)

  function Unlink(s: State, id: AssetId): State
    requires id in s.foreignOf
  {
    State(s.foreignOf - {id}, s.idOf - {s.foreignOf[id]})
  }

  function Call(s: State, op: Op): Result<State, Error> {
    match op
    case Create(foreign, id, accepted) =>
      if id in s.foreignOf then Err(AssetAlreadyExists)
      else if !accepted then Err(FungiblesFailed)
      else Ok(State(s.foreignOf[id := foreign], s.idOf[foreign := id]))
    case Change(id, foreign) =>
      if id !in s.foreignOf then Err(AssetDoesNotExist)
      else Ok(State(s.foreignOf[id := foreign], s.idOf[foreign := id] - {s.foreignOf[id]}))
    case Remove(id) =>
      if id !in s.foreignOf then Err(AssetDoesNotExist) else Ok(Unlink(s, id))
    case Destroy(id, accepted) =>
      if id !in s.foreignOf then Err(AssetDoesNotExist)
      else if !accepted then Err(FungiblesFailed)
      else Ok(Unlink(s, id))
  }

  function Step(s: State, op: Op): State {
    match Call(s, op)
    case Ok(s') => s'
    case Err(_) => s
  }

  function Run(s: State, ops: seq<Op>): State {
    if ops == [] then s else Step(Run(s, ops[..|ops| - 1]), ops[|ops| - 1])
  }

  function Convert(s: State, foreign: ForeignAsset): Option<AssetId> {
    if foreign in s.idOf then Some(s.idOf[foreign]) else None
  }

  function ConvertBack(s: State, id: AssetId): Option<ForeignAsset> {
    if id in s.foreignOf then Some(s.foreignOf[id]) else None
  }

  /** Everything is as before, but for one asset id and some foreign assets. */
  ghost predicate SameElsewhere(s: State, s': State, id: AssetId, foreign: set<ForeignAsset>) {
    && (forall i :: i != id ==> ConvertBack(s', i) == ConvertBack(s, i))
    && (forall f :: f !in foreign ==> Convert(s', f) == Convert(s, f))
  }

  /** What every call answers and does: a new asset is found both ways; a changed one is found under its new
      foreign asset, and its old one, even if that is the same, leads nowhere; one that is removed or destroyed
      leads nowhere, and neither does its foreign asset. */
  lemma CallAnswers(s: State, op: Op)
    ensures var o, known := Call(s, op), op.id in s.foreignOf;
            match op
            case Create(foreign, id, accepted) =>
              if known then o == Err(AssetAlreadyExists)
              else if !accepted then o == Err(FungiblesFailed)
              else
                && o.Ok? && ConvertBack(o.value, id) == Some(foreign) && Convert(o.value, foreign) == Some(id)
                && SameElsewhere(s, o.value, id, {foreign})
            case Change(id, foreign) =>
              if !known then o == Err(AssetDoesNotExist)
              else
                && o.Ok? && ConvertBack(o.value, id) == Some(foreign)
                && Convert(o.value, foreign) == (if foreign == s.foreignOf[id] then None else Some(id))
                && Convert(o.value, s.foreignOf[id]) == None
                && SameElsewhere(s, o.value, id, {foreign, s.foreignOf[id]})
            case Remove(id) =>
              if !known then o == Err(AssetDoesNotExist)
              else
                && o.Ok? && ConvertBack(o.value, id) == None && Convert(o.value, s.foreignOf[id]) == None
                && SameElsewhere(s, o.value, id, {s.foreignOf[id]})
            case Destroy(id, accepted) =>
              if !known then o == Err(AssetDoesNotExist)
              else if !accepted then o == Err(FungiblesFailed)
              else
                && o.Ok? && ConvertBack(o.value, id) == None && Convert(o.value, s.foreignOf[id]) == None
                && SameElsewhere(s, o.value, id, {s.foreignOf[id]})
  {
  }

  /** Converting there can always be undone. */
  ghost predicate Sound(s: State) {
    forall f :: f in s.idOf ==> s.idOf[f] in s.foreignOf && s.foreignOf[s.idOf[f]] == f
  }

  /** So can converting back. */
  ghost predicate Inverse(s: State) {
    Sound(s) && forall id :: id in s.foreignOf ==> s.foreignOf[id] in s.idOf && s.idOf[s.foreignOf[id]] == id
  }

  lemma StepKeepsSound(s: State, op: Op)
    requires Sound(s)
    ensures Sound(Step(s, op))
  {
  }

  /** An accepted call keeps the two maps inverse to each other exactly when it does not bring in a foreign
      asset that is associated already, its own included. */
  lemma StepKeepsInverseIff(s: State, op: Op)
    requires Inverse(s)
    requires Call(s, op).Ok?
    ensures Inverse(Step(s, op)) <==> ((op.Create? || op.Change?) ==> op.foreign !in s.idOf)
  {
    var s' := Step(s, op);
    if (op.Create? || op.Change?) && op.foreign in s.idOf {
      var other := s.idOf[op.foreign];
      if op.Change? && other == op.id {
        assert op.id in s'.foreignOf && s'.foreignOf[op.id] == op.foreign && op.foreign !in s'.idOf;
      } else {
        assert other in s'.foreignOf && s'.foreignOf[other] == op.foreign;
      }
    } else if op.Create? || op.Change? {
      forall id | id in s'.foreignOf
        ensures s'.foreignOf[id] in s'.idOf && s'.idOf[s'.foreignOf[id]] == id
      {
        if id != op.id {
          assert s.foreignOf[id] in s.idOf;
        }
      }
    } else {
      forall id | id in s'.foreignOf
        ensures s'.foreignOf[id] in s'.idOf && s'.idOf[s'.foreignOf[id]] == id
      {
        assert id in s.foreignOf && s.idOf[s.foreignOf[id]] == id && s.idOf[s.foreignOf[op.id]] == op.id;
      }
    }
  }

  /** On every run from empty maps, whatever is created, changed, removed or destroyed. */
  lemma {:induction false} ConvertRoundTrips(ops: seq<Op>, foreign: ForeignAsset, id: AssetId)
    ensures var s := Run(State(map[], map[]), ops);
            Sound(s) && (Convert(s, foreign) == Some(id) ==> ConvertBack(s, id) == Some(foreign))
  {
    if ops == [] {
    } else {
      ConvertRoundTrips(ops[..|ops| - 1], foreign, id);
      StepKeepsSound(Run(State(map[], map[]), ops[..|ops| - 1]), ops[|ops| - 1]);
    }
  }

  /** The call brings in a foreign asset that is associated already. */
  predicate Reuses(s: State, op: Op) {
    (op.Create? || op.Change?) && Call(s, op).Ok? && op.foreign in s.idOf
  }

  ghost function InverseAfter(s: State): seq<Op> -> bool {
    ops => Inverse(Run(s, ops))
  }

  ghost function BringsNew(s: State): (seq<Op>, Op) -> bool {
    (ops, op) => !Reuses(Run(s, ops), op)
  }

  /** The maps are inverse to each other throughout a run exactly when no accepted call brings in a foreign
      asset that is associated already. */
  lemma MapsStayInverseIff(s: State, ops: seq<Op>)
    requires Inverse(s)
    ensures (forall i :: 0 <= i <= |ops| ==> Inverse(Run(s, ops[..i])))
            <==> (forall i :: 0 <= i < |ops| ==> !Reuses(Run(s, ops[..i]), ops[i]))
  {
    var p, q := InverseAfter(s), BringsNew(s);
    forall ops, op | p(ops)
      ensures p(ops + [op]) <==> q(ops, op)
    {
      assert (ops + [op])[..|ops|] == ops;
      if Call(Run(s, ops), op).Ok? {
        StepKeepsInverseIff(Run(s, ops), op);
      }
    }
    ThroughoutIff(ops, p, q);
    assert AfterEvery(ops, p) <==> forall i :: 0 <= i <= |ops| ==> Inverse(Run(s, ops[..i]));
  }

  /** Creating a second asset for a foreign one, or changing an asset to the foreign one it has, leaves an asset
      that `convert` does not lead back to. */
  lemma ReuseBreaksInverse(f: ForeignAsset)
    ensures var s := Run(State(map[], map[]), [Create(f, 1, true), Create(f, 2, true)]);
            ConvertBack(s, 1) == Some(f) && Convert(s, f) == Some(2)
    ensures var s := Run(State(map[], map[]), [Create(f, 1, true), Change(1, f)]);
            ConvertBack(s, 1) == Some(f) && Convert(s, f) == None
  {
    assert [Create(f, 1, true), Create(f, 2, true)][..1] == [Create(f, 1, true)];
    assert [Create(f, 1, true), Change(1, f)][..1] == [Create(f, 1, true)];
    assert Run(State(map[], map[]), [Create(f, 1, true)]) == State(map[1 := f], map[f := 1]) by {
      assert [Create(f, 1, true)][..0] == [];
    }
  }

  /** What inverse maps mean: both conversions undo each other. */
  lemma InverseConverts(s: State)
    ensures Inverse(s)
            <==> forall f: ForeignAsset, id: AssetId :: Convert(s, f) == Some(id) <==> ConvertBack(s, id) == Some(f)
  {
    if forall f: ForeignAsset, id: AssetId :: Convert(s, f) == Some(id) <==> ConvertBack(s, id) == Some(f) {
      forall f | f in s.idOf
        ensures s.idOf[f] in s.foreignOf && s.foreignOf[s.idOf[f]] == f
      {
        assert Convert(s, f) == Some(s.idOf[f]);
      }
      forall id | id in s.foreignOf
        ensures s.foreignOf[id] in s.idOf && s.idOf[s.foreignOf[id]] == id
      {
        assert ConvertBack(s, id) == Some(s.foreignOf[id]);
      }
    }
  }

  // ---- The pallet -----------------------------------------------------------------------------

  /** An asset listed at genesis. */
  datatype GenesisAsset = GenesisAsset(foreign: ForeignAsset, id: AssetId, accepted: bool)

  function Creations(assets: seq<GenesisAsset>): seq<Op> {
    seq(|assets|, i requires 0 <= i < |assets| => Create(assets[i].foreign, assets[i].id, assets[i].accepted))
  }

  /** The asset is accepted and its id is new, also among those listed before it. */
  ghost predicate Creatable(s: State, assets: seq<GenesisAsset>, i: nat)
    requires i < |assets|
  {
    && assets[i].accepted
    && assets[i].id !in s.foreignOf
    && forall k :: 0 <= k < i ==> assets[k].id != assets[i].id
  }

  class Pallet {
    var foreignOf: map<AssetId, ForeignAsset>
    var idOf: map<ForeignAsset, AssetId>

    ghost function Contents(): State
      reads this
    {
      State(foreignOf, idOf)
    }

    constructor ()
      ensures Contents() == State(map[], map[])
    {
      foreignOf, idOf := map[], map[];
    }

    /** Genesis creates its assets in turn and panics when one of them cannot be created, which leaves
        nothing behind. */
    method Build(assets: seq<GenesisAsset>) returns (valid: bool)
      modifies this
      ensures valid <==> forall i :: 0 <= i < |assets| ==> Creatable(old(Contents()), assets, i)
      ensures Contents() == if valid then Run(old(Contents()), Creations(assets)) else old(Contents())
    {
      ghost var ops := Creations(assets);
      var foreignBefore, idBefore := foreignOf, idOf;
      for i := 0 to |assets|
        invariant Contents() == Run(old(Contents()), ops[..i])
        invariant forall id :: id in foreignOf <==>
                    id in old(foreignOf) || exists k :: 0 <= k < i && assets[k].id == id
        invariant forall k :: 0 <= k < i ==> Creatable(old(Contents()), assets, k)
      {
        assert ops[..i + 1][..i] == ops[..i];
        var error := CreateForeignAsset(assets[i].foreign, assets[i].id, assets[i].accepted);
        if error.Some? {
          assert !Creatable(old(Contents()), assets, i);
          foreignOf, idOf := foreignBefore, idBefore;
          return false;
        }
      }
      assert ops[..|assets|] == ops;
      valid := true;
    }

    method CreateForeignAsset(foreign: ForeignAsset, id: AssetId, accepted: bool) returns (error: Option<Error>)
      modifies this
      ensures Follows(Call(old(Contents()), Create(foreign, id, accepted)), old(Contents()), Contents(), error)
    {
      if id in foreignOf {
        return Some(AssetAlreadyExists);
      }
      if !accepted {
        return Some(FungiblesFailed);
      }
      foreignOf := foreignOf[id := foreign];
      idOf := idOf[foreign := id];
      error := None;
    }

    method ChangeExistingAssetType(id: AssetId, foreign: ForeignAsset) returns (error: Option<Error>)
      modifies this
      ensures Follows(Call(old(Contents()), Change(id, foreign)), old(Contents()), Contents(), error)
    {
      if id !in foreignOf {
        return Some(AssetDoesNotExist);
      }
      var previous := foreignOf[id];
      foreignOf := foreignOf[id := foreign];
      idOf := idOf[foreign := id];
      idOf := idOf - {previous};
      error := None;
    }

    method RemoveExistingAssetType(id: AssetId) returns (error: Option<Error>)
      modifies this
      ensures Follows(Call(old(Contents()), Remove(id)), old(Contents()), Contents(), error)
    {
      if id !in foreignOf {
        return Some(AssetDoesNotExist);
      }
      var foreign := foreignOf[id];
      foreignOf := foreignOf - {id};
      idOf := idOf - {foreign};
      error := None;
    }

    method DestroyForeignAsset(id: AssetId, accepted: bool) returns (error: Option<Error>)
      modifies this
      ensures Follows(Call(old(Contents()), Destroy(id, accepted)), old(Contents()), Contents(), error)
    {
      if id !in foreignOf {
        return Some(AssetDoesNotExist);
      }
      if !accepted {
        return Some(FungiblesFailed);
      }
      error := RemoveExistingAssetType(id);
    }
  }
}
