/** Migrations that run once, within the weight of a block, while XCM execution is paused. */
module Migrations {
  import opened Common

  type Name = Bytes

  datatype Weight = Weight(refTime: u64, proofSize: u64)

  /** A migration is known by its name; it is granted a weight and reports what it consumed. */
  datatype Migration = Migration(name: Name, migrate: Weight -> Weight)

  const ZERO := Weight(0, 0)

  function Add(a: Weight, b: Weight): Weight {
    Weight(SaturatingAdd(a.refTime, b.refTime, U64_MAX), SaturatingAdd(a.proofSize, b.proofSize, U64_MAX))
  }

  /** Plain subtraction of 64-bit numbers: an underflow wraps around. */
  function Sub(a: Weight, b: Weight): Weight {
    Weight((a.refTime - b.refTime) % (U64_MAX + 1), (a.proofSize - b.proofSize) % (U64_MAX + 1))
  }

  function SaturatingSub(a: Weight, b: Weight): Weight {
    Weight(Max(a.refTime - b.refTime, 0), Max(a.proofSize - b.proofSize, 0))
  }

  /** At most as much in both dimensions. */
  predicate Within(a: Weight, b: Weight) {
    a.refTime <= b.refTime && a.proofSize <= b.proofSize
  }

  predicate IsDone(done: map<Name, bool>, name: Name) {
    name in done && done[name]
  }

  /** The weight a step may use.  Only the time dimension is looked at. */
  function Granted(available: Weight, used: Weight): Weight {
    if available.refTime > used.refTime then Sub(available, used) else ZERO
  }

  /** A migration that ran. */
  datatype Ran = Ran(name: Name, granted: Weight, consumed: Weight)

  datatype Progress = Progress(done: map<Name, bool>, weight: Weight, ran: seq<Ran>)

  function Advance(p: Progress, available: Weight, m: Migration): Progress {
    if IsDone(p.done, m.name) then p
    else
      var granted := Granted(available, p.weight);
      var consumed := m.migrate(granted);
      Progress(p.done[m.name := true], Add(p.weight, consumed), p.ran + [Ran(m.name, granted, consumed)])
  }

  /** The loop over the list of a runtime. */
  function Perform(done: map<Name, bool>, available: Weight, list: seq<Migration>): Progress {
    if list == [] then Progress(done, ZERO, [])
    else Advance(Perform(done, available, list[..|list| - 1]), available, list[|list| - 1])
  }

  /** Genesis counts everything that is listed as done. */
  function MarkAll(done: map<Name, bool>, list: seq<Migration>): map<Name, bool> {
    if list == [] then done else MarkAll(done, list[..|list| - 1])[list[|list| - 1].name := true]
  }

  /** An upgrade brings its own list and the weight it may use. */
  datatype Upgrade = Upgrade(list: seq<Migration>, available: Weight)

  function DoneAfter(done: map<Name, bool>, upgrades: seq<Upgrade>): map<Name, bool> {
    if upgrades == [] then done
    else
      var u := upgrades[|upgrades| - 1];
      Perform(DoneAfter(done, upgrades[..|upgrades| - 1]), u.available, u.list).done
  }

  /** Everything that ran over a sequence of upgrades, in order. */
  function History(done: map<Name, bool>, upgrades: seq<Upgrade>): seq<Ran> {
    if upgrades == [] then []
    else
      var init, u := upgrades[..|upgrades| - 1], upgrades[|upgrades| - 1];
      History(done, init) + Perform(DoneAfter(done, init), u.available, u.list).ran
  }

  // ---- Run once -------------------------------------------------------------------------------

  /** What ran had not been done before, is done now, and ran once; nothing done is undone, and nothing
      else becomes done. */
  ghost predicate RanOnce(before: map<Name, bool>, after: map<Name, bool>, ran: seq<Ran>) {
    && (forall i :: 0 <= i < |ran| ==> !IsDone(before, ran[i].name) && IsDone(after, ran[i].name))
    && (forall i, j :: 0 <= i < j < |ran| ==> ran[i].name != ran[j].name)
    && (forall n :: IsDone(before, n) ==> IsDone(after, n))
    && (forall n :: IsDone(after, n) && !IsDone(before, n) ==> exists i :: 0 <= i < |ran| && ran[i].name == n)
  }

  lemma RanOnceCompose(a: map<Name, bool>, b: map<Name, bool>, c: map<Name, bool>, first: seq<Ran>, second: seq<Ran>)
    requires RanOnce(a, b, first) && RanOnce(b, c, second)
    ensures RanOnce(a, c, first + second)
  {
    var all := first + second;
    forall n | IsDone(c, n) && !IsDone(a, n)
      ensures exists i :: 0 <= i < |all| && all[i].name == n
    {
      if IsDone(b, n) {
        var i :| 0 <= i < |first| && first[i].name == n;
        assert all[i].name == n;
      } else {
        var i :| 0 <= i < |second| && second[i].name == n;
        assert all[|first| + i].name == n;
      }
    }
  }

  lemma AdvanceRunsOnce(before: map<Name, bool>, p: Progress, available: Weight, m: Migration)
    requires RanOnce(before, p.done, p.ran)
    ensures var p' := Advance(p, available, m);
            && RanOnce(before, p'.done, p'.ran)
            && IsDone(p'.done, m.name)
            && (forall n :: IsDone(p.done, n) ==> IsDone(p'.done, n))
  {
    if !IsDone(p.done, m.name) {
      var p' := Advance(p, available, m);
      var ran := [Ran(m.name, Granted(available, p.weight), m.migrate(Granted(available, p.weight)))];
      assert ran[0].name == m.name;
      RanOnceCompose(before, p.done, p'.done, p.ran, ran);
    }
  }

  lemma {:induction false} PerformRunsOnce(done: map<Name, bool>, available: Weight, list: seq<Migration>)
    ensures var p := Perform(done, available, list);
            RanOnce(done, p.done, p.ran) && forall i :: 0 <= i < |list| ==> IsDone(p.done, list[i].name)
  {
    if list == [] {
    } else {
      var init := list[..|list| - 1];
      PerformRunsOnce(done, available, init);
      AdvanceRunsOnce(done, Perform(done, available, init), available, list[|list| - 1]);
      var p := Perform(done, available, list);
      forall i | 0 <= i < |list|
        ensures IsDone(p.done, list[i].name)
      {
        if i < |init| {
          assert init[i] == list[i];
        }
      }
    }
  }

  /** Over any sequence of upgrades with any lists, no name runs twice, no name that was done before runs at
      all, and after each upgrade all names it lists are done. */
  lemma {:induction false} MigrationsRunOnce(done: map<Name, bool>, upgrades: seq<Upgrade>)
    ensures RanOnce(done, DoneAfter(done, upgrades), History(done, upgrades))
    ensures upgrades != [] ==>
              var list := upgrades[|upgrades| - 1].list;
              forall i :: 0 <= i < |list| ==> IsDone(DoneAfter(done, upgrades), list[i].name)
  {
    if upgrades == [] {
    } else {
      var init, u := upgrades[..|upgrades| - 1], upgrades[|upgrades| - 1];
      MigrationsRunOnce(done, init);
      var mid := DoneAfter(done, init);
      PerformRunsOnce(mid, u.available, u.list);
      RanOnceCompose(done, mid, DoneAfter(done, upgrades), History(done, init), Perform(mid, u.available, u.list).ran);
    }
  }

  /** What is listed at genesis never runs. */
  lemma GenesisMigrationsNeverRun(genesis: seq<Migration>, upgrades: seq<Upgrade>, i: nat, k: nat)
    requires i < |genesis|
    requires k < |History(MarkAll(map[], genesis), upgrades)|
    ensures History(MarkAll(map[], genesis), upgrades)[k].name != genesis[i].name
  {
    MarkAllMarksOnly(map[], genesis, genesis[i].name);
    MigrationsRunOnce(MarkAll(map[], genesis), upgrades);
  }

  ghost predicate Lists(list: seq<Migration>, n: Name) {
    exists k :: 0 <= k < |list| && list[k].name == n
  }

  lemma ListsSplits(list: seq<Migration>, n: Name)
    requires list != []
    ensures Lists(list, n) <==> Lists(list[..|list| - 1], n) || list[|list| - 1].name == n
  {
    var init := list[..|list| - 1];
    assert forall k :: 0 <= k < |init| ==> init[k] == list[k];
    if Lists(init, n) {
      var k :| 0 <= k < |init| && init[k].name == n;
      assert list[k].name == n;
    }
  }

  /** Genesis marks exactly what it lists. */
  lemma {:induction false} MarkAllMarksOnly(done: map<Name, bool>, list: seq<Migration>, n: Name)
    ensures IsDone(MarkAll(done, list), n) <==> IsDone(done, n) || Lists(list, n)
  {
    if list == [] {
    } else {
      MarkAllMarksOnly(done, list[..|list| - 1], n);
      ListsSplits(list, n);
    }
  }

  /** After an upgrade exactly the names done before and those listed are done. */
  lemma {:induction false} PerformDone(done: map<Name, bool>, available: Weight, list: seq<Migration>, n: Name)
    ensures IsDone(Perform(done, available, list).done, n) <==> IsDone(done, n) || Lists(list, n)
  {
    if list == [] {
    } else {
      PerformDone(done, available, list[..|list| - 1], n);
      ListsSplits(list, n);
    }
  }

  /** The migrations of a list that are not marked as done, nor listed before, in order. */
  ghost function ToRun(done: map<Name, bool>, list: seq<Migration>): seq<Migration> {
    if list == [] then []
    else
      var init, m := list[..|list| - 1], list[|list| - 1];
      var skip := (m.name in done && done[m.name]) || Lists(init, m.name);
      ToRun(done, init) + if skip then [] else [m]
  }

  /** The sum of what was consumed, in 64 bits that saturate. */
  function Charged(ran: seq<Ran>): Weight {
    if ran == [] then Weight(0, 0)
    else
      var before, w := Charged(ran[..|ran| - 1]), ran[|ran| - 1].consumed;
      Weight(Min(before.refTime + w.refTime, U64_MAX), Min(before.proofSize + w.proofSize, U64_MAX))
  }

  /** Run `k` is of the k-th migration to run.  It was granted what the ones before it left, or nothing if they
      left no time, and was charged with what it reported for that grant. */
  ghost predicate RanAsDue(available: Weight, ran: seq<Ran>, todo: seq<Migration>, k: nat)
    requires k < |ran| == |todo|
  {
    var used := Charged(ran[..k]);
    && ran[k].name == todo[k].name
    && ran[k].consumed == todo[k].migrate(ran[k].granted)
    && if available.refTime > used.refTime then
         && ran[k].granted.refTime == available.refTime - used.refTime
         && ran[k].granted.proofSize == (available.proofSize - used.proofSize) % (U64_MAX + 1)
       else ran[k].granted == Weight(0, 0)
  }

  /** What ran is what was not done, in the order of the list, each granted and charged as is due. */
  lemma {:induction false} PerformRunsInOrder(done: map<Name, bool>, available: Weight, list: seq<Migration>)
    ensures var p, todo := Perform(done, available, list), ToRun(done, list);
            && |p.ran| == |todo|
            && p.weight == Charged(p.ran)
            && forall k: nat :: k < |todo| ==> RanAsDue(available, p.ran, todo, k)
  {
    if list == [] {
    } else {
      var init, m := list[..|list| - 1], list[|list| - 1];
      PerformRunsInOrder(done, available, init);
      PerformDone(done, available, init, m.name);
      var before, p := Perform(done, available, init), Perform(done, available, list);
      if !IsDone(before.done, m.name) {
        AdvanceRunsNext(available, before, m, ToRun(done, init));
      } else {
        assert ToRun(done, list) == ToRun(done, init);
      }
    }
  }

  lemma AdvanceRunsNext(available: Weight, p: Progress, m: Migration, todo: seq<Migration>)
    requires !IsDone(p.done, m.name)
    requires |p.ran| == |todo| && p.weight == Charged(p.ran)
    requires forall k: nat :: k < |todo| ==> RanAsDue(available, p.ran, todo, k)
    ensures var p', todo' := Advance(p, available, m), todo + [m];
            && |p'.ran| == |todo'|
            && p'.weight == Charged(p'.ran)
            && forall k: nat :: k < |todo'| ==> RanAsDue(available, p'.ran, todo', k)
  {
    var p', todo' := Advance(p, available, m), todo + [m];
    assert p'.ran[..|p.ran|] == p.ran;
    forall k: nat | k < |todo'|
      ensures RanAsDue(available, p'.ran, todo', k)
    {
      if k < |todo| {
        assert RanAsDue(available, p.ran, todo, k) && p'.ran[..k] == p.ran[..k];
      }
    }
  }

  // ---- Weight ---------------------------------------------------------------------------------

  function Consumed(ran: seq<Ran>): (nat, nat) {
    if ran == [] then (0, 0)
    else
      var before, w := Consumed(ran[..|ran| - 1]), ran[|ran| - 1].consumed;
      (before.0 + w.refTime, before.1 + w.proofSize)
  }

  /** A grant is what is really left exactly when the proof size used so far fits as well; otherwise the
      subtraction wraps and grants more than there was to begin with. */
  lemma GrantIsRightIff(available: Weight, used: Weight)
    requires available.refTime > used.refTime
    ensures Granted(available, used).refTime == available.refTime - used.refTime
    ensures used.proofSize <= available.proofSize
            <==> Granted(available, used).proofSize == available.proofSize - used.proofSize
    ensures used.proofSize <= available.proofSize <==> Granted(available, used).proofSize <= available.proofSize
  {
  }

  /** The weight used is the exact sum of what was consumed and fits, and so did every grant. */
  ghost predicate Respected(p: Progress, available: Weight) {
    && Within(p.weight, available)
    && (p.weight.refTime, p.weight.proofSize) == Consumed(p.ran)
    && (forall k :: 0 <= k < |p.ran| ==> Within(p.ran[k].granted, available))
  }

  predicate Fits(total: (nat, nat), available: Weight) {
    total.0 <= available.refTime && total.1 <= available.proofSize
  }

  lemma GrantFits(available: Weight, used: Weight)
    requires Within(used, available)
    ensures var g := Granted(available, used);
            g.refTime <= available.refTime - used.refTime && g.proofSize <= available.proofSize - used.proofSize
  {
  }

  lemma AdvanceRespectsIff(p: Progress, available: Weight, m: Migration)
    requires Respected(p, available)
    ensures var p' := Advance(p, available, m);
            Respected(p', available) <==> Fits(Consumed(p'.ran), available)
    ensures var p' := Advance(p, available, m);
            StaysWithinGrants(p'.ran) ==> Fits(Consumed(p'.ran), available)
  {
    if !IsDone(p.done, m.name) {
      var p' := Advance(p, available, m);
      GrantFits(available, p.weight);
      assert p'.ran[..|p'.ran| - 1] == p.ran;
      assert p'.ran[|p.ran|].consumed == m.migrate(Granted(available, p.weight));
    }
  }

  /** The loop keeps to the available weight, with no saturation and no wrapped grant, exactly when the plain
      sum of what the migrations consumed fits, in both dimensions. */
  lemma {:induction false} WeightIsRespectedIff(done: map<Name, bool>, available: Weight, list: seq<Migration>)
    ensures var p := Perform(done, available, list);
            Respected(p, available) <==> Fits(Consumed(p.ran), available)
  {
    if list == [] {
      assert Respected(Perform(done, available, list), available);
    } else {
      var init, m := list[..|list| - 1], list[|list| - 1];
      var before, p := Perform(done, available, init), Perform(done, available, list);
      if Fits(Consumed(p.ran), available) {
        assert p != before ==> p.ran[..|p.ran| - 1] == before.ran;
        WeightIsRespectedIff(done, available, init);
        AdvanceRespectsIff(before, available, m);
      }
    }
  }

  /** Every migration consumed at most what it was granted, in both dimensions. */
  ghost predicate StaysWithinGrants(ran: seq<Ran>) {
    forall k :: 0 <= k < |ran| ==> Within(ran[k].consumed, ran[k].granted)
  }

  /** It does so whenever each migration that ran consumed at most what it was really granted. */
  lemma {:induction false} WeightIsRespected(done: map<Name, bool>, available: Weight, list: seq<Migration>)
    requires StaysWithinGrants(Perform(done, available, list).ran)
    ensures Respected(Perform(done, available, list), available)
  {
    if list == [] {
      assert Consumed([]) == (0, 0);
    } else {
      var init, m := list[..|list| - 1], list[|list| - 1];
      var before, p := Perform(done, available, init), Perform(done, available, list);
      assert forall k :: 0 <= k < |before.ran| ==> before.ran[k] == p.ran[k];
      WeightIsRespected(done, available, init);
      AdvanceRespectsIff(before, available, m);
    }
  }

  /** Otherwise it can go wrong: one migration that overruns its proof size makes the next grant
      exceed the weight of the whole upgrade. */
  lemma OverrunInflatesNextGrant(a: Name, b: Name)
    requires a != b
    ensures var greedy := Migration(a, w => Weight(0, 11));
            var next := Migration(b, w => ZERO);
            var ran := Perform(map[], Weight(10, 10), [greedy, next]).ran;
            |ran| == 2 && ran[1].granted == Weight(10, U64_MAX)
  {
    var greedy := Migration(a, w => Weight(0, 11));
    var next := Migration(b, w => ZERO);
    assert [greedy, next][..1] == [greedy];
    assert Perform(map[], Weight(10, 10), [greedy][..0]) == Progress(map[], ZERO, []);
    var p := Perform(map[], Weight(10, 10), [greedy]);
    assert p == Progress(map[a := true], Weight(0, 11), [Ran(a, Weight(10, 10), Weight(0, 11))]);
  }

  // ---- The pallet -----------------------------------------------------------------------------

  datatype XcmCall = Suspend | Resume

  /** The calls to the XCM manager that a block must make. */
  function PauseCalls(upgraded: bool): seq<XcmCall> {
    if upgraded then [Suspend, Resume] else []
  }

  class Pallet {
    var done: map<Name, bool>
    var fullyUpgraded: bool
    var shouldPauseXcm: bool
    var xcmCalls: seq<XcmCall>

    constructor (list: seq<Migration>)
      ensures done == MarkAll(map[], list)
      ensures !fullyUpgraded && !shouldPauseXcm && xcmCalls == []
    {
      done, fullyUpgraded, shouldPauseXcm, xcmCalls := map[], false, false, [];
      new;
      for i := 0 to |list|
        invariant done == MarkAll(map[], list[..i])
        invariant !fullyUpgraded && !shouldPauseXcm && xcmCalls == []
      {
        assert list[..i + 1][..i] == list[..i];
        done := done[list[i].name := true];
      }
      assert list[..|list|] == list;
    }

    method PerformRuntimeUpgrades(available: Weight, writeCost: Weight, list: seq<Migration>)
      returns (weight: Weight, ghost ran: seq<Ran>)
      modifies this`done, this`fullyUpgraded
      ensures var p := Perform(old(done), available, list);
              && done == p.done && ran == p.ran
              && weight == Weight(Min(p.weight.refTime + writeCost.refTime, U64_MAX),
                                  Min(p.weight.proofSize + writeCost.proofSize, U64_MAX))
      ensures fullyUpgraded
    {
      weight := ZERO;
      ran := [];
      for i := 0 to |list|
        invariant Progress(done, weight, ran) == Perform(old(done), available, list[..i])
      {
        assert list[..i + 1][..i] == list[..i];
        var migration := list[i];
        if !IsDone(done, migration.name) {
          var availableForStep := if available.refTime > weight.refTime then Sub(available, weight) else ZERO;
          var consumed := migration.migrate(availableForStep);
          ran := ran + [Ran(migration.name, availableForStep, consumed)];
          done := done[migration.name := true];
          weight := Add(weight, consumed);
        }
      }
      assert list[..|list|] == list;
      fullyUpgraded := true;
      weight := Add(weight, writeCost);
    }

    /** The upgrade claims the whole block, whatever its migrations consumed. */
    method OnRuntimeUpgrade(maxBlock: Weight, writeCost: Weight, list: seq<Migration>)
      returns (claimed: Weight, ghost ran: seq<Ran>)
      modifies this`done, this`fullyUpgraded, this`shouldPauseXcm
      ensures var left := Weight(Max(maxBlock.refTime - writeCost.refTime, 0),
                                 Max(maxBlock.proofSize - writeCost.proofSize, 0));
              var p := Perform(old(done), left, list);
              done == p.done && ran == p.ran
      ensures fullyUpgraded && shouldPauseXcm
      ensures claimed == maxBlock
    {
      shouldPauseXcm := true;
      var weight := ZERO;
      fullyUpgraded := false;
      weight := Add(weight, writeCost);
      var used, r := PerformRuntimeUpgrades(SaturatingSub(maxBlock, weight), writeCost, list);
      ran := r;
      weight := Add(weight, used);
      claimed := maxBlock;
    }

    /** The manager is told; that it refuses is only reported. */
    method OnInitialize()
      modifies this`xcmCalls
      ensures xcmCalls == old(xcmCalls) + if shouldPauseXcm then [Suspend] else []
    {
      if shouldPauseXcm {
        xcmCalls := xcmCalls + [Suspend];
      }
    }

    method OnFinalize()
      modifies this`xcmCalls, this`shouldPauseXcm
      ensures xcmCalls == old(xcmCalls) + if old(shouldPauseXcm) then [Resume] else []
      ensures !shouldPauseXcm
    {
      if shouldPauseXcm {
        xcmCalls := xcmCalls + [Resume];
        shouldPauseXcm := false;
      }
    }

    /** A block suspends and resumes XCM execution exactly when it carries an upgrade, and leaves the flag
        clear for the next one. */
    method ExecuteBlock(upgrade: Option<seq<Migration>>, maxBlock: Weight, writeCost: Weight)
      requires !shouldPauseXcm
      modifies this
      ensures xcmCalls == old(xcmCalls) + PauseCalls(upgrade.Some?)
      ensures !shouldPauseXcm
    {
      if upgrade.Some? {
        var _, _ := OnRuntimeUpgrade(maxBlock, writeCost, upgrade.value);
      }
      OnInitialize();
      OnFinalize();
    }
  }
}
