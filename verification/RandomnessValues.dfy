/** The values of results: where they come from, and exactly when they can be replaced. */
module RandomnessValues {
  import opened Common
  import opened RandomnessTypes
  import opened Randomness
  import opened RandomnessRuns
  import opened RandomnessFilling

  // ---- Where values come from -----------------------------------------------------------------

  /** The event supplies `v` to `key`: it opens the key's block with that output, or is the inherent that
      reports the key's epoch with that randomness.  `m` is the machine after the event. */
  predicate SuppliedBy(m: Machine, e: Event, key: RequestType, v: Hash) {
    match e
    case Begin(_, vrf) => key == Local(m.state.blockNumber) && v == vrf
    case Do(Inherent(epoch, Some(r))) => key == BabeEpoch(epoch) && v == r
    case _ => false
  }

  lemma NextSupplies(chain: Chain, m: Machine, e: Event, key: RequestType)
    requires Next(chain, m, e).Some?
    requires Filled(Next(chain, m, e).value.state.results, key)
    ensures var m' := Next(chain, m, e).value;
            || SuppliedBy(m', e, key, m'.state.results[key].randomness.value)
            || (Filled(m.state.results, key) && m.state.results[key].randomness == m'.state.results[key].randomness)
  {
    if e.Do? {
      ApplyResults(chain, m.cfg, m.state, e.op, key);
    }
  }

  /** Whatever value a result holds, it is the output of exactly the block, or the randomness of exactly the
      epoch, that the result stands for. */
  lemma {:induction false} ValuesComeFromTheirSource(chain: Chain, m: Machine, events: seq<Event>, key: RequestType)
    requires Genesis(m)
    requires Run(chain, m, events).Some?
    requires Filled(Run(chain, m, events).value.state.results, key)
    ensures var v := Run(chain, m, events).value.state.results[key].randomness.value;
            exists i: nat :: i < |events| && SuppliedBy(At(chain, m, events, i + 1), events[i], key, v)
  {
    if events == [] {
      assert false;
    } else {
      var n, v := |events| - 1, Run(chain, m, events).value.state.results[key].randomness.value;
      AtPrefix(chain, m, events);
      NextSupplies(chain, Run(chain, m, events[..n]).value, events[n], key);
      if SuppliedBy(At(chain, m, events, n + 1), events[n], key, v) {
      } else {
        ValuesComeFromTheirSource(chain, m, events[..n], key);
        var i: nat :| i < n && SuppliedBy(At(chain, m, events[..n], i + 1), events[..n][i], key, v);
        assert At(chain, m, events[..n], i + 1) == At(chain, m, events, i + 1);
      }
    }
  }

  // ---- When a value is replaced ---------------------------------------------------------------

  /** The event reports the key's epoch as a new one, with another value than the one held. */
  predicate Replaces(s: State, e: Event, key: RequestType) {
    && key in s.results
    && e.Do? && e.op.Inherent? && e.op.randomness.Some?
    && key == BabeEpoch(e.op.epoch)
    && e.op.epoch > s.relayEpoch
    && e.op.randomness != s.results[key].randomness
  }

  /** No local result is filled before its block. */
  ghost predicate LocalNotEarly(s: State) {
    forall d: nat :: Local(d) in s.results && d > s.blockNumber ==> s.results[Local(d)].randomness.None?
  }

  /** No epoch result is filled before its epoch. */
  ghost predicate BabeNotEarly(s: State) {
    forall e: nat :: BabeEpoch(e) in s.results && e > s.relayEpoch ==> s.results[BabeEpoch(e)].randomness.None?
  }

  /** A value that is held, and whose result stays in storage, changes by exactly such an event. */
  lemma NextChangesValueIff(chain: Chain, m: Machine, e: Event, key: RequestType)
    requires LocalNotEarly(m.state)
    requires Next(chain, m, e).Some?
    requires Filled(m.state.results, key) && key in Next(chain, m, e).value.state.results
    ensures Next(chain, m, e).value.state.results[key].randomness != m.state.results[key].randomness
            <==> Replaces(m.state, e, key)
    ensures Filled(Next(chain, m, e).value.state.results, key)
  {
    if e.Do? {
      ApplyResults(chain, m.cfg, m.state, e.op, key);
    }
  }

  lemma ApplyKeepsNotEarly(chain: Chain, cfg: Config, s: State, op: Op)
    ensures LocalNotEarly(s) ==> LocalNotEarly(Apply(chain, cfg, s, op))
    ensures BabeNotEarly(s) && EpochsAreMonotone(Machine(s, cfg, true), Do(op)) ==>
              BabeNotEarly(Apply(chain, cfg, s, op))
  {
    var s' := Apply(chain, cfg, s, op);
    forall k | k in s'.results
      ensures k !in s.results ==> s'.results[k].randomness.None?
      ensures k in s.results && s'.results[k].randomness != s.results[k].randomness ==>
                op.Inherent? && k == BabeEpoch(op.epoch)
      ensures s'.blockNumber == s.blockNumber
      ensures op.Inherent? ==> s'.relayEpoch == op.epoch
      ensures !op.Inherent? ==> s'.relayEpoch == s.relayEpoch
    {
      ApplyResults(chain, cfg, s, op, k);
    }
  }

  /** The relay epoch never goes back. */
  predicate EpochsAreMonotone(m: Machine, e: Event) {
    e.Do? && e.op.Inherent? ==> e.op.epoch >= m.state.relayEpoch
  }

  /** On every run, whatever the delays, no local result is filled early. */
  lemma {:induction false} RunKeepsLocalNotEarly(chain: Chain, m: Machine, events: seq<Event>)
    requires Genesis(m)
    requires Run(chain, m, events).Some?
    ensures LocalNotEarly(Run(chain, m, events).value.state)
  {
    if events == [] {
    } else {
      RunKeepsLocalNotEarly(chain, m, events[..|events| - 1]);
      var m', e := Run(chain, m, events[..|events| - 1]).value, events[|events| - 1];
      if e.Do? {
        ApplyKeepsNotEarly(chain, m'.cfg, m'.state, e.op);
      }
    }
  }

  /** With monotone epochs, no epoch result is filled early either. */
  lemma {:induction false} RunKeepsBabeNotEarly(chain: Chain, m: Machine, events: seq<Event>)
    requires Genesis(m)
    requires Run(chain, m, events).Some?
    requires Throughout(chain, m, events, EpochsAreMonotone)
    ensures BabeNotEarly(Run(chain, m, events).value.state)
  {
    if events == [] {
    } else {
      ThroughoutPrefix(chain, m, events, EpochsAreMonotone);
      RunKeepsBabeNotEarly(chain, m, events[..|events| - 1]);
      var m', e := Run(chain, m, events[..|events| - 1]).value, events[|events| - 1];
      if e.Do? {
        ApplyKeepsNotEarly(chain, m'.cfg, m'.state, e.op);
      }
    }
  }

  /** The result lives from event `n` to the end of the run, and is filled at the start. */
  ghost predicate LivesFrom(chain: Chain, m: Machine, events: seq<Event>, n: nat, key: RequestType)
    requires Run(chain, m, events).Some?
  {
    && n <= |events|
    && Filled(At(chain, m, events, n).state.results, key)
    && forall i: nat :: n <= i <= |events| ==> key in At(chain, m, events, i).state.results
  }

  /** The value that is held for the key before event `i`. */
  ghost function ValueAt(chain: Chain, m: Machine, events: seq<Event>, i: nat, key: RequestType): Option<Hash>
    requires Run(chain, m, events).Some?
    requires i <= |events|
  {
    var results := At(chain, m, events, i).state.results;
    if key in results then results[key].randomness else None
  }

  /** Event `i` of the run replaces the value. */
  ghost predicate ReplacedAt(chain: Chain, m: Machine, events: seq<Event>, i: nat, key: RequestType)
    requires Run(chain, m, events).Some?
    requires i < |events|
  {
    Replaces(At(chain, m, events, i).state, events[i], key)
  }

  lemma ValueStepIff(chain: Chain, m: Machine, events: seq<Event>, i: nat, key: RequestType)
    requires Genesis(m)
    requires Run(chain, m, events).Some?
    requires i < |events|
    requires Filled(At(chain, m, events, i).state.results, key)
    requires key in At(chain, m, events, i + 1).state.results
    ensures ValueAt(chain, m, events, i + 1, key) == ValueAt(chain, m, events, i, key)
            <==> !ReplacedAt(chain, m, events, i, key)
    ensures Filled(At(chain, m, events, i + 1).state.results, key)
  {
    PrefixRuns(chain, m, events, i);
    RunKeepsLocalNotEarly(chain, m, events[..i]);
    AtSteps(chain, m, events, i);
    NextChangesValueIff(chain, At(chain, m, events, i), events[i], key);
  }

  /** Whatever happens, a filled result stays filled as long as it lives. */
  lemma {:induction false} StaysFilled(chain: Chain, m: Machine, events: seq<Event>, n: nat, i: nat, key: RequestType)
    requires Genesis(m)
    requires Run(chain, m, events).Some?
    requires LivesFrom(chain, m, events, n, key)
    requires n <= i <= |events|
    ensures Filled(At(chain, m, events, i).state.results, key)
    decreases i
  {
    if i == n {
    } else {
      StaysFilled(chain, m, events, n, i - 1, key);
      ValueStepIff(chain, m, events, i - 1, key);
    }
  }

  lemma LivingValueStepIff(chain: Chain, m: Machine, events: seq<Event>, n: nat, i: nat, key: RequestType)
    requires Genesis(m)
    requires Run(chain, m, events).Some?
    requires LivesFrom(chain, m, events, n, key)
    requires n <= i < |events|
    ensures ValueAt(chain, m, events, i + 1, key) == ValueAt(chain, m, events, i, key)
            <==> !ReplacedAt(chain, m, events, i, key)
  {
    StaysFilled(chain, m, events, n, i, key);
    ValueStepIff(chain, m, events, i, key);
  }

  lemma {:induction false} UnreplacedValueStays(chain: Chain, m: Machine, events: seq<Event>, n: nat, i: nat,
                                                key: RequestType)
    requires Genesis(m)
    requires Run(chain, m, events).Some?
    requires LivesFrom(chain, m, events, n, key)
    requires n <= i <= |events|
    requires forall j: nat :: n <= j < i ==> !ReplacedAt(chain, m, events, j, key)
    ensures ValueAt(chain, m, events, i, key) == ValueAt(chain, m, events, n, key)
    decreases i
  {
    if i == n {
    } else {
      UnreplacedValueStays(chain, m, events, n, i - 1, key);
      LivingValueStepIff(chain, m, events, n, i - 1, key);
    }
  }

  /** While a result lives, it holds one and the same value exactly as long as no event replaces it. */
  lemma ValueStaysIff(chain: Chain, m: Machine, events: seq<Event>, n: nat, key: RequestType)
    requires Genesis(m)
    requires Run(chain, m, events).Some?
    requires LivesFrom(chain, m, events, n, key)
    ensures (forall i: nat :: n <= i <= |events| ==>
               ValueAt(chain, m, events, i, key) == ValueAt(chain, m, events, n, key))
            <==> (forall i: nat :: n <= i < |events| ==> !ReplacedAt(chain, m, events, i, key))
  {
    if forall i: nat :: n <= i < |events| ==> !ReplacedAt(chain, m, events, i, key) {
      forall i: nat | n <= i <= |events|
        ensures ValueAt(chain, m, events, i, key) == ValueAt(chain, m, events, n, key)
      {
        UnreplacedValueStays(chain, m, events, n, i, key);
      }
    } else {
      var i: nat :| n <= i < |events| && ReplacedAt(chain, m, events, i, key);
      LivingValueStepIff(chain, m, events, n, i, key);
      assert ValueAt(chain, m, events, i + 1, key) != ValueAt(chain, m, events, i, key);
    }
  }

  /** A local value never changes while its result lives; with monotone epochs no value does.  So all requests
      that share a result see the same value. */
  lemma FilledValueNeverChanges(chain: Chain, m: Machine, events: seq<Event>, n: nat, key: RequestType)
    requires Genesis(m)
    requires Run(chain, m, events).Some?
    requires LivesFrom(chain, m, events, n, key)
    requires key.Local? || Throughout(chain, m, events, EpochsAreMonotone)
    ensures forall i: nat :: n <= i <= |events| ==>
              ValueAt(chain, m, events, i, key) == ValueAt(chain, m, events, n, key)
  {
    forall i: nat | n <= i < |events|
      ensures !ReplacedAt(chain, m, events, i, key)
    {
      if key.BabeEpoch? {
        ThroughoutAnyPrefix(chain, m, events, EpochsAreMonotone, i);
        RunKeepsBabeNotEarly(chain, m, events[..i]);
        StaysFilled(chain, m, events, n, i, key);
      }
    }
    ValueStaysIff(chain, m, events, n, key);
  }

  /** A relay epoch that goes back and forth replaces a value that consumers may have seen. */
  lemma EpochRollbackOverwrites(s: State, a: Hash, b: Hash)
    requires BabeEpoch(s.relayEpoch + 1) in s.results
    ensures var e := s.relayEpoch + 1;
            var filled := SetBabeRandomnessResults(s, e, Some(a));
            var back := SetBabeRandomnessResults(filled, s.relayEpoch, Some(a));
            var again := SetBabeRandomnessResults(back, e, Some(b));
            filled.results[BabeEpoch(e)].randomness == Some(a) && again.results[BabeEpoch(e)].randomness == Some(b)
  {
  }
}
