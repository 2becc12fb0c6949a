/** Runs of the randomness pallet: their prefixes, their blocks, and the chain of outputs. */
module RandomnessRuns {
  import opened Common
  import opened RandomnessTypes
  import opened Randomness

  // ---- Prefixes -------------------------------------------------------------------------------

  lemma {:induction false} PrefixRuns(chain: Chain, m: Machine, events: seq<Event>, i: nat)
    requires Run(chain, m, events).Some?
    requires i <= |events|
    ensures Run(chain, m, events[..i]).Some?
    decreases |events|
  {
    if i == |events| {
      assert events[..i] == events;
    } else {
      PrefixRuns(chain, m, events[..|events| - 1], i);
      assert events[..|events| - 1][..i] == events[..i];
    }
  }

  /** The machine before event `i` of a run; after the run, for the last `i`. */
  ghost function At(chain: Chain, m: Machine, events: seq<Event>, i: nat): Machine
    requires Run(chain, m, events).Some?
    requires i <= |events|
  {
    PrefixRuns(chain, m, events, i);
    Run(chain, m, events[..i]).value
  }

  /** Leaving out the last event changes nothing before it. */
  lemma AtPrefix(chain: Chain, m: Machine, events: seq<Event>)
    requires Run(chain, m, events).Some?
    requires events != []
    ensures Run(chain, m, events[..|events| - 1]).Some?
    ensures forall i: nat :: i < |events| ==> At(chain, m, events[..|events| - 1], i) == At(chain, m, events, i)
    ensures At(chain, m, events, |events| - 1) == Run(chain, m, events[..|events| - 1]).value
    ensures At(chain, m, events, |events|) == Run(chain, m, events).value
  {
    var init := events[..|events| - 1];
    PrefixRuns(chain, m, events, |events| - 1);
    forall i: nat | i < |events|
      ensures At(chain, m, init, i) == At(chain, m, events, i)
    {
      assert init[..i] == events[..i];
    }
    assert events[..|events|] == events;
  }

  /** Each machine of a run comes from the one before by its event. */
  lemma AtSteps(chain: Chain, m: Machine, events: seq<Event>, i: nat)
    requires Run(chain, m, events).Some?
    requires i < |events|
    ensures Next(chain, At(chain, m, events, i), events[i]) == Some(At(chain, m, events, i + 1))
  {
    PrefixRuns(chain, m, events, i + 1);
    assert events[..i + 1][..i] == events[..i];
  }

  lemma {:induction false} RunSplits(chain: Chain, m: Machine, events: seq<Event>, i: nat)
    requires i <= |events|
    requires Run(chain, m, events[..i]).Some?
    ensures Run(chain, m, events) == Run(chain, Run(chain, m, events[..i]).value, events[i..])
    decreases |events|
  {
    if i == |events| {
      assert events[..i] == events;
    } else {
      var init := events[..|events| - 1];
      assert init[..i] == events[..i];
      RunSplits(chain, m, init, i);
      assert events[i..] == init[i..] + [events[|events| - 1]];
      assert events[i..][..|events[i..]| - 1] == init[i..];
    }
  }

  /** Every event of the run meets `p` on the machine on which it happens. */
  ghost predicate Throughout(chain: Chain, m: Machine, events: seq<Event>, p: (Machine, Event) -> bool)
    requires Run(chain, m, events).Some?
  {
    forall i: nat :: i < |events| ==> p(At(chain, m, events, i), events[i])
  }

  /** What holds throughout a run holds throughout any prefix of it. */
  lemma ThroughoutAnyPrefix(chain: Chain, m: Machine, events: seq<Event>, p: (Machine, Event) -> bool, n: nat)
    requires Run(chain, m, events).Some?
    requires Throughout(chain, m, events, p)
    requires n <= |events|
    ensures Run(chain, m, events[..n]).Some?
    ensures Throughout(chain, m, events[..n], p)
  {
    PrefixRuns(chain, m, events, n);
    forall i: nat | i < n
      ensures p(At(chain, m, events[..n], i), events[..n][i])
    {
      assert events[..n][..i] == events[..i];
      assert p(At(chain, m, events, i), events[i]);
    }
  }

  lemma ThroughoutPrefix(chain: Chain, m: Machine, events: seq<Event>, p: (Machine, Event) -> bool)
    requires events != []
    requires Run(chain, m, events).Some?
    requires Throughout(chain, m, events, p)
    ensures Run(chain, m, events[..|events| - 1]).Some?
    ensures Throughout(chain, m, events[..|events| - 1], p)
    ensures p(Run(chain, m, events[..|events| - 1]).value, events[|events| - 1])
  {
    ThroughoutAnyPrefix(chain, m, events, p, |events| - 1);
    assert p(At(chain, m, events, |events| - 1), events[|events| - 1]);
  }

  /** On the machines of the run that have `inv`, exactly the events with `p` keep it. */
  ghost predicate KeptExactlyBy(chain: Chain, m: Machine, events: seq<Event>, inv: Machine -> bool,
                                p: (Machine, Event) -> bool)
    requires Run(chain, m, events).Some?
  {
    forall i: nat :: i < |events| && inv(At(chain, m, events, i)) ==>
      (inv(At(chain, m, events, i + 1)) <==> p(At(chain, m, events, i), events[i]))
  }

  lemma {:induction false} InvariantAt(chain: Chain, m: Machine, events: seq<Event>, inv: Machine -> bool,
                                       p: (Machine, Event) -> bool, i: nat)
    requires Run(chain, m, events).Some?
    requires inv(m) && KeptExactlyBy(chain, m, events, inv, p)
    requires Throughout(chain, m, events, p)
    requires i <= |events|
    ensures inv(At(chain, m, events, i))
  {
    if i == 0 {
    } else {
      InvariantAt(chain, m, events, inv, p, i - 1);
      assert p(At(chain, m, events, i - 1), events[i - 1]);
    }
  }

  /** Then all machines of the run have `inv` exactly when all its events have `p`. */
  lemma InvariantIff(chain: Chain, m: Machine, events: seq<Event>, inv: Machine -> bool, p: (Machine, Event) -> bool)
    requires Run(chain, m, events).Some?
    requires inv(m) && KeptExactlyBy(chain, m, events, inv, p)
    ensures (forall i: nat :: i <= |events| ==> inv(At(chain, m, events, i))) <==> Throughout(chain, m, events, p)
  {
    if Throughout(chain, m, events, p) {
      forall i: nat | i <= |events|
        ensures inv(At(chain, m, events, i))
      {
        InvariantAt(chain, m, events, inv, p, i);
      }
    } else {
      var i: nat :| i < |events| && !p(At(chain, m, events, i), events[i]);
      assert !(inv(At(chain, m, events, i)) && inv(At(chain, m, events, i + 1)));
    }
  }

  // ---- Blocks ---------------------------------------------------------------------------------

  lemma ApplyKeepsOutputs(chain: Chain, cfg: Config, s: State, op: Op)
    ensures var s' := Apply(chain, cfg, s, op);
            && s'.localVrfOutput == s.localVrfOutput && s'.previousLocalVrfOutput == s.previousLocalVrfOutput
            && s'.notFirstBlock == s.notFirstBlock && s'.blockNumber == s.blockNumber
            && s'.inherentIncluded == (s.inherentIncluded || op.Inherent?)
  {
  }

  lemma {:induction false} BlockNumberNeverDecreases(chain: Chain, m: Machine, events: seq<Event>)
    requires Run(chain, m, events).Some?
    ensures m.state.blockNumber <= Run(chain, m, events).value.state.blockNumber
  {
    if events == [] {
    } else {
      BlockNumberNeverDecreases(chain, m, events[..|events| - 1]);
      var m', e := Run(chain, m, events[..|events| - 1]).value, events[|events| - 1];
      if e.Do? {
        ApplyKeepsOutputs(chain, m'.cfg, m'.state, e.op);
      }
    }
  }

  /** A block number is opened once in a run: later openings have higher numbers. */
  lemma BlocksOpenOnce(chain: Chain, m: Machine, events: seq<Event>, i: nat, j: nat)
    requires Run(chain, m, events).Some?
    requires i < j < |events| && events[i].Begin? && events[j].Begin?
    ensures At(chain, m, events, i + 1).state.blockNumber < At(chain, m, events, j + 1).state.blockNumber
  {
    var before := events[..j];
    PrefixRuns(chain, m, events, j);
    PrefixRuns(chain, m, events, i + 1);
    assert before[..i + 1] == events[..i + 1];
    RunSplits(chain, m, before, i + 1);
    BlockNumberNeverDecreases(chain, Run(chain, m, events[..i + 1]).value, before[i + 1..]);
    AtSteps(chain, m, events, j);
  }

  /** Between blocks, the output that seeds the next block's pseudo-randomness is the one that the next
      author must build on. */
  lemma {:induction false} SeedIsPreviousOutput(chain: Chain, m: Machine, events: seq<Event>)
    requires Genesis(m)
    requires Run(chain, m, events).Some?
    ensures var m' := Run(chain, m, events).value;
            && (m'.open ==> m'.state.localVrfOutput.Some? && m'.state.notFirstBlock)
            && (!m'.open && m'.state.notFirstBlock ==>
                  m'.state.localVrfOutput == Some(m'.state.previousLocalVrfOutput))
  {
    if events == [] {
    } else {
      SeedIsPreviousOutput(chain, m, events[..|events| - 1]);
      var m', e := Run(chain, m, events[..|events| - 1]).value, events[|events| - 1];
      if e.Do? {
        ApplyKeepsOutputs(chain, m'.cfg, m'.state, e.op);
      }
    }
  }

  // ---- The event that made a request ----------------------------------------------------------

  /** The stored request is the one asked for, under this configuration: only its fee may have grown. */
  predicate StoredFrom(cfg: Config, s: State, asked: Request<RequestType>, r: RequestState) {
    && 1 <= r.request.numWords <= cfg.maxRandomWords
    && r.deposit == cfg.deposit
    && r.request.fee >= asked.fee
    && r.request == WithInfo(asked, ToInfo(cfg, s.blockNumber, s.relayEpoch, asked.info)).(fee := r.request.fee)
  }

  /** Event `i` of the run is a request that was accepted. */
  ghost predicate AcceptedAt(chain: Chain, m: Machine, events: seq<Event>, i: nat)
    requires Run(chain, m, events).Some?
  {
    && i < |events|
    && events[i].Do? && events[i].op.MakeRequest?
    && var before, op := At(chain, m, events, i), events[i].op;
       RequestRandomness(chain, before.cfg, before.state, op.request, op.accepted).Ok?
  }

  /** Event `i` of the run made request `id`: it was accepted, was given that id, and asked for what is stored. */
  ghost predicate MadeAt(chain: Chain, m: Machine, events: seq<Event>, i: nat, id: RequestId, r: RequestState)
    requires Run(chain, m, events).Some?
  {
    && AcceptedAt(chain, m, events, i)
    && var before := At(chain, m, events, i);
       && before.state.requestCount == id
       && StoredFrom(before.cfg, before.state, events[i].op.request, r)
  }

  /** Everything but the fee is the same, and the fee is not lower. */
  predicate Raised(r: RequestState, r': RequestState) {
    r'.request.fee >= r.request.fee && r' == r.(request := r.request.(fee := r'.request.fee))
  }

  /** An id that is new belongs to the request just accepted; one that is not keeps everything but its fee,
      which does not fall. */
  lemma ApplyRequests(chain: Chain, cfg: Config, s: State, op: Op, id: RequestId)
    requires id in Apply(chain, cfg, s, op).requests
    ensures var r' := Apply(chain, cfg, s, op).requests[id];
            || (&& op.MakeRequest? && id == s.requestCount
                && RequestRandomness(chain, cfg, s, op.request, op.accepted).Ok?
                && StoredFrom(cfg, s, op.request, r'))
            || (id in s.requests && Raised(s.requests[id], r'))
  {
  }

  /** Every live request was made by an accepted event of the run, with a number of words, a deposit and an
      expiry as the configuration in force at that event prescribed. */
  lemma {:induction false} RequestsMeetTheirConfiguration(chain: Chain, m: Machine, events: seq<Event>, id: RequestId)
    requires Genesis(m)
    requires Run(chain, m, events).Some?
    requires id in Run(chain, m, events).value.state.requests
    ensures exists i: nat :: MadeAt(chain, m, events, i, id, Run(chain, m, events).value.state.requests[id])
  {
    if events == [] {
      assert false;
    } else {
      var n := |events| - 1;
      var init, e := events[..n], events[n];
      AtPrefix(chain, m, events);
      var m', r := Run(chain, m, init).value, Run(chain, m, events).value.state.requests[id];
      if e.Do? {
        ApplyRequests(chain, m'.cfg, m'.state, e.op, id);
      }
      if MadeAt(chain, m, events, n, id, r) {
      } else {
        RequestsMeetTheirConfiguration(chain, m, init, id);
        var i: nat :| MadeAt(chain, m, init, i, id, m'.state.requests[id]);
        assert At(chain, m, init, i) == At(chain, m, events, i);
        assert MadeAt(chain, m, events, i, id, r);
      }
    }
  }

  /** There is only one such event: what was made when is settled by the run. */
  lemma RequestsAreMadeOnce(chain: Chain, m: Machine, events: seq<Event>, i: nat, j: nat, id: RequestId,
                            r: RequestState, r': RequestState)
    requires Run(chain, m, events).Some?
    requires MadeAt(chain, m, events, i, id, r) && MadeAt(chain, m, events, j, id, r')
    ensures i == j
  {
    if i < j {
      CounterPassed(chain, m, events, i, j);
    } else if j < i {
      CounterPassed(chain, m, events, j, i);
    }
  }

  lemma {:induction false} CounterPassed(chain: Chain, m: Machine, events: seq<Event>, i: nat, j: nat)
    requires Run(chain, m, events).Some?
    requires i < j <= |events|
    requires AcceptedAt(chain, m, events, i)
    ensures At(chain, m, events, i).state.requestCount < At(chain, m, events, j).state.requestCount
    decreases j
  {
    AtSteps(chain, m, events, j - 1);
    NextKeepsCounter(chain, At(chain, m, events, j - 1), events[j - 1]);
    if j == i + 1 {
    } else {
      CounterPassed(chain, m, events, i, j - 1);
    }
  }

  lemma NextKeepsCounter(chain: Chain, m: Machine, e: Event)
    requires Next(chain, m, e).Some?
    ensures var s, s' := m.state, Next(chain, m, e).value.state;
            && s.requestCount <= s'.requestCount
            && (e.Do? && e.op.MakeRequest? && RequestRandomness(chain, m.cfg, s, e.op.request, e.op.accepted).Ok? ==>
                  s.requestCount < s'.requestCount)
  {
  }
}
