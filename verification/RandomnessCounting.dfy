/** Reference counting: a shared result exists exactly as long as a request waits for it. */
module RandomnessCounting {
  import opened Common
  import opened Ledger
  import opened RandomnessTypes
  import opened Randomness

  /** The live requests that wait for `key`. */
  ghost function Waiting(requests: map<RequestId, RequestState>, key: RequestType): set<RequestId> {
    set id | id in requests && Key(requests[id]) == key
  }

  ghost predicate Counted(requests: map<RequestId, RequestState>, results: map<RequestType, RandomnessResult>,
                          next: nat)
  {
    && next <= U64_MAX
    && (forall id :: id in requests ==> id < next && Key(requests[id]) in results)
    && (forall k :: k in results ==> results[k].requestCount == |Waiting(requests, k)| >= 1)
  }

  ghost predicate CountedState(s: State) {
    Counted(s.requests, s.results, s.requestCount)
  }

  /** No more requests wait for a key than were ever made. */
  lemma WaitingBounded(requests: map<RequestId, RequestState>, results: map<RequestType, RandomnessResult>, next: nat,
                       k: RequestType)
    requires Counted(requests, results, next)
    ensures |Waiting(requests, k)| <= next
  {
    BoundedSetSize(Waiting(requests, k), next);
  }

  /** A new request adds one to the count of its own key, and the 64-bit increment is exact. */
  lemma AcquireKeepsCounted(requests: map<RequestId, RequestState>, results: map<RequestType, RandomnessResult>,
                            next: nat, r: RequestState)
    requires Counted(requests, results, next)
    requires next + 1 <= U64_MAX
    ensures Counted(requests[next := r], Acquire(results, Key(r)), next + 1)
    ensures Key(r) in results ==> Increment(results[Key(r)]).requestCount == results[Key(r)].requestCount + 1
  {
    var requests', results', key := requests[next := r], Acquire(results, Key(r)), Key(r);
    WaitingBounded(requests, results, next, key);
    assert Waiting(requests', key) == Waiting(requests, key) + {next};
    if key !in results {
      assert Waiting(requests, key) == {};
    }
    forall k | k in results' && k != key
      ensures results'[k].requestCount == |Waiting(requests', k)| >= 1
    {
      assert Waiting(requests', k) == Waiting(requests, k);
    }
  }

  /** A live request takes its own contribution with it. */
  lemma ReleaseKeepsCounted(requests: map<RequestId, RequestState>, results: map<RequestType, RandomnessResult>,
                            next: nat, id: RequestId)
    requires Counted(requests, results, next)
    requires id in requests
    ensures Counted(requests - {id}, Release(results, Key(requests[id])), next)
  {
    var requests', key := requests - {id}, Key(requests[id]);
    var results' := Release(results, key);
    assert Waiting(requests', key) == Waiting(requests, key) - {id};
    assert id in Waiting(requests, key);
    forall k | k in results' && k != key
      ensures results'[k].requestCount == |Waiting(requests', k)| >= 1
    {
      assert Waiting(requests', k) == Waiting(requests, k);
    }
    forall j | j in requests'
      ensures j < next && Key(requests'[j]) in results'
    {
      if Key(requests'[j]) == key {
        assert {j} <= Waiting(requests', key);
        assert 1 <= |Waiting(requests', key)|;
      }
    }
  }

  /** A change of fee, or of anything but the key, leaves all counts alone. */
  lemma SameKeyKeepsCounted(requests: map<RequestId, RequestState>, results: map<RequestType, RandomnessResult>,
                            next: nat, id: RequestId, r: RequestState)
    requires Counted(requests, results, next)
    requires id in requests && Key(r) == Key(requests[id])
    ensures Counted(requests[id := r], results, next)
  {
    forall k | k in results
      ensures Waiting(requests[id := r], k) == Waiting(requests, k)
    {
    }
  }

  /** The fulfilment trusts the id and the request it is given.  The counts stay right exactly when
      the id is live and the request waits for the same key, or when there is nothing to release. */
  lemma FinishKeepsCountedIff(chain: Chain, s: State, id: RequestId, r: Request<RequestInfo>, deposit: Balance,
                              caller: Address, cost: Balance, accepted: bool, accepted': bool)
    requires CountedState(s)
    ensures CountedState(FinishFulfillment(chain, s, id, r, deposit, caller, cost, accepted, accepted'))
            <==> (if id in s.requests then Key(s.requests[id]) == ToType(r.info) else ToType(r.info) !in s.results)
  {
    var s' := FinishFulfillment(chain, s, id, r, deposit, caller, cost, accepted, accepted');
    var key := ToType(r.info);
    if id in s.requests {
      var k0 := Key(s.requests[id]);
      if k0 == key {
        ReleaseKeepsCounted(s.requests, s.results, s.requestCount, id);
      } else {
        assert k0 in s'.results && s'.results[k0] == s.results[k0];
        assert id in Waiting(s.requests, k0);
        assert Waiting(s'.requests, k0) == Waiting(s.requests, k0) - {id};
      }
    } else {
      assert s'.requests == s.requests;
      if key in s.results {
        if key !in s'.results {
          var j :| j in Waiting(s.requests, key);
          assert j in s'.requests;
        }
      }
    }
  }

  /** Supplying a value changes no count. */
  lemma FillKeepsCounted(requests: map<RequestId, RequestState>, results: map<RequestType, RandomnessResult>,
                         next: nat, key: RequestType, value: Hash)
    requires Counted(requests, results, next)
    ensures Counted(requests, Fill(results, key, value), next)
  {
  }

  lemma RequestKeepsCounted(chain: Chain, cfg: Config, s: State, r: Request<RequestType>, accepted: bool)
    requires CountedState(s)
    ensures CountedState(OrElse(RequestRandomness(chain, cfg, s, r, accepted), s))
  {
    var o := RequestRandomness(chain, cfg, s, r, accepted);
    if o.Ok? {
      var request := o.value.requests[s.requestCount];
      assert Key(request) == r.info;
      AcquireKeepsCounted(s.requests, s.results, s.requestCount, request);
    }
  }

  lemma IncreaseFeeKeepsCounted(chain: Chain, s: State, caller: Address, id: RequestId, increase: Balance,
                                accepted: bool)
    requires CountedState(s)
    ensures CountedState(OrElse(IncreaseRequestFee(chain, s, caller, id, increase, accepted), s))
  {
    var o := IncreaseRequestFee(chain, s, caller, id, increase, accepted);
    if o.Ok? {
      SameKeyKeepsCounted(s.requests, s.results, s.requestCount, id, o.value.requests[id]);
    }
  }

  lemma ExpirationKeepsCounted(chain: Chain, s: State, caller: Address, id: RequestId, accepted: bool, accepted': bool)
    requires CountedState(s)
    ensures CountedState(OrElse(ExecuteRequestExpiration(chain, s, caller, id, accepted, accepted'), s))
  {
    if id in s.requests {
      ReleaseKeepsCounted(s.requests, s.results, s.requestCount, id);
    }
  }

  lemma ApplyKeepsCounted(chain: Chain, cfg: Config, s: State, op: Op)
    requires CountedState(s)
    ensures CountedState(Apply(chain, cfg, s, op))
  {
    match op
    case MakeRequest(r, accepted) => RequestKeepsCounted(chain, cfg, s, r, accepted);
    case Fulfill(caller, id, cost, accepted, accepted') =>
      if id in s.requests {
        FinishKeepsCountedIff(chain, s, id, s.requests[id].request, s.requests[id].deposit, caller, cost, accepted,
                              accepted');
      }
    case IncreaseFee(caller, id, increase, accepted) =>
      IncreaseFeeKeepsCounted(chain, s, caller, id, increase, accepted);
    case Expire(caller, id, accepted, accepted') => ExpirationKeepsCounted(chain, s, caller, id, accepted, accepted');
    case Inherent(epoch, randomness) =>
      if randomness.Some? {
        FillKeepsCounted(s.requests, s.results, s.requestCount, BabeEpoch(epoch), randomness.value);
      }
    case Elsewhere(ledger) =>
  }

  lemma NextKeepsCounted(chain: Chain, m: Machine, e: Event)
    requires CountedState(m.state)
    requires Next(chain, m, e).Some?
    ensures CountedState(Next(chain, m, e).value.state)
  {
    match e
    case Begin(cfg, vrf) =>
      FillKeepsCounted(m.state.requests, m.state.results, m.state.requestCount, Local(m.state.blockNumber + 1), vrf);
    case Do(op) => ApplyKeepsCounted(chain, m.cfg, m.state, op);
    case End =>
  }

  /** In every state of every run the counts are right. */
  lemma {:induction false} RunKeepsCounted(chain: Chain, m: Machine, events: seq<Event>)
    requires CountedState(m.state)
    requires Run(chain, m, events).Some?
    ensures CountedState(Run(chain, m, events).value.state)
  {
    if events == [] {
    } else {
      RunKeepsCounted(chain, m, events[..|events| - 1]);
      NextKeepsCounted(chain, Run(chain, m, events[..|events| - 1]).value, events[|events| - 1]);
    }
  }

  /** From genesis on: a result exists for exactly the keys some live request waits for, its count is
      the number of those requests and can be incremented without saturating, and the next id is unused. */
  lemma ResultsMatchRequests(chain: Chain, m: Machine, events: seq<Event>, key: RequestType)
    requires Genesis(m)
    requires Run(chain, m, events).Some?
    ensures var s := Run(chain, m, events).value.state;
            && (key in s.results <==> exists id :: id in s.requests && Key(s.requests[id]) == key)
            && (key in s.results ==> s.results[key].requestCount == |Waiting(s.requests, key)|)
            && (forall id :: id in s.requests ==> id < s.requestCount <= U64_MAX)
            && s.requestCount !in s.requests
            && (key in s.results && s.requestCount < U64_MAX ==>
                  Increment(s.results[key]).requestCount == s.results[key].requestCount + 1)
  {
    RunKeepsCounted(chain, m, events);
    var s := Run(chain, m, events).value.state;
    WaitingBounded(s.requests, s.results, s.requestCount, key);
    if key in s.results {
      var id :| id in Waiting(s.requests, key);
      assert id in s.requests && Key(s.requests[id]) == key;
    }
  }

  lemma ApplyMakesIdsInOrder(chain: Chain, cfg: Config, s: State, op: Op, id: RequestId)
    ensures var s' := Apply(chain, cfg, s, op);
            && s.requestCount <= s'.requestCount
            && (id in s'.requests && id !in s.requests ==> id == s.requestCount < s'.requestCount)
  {
  }

  /** A request that is gone stays gone: no id is ever given out twice. */
  lemma {:induction false} IdsNeverReturn(chain: Chain, m: Machine, events: seq<Event>, id: RequestId)
    requires Run(chain, m, events).Some?
    requires id < m.state.requestCount && id !in m.state.requests
    ensures var s := Run(chain, m, events).value.state;
            id !in s.requests && m.state.requestCount <= s.requestCount
  {
    if events == [] {
    } else {
      IdsNeverReturn(chain, m, events[..|events| - 1], id);
      var m', e := Run(chain, m, events[..|events| - 1]).value, events[|events| - 1];
      if e.Do? {
        ApplyMakesIdsInOrder(chain, m'.cfg, m'.state, e.op, id);
      }
    }
  }

  /** Why the caller must not finish a request twice, as a callback that re-enters could make it: the second
      time takes the result away from another request, which then meets the other error called a bug. */
  lemma DoubleFinishLosesTheResult(chain: Chain, blake: Hash -> Hash, s: State, id: RequestId, other: RequestId,
                                   caller: Address, cost: Balance, accepted: bool, accepted': bool)
    requires CountedState(s)
    requires id in s.requests && other in s.requests && id != other
    requires Key(s.requests[other]) == Key(s.requests[id]) && Waiting(s.requests, Key(s.requests[id])) == {id, other}
    requires Due(Key(s.requests[id]), s.blockNumber, s.relayEpoch)
    ensures var r := s.requests[id];
            var once := FinishFulfillment(chain, s, id, r.request, r.deposit, caller, cost, accepted, accepted');
            var twice := FinishFulfillment(chain, once, id, r.request, r.deposit, caller, cost, accepted, accepted');
            && PrepareFulfillment(blake, once, other) != Err(RandomnessResultDNE)
            && PrepareFulfillment(blake, twice, other) == Err(RandomnessResultDNE)
  {
    assert s.results[Key(s.requests[id])].requestCount == |{id, other}| == 2;
  }
}
