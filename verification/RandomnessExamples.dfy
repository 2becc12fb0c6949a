/** One short run on which two promises of the randomness pallet fail. */
module RandomnessExamples {
  import opened Common
  import opened Ledger
  import opened RandomnessTypes
  import opened Randomness

  const REQUESTER: Address := 7
  const FUNDS: Balance := 100

  function ExampleChain(): Chain {
    Chain(a => a, 0, 1)
  }

  function ExampleConfig(): Config {
    Config(5, 1, 1, 10, 1, 1)
  }

  function Start(): Machine {
    Machine(State(map[], 0, map[], None, DefaultHash(), 0, false, false, 0, map[REQUESTER := FUNDS]), ExampleConfig(),
            false)
  }

  /** In the first block somebody asks for the next epoch; in the second the relay chain skips it. */
  function SkippingRun(v: Hash): seq<Event> {
    [Begin(ExampleConfig(), v),
     Do(Inherent(0, None)),
     Do(MakeRequest(Request(REQUESTER, REQUESTER, 0, 0, 1, [], BabeEpoch(1)), true)),
     End,
     Begin(ExampleConfig(), v),
     Do(Inherent(2, Some(v)))]
  }

  function StoredRequest(): RequestState {
    RequestState(Request(REQUESTER, REQUESTER, 0, 0, 1, [], BabeEpochInfo(1, 1)), 5)
  }

  function AfterFirstBlock(): Machine {
    Machine(State(map[0 := StoredRequest()], 1, map[BabeEpoch(1) := RandomnessResult(None, 1)], Some(DefaultHash()),
                  DefaultHash(), 0, false, true, 1, map[REQUESTER := 95, 0 := 5]), ExampleConfig(), false)
  }

  function AfterSkip(v: Hash): Machine {
    var m := AfterFirstBlock();
    m.(state := m.state.(localVrfOutput := Some(v), relayEpoch := 2, inherentIncluded := true, blockNumber := 2),
       open := true)
  }

  function Opened(): Machine {
    var m := Start();
    m.(state := m.state.(notFirstBlock := true, localVrfOutput := Some(DefaultHash()), blockNumber := 1,
                         inherentIncluded := true),
       open := true)
  }

  lemma RequestIsStored()
    ensures var asked := Request(REQUESTER, REQUESTER, 0, 0, 1, [], BabeEpoch(1));
            RequestRandomness(ExampleChain(), ExampleConfig(), Opened().state, asked, true)
            == Ok(AfterFirstBlock().state.(inherentIncluded := true))
  {
    var asked := Request(REQUESTER, REQUESTER, 0, 0, 1, [], BabeEpoch(1));
    var o := RequestRandomness(ExampleChain(), ExampleConfig(), Opened().state, asked, true);
    assert o.Ok? && o.value.requests == map[0 := StoredRequest()];
    assert o.value.results == map[BabeEpoch(1) := RandomnessResult(None, 1)];
    assert o.value.ledger == map[REQUESTER := 95, 0 := 5];
  }

  lemma FirstBlock(v: Hash)
    ensures Run(ExampleChain(), Start(), SkippingRun(v)[..4]) == Some(AfterFirstBlock())
  {
    var chain, m, events := ExampleChain(), Start(), SkippingRun(v);
    assert events[..4][..3] == events[..3] && events[..3][..2] == events[..2] && events[..2][..1] == events[..1];
    assert events[..1][..0] == [];
    assert Run(chain, m, events[..1]) == Some(Opened().(state := Opened().state.(inherentIncluded := false)));
    assert Run(chain, m, events[..2]) == Some(Opened());
    RequestIsStored();
    assert Run(chain, m, events[..3])
        == Some(AfterFirstBlock().(state := AfterFirstBlock().state.(inherentIncluded := true), open := true));
  }

  lemma SkipHappens(v: Hash)
    ensures Genesis(Start()) && Run(ExampleChain(), Start(), SkippingRun(v)) == Some(AfterSkip(v))
  {
    var chain, m, events := ExampleChain(), Start(), SkippingRun(v);
    FirstBlock(v);
    assert events[..5][..4] == events[..4] && events[..6] == events;
    var m5 := AfterFirstBlock().(state := AfterFirstBlock().state.(localVrfOutput := Some(v), blockNumber := 2),
                                 open := true);
    assert Run(chain, m, events[..5]) == Some(m5);
  }

  /** An epoch that is skipped is due but never filled: the request meets the error that is called a bug. */
  lemma SkippedEpochHitsNotFilled(v: Hash, blake: Hash -> Hash)
    ensures var o := Run(ExampleChain(), Start(), SkippingRun(v));
            o.Some? && PrepareFulfillment(blake, o.value.state, 0) == Err(RandomnessResultNotFilled)
  {
    SkipHappens(v);
  }

  /** The same request has expired, but paying it back would empty the pallet account: it cannot be purged,
      whoever tries and whatever the currency accepts. */
  lemma LastRequestCannotBePurged(v: Hash, caller: Address, accepted: bool, accepted': bool)
    ensures var o := Run(ExampleChain(), Start(), SkippingRun(v));
            && o.Some?
            && 0 in o.value.state.requests
            && IsExpired(o.value.state.requests[0].request.info, o.value.state.blockNumber, o.value.state.relayEpoch)
            && ExecuteRequestExpiration(ExampleChain(), o.value.state, caller, 0, accepted, accepted')
               == Err(TransferFailed)
  {
    SkipHappens(v);
  }
}
