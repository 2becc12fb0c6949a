/** Gas, logs and the relation between the three modes of the batch precompile. */
module BatchProperties {
  import opened Common
  import opened Batch

  // ---- Gas ------------------------------------------------------------------------------------

  /** A missing value is zero, missing data is empty, and a missing or zero limit is none.  A call is made
      exactly when its cost, the reserved log and its limit all fit into the gas that is left; it gets its
      limit, or everything that is not reserved, and runs on the current world. */
  lemma CallIsFunded(env: Env, inputs: Inputs, h: Handle, i: nat)
    requires i < |inputs.to|
    ensures var value := if i < |inputs.value| then inputs.value[i] else 0;
            var limit := if i < |inputs.gasLimit| then inputs.gasLimit[i] else 0;
            var reserved := env.logCost + env.callCost(value);
            var attempt := Try(env, inputs, h, i);
            && (attempt.NoGasForLog? <==> h.gas < env.logCost)
            && (attempt.Called? <==> h.gas >= reserved + limit)
            && (attempt.Called? ==>
                  var c := attempt.call;
                  && attempt.outcome == env.call(h.world, h.gas, c)
                  && c.gas == (if limit != 0 then limit else h.gas - reserved)
                  && c.address == inputs.to[i] && c.caller == env.caller && c.apparentValue == value
                  && c.data == (if i < |inputs.callData| then inputs.callData[i] else [])
                  && c.transfer == if value == 0 then None else Some(Transfer(env.caller, inputs.to[i], value)))
  {
  }

  /** Whatever a metered call does, the reserved log can still be paid for. */
  lemma CallLeavesLogCost(env: Env, inputs: Inputs, h: Handle, i: nat)
    requires Metered(env)
    requires i < |inputs.to|
    requires Try(env, inputs, h, i).Called?
    ensures var o := Try(env, inputs, h, i).outcome;
            AfterCall(h, o).gas == h.gas - o.gasUsed >= env.logCost
  {
  }

  /** The gas that the dealt-with indices used, each with its log unless it aborted the batch. */
  function Spent(env: Env, trace: seq<Event>): nat {
    if trace == [] then 0
    else trace[0].used + (if trace[0].verdict.Aborted? then 0 else env.logCost) + Spent(env, trace[1..])
  }

  /** The logs that the dealt-with indices produce. */
  function LogsOf(trace: seq<Event>): seq<Log> {
    if trace == [] then []
    else
      (match trace[0].verdict
       case Succeeded => [SubcallSucceeded(trace[0].index)]
       case Failed => [SubcallFailed(trace[0].index)]
       case Aborted => [])
      + LogsOf(trace[1..])
  }

  /** The trace deals with the indices from `i` on, once each and in order. */
  ghost predicate InOrder(trace: seq<Event>, i: nat) {
    forall k :: 0 <= k < |trace| ==> trace[k].index == i + k
  }

  /** Why a batch that reports success stopped where it did. */
  ghost predicate StopsRightly(mode: Mode, env: Env, inputs: Inputs, i: nat, o: Outcome) {
    || i + |o.trace| == |inputs.to|
    || (!mode.BatchAll? && o.final.gas < env.logCost)
    || (mode.BatchSomeUntilFailure? && o.trace != [] && o.trace[|o.trace| - 1].verdict.Failed?)
  }

  ghost predicate Accounted(mode: Mode, env: Env, inputs: Inputs, h: Handle, i: nat, o: Outcome) {
    && o.result != LogOutOfGas
    && (!mode.BatchAll? ==> o.result.Done? || o.result.FatalExit?)
    && InOrder(o.trace, i)
    && i + |o.trace| <= |inputs.to|
    && o.final.logs == h.logs + LogsOf(o.trace)
    && h.gas == o.final.gas + Spent(env, o.trace)
    && (o.trace != [] ==> o.final == o.trace[|o.trace| - 1].after)
    && (o.trace == [] ==> o.final == h)
    && (o.result.Done? ==> StopsRightly(mode, env, inputs, i, o))
    && (o.result.FatalExit? <==> o.trace != [] && o.trace[|o.trace| - 1].verdict.Aborted?)
    && (forall k :: 0 <= k < |o.trace| - 1 ==> !o.trace[k].verdict.Aborted?)
  }

  lemma PrependAccounted(mode: Mode, env: Env, inputs: Inputs, h: Handle, i: nat, e: Event, o: Outcome)
    requires i < |inputs.to|
    requires Accounted(mode, env, inputs, e.after, i + 1, o)
    requires e.index == i && !e.verdict.Aborted?
    requires h.gas == e.after.gas + e.used + env.logCost
    requires e.after.logs == h.logs + LogsOf([e])
    ensures Accounted(mode, env, inputs, h, i, Prepend(e, o))
  {
  }

  lemma {:induction false} RunFromAccounted(mode: Mode, env: Env, inputs: Inputs, h: Handle, i: nat)
    requires Metered(env)
    requires i <= |inputs.to|
    ensures Accounted(mode, env, inputs, h, i, RunFrom(mode, env, inputs, h, i))
    decreases |inputs.to| - i, 1
  {
    if i == |inputs.to| {
    } else {
      match Try(env, inputs, h, i)
      case NoGasForLog =>
      case Refused => AfterFailureAccounted(mode, env, inputs, h, h, i, 0, OutOfGas);
      case Called(_, o) =>
        CallLeavesLogCost(env, inputs, h, i);
        var h1 := AfterCall(h, o);
        match o.reason
        case Fatal(code) =>
          var e := Event(i, Aborted, o.gasUsed, h1);
          assert [e][1..] == [];
        case Revert(code) => AfterFailureAccounted(mode, env, inputs, h, h1, i, o.gasUsed, Reverted(code, o.output));
        case Error(code) => AfterFailureAccounted(mode, env, inputs, h, h1, i, o.gasUsed, Errored(code));
        case Succeed =>
          var h2 := Record(env, h1, SubcallSucceeded(i)).value;
          RunFromAccounted(mode, env, inputs, h2, i + 1);
          PrependAccounted(mode, env, inputs, h, i, Event(i, Succeeded, o.gasUsed, h2),
                           RunFrom(mode, env, inputs, h2, i + 1));
    }
  }

  lemma {:induction false} AfterFailureAccounted(mode: Mode, env: Env, inputs: Inputs, h: Handle, h1: Handle, i: nat,
                                                 used: nat, error: BatchResult)
    requires Metered(env)
    requires i < |inputs.to|
    requires h1.gas >= env.logCost && h.gas == h1.gas + used && h1.logs == h.logs
    requires error.OutOfGas? || error.Reverted? || error.Errored?
    ensures Accounted(mode, env, inputs, h, i, AfterFailure(mode, env, inputs, h1, i, used, error))
    decreases |inputs.to| - i, 0
  {
    var h2 := Record(env, h1, SubcallFailed(i)).value;
    var e := Event(i, Failed, used, h2);
    assert [e][1..] == [];
    if mode.BatchSome? {
      RunFromAccounted(mode, env, inputs, h2, i + 1);
      PrependAccounted(mode, env, inputs, h, i, e, RunFrom(mode, env, inputs, h2, i + 1));
    }
  }

  /** Without an abort there is exactly one log for each index dealt with: entry `k` names index `k`. */
  lemma {:induction false} LogsNameIndices(trace: seq<Event>, i: nat)
    requires InOrder(trace, i)
    requires forall k :: 0 <= k < |trace| ==> !trace[k].verdict.Aborted?
    ensures |LogsOf(trace)| == |trace|
    ensures forall k :: 0 <= k < |trace| ==>
              LogsOf(trace)[k] == if trace[k].verdict.Succeeded? then SubcallSucceeded(i + k) else SubcallFailed(i + k)
  {
    if trace == [] {
    } else {
      var rest := trace[1..];
      assert forall k :: 0 <= k < |rest| ==> rest[k] == trace[k + 1];
      LogsNameIndices(rest, i + 1);
      forall k | 0 <= k < |trace|
        ensures LogsOf(trace)[k]
                == if trace[k].verdict.Succeeded? then SubcallSucceeded(i + k) else SubcallFailed(i + k)
      {
        if k > 0 {
          assert LogsOf(trace)[k] == LogsOf(rest)[k - 1];
          assert rest[k - 1] == trace[k];
        }
      }
    }
  }

  lemma NewLogsNameIndices(logs: seq<Log>, o: Outcome)
    requires InOrder(o.trace, 0)
    requires forall k :: 0 <= k < |o.trace| ==> !o.trace[k].verdict.Aborted?
    requires o.final.logs == logs + LogsOf(o.trace)
    ensures |o.final.logs| == |logs| + |o.trace|
    ensures forall k :: 0 <= k < |o.trace| ==>
              o.final.logs[|logs| + k]
              == if o.trace[k].verdict.Succeeded? then SubcallSucceeded(k) else SubcallFailed(k)
  {
    LogsNameIndices(o.trace, 0);
    assert forall k :: 0 <= k < |o.trace| ==> o.final.logs[|logs| + k] == LogsOf(o.trace)[k];
  }

  /** Recording a log never runs out of gas, and only a fatal exit makes the two lenient modes fail.
      Every unit of gas is accounted for, and the logs name the indices dealt with, once each and in
      order; a batch that reports success dealt with all of them, or could not pay for another log, or
      stopped at the failure it was to stop at.  Short of a fatal exit there is one log for each index dealt
      with: the k-th names index k and what became of it. */
  lemma BatchIsAccounted(mode: Mode, env: Env, inputs: Inputs, h: Handle)
    requires Metered(env)
    ensures var o := Run(mode, env, inputs, h);
            && o.result != LogOutOfGas
            && (!mode.BatchAll? ==> o.result.Done? || o.result.FatalExit?)
            && InOrder(o.trace, 0) && |o.trace| <= |inputs.to|
            && o.final.logs == h.logs + LogsOf(o.trace)
            && h.gas == o.final.gas + Spent(env, o.trace)
            && (o.result.Done? ==>
                  || |o.trace| == |inputs.to|
                  || (!mode.BatchAll? && o.final.gas < env.logCost)
                  || (mode.BatchSomeUntilFailure? && o.trace != [] && o.trace[|o.trace| - 1].verdict.Failed?))
            && (!o.result.FatalExit? ==>
                  && |o.final.logs| == |h.logs| + |o.trace|
                  && (forall k :: 0 <= k < |o.trace| ==>
                        o.final.logs[|h.logs| + k]
                        == if o.trace[k].verdict.Succeeded? then SubcallSucceeded(k) else SubcallFailed(k)))
  {
    RunFromAccounted(mode, env, inputs, h, 0);
    var o := Run(mode, env, inputs, h);
    if !o.result.FatalExit? {
      NewLogsNameIndices(h.logs, o);
    }
  }

  // ---- What every index comes to --------------------------------------------------------------

  /** How an index ends, from the state before it: a call that cannot be paid for has failed, any other ended as
      its exit reason says.  The log names the index and the verdict, and the world is that of the call. */
  ghost predicate EndsRightly(env: Env, inputs: Inputs, h: Handle, e: Event) {
    && e.index < |inputs.to|
    && match Try(env, inputs, h, e.index)
       case NoGasForLog => false
       case Refused =>
         && e.verdict.Failed? && e.used == 0
         && e.after == Handle(h.gas - env.logCost, h.logs + [SubcallFailed(e.index)], h.world)
       case Called(_, o) =>
         && e.used == o.gasUsed && e.after.world == o.world
         && match o.reason {
              case Succeed =>
                && e.verdict.Succeeded?
                && e.after.gas == h.gas - o.gasUsed - env.logCost
                && e.after.logs == h.logs + [SubcallSucceeded(e.index)]
              case Revert(_) =>
                && e.verdict.Failed?
                && e.after.gas == h.gas - o.gasUsed - env.logCost
                && e.after.logs == h.logs + [SubcallFailed(e.index)]
              case Error(_) =>
                && e.verdict.Failed?
                && e.after.gas == h.gas - o.gasUsed - env.logCost
                && e.after.logs == h.logs + [SubcallFailed(e.index)]
              case Fatal(_) =>
                && e.verdict.Aborted?
                && e.after.gas == h.gas - o.gasUsed
                && e.after.logs == h.logs
            }
  }

  /** After which verdicts a mode goes on. */
  predicate GoesOn(mode: Mode, verdict: Verdict) {
    verdict.Succeeded? || (verdict.Failed? && mode.BatchSome?)
  }

  /** What a batch reports that stops at an index: a fatal exit always, a failure only in the strict mode. */
  function Report(mode: Mode, attempt: Attempt): BatchResult {
    match attempt
    case Called(_, CallOutcome(_, _, Fatal(code), _)) => FatalExit(code)
    case Called(_, CallOutcome(_, _, Revert(code), output)) => if mode.BatchAll? then Reverted(code, output) else Done
    case Called(_, CallOutcome(_, _, Error(code), _)) => if mode.BatchAll? then Errored(code) else Done
    case _ => if mode.BatchAll? then OutOfGas else Done
  }

  /** The state before position `k` of the trace; after it, for the last `k`. */
  function HandleAt(h: Handle, trace: seq<Event>, k: nat): Handle
    requires k <= |trace|
  {
    if k == 0 then h else trace[k - 1].after
  }

  /** Entry `k` deals with the k-th index from `i` on, on the state that the one before it left. */
  ghost predicate EntryRight(env: Env, inputs: Inputs, h: Handle, i: nat, trace: seq<Event>, k: nat)
    requires k < |trace|
  {
    trace[k].index == i + k && EndsRightly(env, inputs, HandleAt(h, trace, k), trace[k])
  }

  /** Where the batch ends and what it reports: at an index after which the mode does not go on, after the last
      index, or where not even a log can be paid for. */
  ghost predicate Concludes(mode: Mode, env: Env, inputs: Inputs, h: Handle, i: nat, o: Outcome) {
    var n := |o.trace|;
    && o.final == HandleAt(h, o.trace, n)
    && (if n > 0 && !GoesOn(mode, o.trace[n - 1].verdict) then
          && o.trace[n - 1].index < |inputs.to|
          && o.result == Report(mode, Try(env, inputs, HandleAt(h, o.trace, n - 1), o.trace[n - 1].index))
        else if i + n == |inputs.to| then o.result == Done
        else o.final.gas < env.logCost && o.result == if mode.BatchAll? then OutOfGas else Done)
  }

  /** The outcome of dealing with the indices from `i` on, one after the other, as the mode says. */
  ghost predicate Explained(mode: Mode, env: Env, inputs: Inputs, h: Handle, i: nat, o: Outcome) {
    && i + |o.trace| <= |inputs.to|
    && (forall k: nat :: k < |o.trace| ==> EntryRight(env, inputs, h, i, o.trace, k))
    && (forall k :: 0 <= k < |o.trace| - 1 ==> GoesOn(mode, o.trace[k].verdict))
    && Concludes(mode, env, inputs, h, i, o)
  }

  lemma PrependExplained(mode: Mode, env: Env, inputs: Inputs, h: Handle, i: nat, e: Event, o: Outcome)
    requires Explained(mode, env, inputs, e.after, i + 1, o)
    requires e.index == i && EndsRightly(env, inputs, h, e) && GoesOn(mode, e.verdict)
    ensures Explained(mode, env, inputs, h, i, Prepend(e, o))
  {
    var o' := Prepend(e, o);
    assert forall k :: 0 < k < |o'.trace| ==> o'.trace[k] == o.trace[k - 1];
    assert forall k :: 0 < k <= |o'.trace| ==> HandleAt(h, o'.trace, k) == HandleAt(e.after, o.trace, k - 1);
    forall k: nat | k < |o'.trace|
      ensures EntryRight(env, inputs, h, i, o'.trace, k)
    {
      if k > 0 {
        assert EntryRight(env, inputs, e.after, i + 1, o.trace, k - 1);
      }
    }
  }

  lemma {:induction false} RunIsExplainedFrom(mode: Mode, env: Env, inputs: Inputs, h: Handle, i: nat)
    requires Metered(env)
    requires i <= |inputs.to|
    ensures Explained(mode, env, inputs, h, i, RunFrom(mode, env, inputs, h, i))
    decreases |inputs.to| - i, 1
  {
    if i == |inputs.to| {
    } else {
      match Try(env, inputs, h, i)
      case NoGasForLog =>
      case Refused => AfterFailureIsExplained(mode, env, inputs, h, h, i, 0, OutOfGas);
      case Called(_, o) =>
        CallLeavesLogCost(env, inputs, h, i);
        var h1 := AfterCall(h, o);
        match o.reason
        case Fatal(code) =>
        case Revert(code) => AfterFailureIsExplained(mode, env, inputs, h, h1, i, o.gasUsed, Reverted(code, o.output));
        case Error(code) => AfterFailureIsExplained(mode, env, inputs, h, h1, i, o.gasUsed, Errored(code));
        case Succeed =>
          var h2 := Record(env, h1, SubcallSucceeded(i)).value;
          RunIsExplainedFrom(mode, env, inputs, h2, i + 1);
          PrependExplained(mode, env, inputs, h, i, Event(i, Succeeded, o.gasUsed, h2),
                           RunFrom(mode, env, inputs, h2, i + 1));
    }
  }

  lemma {:induction false} AfterFailureIsExplained(mode: Mode, env: Env, inputs: Inputs, h: Handle, h1: Handle, i: nat,
                                                   used: nat, error: BatchResult)
    requires Metered(env)
    requires i < |inputs.to|
    requires h1.gas >= env.logCost
    requires EndsRightly(env, inputs, h, Event(i, Failed, used, Record(env, h1, SubcallFailed(i)).value))
    requires error == Report(BatchAll, Try(env, inputs, h, i)) && !error.FatalExit?
    ensures Explained(mode, env, inputs, h, i, AfterFailure(mode, env, inputs, h1, i, used, error))
    decreases |inputs.to| - i, 0
  {
    var h2 := Record(env, h1, SubcallFailed(i)).value;
    var e := Event(i, Failed, used, h2);
    if mode.BatchSome? {
      RunIsExplainedFrom(mode, env, inputs, h2, i + 1);
      PrependExplained(mode, env, inputs, h, i, e, RunFrom(mode, env, inputs, h2, i + 1));
    }
  }

  lemma EndsAlike(env: Env, inputs: Inputs, h: Handle, e: Event, e': Event)
    requires EndsRightly(env, inputs, h, e) && EndsRightly(env, inputs, h, e') && e.index == e'.index
    ensures e == e'
  {
  }

  /** A trace does not end where the mode goes on and a log can be paid for. */
  lemma GoesOnFrom(mode: Mode, env: Env, inputs: Inputs, h: Handle, i: nat, o: Outcome, k: nat)
    requires Explained(mode, env, inputs, h, i, o)
    requires k <= |o.trace| && i + k < |inputs.to|
    requires k > 0 ==> GoesOn(mode, o.trace[k - 1].verdict)
    requires HandleAt(h, o.trace, k).gas >= env.logCost
    ensures k < |o.trace|
  {
  }

  /** Entry `k` ended rightly, so it could be dealt with, and the one before it let the mode go on. */
  lemma EntryAt(mode: Mode, env: Env, inputs: Inputs, h: Handle, i: nat, o: Outcome, k: nat)
    requires Explained(mode, env, inputs, h, i, o)
    requires k < |o.trace|
    ensures o.trace[k].index == i + k && EndsRightly(env, inputs, HandleAt(h, o.trace, k), o.trace[k])
    ensures HandleAt(h, o.trace, k).gas >= env.logCost
    ensures k > 0 ==> GoesOn(mode, o.trace[k - 1].verdict)
  {
    assert EntryRight(env, inputs, h, i, o.trace, k);
  }

  lemma NextEntryAgrees(mode: Mode, env: Env, inputs: Inputs, h: Handle, i: nat, o: Outcome, o': Outcome, k: nat)
    requires Explained(mode, env, inputs, h, i, o) && Explained(mode, env, inputs, h, i, o')
    requires k < |o.trace| && k <= |o'.trace|
    requires k > 0 ==> o.trace[k - 1] == o'.trace[k - 1]
    ensures k < |o'.trace| && o.trace[k] == o'.trace[k]
  {
    EntryAt(mode, env, inputs, h, i, o, k);
    GoesOnFrom(mode, env, inputs, h, i, o', k);
    EntryAt(mode, env, inputs, h, i, o', k);
    EndsAlike(env, inputs, HandleAt(h, o.trace, k), o.trace[k], o'.trace[k]);
  }

  lemma {:induction false} EntriesAgree(mode: Mode, env: Env, inputs: Inputs, h: Handle, i: nat, o: Outcome,
                                        o': Outcome, k: nat)
    requires Explained(mode, env, inputs, h, i, o) && Explained(mode, env, inputs, h, i, o')
    requires k <= |o.trace|
    ensures k <= |o'.trace| && forall j :: 0 <= j < k ==> o.trace[j] == o'.trace[j]
  {
    if k == 0 {
    } else {
      EntriesAgree(mode, env, inputs, h, i, o, o', k - 1);
      NextEntryAgrees(mode, env, inputs, h, i, o, o', k - 1);
    }
  }

  lemma ConclusionsAgree(mode: Mode, env: Env, inputs: Inputs, h: Handle, i: nat, o: Outcome, o': Outcome)
    requires Explained(mode, env, inputs, h, i, o) && Explained(mode, env, inputs, h, i, o')
    requires o.trace == o'.trace
    ensures o == o'
  {
  }

  /** There is one way only to deal with the indices as the mode says. */
  lemma ExplanationsAgree(mode: Mode, env: Env, inputs: Inputs, h: Handle, i: nat, o: Outcome, o': Outcome)
    requires Explained(mode, env, inputs, h, i, o) && Explained(mode, env, inputs, h, i, o')
    ensures o == o'
  {
    assert o.trace == o'.trace by {
      EntriesAgree(mode, env, inputs, h, i, o, o', |o.trace|);
      EntriesAgree(mode, env, inputs, h, i, o', o, |o'.trace|);
    }
    ConclusionsAgree(mode, env, inputs, h, i, o, o');
  }

  /** An outcome is that of the batch exactly when every index ended as its call did, on the state the one before
      left, the mode was obeyed, and the report fits. */
  lemma BatchIsExplained(mode: Mode, env: Env, inputs: Inputs, h: Handle, o: Outcome)
    requires Metered(env)
    ensures o == Run(mode, env, inputs, h) <==> Explained(mode, env, inputs, h, 0, o)
  {
    RunIsExplainedFrom(mode, env, inputs, h, 0);
    if Explained(mode, env, inputs, h, 0, o) {
      ExplanationsAgree(mode, env, inputs, h, 0, o, Run(mode, env, inputs, h));
    }
  }

  // ---- Modes ----------------------------------------------------------------------------------

  /** The position of the first failed index; the length of the trace when none failed. */
  function FirstFailure(trace: seq<Event>): nat
    ensures FirstFailure(trace) <= |trace|
  {
    if trace == [] then 0
    else if trace[0].verdict.Failed? then 0
    else 1 + FirstFailure(trace[1..])
  }

  predicate NoFailure(trace: seq<Event>) {
    FirstFailure(trace) == |trace|
  }

  lemma {:induction false} FirstFailureIsFirst(trace: seq<Event>)
    ensures forall k :: 0 <= k < FirstFailure(trace) ==> !trace[k].verdict.Failed?
    ensures FirstFailure(trace) < |trace| ==> trace[FirstFailure(trace)].verdict.Failed?
  {
    if trace == [] || trace[0].verdict.Failed? {
    } else {
      FirstFailureIsFirst(trace[1..]);
      assert forall k :: 0 < k < FirstFailure(trace) ==> trace[k] == trace[1..][k - 1];
    }
  }

  /** The outcome of stopping just after the first failure. */
  function CutAtFailure(o: Outcome): Outcome {
    var p := FirstFailure(o.trace);
    if p == |o.trace| then o else Outcome(Done, o.trace[p].after, o.trace[..p + 1])
  }

  lemma CutAfterPrepend(e: Event, o: Outcome)
    requires !e.verdict.Failed?
    ensures CutAtFailure(Prepend(e, o)) == Prepend(e, CutAtFailure(o))
    ensures FirstFailure(Prepend(e, o).trace) == 1 + FirstFailure(o.trace)
  {
  }

  /** From the same state, at any index: the mode that stops at a failure does what the tolerant mode
      does up to its first failure and nothing else; the strict mode goes through the very same steps and
      differs only in what it reports. */
  lemma {:induction false} ModesFrom(env: Env, inputs: Inputs, h: Handle, i: nat)
    requires i <= |inputs.to|
    ensures var some := RunFrom(BatchSome, env, inputs, h, i);
            var until := RunFrom(BatchSomeUntilFailure, env, inputs, h, i);
            var all := RunFrom(BatchAll, env, inputs, h, i);
            && until == CutAtFailure(some)
            && all.trace == until.trace && all.final == until.final
            && (all.result.Done? <==> some.result.Done? && NoFailure(some.trace) && i + |some.trace| == |inputs.to|)
    decreases |inputs.to| - i
  {
    if i == |inputs.to| {
    } else {
      match Try(env, inputs, h, i)
      case NoGasForLog =>
      case Refused => ModesAtFailure(env, inputs, h, i, 0, OutOfGas);
      case Called(_, o) =>
        var h1 := AfterCall(h, o);
        match o.reason
        case Fatal(code) =>
          var e := Event(i, Aborted, o.gasUsed, h1);
          assert [e][1..] == [];
        case Revert(code) => ModesAtFailure(env, inputs, h1, i, o.gasUsed, Reverted(code, o.output));
        case Error(code) => ModesAtFailure(env, inputs, h1, i, o.gasUsed, Errored(code));
        case Succeed =>
          if Record(env, h1, SubcallSucceeded(i)).Some? {
            var h2 := Record(env, h1, SubcallSucceeded(i)).value;
            ModesFrom(env, inputs, h2, i + 1);
            CutAfterPrepend(Event(i, Succeeded, o.gasUsed, h2), RunFrom(BatchSome, env, inputs, h2, i + 1));
          }
    }
  }

  lemma ModesAtFailure(env: Env, inputs: Inputs, h: Handle, i: nat, used: nat, error: BatchResult)
    requires i < |inputs.to|
    requires !error.Done?
    ensures var some := AfterFailure(BatchSome, env, inputs, h, i, used, error);
            var until := AfterFailure(BatchSomeUntilFailure, env, inputs, h, i, used, error);
            var all := AfterFailure(BatchAll, env, inputs, h, i, used, error);
            && until == CutAtFailure(some)
            && all.trace == until.trace && all.final == until.final
            && !all.result.Done?
            && !(some.result.Done? && NoFailure(some.trace))
  {
  }

  /** The relation of the three modes on a whole batch.  The mode that stops at a failure has the result of
      the tolerant mode if nothing failed there; otherwise it took the same steps up to and including the first
      one that failed, and left everything as that step did. */
  lemma ModesAgree(env: Env, inputs: Inputs, h: Handle)
    ensures var some := Run(BatchSome, env, inputs, h);
            var until := Run(BatchSomeUntilFailure, env, inputs, h);
            var all := Run(BatchAll, env, inputs, h);
            var p := FirstFailure(some.trace);
            && (forall k :: 0 <= k < p ==> !some.trace[k].verdict.Failed?)
            && (p == |some.trace| ==> until == some)
            && (p < |some.trace| ==>
                  && some.trace[p].verdict.Failed?
                  && until == Outcome(Done, some.trace[p].after, some.trace[..p + 1]))
            && all.trace == until.trace && all.final == until.final
            && (all.result.Done? <==>
                  && some.result.Done? && |some.trace| == |inputs.to|
                  && forall k :: 0 <= k < |some.trace| ==> !some.trace[k].verdict.Failed?)
            && (all.result.Done? ==> some == until == all)
  {
    ModesFrom(env, inputs, h, 0);
    FirstFailureIsFirst(Run(BatchSome, env, inputs, h).trace);
  }

  /** Missing values, data and limits are zero, empty and absent; entries beyond the addresses play no
      part.  Two batches that agree after padding have the same outcome. */
  lemma {:induction false} PaddingIsInvisible(mode: Mode, env: Env, a: Inputs, b: Inputs, h: Handle, i: nat)
    requires a.to == b.to
    requires forall k: nat :: k < |a.to| ==>
      ValueAt(a, k) == ValueAt(b, k) && DataAt(a, k) == DataAt(b, k) && LimitAt(a, k) == LimitAt(b, k)
    ensures RunFrom(mode, env, a, h, i) == RunFrom(mode, env, b, h, i)
    decreases |a.to| - i
  {
    if i >= |a.to| {
    } else {
      var attempt := Try(env, a, h, i);
      assert attempt == Try(env, b, h, i);
      var h1 := if attempt.Called? then AfterCall(h, attempt.outcome) else h;
      var log := if attempt.Called? && attempt.outcome.reason.Succeed? then SubcallSucceeded(i) else SubcallFailed(i);
      if Record(env, h1, log).Some? {
        PaddingIsInvisible(mode, env, a, b, Record(env, h1, log).value, i + 1);
      }
    }
  }
}
