/** The batch precompile: one loop over subcalls with three ways to treat a failure. */
module Batch {
  import opened Common

  /** The state of the EVM, seen only through the calls that change it. */
  type World = nat

  datatype Mode = BatchSome | BatchSomeUntilFailure | BatchAll

  datatype ExitReason = Succeed | Revert(code: nat) | Error(code: nat) | Fatal(code: nat)

  datatype Log = SubcallSucceeded(index: nat) | SubcallFailed(index: nat)

  datatype Transfer = Transfer(source: Address, target: Address, value: nat)

  datatype Subcall = Subcall(
    address: Address, transfer: Option<Transfer>, data: Bytes, gas: nat, caller: Address, apparentValue: nat)

  datatype CallOutcome = CallOutcome(world: World, gasUsed: nat, reason: ExitReason, output: Bytes)

  /** What the loop can change: the gas left, the logs of the precompile itself, and the EVM state. */
  datatype Handle = Handle(gas: nat, logs: seq<Log>, world: World)

  /** The caller, the cost of one of the precompile's logs, the cost of a call that sends a value, and the
      effect of a call, which may depend on everything it can see. */
  datatype Env = Env(caller: Address, logCost: nat, callCost: nat -> nat, call: (World, nat, Subcall) -> CallOutcome)

  datatype Inputs = Inputs(to: seq<Address>, value: seq<nat>, callData: seq<Bytes>, gasLimit: seq<nat>)

  /** `LogOutOfGas` is the out-of-gas error raised while a log is recorded. */
  datatype BatchResult =
    | Done
    | OutOfGas
    | LogOutOfGas
    | Reverted(code: nat, output: Bytes)
    | Errored(code: nat)
    | FatalExit(code: nat)

  /** A call uses no more gas than its own cost and what was forwarded to it. */
  ghost predicate Metered(env: Env) {
    forall w, g, c :: env.call(w, g, c).gasUsed <= env.callCost(c.apparentValue) + c.gas
  }

  // ---- One iteration --------------------------------------------------------------------------

  function ValueAt(inputs: Inputs, i: nat): nat {
    if i < |inputs.value| then inputs.value[i] else 0
  }

  function DataAt(inputs: Inputs, i: nat): Bytes {
    if i < |inputs.callData| then inputs.callData[i] else []
  }

  /** No entry, or a zero, means no limit. */
  function LimitAt(inputs: Inputs, i: nat): Option<nat> {
    if i < |inputs.gasLimit| && inputs.gasLimit[i] != 0 then Some(inputs.gasLimit[i]) else None
  }

  datatype Attempt = NoGasForLog | Refused | Called(call: Subcall, outcome: CallOutcome)

  /** The three gas checks and, when they pass, the call. */
  function Try(env: Env, inputs: Inputs, h: Handle, i: nat): Attempt
    requires i < |inputs.to|
  {
    var value := ValueAt(inputs, i);
    var reserved := env.logCost + env.callCost(value);
    if h.gas < env.logCost then NoGasForLog
    else if h.gas < reserved then Refused
    else if LimitAt(inputs, i).Some? && LimitAt(inputs, i).value > h.gas - reserved then Refused
    else
      var address := inputs.to[i];
      var transfer := if value == 0 then None else Some(Transfer(env.caller, address, value));
      var gas := if LimitAt(inputs, i).Some? then LimitAt(inputs, i).value else h.gas - reserved;
      var call := Subcall(address, transfer, DataAt(inputs, i), gas, env.caller, value);
      Called(call, env.call(h.world, h.gas, call))
  }

  function AfterCall(h: Handle, o: CallOutcome): Handle {
    h.(gas := Max(h.gas - o.gasUsed, 0), world := o.world)
  }

  function Record(env: Env, h: Handle, log: Log): Option<Handle> {
    if h.gas < env.logCost then None else Some(h.(gas := h.gas - env.logCost, logs := h.logs + [log]))
  }

  // ---- The loop -------------------------------------------------------------------------------

  datatype Verdict = Succeeded | Failed | Aborted

  /** One index that was dealt with: how it ended, the gas its call used, and the state it left. */
  datatype Event = Event(index: nat, verdict: Verdict, used: nat, after: Handle)

  datatype Outcome = Outcome(result: BatchResult, final: Handle, trace: seq<Event>)

  function Prepend(e: Event, o: Outcome): Outcome {
    o.(trace := [e] + o.trace)
  }

  /** The loop from index `i` on. */
  function RunFrom(mode: Mode, env: Env, inputs: Inputs, h: Handle, i: nat): Outcome
    decreases |inputs.to| - i
  {
    if i >= |inputs.to| then Outcome(Done, h, [])
    else
      match Try(env, inputs, h, i)
      case NoGasForLog => Outcome(if mode.BatchAll? then OutOfGas else Done, h, [])
      case Refused => AfterFailure(mode, env, inputs, h, i, 0, OutOfGas)
      case Called(_, o) =>
        var h1 := AfterCall(h, o);
        match o.reason
        case Fatal(code) => Outcome(FatalExit(code), h1, [Event(i, Aborted, o.gasUsed, h1)])
        case Revert(code) => AfterFailure(mode, env, inputs, h1, i, o.gasUsed, Reverted(code, o.output))
        case Error(code) => AfterFailure(mode, env, inputs, h1, i, o.gasUsed, Errored(code))
        case Succeed =>
          match Record(env, h1, SubcallSucceeded(i))
          case None => Outcome(LogOutOfGas, h1, [])
          case Some(h2) => Prepend(Event(i, Succeeded, o.gasUsed, h2), RunFrom(mode, env, inputs, h2, i + 1))
  }

  /** Index `i` has failed: log it, then stop or go on as the mode says. */
  function AfterFailure(mode: Mode, env: Env, inputs: Inputs, h: Handle, i: nat, used: nat, error: BatchResult): Outcome
    requires i < |inputs.to|
    decreases |inputs.to| - i, 0
  {
    match Record(env, h, SubcallFailed(i))
    case None => Outcome(LogOutOfGas, h, [])
    case Some(h2) =>
      var e := Event(i, Failed, used, h2);
      match mode
      case BatchAll => Outcome(error, h2, [e])
      case BatchSomeUntilFailure => Outcome(Done, h2, [e])
      case BatchSome => Prepend(e, RunFrom(mode, env, inputs, h2, i + 1))
  }

  function Run(mode: Mode, env: Env, inputs: Inputs, h: Handle): Outcome {
    RunFrom(mode, env, inputs, h, 0)
  }

  // ---- The precompile -------------------------------------------------------------------------

  class PrecompileHandle {
    const env: Env
    var gas: nat
    var logs: seq<Log>
    var world: World

    constructor (env: Env, gas: nat, world: World)
      ensures this.env == env && State() == Handle(gas, [], world)
    {
      this.env := env;
      this.gas, this.logs, this.world := gas, [], world;
    }

    ghost function State(): Handle
      reads this
    {
      Handle(gas, logs, world)
    }

    method Call(c: Subcall) returns (reason: ExitReason, output: Bytes)
      modifies this`gas, this`world
      ensures var o := env.call(old(world), old(gas), c);
              State() == AfterCall(old(State()), o) && reason == o.reason && output == o.output
    {
      var o := env.call(world, gas, c);
      gas := Max(gas - o.gasUsed, 0);
      world := o.world;
      return o.reason, o.output;
    }

    method RecordLog(log: Log) returns (ok: bool)
      modifies this`gas, this`logs
      ensures var o := Record(env, old(State()), log);
              ok == o.Some? && State() == if o.Some? then o.value else old(State())
    {
      ok := gas >= env.logCost;
      if ok {
        gas := gas - env.logCost;
        logs := logs + [log];
      }
    }

    /** The loop of the precompile computes the outcome of `Run`. */
    method InnerBatch(mode: Mode, inputs: Inputs) returns (r: BatchResult)
      modifies this
      ensures r == Run(mode, env, inputs, old(State())).result
      ensures State() == Run(mode, env, inputs, old(State())).final
    {
      ghost var whole := Run(mode, env, inputs, old(State()));
      var logCost := env.logCost;
      var i := 0;
      while i < |inputs.to|
        invariant 0 <= i <= |inputs.to|
        invariant RunFrom(mode, env, inputs, State(), i).result == whole.result
        invariant RunFrom(mode, env, inputs, State(), i).final == whole.final
      {
        ghost var attempt := Try(env, inputs, State(), i);
        var address := inputs.to[i];
        var value := ValueAt(inputs, i);
        var transfer := if value == 0 then None else Some(Transfer(env.caller, address, value));
        if gas < logCost {
          return if mode.BatchAll? then OutOfGas else Done;
        }
        var forwarded := gas - logCost;
        var callCost := env.callCost(value);
        var limit := LimitAt(inputs, i);
        if forwarded < callCost || (limit.Some? && limit.value > forwarded - callCost) {
          assert attempt == Refused;
          var ok := RecordLog(SubcallFailed(i));
          if !ok {
            return LogOutOfGas;
          }
          match mode
          case BatchAll => return OutOfGas;
          case BatchSomeUntilFailure => return Done;
          case BatchSome =>
            i := i + 1;
            continue;
        }
        forwarded := if limit.Some? then limit.value else forwarded - callCost;
        var call := Subcall(address, transfer, DataAt(inputs, i), forwarded, env.caller, value);
        assert attempt == Called(call, env.call(world, gas, call));
        var reason, output := Call(call);
        if !reason.Fatal? {
          var ok := RecordLog(if reason.Succeed? then SubcallSucceeded(i) else SubcallFailed(i));
          if !ok {
            return LogOutOfGas;
          }
        }
        match reason {
          case Fatal(code) => return FatalExit(code);
          case Revert(code) =>
            if mode.BatchAll? { return Reverted(code, output); }
            if mode.BatchSomeUntilFailure? { return Done; }
          case Error(code) =>
            if mode.BatchAll? { return Errored(code); }
            if mode.BatchSomeUntilFailure? { return Done; }
          case Succeed =>
        }
        i := i + 1;
      }
      return Done;
    }
  }
}
