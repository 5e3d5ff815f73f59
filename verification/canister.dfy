/**
 The canister as a state machine: every state-changing endpoint of
 src/lib.rs as one step on the shared `State`, with a refused call (a panic
 in the source, which traps and rolls back) leaving the state as it was.
 `get_symmetric_key_for_client` is an update call that reads no state and
 writes none, so it is not a step (see `Keys`).
 */
module Canister {
  import opened Types
  import Registry
  import Uploads
  import Cycles
  import Modes
  import Smpc
  import Plain

  datatype Call =
    | RegisterClient(caller: Principal)
    | UploadModelUpdate(caller: Principal, update: seq<Byte>)
    | UploadMaskedUpdateS(caller: Principal, share: seq<I64>)
    | UploadMaskSumT(caller: Principal, sum: seq<I64>)
    | StartNewCycle
    | SetAggregationMode(mode: string)
    | RunSmpcAggregation
    | RunAggregation(oracles: Plain.Oracles)

  /**
   One call. A refused call (a duplicate registration, an upload by an
   unknown caller) traps and leaves the state as it was; only
   `start_new_cycle` moves the cycle counter.
   */
  function Step(s: State, call: Call): (r: State)
    ensures call.RegisterClient? && call.caller in s.clients ==> r == s
    ensures (call.UploadModelUpdate? || call.UploadMaskedUpdateS? || call.UploadMaskSumT?) && call.caller !in s.clients ==> r == s
    ensures r.currentCycle == s.currentCycle + (if call.StartNewCycle? then 1 else 0)
    ensures s.clients <= r.clients
  {
    match call
    case RegisterClient(caller) =>
      (match Registry.RegisterClient(s, caller)
       case Ok((s', _)) => s'
       case Err(_) => s)
    case UploadModelUpdate(caller, update) =>
      (match Uploads.UploadModelUpdate(s, caller, update)
       case Ok(s') => s'
       case Err(_) => s)
    case UploadMaskedUpdateS(caller, share) =>
      (match Uploads.UploadMaskedShare(s, caller, share)
       case Ok(s') => s'
       case Err(_) => s)
    case UploadMaskSumT(caller, sum) =>
      (match Uploads.UploadMaskSum(s, caller, sum)
       case Ok(s') => s'
       case Err(_) => s)
    case StartNewCycle => Cycles.StartNewCycle(s).0
    case SetAggregationMode(mode) => Modes.SetAggregationMode(s, mode)
    case RunSmpcAggregation => Smpc.RunSmpcAggregation(s)
    case RunAggregation(o) => Plain.RunAggregation(s, o)
  }

  function Run(s: State, calls: seq<Call>): State
    decreases |calls|
  {
    if calls == [] then s else Run(Step(s, calls[0]), calls[1..])
  }

  /** Every step keeps the state invariant. */
  lemma StepPreservesWf(s: State, call: Call)
    requires Wf(s)
    ensures Wf(Step(s, call))
  {
    match call
    case RegisterClient(caller) => Registry.RegisterDenseIds(s, caller);
    case UploadModelUpdate(caller, update) => Uploads.UploadsPreserveWf(s, caller, update, []);
    case UploadMaskedUpdateS(caller, share) => Uploads.UploadsPreserveWf(s, caller, [], share);
    case UploadMaskSumT(caller, sum) => Uploads.UploadsPreserveWf(s, caller, [], sum);
    case StartNewCycle => Cycles.StartNewCyclePreservesSnapshots(s);
    case SetAggregationMode(mode) =>
    case RunSmpcAggregation =>
    case RunAggregation(o) =>
  }

  /** Every state reachable from `State::default()` satisfies the invariant. */
  lemma {:induction false} ReachableWf(s: State, calls: seq<Call>)
    requires Wf(s)
    ensures Wf(Run(s, calls))
    decreases |calls|
  {
    if calls != [] {
      StepPreservesWf(s, calls[0]);
      ReachableWf(Step(s, calls[0]), calls[1..]);
    }
  }

  /** How many of `calls`, run from `s`, register a new client. */
  function Registrations(s: State, calls: seq<Call>): nat
    decreases |calls|
  {
    if calls == [] then 0
    else
      (if calls[0].RegisterClient? && calls[0].caller !in s.clients then 1 else 0)
      + Registrations(Step(s, calls[0]), calls[1..])
  }

  /**
   The registry only grows, by appending, and only through registration:
   ids once handed out keep naming the same principal.
   */
  lemma ClientsOnlyGrow(s: State, call: Call)
    ensures s.clients <= Step(s, call).clients
    ensures |Step(s, call).clients| ==
      |s.clients| + (if call.RegisterClient? && call.caller !in s.clients then 1 else 0)
  {
  }

  /**
   After any run from the initial state the registry holds exactly one
   principal per successful registration, so the next registration is
   handed the id `n` when `n` registrations came before it: the n-th
   registration receives id n-1.
   */
  lemma {:induction false} DenseIds(s: State, calls: seq<Call>)
    ensures |Run(s, calls).clients| == |s.clients| + Registrations(s, calls)
    ensures s.clients <= Run(s, calls).clients
    decreases |calls|
  {
    if calls != [] {
      ClientsOnlyGrow(s, calls[0]);
      DenseIds(Step(s, calls[0]), calls[1..]);
    }
  }

  lemma NthRegistration(calls: seq<Call>, caller: Principal)
    requires caller !in Run(Init(), calls).clients
    ensures Registry.RegisterClient(Run(Init(), calls), caller).Ok?
    ensures Registry.RegisterClient(Run(Init(), calls), caller).value.1 == Registrations(Init(), calls)
  {
    InitWf();
    ReachableWf(Init(), calls);
    DenseIds(Init(), calls);
  }

  /**
   The global model is sticky: only an aggregation replaces it, and a step
   that changes anything under an aggregation also removes that cycle's
   inputs.
   */
  lemma GlobalModelSticky(s: State, call: Call)
    ensures !call.RunSmpcAggregation? && !call.RunAggregation? ==> Step(s, call).globalModel == s.globalModel
    ensures call.RunSmpcAggregation? && Step(s, call) != s ==>
      && Step(s, call).globalModel.SmpcMean?
      && s.currentCycle !in Step(s, call).sShares
      && s.currentCycle !in Step(s, call).tSums
    ensures call.RunAggregation? && Step(s, call) != s ==>
      && Step(s, call).globalModel.PlainMean?
      && s.currentCycle !in Step(s, call).modelUpdates
  {
  }
}
