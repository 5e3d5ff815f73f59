/**
 The data model of the federated-learning aggregation canister: the one
 process-wide `State` record, the identifiers it is keyed by, and the error
 results that replace the canister's panics.
 */
module Types {

  /** An unsigned byte (`u8`). */
  type Byte = x: int | 0 <= x < 256

  /** A caller's principal, as the byte string the canister feeds into key derivation. */
  type Principal = seq<Byte>

  /** Dense client identifier: the position of the principal in `clients`. */
  type ClientId = nat

  /** Aggregation round counter. */
  type Cycle = nat

  const MinI64: int := -0x8000_0000_0000_0000
  const MaxI64: int := 0x7fff_ffff_ffff_ffff

  /** A signed 64-bit integer, the element type of the SMPC fixed-point vectors. */
  type I64 = x: int | MinI64 <= x <= MaxI64

  /** Fixed-point scale of the SMPC integer encoding (1e6). */
  const SmpcScale: nat := 1_000_000

  datatype Option<T> = None | Some(value: T)

  /** The canister's panics, each of which aborts the call with no state change. */
  datatype Error =
    | AlreadyRegistered       // register_client by a known principal
    | NotRegistered           // upload by an unknown principal
    | KeyServiceUnavailable   // the vetkd_derive_key call failed

  datatype Result<T> = Ok(value: T) | Err(error: Error)

  datatype AggregationMode = Plain | Smpc

  /**
   The serialized global model, kept symbolically: the canister stores the JSON
   encoding of an f32 vector; here the vector is named by the exact quantities
   it is the element-wise mean of.
   */
  datatype GlobalModel =
    | Empty
      /** mean of the SMPC reconstruction: numerators[i] / divisor */
    | SmpcMean(numerators: seq<int>, divisor: nat)
      /** element-wise mean of decrypted f32 vectors (as bit patterns) over `count` */
    | PlainMean(vectors: seq<seq<bv32>>, count: nat)

  datatype State = State(
    globalModel: GlobalModel,
    modelUpdates: map<Cycle, map<ClientId, seq<Byte>>>,
    clients: seq<Principal>,
    nextClientId: ClientId,
    currentCycle: Cycle,
    aggregationMode: AggregationMode,
    sShares: map<Cycle, map<ClientId, seq<I64>>>,
    tSums: map<Cycle, map<ClientId, seq<I64>>>,
    cycleParticipants: map<Cycle, seq<ClientId>>
  )

  /** `State::default()` */
  function Init(): State {
    State(Empty, map[], [], 0, 0, Plain, map[], map[], map[])
  }

  /** The map a per-cycle store holds for `cycle`, or the empty map (`.get(..).cloned().unwrap_or_default()`). */
  function CycleMap<V>(perCycle: map<Cycle, map<ClientId, V>>, cycle: Cycle): (m: map<ClientId, V>)
    ensures cycle in perCycle ==> m == perCycle[cycle]
    ensures cycle !in perCycle ==> m == map[]
  {
    if cycle in perCycle then perCycle[cycle] else map[]
  }

  /** The ids `0, 1, .., n-1`, as `(0..n).collect()` produces them. */
  function Ids(n: nat): (r: seq<ClientId>)
    ensures |r| == n
    ensures forall i :: 0 <= i < n ==> r[i] == i
  {
    seq(n, i requires 0 <= i < n => i)
  }

  ghost predicate Distinct<T>(s: seq<T>) {
    forall i, j :: 0 <= i < j < |s| ==> s[i] != s[j]
  }

  /** Every id stored in a per-cycle map names a registered client, under a cycle already reached. */
  ghost predicate KeysBounded<V>(m: map<Cycle, map<ClientId, V>>, n: nat, cycle: Cycle) {
    forall c :: c in m ==> c <= cycle && forall id :: id in m[c] ==> id < n
  }

  /**
   The invariant every reachable state keeps: ids are dense positions in a
   duplicate-free registry, every stored id is registered, and every snapshot
   is a prefix `0..k` of the ids registered so far, recorded for a cycle
   already started.
   */
  ghost predicate Wf(s: State) {
    && s.nextClientId == |s.clients|
    && Distinct(s.clients)
    && KeysBounded(s.modelUpdates, |s.clients|, s.currentCycle)
    && KeysBounded(s.sShares, |s.clients|, s.currentCycle)
    && KeysBounded(s.tSums, |s.clients|, s.currentCycle)
    && forall c :: c in s.cycleParticipants ==>
         && 1 <= c <= s.currentCycle
         && |s.cycleParticipants[c]| <= |s.clients|
         && s.cycleParticipants[c] == Ids(|s.cycleParticipants[c]|)
  }

  lemma InitWf()
    ensures Wf(Init())
  {
  }
}
