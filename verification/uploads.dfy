/**
 The three upload endpoints: `upload_model_update` (src/lib.rs:73-81),
 `upload_masked_update_s` (src/lib.rs:198-214) and `upload_mask_sum_t`
 (src/lib.rs:216-232). Each resolves the caller to its registry position,
 refuses an unregistered caller, and stores the payload under the current
 cycle and that id, replacing any earlier payload of the same client.
 */
module Uploads {
  import opened Types
  import opened Registry

  /** `per_cycle.entry(cycle).or_default().insert(id, v)` */
  function InsertForCycle<V>(perCycle: map<Cycle, map<ClientId, V>>, cycle: Cycle, id: ClientId, v: V)
    : (r: map<Cycle, map<ClientId, V>>)
    ensures r.Keys == perCycle.Keys + {cycle}
    ensures id in r[cycle] && r[cycle][id] == v
    ensures forall other :: other in r[cycle] && other != id ==>
      cycle in perCycle && other in perCycle[cycle] && r[cycle][other] == perCycle[cycle][other]
    ensures forall other :: cycle in perCycle && other in perCycle[cycle] ==> other in r[cycle]
    ensures forall c :: c in perCycle && c != cycle ==> r[c] == perCycle[c]
  {
    var entry := if cycle in perCycle then perCycle[cycle] else map[];
    perCycle[cycle := entry[id := v]]
  }

  /**
   `after` is `before` with `v` stored under (`cycle`, `id`): the cycle's map
   holds `v` for `id`, keeps every other client's entry, and every other
   cycle's map is untouched.
   */
  ghost predicate Stored<V>(before: map<Cycle, map<ClientId, V>>, after: map<Cycle, map<ClientId, V>>, cycle: Cycle, id: ClientId, v: V) {
    && after.Keys == before.Keys + {cycle}
    && after[cycle] == CycleMap(before, cycle)[id := v]
    && forall c :: c in before && c != cycle ==> after[c] == before[c]
  }

  /** `upload_model_update`: store an encrypted payload for the caller in the current cycle. */
  function UploadModelUpdate(s: State, caller: Principal, update: seq<Byte>): (r: Result<State>)
    ensures r.Err? <==> caller !in s.clients
    ensures r.Err? ==> r.error == NotRegistered
    ensures r.Ok? ==> r.value == s.(modelUpdates := r.value.modelUpdates)
    ensures r.Ok? ==> Stored(s.modelUpdates, r.value.modelUpdates, s.currentCycle, Position(s.clients, caller).value, update)
  {
    match Position(s.clients, caller)
    case None => Err(NotRegistered)
    case Some(id) => Ok(s.(modelUpdates := InsertForCycle(s.modelUpdates, s.currentCycle, id, update)))
  }

  /** `upload_masked_update_s`: store the caller's masked share `s_i` in the current cycle. */
  function UploadMaskedShare(s: State, caller: Principal, share: seq<I64>): (r: Result<State>)
    ensures r.Err? <==> caller !in s.clients
    ensures r.Err? ==> r.error == NotRegistered
    ensures r.Ok? ==> r.value == s.(sShares := r.value.sShares)
    ensures r.Ok? ==> Stored(s.sShares, r.value.sShares, s.currentCycle, Position(s.clients, caller).value, share)
  {
    match Position(s.clients, caller)
    case None => Err(NotRegistered)
    case Some(id) => Ok(s.(sShares := InsertForCycle(s.sShares, s.currentCycle, id, share)))
  }

  /** `upload_mask_sum_t`: store the mask sum `t_j` for the caller in the current cycle. */
  function UploadMaskSum(s: State, caller: Principal, sum: seq<I64>): (r: Result<State>)
    ensures r.Err? <==> caller !in s.clients
    ensures r.Err? ==> r.error == NotRegistered
    ensures r.Ok? ==> r.value == s.(tSums := r.value.tSums)
    ensures r.Ok? ==> Stored(s.tSums, r.value.tSums, s.currentCycle, Position(s.clients, caller).value, sum)
  {
    match Position(s.clients, caller)
    case None => Err(NotRegistered)
    case Some(id) => Ok(s.(tSums := InsertForCycle(s.tSums, s.currentCycle, id, sum)))
  }

  /**
   Last write wins, for all three stores: after two uploads by the same
   registered caller in one cycle, the caller's entry is the second payload,
   under the caller's registered id, and every other client's entry, every
   other cycle and every other field are as before the first.
   */
  lemma UploadLastWriteWins(s: State, caller: Principal, u1: seq<Byte>, u2: seq<Byte>, first: seq<I64>, second: seq<I64>)
    requires caller in s.clients
    ensures
      var id := Position(s.clients, caller).value;
      var m2 := UploadModelUpdate(UploadModelUpdate(s, caller, u1).value, caller, u2).value;
      var s2 := UploadMaskedShare(UploadMaskedShare(s, caller, first).value, caller, second).value;
      var t2 := UploadMaskSum(UploadMaskSum(s, caller, first).value, caller, second).value;
      && s.clients[id] == caller
      && Stored(s.modelUpdates, m2.modelUpdates, s.currentCycle, id, u2) && m2 == s.(modelUpdates := m2.modelUpdates)
      && Stored(s.sShares, s2.sShares, s.currentCycle, id, second) && s2 == s.(sShares := s2.sShares)
      && Stored(s.tSums, t2.tSums, s.currentCycle, id, second) && t2 == s.(tSums := t2.tSums)
  {
    var id := Position(s.clients, caller).value;
    StoredTwice(s.modelUpdates, UploadModelUpdate(s, caller, u1).value.modelUpdates,
      UploadModelUpdate(UploadModelUpdate(s, caller, u1).value, caller, u2).value.modelUpdates, s.currentCycle, id, u1, u2);
    StoredTwice(s.sShares, UploadMaskedShare(s, caller, first).value.sShares,
      UploadMaskedShare(UploadMaskedShare(s, caller, first).value, caller, second).value.sShares, s.currentCycle, id, first, second);
    StoredTwice(s.tSums, UploadMaskSum(s, caller, first).value.tSums,
      UploadMaskSum(UploadMaskSum(s, caller, first).value, caller, second).value.tSums, s.currentCycle, id, first, second);
  }

  /** Storing twice under the same (cycle, id) is storing the second value once. */
  lemma StoredTwice<V>(m0: map<Cycle, map<ClientId, V>>, m1: map<Cycle, map<ClientId, V>>, m2: map<Cycle, map<ClientId, V>>,
                       cycle: Cycle, id: ClientId, v1: V, v2: V)
    requires Stored(m0, m1, cycle, id, v1) && Stored(m1, m2, cycle, id, v2)
    ensures Stored(m0, m2, cycle, id, v2)
  {
    assert CycleMap(m1, cycle) == CycleMap(m0, cycle)[id := v1];
    assert CycleMap(m0, cycle)[id := v1][id := v2] == CycleMap(m0, cycle)[id := v2];
  }

  /** Storing a registered id under the current cycle keeps every stored id registered. */
  lemma InsertKeepsBounded<V>(perCycle: map<Cycle, map<ClientId, V>>, n: nat, cycle: Cycle, id: ClientId, v: V)
    requires KeysBounded(perCycle, n, cycle) && id < n
    ensures KeysBounded(InsertForCycle(perCycle, cycle, id, v), n, cycle)
  {
  }

  /** Uploads keep the state invariant: the stored id is a registered client's, under the current cycle. */
  lemma UploadsPreserveWf(s: State, caller: Principal, update: seq<Byte>, v: seq<I64>)
    requires Wf(s)
    ensures UploadModelUpdate(s, caller, update).Ok? ==> Wf(UploadModelUpdate(s, caller, update).value)
    ensures UploadMaskedShare(s, caller, v).Ok? ==> Wf(UploadMaskedShare(s, caller, v).value)
    ensures UploadMaskSum(s, caller, v).Ok? ==> Wf(UploadMaskSum(s, caller, v).value)
  {
    if caller in s.clients {
      var id := Position(s.clients, caller).value;
      InsertKeepsBounded(s.modelUpdates, |s.clients|, s.currentCycle, id, update);
      InsertKeepsBounded(s.sShares, |s.clients|, s.currentCycle, id, v);
      InsertKeepsBounded(s.tSums, |s.clients|, s.currentCycle, id, v);
    }
  }
}
