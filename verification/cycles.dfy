/**
 The cycle manager: `start_new_cycle` (src/lib.rs:153-163) advances the
 cycle counter and snapshots the ids of the clients registered at that
 moment; `get_cycle_participants` (src/lib.rs:187-196) reads a snapshot back,
 falling back to every currently registered id.
 */
module Cycles {
  import opened Types
  import Registry

  /** `start_new_cycle`: returns the new cycle number together with the new state. */
  function StartNewCycle(s: State): (r: (State, Cycle))
    ensures r.1 == s.currentCycle + 1 == r.0.currentCycle
    ensures r.1 in r.0.cycleParticipants && r.0.cycleParticipants[r.1] == Ids(|s.clients|)
    ensures forall c :: c in s.cycleParticipants && c != r.1 ==>
      c in r.0.cycleParticipants && r.0.cycleParticipants[c] == s.cycleParticipants[c]
    ensures r.0.cycleParticipants.Keys == s.cycleParticipants.Keys + {r.1}
    ensures r.0 == s.(currentCycle := r.1, cycleParticipants := r.0.cycleParticipants)
  {
    var cycle := s.currentCycle + 1;
    (s.(currentCycle := cycle, cycleParticipants := s.cycleParticipants[cycle := Ids(|s.clients|)]), cycle)
  }

  /** `get_cycle_participants`: the stored snapshot, or else `0 .. |clients|-1`. */
  function GetCycleParticipants(s: State, cycle: Cycle): (r: seq<ClientId>)
    ensures cycle in s.cycleParticipants ==> r == s.cycleParticipants[cycle]
    ensures cycle !in s.cycleParticipants ==> r == Ids(|s.clients|)
  {
    if cycle in s.cycleParticipants then s.cycleParticipants[cycle] else Ids(|s.clients|)
  }

  /**
   In a well-formed state a new cycle keeps the invariant, and never
   overwrites a snapshot: the new cycle number had none, so every earlier
   snapshot survives unchanged.
   */
  lemma StartNewCyclePreservesSnapshots(s: State)
    requires Wf(s)
    ensures s.currentCycle + 1 !in s.cycleParticipants
    ensures Wf(StartNewCycle(s).0)
    ensures forall c :: c in s.cycleParticipants ==>
      GetCycleParticipants(StartNewCycle(s).0, c) == GetCycleParticipants(s, c)
  {
  }

  /**
   Cycle 0 is never snapshotted, so its participants are always the whole
   current registry; in particular a registration after the fact shows up
   there, but never in a recorded snapshot.
   */
  lemma ParticipantsAfterRegistration(s: State, caller: Principal, cycle: Cycle)
    requires Wf(s) && caller !in s.clients
    ensures
      var s' := Registry.RegisterClient(s, caller).value.0;
      && GetCycleParticipants(s', 0) == Ids(|s.clients| + 1)
      && (cycle in s.cycleParticipants ==> GetCycleParticipants(s', cycle) == GetCycleParticipants(s, cycle))
      && (forall i :: 0 <= i < |GetCycleParticipants(s', cycle)| ==> GetCycleParticipants(s', cycle)[i] < |s'.clients|)
  {
    var s' := Registry.RegisterClient(s, caller).value.0;
    if cycle in s.cycleParticipants {
      assert forall i :: 0 <= i < |s.cycleParticipants[cycle]| ==> s.cycleParticipants[cycle][i] == i;
    }
  }
}
