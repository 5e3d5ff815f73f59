/**
 The client registry: `register_client` (src/lib.rs:59-71) and the
 caller-to-id lookup every upload performs,
 `clients.iter().position(|&p| p == caller)`.
 */
module Registry {
  import opened Types

  /** The first position of `p` in `clients`, if any. */
  function Position(clients: seq<Principal>, p: Principal): (r: Option<ClientId>)
    ensures r.None? <==> p !in clients
    ensures r.Some? ==> r.value < |clients| && clients[r.value] == p
    ensures r.Some? ==> forall j :: 0 <= j < r.value ==> clients[j] != p
  {
    if clients == [] then None
    else if clients[0] == p then Some(0)
    else match Position(clients[1..], p)
      case None => None
      case Some(i) => Some(i + 1)
  }

  /**
   `register_client`: a known caller is refused (the source panics, so the
   state is left as it was); a new caller is appended and gets the old
   `next_client_id`, which is then incremented.
   */
  function RegisterClient(s: State, caller: Principal): (r: Result<(State, ClientId)>)
    ensures caller in s.clients <==> r == Err(AlreadyRegistered)
    ensures r.Ok? ==>
      && r.value.1 == s.nextClientId
      && r.value.0 == s.(clients := s.clients + [caller], nextClientId := s.nextClientId + 1)
  {
    if caller in s.clients then Err(AlreadyRegistered)
    else
      var id := s.nextClientId;
      Ok((s.(clients := s.clients + [caller], nextClientId := s.nextClientId + 1), id))
  }

  /**
   In a well-formed state registration keeps the invariant, hands out the
   next dense id `|clients|`, and that id is exactly where later lookups
   find the caller.
   */
  lemma RegisterDenseIds(s: State, caller: Principal)
    requires Wf(s)
    ensures RegisterClient(s, caller).Err? <==> caller in s.clients
    ensures RegisterClient(s, caller).Ok? ==>
      var next := RegisterClient(s, caller).value.0;
      var id := RegisterClient(s, caller).value.1;
      && Wf(next)
      && id == |s.clients|
      && |next.clients| == id + 1
      && Position(next.clients, caller) == Some(id)
      && forall p :: p in s.clients ==> Position(next.clients, p) == Position(s.clients, p)
  {
    if caller !in s.clients {
      var next := RegisterClient(s, caller).value.0;
      forall p | p in s.clients
        ensures Position(next.clients, p) == Position(s.clients, p)
      {
        PositionPrefix(s.clients, [caller], p);
      }
      PositionPrefix(s.clients, [caller], caller);
    }
  }

  /** Appending to the registry never moves a principal already found in it. */
  lemma {:induction false} PositionPrefix(clients: seq<Principal>, more: seq<Principal>, p: Principal)
    ensures p in clients ==> Position(clients + more, p) == Position(clients, p)
    ensures p !in clients && p in more ==> Position(clients + more, p).Some? && Position(clients + more, p).value >= |clients|
  {
    if clients != [] {
      assert (clients + more)[1..] == clients[1..] + more;
      PositionPrefix(clients[1..], more, p);
    }
  }
}
