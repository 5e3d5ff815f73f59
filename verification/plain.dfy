/**
 The control flow of `run_aggregation` (src/lib.rs:88-151), the encrypted
 ("plain") path. Key derivation, AES-256-GCM decryption and JSON decoding of
 the f32 vector are parameters (`Oracles`); the float averaging and JSON
 encoding of the result are kept symbolic (`PlainMean`).

 The source walks the cycle's `HashMap` in an unspecified order; the model
 walks it in ascending client id.
 */
module Plain {
  import opened Types
  import opened Ordered
  import opened Keys
  import Uploads

  /** Length of the AES-GCM nonce prefix of every payload. */
  const NonceLength: nat := 12

  /** `Aes256Gcm::new_from_slice` accepts exactly 32 key bytes. */
  const AesKeyLength: nat := 32

  datatype Oracles = Oracles(
    /** the `vetkd_derive_key` call; `None` when the call fails */
    vetkd: DeriveRequest -> Option<seq<Byte>>,
    /** `key.decrypt(nonce, ciphertext)`: key, nonce, ciphertext; `None` on an authentication failure */
    decrypt: (seq<Byte>, seq<Byte>, seq<Byte>) -> Option<seq<Byte>>,
    /** `serde_json::from_slice::<Vec<f32>>`, the f32 values as bit patterns; `None` on malformed input */
    decode: seq<Byte> -> Option<seq<bv32>>
  )

  /** The panics of `run_aggregation`; each traps the call, which then changes nothing. */
  datatype Abort =
    | UnknownClient        // "Client principal not found"
    | KeyCallFailed        // "call to vetkd_derive_key failed"
    | BadKeyLength         // "Failed to create AES key"
    | Undecodable          // "Failed to deserialize decrypted model update"

  /** What one stored update amounts to. */
  datatype Item = Fatal(reason: Abort) | Skip | Vector(v: seq<bv32>)

  /**
   One iteration of the loop, in the source's order of checks: resolve the
   principal, derive its key (before the length check, so even a short
   payload costs a derivation), build the AES key, skip a payload shorter
   than the nonce, skip a payload that does not decrypt, decode the rest.
   */
  function Classify(clients: seq<Principal>, id: ClientId, payload: seq<Byte>, o: Oracles): (r: Item)
    ensures id >= |clients| ==> r == Fatal(UnknownClient)
    ensures id < |clients| && o.vetkd(AggregatorRequest(clients[id])).None? ==> r == Fatal(KeyCallFailed)
    ensures id < |clients| && o.vetkd(AggregatorRequest(clients[id])).Some? ==>
      var key := o.vetkd(AggregatorRequest(clients[id])).value;
      && (|key| != AesKeyLength ==> r == Fatal(BadKeyLength))
      && (|key| == AesKeyLength && |payload| < NonceLength ==> r == Skip)
      && (|key| == AesKeyLength && |payload| >= NonceLength ==>
            var plaintext := o.decrypt(key, payload[..NonceLength], payload[NonceLength..]);
            && (plaintext.None? ==> r == Skip)
            && (plaintext.Some? && o.decode(plaintext.value).None? ==> r == Fatal(Undecodable))
            && (plaintext.Some? && o.decode(plaintext.value).Some? ==> r == Vector(o.decode(plaintext.value).value)))
    ensures r.Vector? ==> |payload| >= NonceLength
    ensures r.Skip? ==> id < |clients|
  {
    if id >= |clients| then Fatal(UnknownClient)
    else match o.vetkd(AggregatorRequest(clients[id]))
      case None => Fatal(KeyCallFailed)
      case Some(key) =>
        if |key| != AesKeyLength then Fatal(BadKeyLength)
        else if |payload| < NonceLength then Skip
        else match o.decrypt(key, payload[..NonceLength], payload[NonceLength..])
          case None => Skip
          case Some(plaintext) =>
            match o.decode(plaintext)
            case None => Fatal(Undecodable)
            case Some(v) => Vector(v)
  }

  /**
   The running aggregate: the length fixed by the first decoded vector, if
   any yet, and the vectors summed so far (their number is the success count).
   */
  datatype Acc = Acc(fixedLen: Option<nat>, included: seq<seq<bv32>>)

  /** Take in one decoded vector: the first fixes the length, later ones count only if they match it. */
  function Step(a: Acc, v: seq<bv32>): Acc {
    match a.fixedLen
    case None => Acc(Some(|v|), a.included + [v])
    case Some(len) => if |v| == len then Acc(a.fixedLen, a.included + [v]) else a
  }

  function Fold(a: Acc, vs: seq<seq<bv32>>): Acc
    decreases |vs|
  {
    if vs == [] then a else Fold(Step(a, vs[0]), vs[1..])
  }

  /** The vectors of `vs` of length `len`, in order. */
  function WithLength(vs: seq<seq<bv32>>, len: nat): (r: seq<seq<bv32>>)
    ensures forall i :: 0 <= i < |r| ==> |r[i]| == len
    ensures |r| <= |vs|
  {
    if vs == [] then []
    else if |vs[0]| == len then [vs[0]] + WithLength(vs[1..], len)
    else WithLength(vs[1..], len)
  }

  lemma {:induction false} FoldFixed(a: Acc, vs: seq<seq<bv32>>)
    requires a.fixedLen.Some?
    ensures Fold(a, vs) == Acc(a.fixedLen, a.included + WithLength(vs, a.fixedLen.value))
    decreases |vs|
  {
    if vs != [] {
      FoldFixed(Step(a, vs[0]), vs[1..]);
    }
  }

  /**
   The first decoded vector fixes the length: what is summed is exactly the
   decoded vectors of that length, in order, all of one length, and the
   success count is at least 1 as soon as anything decoded.
   */
  lemma FirstVectorFixesLength(vs: seq<seq<bv32>>)
    requires vs != []
    ensures Fold(Acc(None, []), vs).included == WithLength(vs, |vs[0]|)
    ensures forall i :: 0 <= i < |Fold(Acc(None, []), vs).included| ==> |Fold(Acc(None, []), vs).included[i]| == |vs[0]|
    ensures |Fold(Acc(None, []), vs).included| >= 1
  {
    FoldFixed(Step(Acc(None, []), vs[0]), vs[1..]);
  }

  /** The accumulation as written: the length is `aggregated_model.len()`, and an empty model is refilled. */
  datatype RawAcc = RawAcc(modelLen: nat, included: seq<seq<bv32>>)

  /**
   `if aggregated_model.is_empty() { aggregated_model = vec![0.0; update.len()]; }
    if aggregated_model.len() == update.len() { ..sum..; count += 1 }`
   */
  function StepAsWritten(a: RawAcc, v: seq<bv32>): (r: RawAcc)
    ensures a.modelLen == 0 ==> r == RawAcc(|v|, a.included + [v])
    ensures a.modelLen > 0 ==> r.modelLen == a.modelLen
    ensures a.modelLen > 0 && |v| == a.modelLen ==> r.included == a.included + [v]
    ensures a.modelLen > 0 && |v| != a.modelLen ==> r.included == a.included
  {
    var len := if a.modelLen == 0 then |v| else a.modelLen;
    if len == |v| then RawAcc(len, a.included + [v]) else RawAcc(len, a.included)
  }

  function FoldAsWritten(a: RawAcc, vs: seq<seq<bv32>>): (r: RawAcc)
    ensures a.included <= r.included
    ensures |r.included| <= |a.included| + |vs|
    ensures a.modelLen > 0 ==> r.modelLen == a.modelLen
    decreases |vs|
  {
    if vs == [] then a else FoldAsWritten(StepAsWritten(a, vs[0]), vs[1..])
  }

  /**
   As written, an empty first vector does not fix the length: it is counted,
   the next vector refills the empty model and is counted too, so `[]` then
   `w` divides the sum `w` by 2. Taking the first vector's length as fixed
   counts only `[]`.
   */
  lemma EmptyFirstVectorMiscounted(w: seq<bv32>)
    requires |w| > 0
    ensures FoldAsWritten(RawAcc(0, []), [[], w]).included == [[], w]
    ensures Fold(Acc(None, []), [[], w]).included == [[]]
  {
    var vs: seq<seq<bv32>> := [[], w];
    assert vs[1..] == [w] && vs[1..][1..] == [];
    assert StepAsWritten(RawAcc(0, []), []) == RawAcc(0, [[]]);
    assert StepAsWritten(RawAcc(0, [[]]), w) == RawAcc(|w|, [[], w]);
    assert FoldAsWritten(RawAcc(0, []), vs) == FoldAsWritten(RawAcc(0, [[]]), [w]);
    assert Step(Acc(None, []), []) == Acc(Some(0), [[]]);
    assert Step(Acc(Some(0), [[]]), w) == Acc(Some(0), [[]]);
    assert Fold(Acc(None, []), vs) == Fold(Acc(Some(0), [[]]), [w]);
  }

  /** As written and as fixed agree whenever the first vector is not empty. */
  lemma {:induction false} AsWrittenAgreesWhenNonEmpty(raw: RawAcc, a: Acc, vs: seq<seq<bv32>>)
    requires raw.modelLen > 0 && a.fixedLen == Some(raw.modelLen) && raw.included == a.included
    ensures FoldAsWritten(raw, vs).included == Fold(a, vs).included
    decreases |vs|
  {
    if vs != [] {
      AsWrittenAgreesWhenNonEmpty(StepAsWritten(raw, vs[0]), Step(a, vs[0]), vs[1..]);
    }
  }

  /**
   The fold as written and the fold with the length fixed by the first
   vector count the same vectors whenever the first decoded vector is not
   empty; they differ only when it is (see `EmptyFirstVectorMiscounted`).
   */
  lemma FoldsAgreeUnlessFirstEmpty(vs: seq<seq<bv32>>)
    requires vs != [] && |vs[0]| > 0
    ensures FoldAsWritten(RawAcc(0, []), vs).included == Fold(Acc(None, []), vs).included
  {
    AsWrittenAgreesWhenNonEmpty(StepAsWritten(RawAcc(0, []), vs[0]), Step(Acc(None, []), vs[0]), vs[1..]);
  }

  /** The outcome of the loop: trapped, or finished with an aggregate. */
  datatype Pass = Aborted(reason: Abort) | Finished(acc: Acc)

  /** The loop of `run_aggregation` over the cycle's updates, in the order `ks`. */
  function RunPass(clients: seq<Principal>, updates: map<ClientId, seq<Byte>>, ks: seq<ClientId>, o: Oracles, a: Acc): (r: Pass)
    requires forall k :: k in ks ==> k in updates
    ensures r.Finished? ==> a.included <= r.acc.included && |r.acc.included| <= |a.included| + |ks|
    ensures r.Finished? && a.fixedLen.Some? ==> r.acc.fixedLen == a.fixedLen
    decreases |ks|
  {
    if ks == [] then Finished(a)
    else match Classify(clients, ks[0], updates[ks[0]], o)
      case Fatal(reason) => Aborted(reason)
      case Skip => RunPass(clients, updates, ks[1..], o, a)
      case Vector(v) => RunPass(clients, updates, ks[1..], o, Step(a, v))
  }

  /** The decoded vectors, in walk order, of a walk that does not trap. */
  function Decoded(clients: seq<Principal>, updates: map<ClientId, seq<Byte>>, ks: seq<ClientId>, o: Oracles): seq<seq<bv32>>
    requires forall k :: k in ks ==> k in updates
  {
    if ks == [] then []
    else match Classify(clients, ks[0], updates[ks[0]], o)
      case Vector(v) => [v] + Decoded(clients, updates, ks[1..], o)
      case _ => Decoded(clients, updates, ks[1..], o)
  }

  /** Number of updates in `ks` long enough to hold a nonce. */
  function LongPayloads(updates: map<ClientId, seq<Byte>>, ks: seq<ClientId>): nat
    requires forall k :: k in ks ==> k in updates
  {
    if ks == [] then 0
    else (if |updates[ks[0]]| >= NonceLength then 1 else 0) + LongPayloads(updates, ks[1..])
  }

  /**
   The loop traps exactly when some update is fatal, discarding everything
   summed so far; otherwise its aggregate folds the decoded vectors in
   order, and only payloads of at least 12 bytes can have been counted.
   */
  lemma {:induction false} PassCharacterised(clients: seq<Principal>, updates: map<ClientId, seq<Byte>>, ks: seq<ClientId>, o: Oracles, a: Acc)
    requires forall k :: k in ks ==> k in updates
    ensures RunPass(clients, updates, ks, o, a).Aborted? <==>
      exists i :: 0 <= i < |ks| && Classify(clients, ks[i], updates[ks[i]], o).Fatal?
    ensures RunPass(clients, updates, ks, o, a).Finished? ==>
      && RunPass(clients, updates, ks, o, a).acc == Fold(a, Decoded(clients, updates, ks, o))
      && |Decoded(clients, updates, ks, o)| <= LongPayloads(updates, ks)
  {
    if ks != [] {
      var item := Classify(clients, ks[0], updates[ks[0]], o);
      PassCharacterised(clients, updates, ks[1..], o, if item.Vector? then Step(a, item.v) else a);
      if exists i :: 0 <= i < |ks[1..]| && Classify(clients, ks[1..][i], updates[ks[1..][i]], o).Fatal? {
        var i :| 0 <= i < |ks[1..]| && Classify(clients, ks[1..][i], updates[ks[1..][i]], o).Fatal?;
        assert ks[1..][i] == ks[i + 1];
      }
      if exists i :: 0 <= i < |ks| && Classify(clients, ks[i], updates[ks[i]], o).Fatal? {
        var i :| 0 <= i < |ks| && Classify(clients, ks[i], updates[ks[i]], o).Fatal?;
        if i > 0 {
          assert ks[1..][i - 1] == ks[i];
        }
      }
    }
  }

  /**
   Write back the outcome of a pass over the updates of `cycle` into the
   state current at that moment: a trap or a zero count changes nothing,
   otherwise the model is replaced and the cycle's updates are removed.
   */
  function CommitPlain(now: State, cycle: Cycle, p: Pass): (r: State)
    ensures p.Aborted? ==> r == now
    ensures p.Finished? && p.acc.included == [] ==> r == now
    ensures p.Finished? && p.acc.included != [] ==>
      && r == now.(globalModel := r.globalModel, modelUpdates := now.modelUpdates - {cycle})
      && r.globalModel == PlainMean(p.acc.included, |p.acc.included|)
      && |r.globalModel.vectors| == r.globalModel.count > 0
  {
    match p
    case Aborted(_) => now
    case Finished(acc) =>
      if |acc.included| > 0 then
        now.(globalModel := PlainMean(acc.included, |acc.included|), modelUpdates := now.modelUpdates - {cycle})
      else now
  }

  /** The pass `run_aggregation` makes over the state it reads at entry. */
  function PlainPass(s: State, o: Oracles): Pass {
    var updates := CycleMap(s.modelUpdates, s.currentCycle);
    RunPass(s.clients, updates, SortedKeys(updates.Keys), o, Acc(None, []))
  }

  /**
   `run_aggregation` with nothing interleaved at its suspension points: no
   updates for the current cycle is a no-op; otherwise the pass is committed.
   */
  function RunAggregation(s: State, o: Oracles): (r: State)
    ensures CycleMap(s.modelUpdates, s.currentCycle) == map[] ==> r == s
    ensures r != s ==>
      && r == s.(globalModel := r.globalModel, modelUpdates := s.modelUpdates - {s.currentCycle})
      && r.globalModel.PlainMean? && r.globalModel.count > 0
    ensures CycleMap(s.modelUpdates, s.currentCycle) != map[] && PlainPass(s, o).Finished? && PlainPass(s, o).acc.included != [] ==>
      && r.globalModel == PlainMean(PlainPass(s, o).acc.included, |PlainPass(s, o).acc.included|)
      && s.currentCycle !in r.modelUpdates
    ensures PlainPass(s, o).Aborted? ==> r == s
  {
    if |CycleMap(s.modelUpdates, s.currentCycle)| == 0 then s
    else CommitPlain(s, s.currentCycle, PlainPass(s, o))
  }

  /**
   What `run_aggregation` does, in terms of the stored updates alone: it
   traps (changing nothing) exactly when some update hits a fatal check;
   otherwise, when something decoded, the model becomes the mean of the
   decoded vectors of the first one's length and the cycle's updates are
   removed; when nothing decoded, nothing changes.
   */
  lemma AggregationOutcome(s: State, o: Oracles)
    requires CycleMap(s.modelUpdates, s.currentCycle) != map[]
    ensures
      var updates := CycleMap(s.modelUpdates, s.currentCycle);
      var ks := SortedKeys(updates.Keys);
      var vs := Decoded(s.clients, updates, ks, o);
      && ((exists i :: 0 <= i < |ks| && Classify(s.clients, ks[i], updates[ks[i]], o).Fatal?) ==> RunAggregation(s, o) == s)
      && ((forall i :: 0 <= i < |ks| ==> !Classify(s.clients, ks[i], updates[ks[i]], o).Fatal?) && vs != [] ==>
            RunAggregation(s, o) == s.(globalModel := PlainMean(WithLength(vs, |vs[0]|), |WithLength(vs, |vs[0]|)|),
                                       modelUpdates := s.modelUpdates - {s.currentCycle}))
      && (vs == [] ==> RunAggregation(s, o) == s)
  {
    var updates := CycleMap(s.modelUpdates, s.currentCycle);
    var ks := SortedKeys(updates.Keys);
    var vs := Decoded(s.clients, updates, ks, o);
    PassCharacterised(s.clients, updates, ks, o, Acc(None, []));
    if vs != [] {
      FirstVectorFixesLength(vs);
    }
  }

  /**
   An aggregation clears the cycle's updates only when it counted a
   decrypted vector; when every stored payload is shorter than the nonce the
   count is 0 and the updates stay for a retry.
   */
  lemma ShortPayloadsKeepUpdates(s: State, o: Oracles)
    requires forall id :: id in CycleMap(s.modelUpdates, s.currentCycle) ==>
      |CycleMap(s.modelUpdates, s.currentCycle)[id]| < NonceLength
    ensures RunAggregation(s, o) == s
  {
    var updates := CycleMap(s.modelUpdates, s.currentCycle);
    var ks := SortedKeys(updates.Keys);
    PassCharacterised(s.clients, updates, ks, o, Acc(None, []));
    NoLongPayloads(updates, ks);
    if PlainPass(s, o).Finished? {
      assert Decoded(s.clients, updates, ks, o) == [];
    }
  }

  lemma {:induction false} NoLongPayloads(updates: map<ClientId, seq<Byte>>, ks: seq<ClientId>)
    requires forall k :: k in ks ==> k in updates && |updates[k]| < NonceLength
    ensures LongPayloads(updates, ks) == 0
  {
    if ks != [] {
      NoLongPayloads(updates, ks[1..]);
    }
  }

  /**
   The pass reads the cycle's updates once, at entry. An upload to the same
   cycle that lands while the pass waits on key derivation is removed along
   with the rest by a successful commit, although the pass never saw it.
   */
  lemma LateUploadDropped(s: State, o: Oracles, caller: Principal, late: seq<Byte>)
    requires caller in s.clients
    requires PlainPass(s, o).Finished? && PlainPass(s, o).acc.included != []
    ensures
      var now := Uploads.UploadModelUpdate(s, caller, late).value;
      var r := CommitPlain(now, s.currentCycle, PlainPass(s, o));
      && s.currentCycle !in r.modelUpdates
      && r.globalModel == PlainMean(PlainPass(s, o).acc.included, |PlainPass(s, o).acc.included|)
  {
  }
}
