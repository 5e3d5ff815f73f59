# Federated-learning aggregation canister, modelled in Dafny

This project models the bookkeeping core of an Internet Computer canister for
federated learning (`src/lib.rs`). Clients register with their principal and
get dense ids. They upload either an encrypted model update (the plain path)
or an SMPC masked share `s` and mask sum `t`. An operator then runs the
matching aggregation, which replaces the global model and clears that cycle's
inputs. A separate call starts a new cycle and snapshots the participant ids.

The model is functional. `Types.State` is the canister's `State` record as
an immutable value. Each endpoint is a pure function from a state (and the
caller, as an explicit `Principal` parameter) to a new state or an error. A
panic in the source traps the call and rolls its changes back. It appears as
an `Err` result, or as the unchanged state.

Modules, following the parts of `src/lib.rs`:

- `Types`: the state, ids, the `I64` element type, the symbolic `GlobalModel` and the invariant `Wf`.
- `Ordered`: a fixed iteration order (ascending client id) for the source's `HashMap`s.
- `Registry`: `register_client` and the principal-to-id lookup.
- `Uploads`: the three upload endpoints.
- `Cycles`: `start_new_cycle` and `get_cycle_participants`.
- `Modes`: `get_aggregation_mode` and `set_aggregation_mode`.
- `Vectors`, `Masking`: exact integer sums and the mask-cancellation theorem.
- `Smpc`: `run_smpc_aggregation` down to the integer numerators `sum_s[i] + sum_t[i]` and the divisor `num_s * 1_000_000`.
- `Overflow`: the i64 accumulators of the SMPC loop as written.
- `Keys`: the vetKD derivation requests and `get_symmetric_key_for_client`.
- `Plain`: the control flow of `run_aggregation`. Key derivation, decryption and decoding are parameters.
- `Canister`: every state-changing endpoint as one state machine, with whole-run invariants. `get_symmetric_key_for_client` is an update call that changes no state, so it is not a step.

The global model is kept symbolically. `SmpcMean(numerators, divisor)` and
`PlainMean(vectors, count)` name the exact quantities whose f32 mean the
source serializes to JSON. f32 values are carried as their 32-bit patterns
and are never computed on.

The source iterates `HashMap`s in an unspecified order. The model walks them
in ascending client id. The SMPC sums are also proved the same for any
walking order (`Smpc.ColumnTotalRemove`, `Smpc.AccumulateMatching`). The
SMPC "first vector" is the `s` vector with the least client id. The source's
chain always starts with the `s` values, and the `s` map is non-empty past
the guard. So the chosen length is always the length of some share, and
`Smpc.SharesCounted` proves `num_s >= 1` for every possible choice. With
shares of mixed lengths, the numerators and divisor depend on that choice.

## Model

| member | source | states |
|---|---|---|
| Registry.RegisterClient | src/lib.rs:59-71 | A caller already in `clients` gets `AlreadyRegistered`, and only such a caller does. Otherwise the result is the old `next_client_id`, the caller is appended and the counter goes up by one. Nothing else changes. |
| Registry.RegisterDenseIds | src/lib.rs:63-69 | In a well-formed state the new id is `|clients|`. The invariant `next_client_id == |clients|` (with no duplicate principals) is kept. A later lookup finds the caller at exactly that id, and earlier clients' ids do not move. |
| Registry.Position | src/lib.rs:77 | The lookup gives the first index holding the caller. It gives `None` exactly when the caller is not registered. |
| Canister.NthRegistration | src/lib.rs:66-68 | After any run from the default state, a new caller's registration succeeds. It gets the number of successful registrations before it, so the n-th registration receives id n-1. |
| Canister.DenseIds | src/lib.rs:63-69 | Over any run the registry only grows by appending. Its length is the initial length plus the number of successful registrations. |
| Canister.ClientsOnlyGrow | src/lib.rs:67 | Every endpoint keeps the registry as a prefix of the new one. It grows by exactly one principal, and only on a successful registration. |
| Uploads.InsertForCycle | src/lib.rs:78-79 | Storing under (cycle, id) creates the cycle's map when missing. It maps the id to the new payload and keeps every other id's entry and every other cycle's map. |
| Uploads.UploadModelUpdate | src/lib.rs:73-81 | An unregistered caller gets `NotRegistered`, and only such a caller does. Otherwise the payload is stored under the current cycle and the caller's registry position, replacing any earlier one. Other clients' entries and other cycles are kept, and no other field changes. |
| Uploads.UploadMaskedShare | src/lib.rs:199-214 | An unregistered caller gets `NotRegistered`, and only such a caller does. Otherwise the share is stored under the current cycle and the caller's registry position, replacing any earlier one. Other clients' entries and other cycles are kept, and no other field changes. |
| Uploads.UploadMaskSum | src/lib.rs:217-232 | An unregistered caller gets `NotRegistered`, and only such a caller does. Otherwise the mask sum is stored under the current cycle and the caller's registry position, replacing any earlier one. Other clients' entries and other cycles are kept, and no other field changes. |
| Uploads.UploadLastWriteWins | src/lib.rs:73-232 | For each of the three stores, two uploads by one client in a cycle leave the second payload under the client's registry position. Other clients' entries, other cycles and the other fields are as before the first upload. |
| Uploads.UploadsPreserveWf | src/lib.rs:77-79 | Each upload keeps the invariant: every stored id is a registered client's, under a cycle already reached. |
| Cycles.StartNewCycle | src/lib.rs:153-163 | The cycle goes up by exactly one and the new number is returned. The snapshot `0 .. |clients|-1` is recorded under it. Other snapshots and fields are untouched. |
| Cycles.StartNewCyclePreservesSnapshots | src/lib.rs:155-161 | In a well-formed state the new cycle number never had a snapshot. So every earlier snapshot reads back the same, and the invariant is kept. |
| Cycles.GetCycleParticipants | src/lib.rs:187-196 | Returns the stored snapshot when there is one. Otherwise (for example cycle 0) it falls back to all currently registered ids. |
| Cycles.ParticipantsAfterRegistration | src/lib.rs:188-195 | A registration shows up in cycle 0's fallback list but never in a recorded snapshot. Every listed id is a registered client. |
| Modes.GetAggregationMode | src/lib.rs:169-175 | The result is "PLAIN" or "SMPC". It is "SMPC" exactly when the mode is SMPC. |
| Modes.SetAggregationMode | src/lib.rs:177-185 | SMPC is selected exactly for the four-letter case variants of "SMPC". Every other string, the empty one included, gives Plain. Nothing but the mode changes. |
| Modes.UpperSpellsSmpc | src/lib.rs:180 | `to_ascii_uppercase()` yields "SMPC" exactly for the letter-by-letter case variants of "SMPC". |
| Modes.GetSetIdempotent | src/lib.rs:170-185 | Setting the mode to the string just read leaves the state unchanged. |
| Smpc.AddInto | src/lib.rs:263-265 | The inner loop `sum[i] += val` over a vector yields the element-wise sum of the accumulator and the vector. |
| Smpc.AccumulateMatching | src/lib.rs:256-274 | Walking a cycle's map in any order and skipping vectors of another length gives two things. The sums are the order-free coordinate sums of exactly the matching vectors, in unbounded integers. The count is the number of clients whose vector has the chosen length. |
| Smpc.ColumnTotalRemove | src/lib.rs:261-267 | A coordinate sum over the map can take any one client's contribution out first, so the sum does not depend on the iteration order. |
| Smpc.MismatchedIgnored | src/lib.rs:262 | A vector of another length from a new client changes neither the sums nor the set of counted clients. |
| Smpc.CountIgnoresMaskSums | src/lib.rs:259-274 | `num_s` does not depend on the `t` vectors. |
| Smpc.FirstLength | src/lib.rs:248-254 | The chosen length is the length of the least-id `s` vector whenever `s` is non-empty. There is no length exactly when both maps are empty. |
| Smpc.SharesCounted | src/lib.rs:249-276 | Whichever `s` vector is taken as first, its length admits it. So `num_s >= 1` and the `num_s == 0` return cannot be reached once the emptiness guard has passed. |
| Smpc.RunSmpcAggregation | src/lib.rs:234-291 | If either map of the current cycle is empty, nothing happens. Otherwise the call succeeds (exact sums; see "## Left out"). The model becomes the mean with numerators `sum_s[i] + sum_t[i]` over the vectors of the first share's length, and divisor `num_s * 1_000_000` with `num_s >= 1`. Both maps of that cycle are removed, and nothing else changes. |
| Smpc.WalkSum | src/lib.rs:259-274 | Walking the map in any order that visits each client once, the entries added to `sum_s[c]` add up exactly to the model's coordinate total. One entry is added per counted client. |
| Smpc.WrappedWalkExact | src/lib.rs:256-274 | Bound every summed entry by `B` in magnitude, with `num_s * B <= i64::MAX`. Then the i64 accumulator, walked in any order, equals the exact coordinate total the model uses. |
| Smpc.SmpcRecoversTrueSum | src/lib.rs:278-284 | Suppose clients `0 .. n-1` submitted protocol-formed shares and mask sums of one length. Then the numerators are exactly the coordinate sums of the true vectors, and the divisor is `n * 1_000_000`. |
| Masking.MaskCancellation | src/lib.rs:198 | If `s_i = g_i - sum_j r[i][j]` and `t_j = sum_i r[i][j]`, then `sum s + sum t == sum g` coordinate-wise. |
| Masking.SumExchange | src/lib.rs:216 | Summing the mask matrix by rows (what the `s` vectors subtract) equals summing it by columns (what the `t` vectors report). |
| Overflow.WrappingFold | src/lib.rs:264 | Adding each value into an i64 accumulator with wrapping gives the exact sum up to a multiple of 2^64. |
| Overflow.WrappingSum | src/lib.rs:256-272 | One coordinate of `sum_s` as the source accumulates it from `0i64`. It is congruent to the exact sum modulo 2^64. |
| Overflow.WrappingSumOverflows | src/lib.rs:256-272 | As written, the i64 accumulation of `[i64::MAX, 1]` wraps to `i64::MIN`, while the exact sum is `2^63`. |
| Overflow.BoundedAccumulationExact | src/lib.rs:264 | When every summed entry has magnitude at most `B` and `count * B <= i64::MAX`, the i64 accumulation never wraps and equals the exact sum. |
| Keys.AggregatorRequest | src/lib.rs:105-109 | The aggregator's request uses the test key and a two-segment path whose second segment is the client's principal. |
| Keys.AggregatorRequestsDistinct | src/lib.rs:105-109 | Two clients' requests coincide exactly when their principals do, so each client's updates use its own key. |
| Keys.KeySymmetry | src/lib.rs:298-302 | A client's request for path `b"model_update_encryption"` equals the aggregator's request for that client (src/lib.rs:105-109). No other path or caller gives that request. |
| Keys.HexEncode | src/lib.rs:308 | `hex::encode` gives two lower-case hex digits per byte. |
| Keys.HexRoundTrip | src/lib.rs:308 | The hex text handed out decodes back to exactly the derived key bytes. |
| Keys.GetSymmetricKeyForClient | src/lib.rs:297-309 | A failed derivation call is an error, and only a failed call is. Otherwise the result is hex text that decodes to the key derived for `[path, caller]`. |
| Plain.Classify | src/lib.rs:102-125 | One update, in the source's order of checks. These outcomes trap the call: an unknown client id, a failed key call, a key that is not 32 bytes, and a decrypted payload that does not decode. A payload shorter than 12 bytes or one that fails decryption is skipped. Otherwise the decoded vector is produced. |
| Plain.RunPass | src/lib.rs:102-138 | The loop over the cycle's updates only appends to the aggregate, at most one vector per update. Once a length is fixed it stays fixed. |
| Plain.PassCharacterised | src/lib.rs:102-138 | The loop traps exactly when some update hits a fatal check. Otherwise its aggregate folds the decoded vectors in walk order, and at most the payloads of 12 or more bytes were decoded. |
| Plain.FirstVectorFixesLength | src/lib.rs:127-136 | What gets summed is exactly the decoded vectors with the first decoded vector's length, in order. All have one length and the count is at least one. |
| Plain.StepAsWritten | src/lib.rs:127-136 | As written, an empty model is refilled to the new vector's length and the vector is counted. A non-empty model keeps its length and counts exactly the vectors of that length. |
| Plain.FoldAsWritten | src/lib.rs:127-136 | As written, the loop only appends to the counted vectors, at most one per decoded vector, and never changes a non-empty model's length. |
| Plain.EmptyFirstVectorMiscounted | src/lib.rs:127-135 | As written, decoding `[]` and then a non-empty `w` counts both. With the length fixed by the first vector, only `[]` is counted. |
| Plain.FoldsAgreeUnlessFirstEmpty | src/lib.rs:127-136 | When the first decoded vector is not empty, the as-written accumulation and the one used by the model count exactly the same vectors. |
| Plain.AsWrittenAgreesWhenNonEmpty | src/lib.rs:127-136 | Once a non-empty length is fixed, the as-written accumulation and the fixed one count the same vectors. |
| Plain.CommitPlain | src/lib.rs:140-150 | A trap or a zero count leaves the state as it is. Otherwise the model becomes the mean of the counted vectors over their count, and the captured cycle's updates are removed. |
| Plain.RunAggregation | src/lib.rs:88-151 | With no updates for the current cycle, nothing happens. A trapped pass changes nothing. A finished pass that counted vectors replaces the model with their mean over their count and removes the cycle's updates. Any change has that form, and nothing else changes. |
| Plain.AggregationOutcome | src/lib.rs:102-149 | In terms of the stored updates alone: the call changes nothing exactly when some update hits a fatal check. If none does and something decoded, the model becomes the mean of the decoded vectors of the first one's length and the cycle's updates are removed. If nothing decoded, nothing changes. |
| Plain.ShortPayloadsKeepUpdates | src/lib.rs:117-119 | If every stored payload is shorter than 12 bytes, nothing is counted and the updates stay for a retry. |
| Plain.LateUploadDropped | src/lib.rs:90-93 | An upload to the captured cycle that lands during the pass's key-derivation calls is removed by a successful commit, although the pass never saw it. |
| Canister.Step | src/lib.rs:59-232 | One update call. A duplicate registration or an upload by an unknown caller traps and leaves the state unchanged. Only `start_new_cycle` moves the cycle counter, by one. The registry only grows. |
| Canister.StepPreservesWf | src/lib.rs:36-49 | Every state-changing endpoint keeps the state invariant. |
| Canister.ReachableWf | src/lib.rs:51-53 | Every state reachable from a well-formed state (such as `State::default()`) is well-formed. |
| Canister.GlobalModelSticky | src/lib.rs:84-86 | Only an aggregation replaces the model that `get_global_model` returns. An aggregation that changes anything also removes the current cycle's inputs. |

## Left out

- f32/f64 arithmetic. That covers the plain-path element-wise sum and division (src/lib.rs:131-144) and the `as f64 / num_s / 1e6 as f32` conversion (src/lib.rs:281-283). The model keeps the exact numerators and divisors symbolically in `GlobalModel`.
- JSON encoding and decoding with serde_json. Decoding is the `decode` parameter of `Plain.Oracles`; encoding is symbolic.
- AES-256-GCM decryption and key construction. Decryption is the `decrypt` parameter. The model keeps only the 32-byte key-length check of `Aes256Gcm::new_from_slice`, which aborts the call.
- vetKD key derivation. It is an inter-canister call, so it is the `vetkd` parameter from request to optional key bytes. The requests themselves are modelled (`Keys`).
- Plain.RunAggregation: treats the call as atomic with the state read at entry. Interleaving at the `await` points is modelled only through `Plain.CommitPlain` and `Plain.LateUploadDropped`.
- `thread_local!`/`RefCell`, the Candid and `ic_cdk` macros, and `ic_cdk::caller()`. The caller is a parameter.
- u64 wrap-around of `current_cycle` and `next_client_id`, and the `as usize`/`as u64` casts. They would need 2^64 calls, so the counters are unbounded `nat`.
- `get_global_model` is a plain read of `State.globalModel`. It has no separate function; `Canister.GlobalModelSticky` states what it returns.
- Query endpoints are not steps of `Canister.Step`, because they do not change the state.
- Smpc.RunSmpcAggregation: the numerators are exact integer sums. As written, `sum_s[i]` and `sum_t[i]` accumulate in i64, so a large input traps in a debug build and wraps in a release build (Findings, first row). `Smpc.WrappedWalkExact` gives the input bound under which the two agree, and `Overflow.WrappingSumOverflows` gives an input where they do not.
- Plain.RunAggregation: it folds the decoded vectors with the corrected rule, where the first decoded vector fixes the length. As written, an empty first vector does not fix it (Findings, second row). `Plain.FoldsAgreeUnlessFirstEmpty` shows the two agree whenever the first decoded vector is non-empty, and `Plain.EmptyFirstVectorMiscounted` shows where they differ.
- Plain.RunPass: folds with the corrected `Plain.Step`, not `Plain.StepAsWritten`. So decoded `[]` then `w` counts one vector where the source counts two. The gap is the same as for `Plain.RunAggregation`.
- Plain.AggregationOutcome: states the outcome with the corrected fold (the first decoded vector fixes the length), the same gap as for `Plain.RunAggregation`.
- Plain.PassCharacterised: it characterises the pass with the corrected fold `Plain.Fold`, not `Plain.FoldAsWritten`. The gap is the same as for `Plain.RunAggregation`.
- Smpc.FirstLength: the source's "first" SMPC vector comes from `HashMap` order; the model takes the least client id. `Smpc.SharesCounted` shows `num_s >= 1` for every other choice. When shares have mixed lengths, another choice gives other numerators and another divisor, and the model does not cover those outcomes.

In these places the model follows the code:

- The code also traps on a key of the wrong length ("Failed to create AES key").
- Key derivation happens before the 12-byte length check, so a failed call aborts the pass even for a payload that would have been skipped.
- The SMPC length always comes from an `s` vector, not from any vector of either map.

## Findings

| source | as written | input that shows it | evidently intended | confidence | as-written member | corrected member |
|---|---|---|---|---|---|---|
| src/lib.rs:256-274 | `sum_s[i] += *val` and `sum_t[i] += *val` add in i64. The widening to i128 at line 280 comes only after the sum. | Two clients' shares `[9223372036854775807]` and `[1]` in one cycle. `sum_s[0]` wraps to `-9223372036854775808` in a release build (a debug build traps). | The exact sum, which the widening at line 280 is meant to protect. | not executed; high | Overflow.WrappingSumOverflows | Smpc.AccumulateMatching |
| src/lib.rs:127-136 | An empty first decoded vector leaves `aggregated_model` empty but is counted. The next vector refills the model and is counted too. | Decrypted vectors `[]` and then `[1.0, 2.0]` give count 2, so the model is `[0.5, 1.0]`. | The first decoded vector fixes the length, and the count is the number of vectors of that length. | not executed; medium | Plain.EmptyFirstVectorMiscounted | Plain.FirstVectorFixesLength |
