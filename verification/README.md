# A verified model of rados-nkv

A Dafny 4.11 model of the parts of rados-nkv whose correctness is not visible in any one function: the
executor's request and cancel protocol, the content-addressed weights catalog, the executor's KV
backends, the NVMe-KV host shim, the raw vfio-user driver, and the CLI's wire codec and key paging.
`dafny verify dfyconfig.toml` checks everything.

## What is modelled

**Executor service** (`Service*.dfy`). `ServiceState` gives every handler, callback and tick of the
executor as a step on one state: requests, the in-flight registry, live transfers and a trace of what
was asked, held back, refused, submitted, run, answered, acked and freed. `ServiceInvariant` and
`ServiceSteps` carry one invariant through every step: each request's own trace is accepted by a small
automaton, which fixes what may come next and with which answer it ends, and agrees with the request's
fields. `ServiceTheorems`, `ServiceStalls` and `ServiceLimits` state what follows for every run, for any
inputs in any order; `ServiceInputs` says that what the trace records is what the inputs brought. `Service`
is the object with its in-place updates, proved equal to the
steps, down to the tick walk that removes entries while it walks. The KV request path shares the steps
of Exec through the `exec` flag, since it differs only in having no registry entry, no stalls and no
cancellation.

**Weights catalog** (`Catalog*.dfy`). Manifest rows and their nullable-column table, the builder that
chunks, packs and deduplicates, the verifying loader and the mark-sweep collector. `CatalogHistory` ties
the store to an abstract map from revisions to the tensors published, with their element type, shape and
bytes, over any history of publishes and collections.

**Executor KV** (`Executor*.dfy`). Hex oids, the in-memory array backend with its tail-swap delete and
exchange sort, the packed List table, and the pool backend behind a read cache that may evict anything.
What each verb answers is stated against the history of requests, not against the array or the map.

**Host shim** (`Shim.dfy`), **vfio-user driver** (`VfuRing.dfy`, `VfuSgl.dfy`) and **CLI**
(`RkvFrame.dfy`, `RkvPages.dfy`).

Foreign code appears as parameters: transports, devices and allocators are scripts of what they do,
universally quantified; the hash, the revision canonicaliser and the table encoding come in a `Codec`,
of which `Sound` asks that distinct inputs have distinct digests and that decoding undoes encoding.

## Where the code promises less than it says

- The acknowledgement codes are documented as all proving that the executor's view of the client's
  memory is gone (`target/nkvx_exec_rpc.h:368-372`). The ALREADY_DONE sent to a duplicate of a pending
  cancel does not: `DuplicateAckIsNoProof` is a run in which a PUSH follows it, and `DuplicateAckExact`
  says exactly when it is a proof. The ack from the chokepoint does not either, for another request under
  the same key: `ChokepointAckIsNoProof` is a run in which it is sent while such a request's PULL is live.
  It speaks for its whole key exactly when no other request registered under that key is left
  (`ChokepointAckExact`), and `KeySilentExact` says of any moment when a whole key is silent.
- A response that carries the backend's status need not mean that the backend's bytes came: a PUSH that
  breaks is answered FAILED with length 0, and so may the backend's own failure be but for its length
  (`StatusIsNoProof`). `DeliveryPreservesResult` says exactly which results are delivered.
- Precision names are joined with commas. The manifest round trip, and with it the readability of a
  published revision, holds if and only if no precision name contains a comma (`RoundTripExact`,
  `PublishReadableExact`); all other revisions of a history stay exact (`CatalogHistoryExact`). Only the
  set of precisions survives, not their order.
- A List with fewer than four bytes of room delivers four (`ListFitsExact`), and the too-small status
  means that a key was left out except for an empty listing in that case (`TooSmallExact`).
- A Store that sets both conditions is refused by the in-memory backend and creates an absent key on the
  pool (`BackendsAgreeExact`).
- The shim's token is a 64-bit counter. The gate on it is enough exactly when no command still
  outstanding carries the new token or the token 0 that means none (`ImmuneExact`); before the counter
  wraps that is always so (`FewArmsNoAlias`).
- The vfio-user poll does not compare command ids, so a call after a timeout can return the completion of
  the command that timed out (`StaleAfterTimeout`).
- A request or response frame is read back exactly when its body is within the cap (`ReadBackExact`,
  `ResponseBackExact`).
- The listing shows binary keys as hex literals, said to be unambiguous. A printable key that spells the
  literal of a binary one is shown like it, and so is every binary key of at most seven bytes like the
  printable key that spells its literal; no other key is shown like another (`AmbiguousExact`).

## Model

| member | source | states |
|---|---|---|
| `ServiceState.Lookup` | rados-nkvx/nkvx_service.c:200-212 | a lookup finds the first request registered under a key, with none of that key before it, or says that none is |
| `Service.Executor.constructor` | rados-nkvx/nkvx_service.c:59-95 | a fresh service is the initial state and satisfies the invariant |
| `ServiceInvariant.RemoveFacts` | rados-nkvx/nkvx_service.c:186-198 | removal takes exactly that request out of the registry and keeps the others in order of arrival |
| `Service.Executor.RegLookup` | rados-nkvx/nkvx_service.c:200-212 | the list walk returns the first match in list order |
| `ServiceInvariant.FinishTrace` | rados-nkvx/nkvx_service.c:214-291 | the chokepoint adds to the trace deregistration, response, quiescence, the ack of a stashed cancel and the free, in that order and nothing else |
| `ServiceInvariant.FailInv` | rados-nkvx/nkvx_service.c:293-303 | failing a request with the status its trace calls for restores the invariant without it |
| `ServiceSteps.RefuseInv` | rados-nkvx/nkvx_service.c:368-391 | a resource refused to a transfer that is due answers the request with the status of that refusal, keeping the invariant |
| `ServiceSteps.StartTransferInv` | rados-nkvx/nkvx_service.c:378-391 | a transfer started when the request may submit one leaves the request waiting for exactly that transfer |
| `ServiceSteps.SubmitPushInv` | rados-nkvx/nkvx_service.c:351-392 | with any resources granted or refused, the PUSH path ends with the PUSH live or the request answered |
| `ServiceSteps.RunAndDeliverInv` | rados-nkvx/nkvx_service.c:399-462 | the request is run once and then answered, stalled or pushing, whatever its size and the environment |
| `ServiceSteps.SubmitPullInv` | rados-nkvx/nkvx_service.c:504-554 | with any resources granted or refused, the PULL path ends with the PULL live or the request answered |
| `ServiceSteps.CanceledOrBrokenInv` | rados-nkvx/nkvx_service.c:309-332 | a transfer that did not land answers its request once, ABORTED for a cancelled one of an Exec and FAILED otherwise, and never with a result |
| `Service.Executor.OnTransferDone` | rados-nkvx/nkvx_service.c:309-343 | a completion retires its transfer and continues the request, keeping the invariant |
| `Service.Executor.OnRequest` | rados-nkvx/nkvx_service.c:556-643 | an arrival is registered and started, or ignored when undecodable, keeping the invariant |
| `Service.Executor.OnCancel` | rados-nkvx/nkvx_service.c:667-749 | unknown key, duplicate and first cancel take their three branches, keeping the invariant |
| `ServiceSteps.StashInv` | rados-nkvx/nkvx_service.c:720-747 | a first cancel on the oldest request of its key keeps the invariant: one new handle, on one request, not acked, and only the oldest holds one |
| `ServiceSteps.TickOneInv` | rados-nkvx/nkvx_service.c:1099-1137 | one request's countdown, submission or abort keeps the invariant |
| `Service.Executor.TickStalls` | rados-nkvx/nkvx_service.c:1087-1142 | the walk treats every entry of the list it began with once, in spite of removals on the way |
| `Service.Executor.Handle` | rados-nkvx/nkvx_service.c:1147-1173 | any input takes the object where the step function takes the state |
| `Service.Executor.Progress` | rados-nkvx/nkvx_service.c:1147-1173 | after any inputs in any order the object is in the state of that run |
| `Service.WalkStep` | rados-nkvx/nkvx_service.c:1095-1141 | the saved successor is still the next unvisited entry after the current one is removed |
| `ServiceSteps.StepInv` | rados-nkvx/nkvx_service.c:214-1142 | every step keeps the invariant |
| `ServiceSteps.TransferDoneInv` | rados-nkvx/nkvx_service.c:309-343 | a callback entered with a live transfer leaves none dangling |
| `ServiceSteps.CancelInv` | rados-nkvx/nkvx_service.c:667-749 | a cancel keeps one handle per request and one request per handle |
| `ServiceSteps.ArriveInv` | rados-nkvx/nkvx_service.c:556-643 | a new request waits for exactly one thing or is answered already |
| `ServiceSteps.TickAllInv` | rados-nkvx/nkvx_service.c:1087-1142 | so does a tick over any of them |
| `ServiceSteps.FirstIsOldest` | rados-nkvx/nkvx_service.c:186-212 | in every state of the invariant the request a lookup finds is the oldest registered under its key |
| `ServiceInvariant.FinishInv` | rados-nkvx/nkvx_service.c:232-291 | the chokepoint, entered with no live transfer, restores the invariant without the request |
| `ServiceTheorems.RunInv` | rados-nkvx/nkvx_service.c:1147-1173 | every reachable state satisfies the invariant |
| `ServiceTheorems.ExactlyOnce` | rados-nkvx/nkvx_service.c:173-291 | in every run each decoded request is answered once and freed once, or neither and waits for exactly one of PULL stalled, PULL live, PUSH stalled, PUSH live |
| `ServiceTheorems.OneAckPerCancel` | rados-nkvx/nkvx_service.c:667-749 | each decoded cancel is acked once, or is stashed on exactly one request and not acked |
| `ServiceTheorems.CancelSafety` | rados-nkvx/nkvx_service.c:232-291 | when an ack for an unknown key is sent, every Exec received under the key has no live transfer and never submits one again; when one is sent from the chokepoint that holds of the request finished, and of any other under the key that is past its transfers or marked and idle |
| `ServiceTheorems.CancelSafetyOfKey` | rados-nkvx/nkvx_service.c:232-291 | so it holds of them all when up to the ack that key was reused only after the earlier request was freed |
| `ServiceTheorems.AckComesLast` | rados-nkvx/nkvx_service.c:214-291 | a chokepoint ack goes to the cancel stashed on that request, after deregistration, response and quiescence and before the free; it says PUSH_CANCELED exactly when a transfer of the request ended cancelled |
| `ServiceTheorems.ResponseIsFinal` | rados-nkvx/nkvx_service.c:232-270 | a response is sent with no transfer live, is the only one, and no transfer follows it |
| `ServiceTheorems.InputBeforeRun` | rados-nkvx/nkvx_service.c:611-643 | a request runs at most once, only with an executor, and if its input is large only after its PULL landed; a PULL is only submitted for such an input and before the run |
| `ServiceTheorems.PushIsResult` | rados-nkvx/nkvx_service.c:351-392 | a PUSH is only submitted with a sink and before any cancel, and carries exactly the bytes of the result of the run |
| `ServiceTheorems.AnswerExact` | rados-nkvx/nkvx_service.c:293-462 | what answers a request: NOT_SUPPORTED without an executor, the status of the resource refused or of the transfer lost, else the whole result inline or pushed; it is NOT_SUPPORTED only for a large result with no sink, and ABORTED only after a cancel |
| `ServiceTheorems.DeliveryPreservesResult` | rados-nkvx/nkvx_service.c:309-462 | a result that fits is answered inline with its own status, length and bytes; a larger one with its own status and length if and only if a PUSH of all its bytes landed before; everything else is a bare service failure |
| `ServiceTheorems.QuietCancelAborts` | rados-nkvx/nkvx_service.c:739-747 | a first cancel that finds no transfer live ends its Exec ABORTED with no body |
| `ServiceStalls.StepLeft` | rados-nkvx/nkvx_service.c:1087-1142 | every tick takes exactly one off a stall, except that it gives a marked PULL up at once, and nothing else changes its length |
| `ServiceStalls.StallEnds` | rados-nkvx/nkvx_service.c:1087-1142 | a stall ends once as many ticks have come as it had left |
| `ServiceStalls.StallIsExact` | rados-nkvx/nkvx_service.c:424-433 | what a stalled PULL or PUSH has left and the ticks it was held so far add up to one more than its own countdown |
| `ServiceStalls.TriedOnTime` | rados-nkvx/nkvx_service.c:1087-1142 | a PULL or PUSH is tried after exactly as many held ticks as its countdown says, and at once for a KV request |
| `ServiceStalls.TicksSubmit` | rados-nkvx/nkvx_service.c:1087-1142 | an unmarked stalled request is submitted by enough ticks that grant its resources |
| `ServiceInputs.StepTells` | rados-nkvx/nkvx_service.c:556-749 | every event a step adds is the one its input brought: what was asked, granted or refused, run, ended and cancelled; an undecodable input adds none |
| `ServiceInputs.CancelExact` | rados-nkvx/nkvx_service.c:667-749 | in every run a cancel under a key with no open Exec is acked at once; else it is acked as a duplicate if the oldest open one holds a cancel already, and stashed on that one if not, with whether a transfer was live and a bulk cancel issued |
| `ServiceLimits.DuplicateAckIsNoProof` | rados-nkvx/nkvx_service.c:703-747 | a run in which a PUSH is submitted after a duplicate cancel was acked |
| `ServiceLimits.DuplicateAckExact` | target/nkvx_exec_rpc.h:367-378 | a request is silent for ever from now on if and only if it has no live transfer and is marked do-not-push |
| `ServiceLimits.ChokepointAckIsNoProof` | rados-nkvx/nkvx_service.c:232-291 | a run whose chokepoint ack is sent while a PULL of a younger request with that key is live |
| `ServiceLimits.KeySilentExact` | target/nkvx_exec_rpc.h:367-378 | after any run all Execs received under a key are silent for ever if and only if each one registered under it has no live transfer and is marked do-not-push |
| `ServiceLimits.ChokepointAckExact` | rados-nkvx/nkvx_service.c:232-291 | the step that finishes a cancelled request sends its one ack, and its key is then silent for ever if and only if no request registered under it is left |
| `ServiceLimits.StatusIsNoProof` | rados-nkvx/nkvx_service.c:293-332 | a run answered with the backend's own status though its bytes did not arrive, the result length alone telling |
| `CatalogManifest.AddTensorVariants` | clients/vllm-weights/src/rados_nkv_weights/manifest.py:84-133 | adding a tensor records exactly that variant and shape and changes no other; each of the three refusals comes exactly when lengths differ, the shape differs or the precision is there already |
| `CatalogManifest.AddTensorWellFormed` | clients/vllm-weights/src/rados_nkv_weights/manifest.py:84-133 | adding keeps names, rows, precisions and list lengths consistent |
| `CatalogWeights.WeightManifest.AddTensor` | clients/vllm-weights/src/rados_nkv_weights/manifest.py:84-133 | the in-place update is that addition, and a refusal changes nothing |
| `CatalogWeights.WeightManifest.Columns` | clients/vllm-weights/src/rados_nkv_weights/manifest.py:147-167 | the loop over tensors builds the precision's four columns, null where it is not carried |
| `CatalogWeights.WeightManifest.ToTable` | clients/vllm-weights/src/rados_nkv_weights/manifest.py:137-173 | the loop over precisions builds the whole table |
| `CatalogWeights.WeightManifest.ReadRow` | clients/vllm-weights/src/rados_nkv_weights/manifest.py:226-243 | the inner loop adds the row's non-null cells in order, up to the first refused |
| `CatalogWeights.WeightManifest.FromTable` | clients/vllm-weights/src/rados_nkv_weights/manifest.py:184-244 | reading a table is the row-by-row addition of its non-null cells |
| `CatalogRoundTrip.RoundTrip` | clients/vllm-weights/src/rados_nkv_weights/manifest.py:137-244 | without commas a manifest's table reads back to the same rows, shapes, slices and set of precisions |
| `CatalogRoundTrip.CommaFails` | clients/vllm-weights/src/rados_nkv_weights/manifest.py:171-195 | with a comma in a precision name the table does not read back |
| `CatalogRoundTrip.RoundTripExact` | clients/vllm-weights/src/rados_nkv_weights/manifest.py:137-244 | so it reads back if and only if no precision name has a comma |
| `CatalogRoundTrip.LegacyReads` | clients/vllm-weights/src/rados_nkv_weights/manifest.py:200-243 | a table written without offset columns reads back to the manifest whose slices all begin at 0 |
| `CatalogRoundTrip.SplitJoin` | clients/vllm-weights/src/rados_nkv_weights/manifest.py:171-195 | splitting the joined names gives the pieces of each name in turn |
| `CatalogStore.KeyspacesDisjoint` | clients/vllm-weights/src/rados_nkv_weights/keys.py:53-81 | chunk and manifest keys never meet, and each names one value or one revision |
| `CatalogStore.ChunksRejoin` | clients/vllm-weights/src/rados_nkv_weights/chunking.py:17-26 | chunks are non-empty, within the cap, full but for the last, and join to the data |
| `CatalogStore.ReadsLoads` | clients/vllm-weights/src/rados_nkv_weights/loader.py:97-119 | slices that read back some bytes reassemble to exactly those bytes |
| `CatalogStore.TensorBytesExact` | clients/vllm-weights/src/rados_nkv_weights/loader.py:61-119 | a tensor is reassembled if and only if each of its slices has its Value, intact and long enough, and no size is negative; otherwise the error is that of the first faulty slice, or of the length |
| `CatalogPublish.Builder.constructor` | clients/vllm-weights/src/rados_nkv_weights/publisher.py:85-92 | an empty builder satisfies its invariant |
| `CatalogPublish.Builder.NewSlice` | clients/vllm-weights/src/rados_nkv_weights/publisher.py:94-99 | a placeholder of the right size is the next record of its part |
| `CatalogPublisher.StoredOk` | clients/vllm-weights/src/rados_nkv_weights/publisher.py:142-148 | after exist-before-store the content key holds the value's own bytes, present before or not, no other key changed, and no value exceeds the cap |
| `CatalogPublish.Builder.Fill` | clients/vllm-weights/src/rados_nkv_weights/publisher.py:150-154 | exactly that placeholder is filled, and its size was the recorded one |
| `CatalogPublish.Builder.FlushPending` | clients/vllm-weights/src/rados_nkv_weights/publisher.py:131-140 | the pending value is stored and its slices filled, keeping the builder's invariant |
| `CatalogPublish.Builder.StoreWhole` | clients/vllm-weights/src/rados_nkv_weights/publisher.py:126-129 | a chunk becomes a value of its own, holding exactly it |
| `CatalogPublish.Builder.AppendPacked` | clients/vllm-weights/src/rados_nkv_weights/publisher.py:119-124 | a chunk joins the pending value, flushed first only if it would overflow; the bytes placed so far grow by exactly it |
| `CatalogPublish.Builder.AddTensor` | clients/vllm-weights/src/rados_nkv_weights/publisher.py:101-117 | a tensor's chunks are placed in order, its bytes follow those placed before, and are counted once; the packing policy is kept |
| `CatalogPublish.AddAll` | clients/vllm-weights/src/rados_nkv_weights/publisher.py:173-188 | the manifest gains every entry's slices, up to the first it refuses |
| `CatalogPublish.AddEntriesVariants` | clients/vllm-weights/src/rados_nkv_weights/publisher.py:173-188 | it gains exactly the entries' variants |
| `CatalogPublish.AddEntriesFits` | clients/vllm-weights/src/rados_nkv_weights/publisher.py:156-190 | all entries are accepted if and only if no precision is repeated and shapes agree |
| `CatalogPublish.AddEntriesRefused` | clients/vllm-weights/src/rados_nkv_weights/publisher.py:156-190 | the error of a refused publish names its cause: a shape that clashes with the manifest or an earlier entry, or a precision already there |
| `CatalogPublish.RecordsRead` | clients/vllm-weights/src/rados_nkv_weights/publisher.py:94-154 | the filled records of a part read back the bytes placed for it |
| `CatalogPublish.BuilderPacked` | clients/vllm-weights/src/rados_nkv_weights/publisher.py:94-190 | the slices of each value tile it, the values joined are the bytes given in order, no value exceeds the cap; without packing each holds one slice, with it one is closed only when the next chunk is full or does not fit; every record is filled and the counters add up |
| `CatalogPublish.Publish` | clients/vllm-weights/src/rados_nkv_weights/publisher.py:193-252 | a publish succeeds exactly when the cap is positive, the base parses and the entries fit; then the revision's manifest is its base with each entry's element type, shape and bytes, else only unreferenced values were added and the error is the cause; totals are stored plus deduplicated and the sum of all bytes, and the values are packed as above |
| `CatalogPublisher.SealOk` | clients/vllm-weights/src/rados_nkv_weights/publisher.py:131-154 | storing a value and filling its slices keeps tiling, filling and contents |
| `CatalogPublisher.OpenedOk` | clients/vllm-weights/src/rados_nkv_weights/publisher.py:94-99 | so does opening a placeholder |
| `CatalogPublisher.AppendedOk` | clients/vllm-weights/src/rados_nkv_weights/publisher.py:119-124 | and appending to the pending value |
| `CatalogLoader.GetVerified` | clients/vllm-weights/src/rados_nkv_weights/loader.py:72-95 | a fetch through the cache is a fetch and a check of its digest |
| `CatalogLoader.LoadTensor` | clients/vllm-weights/src/rados_nkv_weights/loader.py:99-118 | the slices are cut, joined and checked against the recorded total |
| `CatalogLoader.ReassembleTensors` | clients/vllm-weights/src/rados_nkv_weights/loader.py:50-119 | every tensor carried at the precision is reassembled, or the first failure reported |
| `CatalogLoader.LoadRevision` | clients/vllm-weights/src/rados_nkv_weights/loader.py:122-142 | a load is manifest lookup, parse and reassembly with their three failures |
| `CatalogLoader.LoadSucceedsExactly` | clients/vllm-weights/src/rados_nkv_weights/loader.py:40-142 | a load succeeds if and only if the manifest is there and parses, has the precision, and every tensor carried at it is sound; the first three failures mean exactly that |
| `CatalogLoader.LoadTensors` | clients/vllm-weights/src/rados_nkv_weights/loader.py:145-168 | the same load with the element type and shape recorded for each tensor, from one manifest lookup |
| `CatalogLoader.IntegrityUnderDamage` | clients/vllm-weights/src/rados_nkv_weights/loader.py:61-119 | with the manifest intact and every other value deleted or replaced at will, a load fails or returns what it returned before |
| `CatalogGc.ParsedWellFormed` | clients/vllm-weights/src/rados_nkv_weights/manifest.py:184-244 | whatever parses is a consistent manifest |
| `CatalogGc.ChunkKeys` | clients/vllm-weights/src/rados_nkv_weights/gc.py:119-123 | the three nested loops collect exactly the keys the manifest refers to |
| `CatalogGc.Mark` | clients/vllm-weights/src/rados_nkv_weights/gc.py:86-129 | marking succeeds if and only if every live manifest is readable, and then marks exactly the live keys; otherwise it names every unreadable one and nothing else |
| `CatalogGc.Sweep` | clients/vllm-weights/src/rados_nkv_weights/gc.py:167-180 | every key outside the live set is listed once and, unless dry, deleted |
| `CatalogGc.Gc` | clients/vllm-weights/src/rados_nkv_weights/gc.py:132-180 | a successful sweep leaves exactly the live keys, contents unchanged, and counts the distinct live chunks and manifests, the keys swept and their bytes; a failed mark leaves the whole store |
| `CatalogGc.GcConserves` | clients/vllm-weights/src/rados_nkv_weights/gc.py:149-180 | the bytes stored before are those stored after and those reported swept |
| `CatalogGc.SecondRunSweepsNothing` | clients/vllm-weights/src/rados_nkv_weights/gc.py:132-180 | a second run succeeds, sweeps nothing and changes nothing |
| `CatalogGc.DryRunPreviews` | clients/vllm-weights/src/rados_nkv_weights/gc.py:149-152 | a dry run names exactly the keys a real run deletes |
| `CatalogHistory.LoadIsExact` | clients/vllm-weights/src/rados_nkv_weights/loader.py:122-142 | on a store that represents a catalog a load returns exactly the published bytes, element types and shapes, or says what is missing or unparseable |
| `CatalogHistory.PublishSucceeds` | clients/vllm-weights/src/rados_nkv_weights/publisher.py:193-252 | a successful publish changes the catalog to the published content, merged or replaced, or makes that revision unparseable when a precision has a comma, and nothing else |
| `CatalogHistory.PublishFails` | clients/vllm-weights/src/rados_nkv_weights/publisher.py:193-252 | a publish that raises leaves every earlier load unchanged |
| `CatalogHistory.GcSucceeds` | clients/vllm-weights/src/rados_nkv_weights/gc.py:132-180 | a collection keeps exactly the live revisions, whole |
| `CatalogHistory.CatalogHistoryExact` | clients/vllm-weights/src/rados_nkv_weights/publisher.py:193-252 | after any history of publishes and collections, with any precision names, every load returns exactly what was published and not collected since, with its element types and shapes, or the exact error |
| `CatalogHistory.KeptRevisionLoads` | clients/vllm-weights/src/rados_nkv_weights/gc.py:132-148 | a revision never overwritten and live in every collection loads the bytes, element types and shapes its publish was given, and nothing else unless that publish merged; with a comma in a precision it cannot be parsed |
| `CatalogHistory.PublishReadableExact` | clients/vllm-weights/src/rados_nkv_weights/manifest.py:171-195 | a published revision is readable if and only if no precision given has a comma; otherwise every load of it fails |
| `ExecutorOid.KeyToOid` | rados-nkvx/nkvx_executor.c:131-142 | the buffer holds the lowercase hex spelling of the key |
| `ExecutorOid.OidToKey` | rados-nkvx/nkvx_executor.c:1008-1034 | the loop decodes exactly the spellings of keys of 1 to 255 bytes |
| `ExecutorOid.OidRoundTrip` | rados-nkvx/nkvx_executor.c:131-142 | keys and the oids that decode are one to one |
| `ExecutorOid.OidKeepsOrder` | rados-nkvx/nkvx_executor.c:1080-1110 | comparing oids as strings is comparing keys as bytes |
| `ExecutorOid.BeforeExact` | rados-nkvx/nkvx_executor.c:1080-1095 | one key comes before another if and only if it is a proper prefix or smaller at the first byte that differs |
| `ExecutorTable.TailSwapHolds` | rados-nkvx/nkvx_executor.c:58-73 | moving the last entry into the hole removes exactly the deleted key |
| `ExecutorTable.SwapHolds` | rados-nkvx/nkvx_executor.c:1086-1094 | exchanging entries changes nothing the map can see |
| `ExecutorList.EntrySize` | rados-nkvx/nkvx_executor.c:999-1004 | the least multiple of four that holds the length and the key |
| `ExecutorList.ListingRoundTrip` | rados-nkvx/nkvx_executor.c:989-1055 | reading a packed table gives back exactly its keys |
| `ExecutorList.FitCountIsLongest` | rados-nkvx/nkvx_executor.c:1110-1115 | stopping at the first entry that does not fit takes the longest prefix that does |
| `ExecutorKv.Listed` | rados-nkvx/nkvx_executor.c:1057-1116 | the keys to list: ascending, and exactly those held at or after the start |
| `ExecutorKv.LastWriteWins` | rados-nkvx/nkvx_executor.c:830-950 | in every run a key holds what was last stored there successfully and not deleted since |
| `ExecutorKv.RetrieveReadsBack` | rados-nkvx/nkvx_executor.c:701-730 | Retrieve answers that value, whole or its longest prefix that fits, with its true length, or that the key does not exist; out of memory only when there is something to copy |
| `ExecutorKv.VerbsFollowHistory` | rados-nkvx/nkvx_executor.c:830-986 | after any run Delete, Store and Exist answer by the read-only gate, the conditions and whether the key was last stored or deleted, Exist with the length last stored; unknown verbs and empty keys are refused |
| `ExecutorKv.ChangesByWrites` | rados-nkvx/nkvx_executor.c:830-950 | a request changes what a key holds only if it succeeds on that key: a Store to its value, a Delete to nothing |
| `ExecutorKv.TableStaysSmall` | rados-nkvx/nkvx_executor.c:93-126 | no run holds more than 64 keys, and a request that does not report success changes nothing |
| `ExecutorKv.ListReadsBack` | rados-nkvx/nkvx_executor.c:1057-1169 | with four bytes of room or more the delivered table reads back as the longest prefix that fits of all keys at or after the start in byte order, the reported length is the full one, and BUFFER_TOO_SMALL says exactly that a key was left out |
| `ExecutorKv.ListShowsHistory` | rados-nkvx/nkvx_executor.c:1057-1116 | the keys listed after any run are exactly those of 1 to 255 bytes last stored and not deleted, at or after the start |
| `ExecutorKv.ListFitsExact` | rados-nkvx/nkvx_executor.c:1062-1064 | what is delivered fits the room if and only if there are four bytes of it |
| `ExecutorKv.TooSmallExact` | rados-nkvx/nkvx_executor.c:1156-1169 | the status means a key was left out if and only if there is room for the header or a key to list |
| `ExecutorMem.Emit` | rados-nkvx/nkvx_executor.c:1038-1055 | a whole entry is written at the offset and nothing before it, or nothing is written |
| `ExecutorMem.PickedIsListed` | rados-nkvx/nkvx_executor.c:1096-1116 | the walk over the sorted array picks the map's listing, non-key objects skipped |
| `ExecutorMem.Backend.constructor` | rados-nkvx/nkvx_executor.c:75-91 | a fresh backend is the empty map |
| `ExecutorMem.Backend.Find` | rados-nkvx/nkvx_executor.c:46-56 | the scan finds the object if and only if the map has it |
| `ExecutorMem.Backend.Del` | rados-nkvx/nkvx_executor.c:58-73 | the key leaves the map, and the result says whether it was there |
| `ExecutorMem.Backend.Put` | rados-nkvx/nkvx_executor.c:93-126 | the map gains the binding, or the exact error says why not and it is unchanged |
| `ExecutorMem.Backend.Sort` | rados-nkvx/nkvx_executor.c:1080-1095 | the exchange sort orders the array and keeps the map |
| `ExecutorMem.Backend.List` | rados-nkvx/nkvx_executor.c:1057-1169 | the bytes, length and status are the map's listing answer |
| `ExecutorMem.Backend.Retrieve` | rados-nkvx/nkvx_executor.c:718-730 | the answer is the map's |
| `ExecutorMem.Backend.Store` | rados-nkvx/nkvx_executor.c:830-874 | status and new map follow the read-only gate, the missing value, both conditions, memory and space |
| `ExecutorMem.Backend.Delete` | rados-nkvx/nkvx_executor.c:921-938 | status and new map follow the gate and presence |
| `ExecutorMem.Backend.Exist` | rados-nkvx/nkvx_executor.c:956-975 | presence and capped length |
| `ExecutorMem.Backend.Kv` | rados-nkvx/nkvx_executor.c:1172-1224 | every verb answers and changes the array as the map answers and changes |
| `ExecutorMem.Backend.Serve` | rados-nkvx/nkvx_executor.c:1172-1224 | every run of requests on a fresh backend answers, one by one, what the map answers |
| `ExecutorCache.CachedBackend.Retrieve` | rados-nkvx/nkvx_executor.c:732-814 | hit, fill, lost pin and fallback all give the uncached answer, or the one without its read faults; the cache stays coherent |
| `ExecutorCache.CachedBackend.Store` | rados-nkvx/nkvx_executor.c:876-914 | the entry is gone before the write, which lands or not as its status and the fault say |
| `ExecutorCache.CachedBackend.Delete` | rados-nkvx/nkvx_executor.c:940-949 | likewise for a removal |
| `ExecutorCache.CachedBackend.Kv` | rados-nkvx/nkvx_executor.c:1172-1224 | one request, after any evictions, agrees with an executor that has no cache |
| `ExecutorCache.CachedBackend.Serve` | rados-nkvx/nkvx_executor.c:732-949 | over a whole run, with any evictions, failed and conditional writes, the cached executor agrees with one without a cache and leaves the same objects |
| `ExecutorCache.QuietReadsAreExact` | rados-nkvx/nkvx_executor.c:732-814 | without read faults that is equality of status, true length and bytes |
| `ExecutorCache.DeliveredBytesAreTrue` | rados-nkvx/nkvx_executor.c:732-814 | with faults, any bytes or success delivered are the object's own |
| `ExecutorCache.BackendsAgreeExact` | rados-nkvx/nkvx_executor.c:857-896 | the two backends give one status to a Store except when both conditions are set for an absent key |
| `ExecutorCache.PoolLastWriteWins` | rados-nkvx/nkvx_executor.c:876-950 | on the pool a key holds what was last written there and landed, or what it held at the start |
| `ExecutorCache.PoolVerbsFollowHistory` | rados-nkvx/nkvx_executor.c:732-986 | after any run on the pool every verb but List answers by that value, the gate, the conditions and the faults |
| `ExecutorCache.PoolChangesByWrites` | rados-nkvx/nkvx_executor.c:876-950 | only a write on that key that lands changes it |
| `Shim.Shim.constructor` | clients/nvme-kv/kv_shim/kv_host_shim.c:357-467 | an opened shim has nothing armed and nothing outstanding |
| `Shim.Shim.ArmOp` | clients/nvme-kv/kv_shim/kv_host_shim.c:113-131 | a new context carries the next 64-bit token and is armed; out of memory changes nothing |
| `Shim.Shim.IoComplete` | clients/nvme-kv/kv_shim/kv_host_shim.c:162-200 | the slot records the completion exactly when its token is armed, and its context is freed either way |
| `Shim.Shim.ProcessCompletions` | clients/nvme-kv/kv_shim/kv_host_shim.c:162-200 | what fires is a schedule of distinct outstanding requests, the slot records all of it in order; an operation awaited is done afterwards if and only if it fired, with the completion it fired with first |
| `Shim.Shim.DrainStaleCompletions` | clients/nvme-kv/kv_shim/kv_host_shim.c:214-226 | draining with nothing armed leaves nothing armed |
| `Shim.Shim.PollToCompletion` | clients/nvme-kv/kv_shim/kv_host_shim.c:270-306 | it returns 0 if and only if the awaited operation fires in a pass before the transport fails or runs late, with that completion in the slot; else the transport's error or the timeout, whichever was first, and the queue pair is flagged; nothing stays armed |
| `Shim.Shim.EnsureConnected` | clients/nvme-kv/kv_shim/kv_host_shim.c:322-339 | it succeeds exactly when the queue pair was not flagged or reconnects, and otherwise returns the reconnect error as a negative number and leaves it flagged |
| `Shim.Shim.Submit` | clients/nvme-kv/kv_shim/kv_host_shim.c:524-553 | a request only goes to a queue pair not flagged failed; a refused one stays with the caller |
| `Shim.Shim.Op` | clients/nvme-kv/kv_shim/kv_host_shim.c:524-671 | an operation ends with the first thing to fail, or completes exactly when its poll does; if no outstanding command aliases its token, the code is then that of its own completion: a generic status as it is, -EIO for any other status type; nothing is armed afterwards |
| `Shim.Shim.Retrieve` | clients/nvme-kv/kv_shim/kv_host_shim.c:561-601 | and the length reported is the one in that completion, on success only |
| `Shim.Shim.Close` | clients/nvme-kv/kv_shim/kv_host_shim.c:469-498 | every outstanding request fires before the shim goes, and each context ever allocated was freed exactly once |
| `Shim.Shim.Session` | clients/nvme-kv/kv_shim/kv_host_shim.c:357-671 | over a whole session of fewer than 2^64 calls every completed call returns a code that tells the status, and every Retrieve that succeeds the length, of its own distinct context's completion; any other call fails; each context is freed exactly once |
| `Shim.FewArmsNoAlias` | clients/nvme-kv/kv_shim/kv_host_shim.c:113-131 | before the counter wraps, outstanding tokens are pairwise distinct and none can pass for the next |
| `Shim.ImmuneExact` | clients/nvme-kv/kv_shim/kv_host_shim.c:162-200 | every schedule leaves an operation with its own completion or none if and only if no orphan carries its token or the token 0 |
| `Shim.AliasBreaks` | clients/nvme-kv/kv_shim/kv_host_shim.c:186-192 | the schedules that break it otherwise |
| `VfuRing.Ring.constructor` | clients/nvme-kv/kv/vfu_host/nkv_vfu.h:115-123 | indices zero and phase one over a zeroed queue |
| `VfuRing.Ring.Device` | clients/nvme-kv/kv/vfu_host/nkv_vfu.h:125-159 | whatever the device does while the driver waits, it is before, in or after serving the one command; an idle device changes nothing |
| `VfuRing.Ring.Produce` | clients/nvme-kv/kv/vfu_host/nkv_vfu.h:133-139 | the entry is in its slot before the doorbell shows it |
| `VfuRing.Ring.AwaitPhase` | clients/nvme-kv/kv/vfu_host/nkv_vfu.h:141-149 | polling ends with the phase turned, or with the deadline |
| `VfuRing.Ring.Consume` | clients/nvme-kv/kv/vfu_host/nkv_vfu.h:150-157 | an entry with the expected phase is the completion of the command just submitted; head and phase then say n + 1 |
| `VfuRing.Ring.SubmitPoll` | clients/nvme-kv/kv/vfu_host/nkv_vfu.h:125-159 | a call that completes takes its own command's completion, and the status read from the slot after the doorbell still says that completion's status code and type; after a timeout whose completion has come since, the call takes that one whatever the device does |
| `VfuRing.Ring.StaleAfterTimeout` | clients/nvme-kv/kv/vfu_host/nkv_vfu.h:125-159 | two calls from any resting state, the second of which completes with the command id of the first |
| `VfuRing.Ring.Run` | clients/nvme-kv/kv/vfu_host/nkv_vfu.h:115-159 | after n commands without a timeout both indices are n modulo the depth and the phase is the parity of the laps, and each call got its own command's completion and a status that says its code and type |
| `VfuRing.LapPosted` | clients/nvme-kv/kv/vfu_host/nkv_vfu.h:150-156 | posting keeps the current phase exactly on the slots of this lap, across the wrap |
| `VfuSgl.FillBlocks` | clients/nvme-kv/kv/vfu_host/nkv_vfu.h:664-677 | the loop's blocks name every byte of the buffer once and in order, none empty, none across a region, one to a region |
| `VfuSgl.SetDptr` | clients/nvme-kv/kv/vfu_host/nkv_vfu.h:636-683 | one block when the buffer ends in its first region, else a list, tiling the buffer for every address and length; out of memory only for a list |
| `VfuSgl.SetDptrKv` | clients/nvme-kv/kv/vfu_host/nkv_vfu.h:696-748 | exactly one leading head block, then the tiling of the value, none for an empty value |
| `VfuSgl.CountExact` | clients/nvme-kv/kv/vfu_host/nkv_vfu.h:656-657 | the computed count is the number of regions touched |
| `VfuSgl.AtMost33` | clients/nvme-kv/kv/vfu_host/nkv_vfu.h:624-635 | 64 MiB need at most 33 blocks and can need that many |
| `RkvFrame.Encode` | clients/rkv/src/proto.rs:92-122 | pushing field by field builds the framed body |
| `RkvFrame.FrameLayout` | clients/rkv/src/proto.rs:16-37 | a request frame is its length, its tag and its fields at the offsets the format gives, little-endian |
| `RkvFrame.Cursor.Take` | clients/rkv/src/proto.rs:259-274 | the next n bytes and the cursor past them, or an error and no movement |
| `RkvFrame.Cursor.ReadBytes` | clients/rkv/src/proto.rs:285-288 | a length-prefixed field off the front |
| `RkvFrame.Cursor.ReadString` | clients/rkv/src/proto.rs:290-293 | the same, refusing what is not UTF-8 |
| `RkvFrame.Utf8Exact` | clients/rkv/src/proto.rs:290-293 | the bytes accepted as UTF-8 are exactly the encodings of sequences of Unicode scalar values |
| `RkvFrame.Decode` | clients/rkv/src/proto.rs:136-161 | the cursor's walk is the parse of the body, trailing bytes refused |
| `RkvFrame.ParseBody` | clients/rkv/src/proto.rs:92-161 | every request's body decodes to it |
| `RkvFrame.BodyOfParsed` | clients/rkv/src/proto.rs:136-161 | a body that decodes is the encoding of what it decodes to, so no two bodies decode to one request |
| `RkvFrame.TakeFrameExact` | clients/rkv/src/proto.rs:218-233 | each refusal, and the frame, comes for exactly the length prefixes and stream lengths that call for it |
| `RkvFrame.Stream.ReadFrame` | clients/rkv/src/proto.rs:218-233 | one frame off the front, or the exact one of the three refusals |
| `RkvFrame.Stream.ReadFrom` | clients/rkv/src/proto.rs:130-133 | one request off the front and exactly its bytes consumed |
| `RkvFrame.Stream.ReadResponseFrom` | clients/rkv/src/proto.rs:164-207 | one response off the front and exactly its bytes consumed |
| `RkvFrame.FrameBackExact` | clients/rkv/src/proto.rs:210-233 | a frame comes off whole, leaving what follows, if and only if its body is within the cap |
| `RkvFrame.ReadBackExact` | clients/rkv/src/proto.rs:210-233 | a written request is read back, to the byte, if and only if its body is within the cap |
| `RkvFrame.StreamReadsBack` | clients/rkv/src/proto.rs:218-233 | any requests written one after another are read back in order, leaving exactly what follows |
| `RkvFrame.ResponseExact` | clients/rkv/src/proto.rs:164-207 | responses and the bodies that decode are one to one |
| `RkvFrame.ResponseLayout` | clients/rkv/src/proto.rs:164-183 | a response frame is its length, its tag and the payload or message |
| `RkvFrame.ResponseBackExact` | clients/rkv/src/proto.rs:164-233 | a written response is read back, to the byte, if and only if its body is within the cap |
| `RkvFrame.ResponsesReadBack` | clients/rkv/src/proto.rs:164-233 | any responses written one after another are read back in order, leaving exactly what follows |
| `RkvPages.EncodeHex` | clients/rkv/src/commands/list.rs:171-177 | two lowercase digits per byte |
| `RkvPages.DecodeEncoded` | clients/rkv/src/commands/list.rs:157-177 | decoding undoes encoding |
| `RkvPages.DecodeIgnoresCase` | clients/rkv/src/commands/list.rs:156-169 | upper and lower case hex decode alike |
| `RkvPages.NextHexKey` | clients/rkv/src/commands/list.rs:134-154 | the carry loop computes the resume key, or fails on bad hex |
| `RkvPages.NextIsLeast` | clients/rkv/src/commands/list.rs:129-154 | the resume key is the least key of at most 16 bytes above its argument |
| `RkvPages.NextExistsExact` | clients/rkv/src/commands/list.rs:141-152 | there is one if and only if the key is not sixteen 0xff bytes, which alone is its own resume key |
| `RkvPages.ResumesExactly` | clients/rkv/src/commands/list.rs:105-112 | resuming there serves exactly the keys not yet seen |
| `RkvPages.ListKeys` | clients/rkv/src/commands/list.rs:71-116 | for any page sizes the loop ends and prints every key once and in order; it fails if and only if some page that says more holds nothing, and has then printed exactly the keys served before |
| `RkvPages.LiteralIsAmbiguous` | clients/rkv/src/commands/list.rs:118-127 | a printable and a binary key that are shown alike |
| `RkvPages.AmbiguousExact` | clients/rkv/src/commands/list.rs:118-127 | another key is shown like this one if and only if it is printable and spells the hex literal of a key that is not, or it is not printable and has at most seven bytes |

## Left out

- Exec modules, the compiled-module cache and the inside of the object cache: a run's result is a parameter, and whether a run alters cached bytes is decided in code that is not part of this model.
- The pool's List: enumeration order comes from RADOS.
- Mercury, librados, SPDK and Arrow: their calls are scripts or parameters.
- CatalogStore.KeyspacesDisjoint: digests are of unbounded length and collision free; the 15-byte truncation is not modelled.
- CatalogLoader.LoadTensors: a tensor is its bytes with an element type and a shape; turning them into a numpy array, and the errors of that, are not modelled.
- CatalogPublish.Publish: the nested dictionary of tensors is a sequence of its entries in iteration order, and 64-bit column ranges are not modelled.
- ExecutorCache.CachedBackend.Retrieve: one executor at a time, so an object does not change between stat and read.
- Shim.Shim.Session: the reports are only claimed for fewer than 2^64 calls; Shim.ImmuneExact gives the exact condition for one operation.
- Shim.Shim.constructor: attaching, namespace selection and environment set-up are not modelled.
- VfuRing.Ring.SubmitPoll: of a call made while the device is still serving a command that timed out nothing is said but that its indices stay in range, since which completion it takes depends on the order the device posts in.
- RkvFrame.Cursor.Take: the check for overflow of the offset is not modelled, since offsets are unbounded here.
- RkvPages.ListKeys: the backend spells keys in hex that decodes to them, serves them in byte order from the start on, and its more flag is exact; a backend that does otherwise is not modelled.
- Configuration, sockets, the daemon, GPU paths, model ingest, test hosts and sample modules.
