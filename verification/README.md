# Verified model of the operator runtime and the CRD schema compiler

A Dafny model of the parts of the app SDK where correctness depends on order,
on stale data or on recursion, with proofs of what those parts promise:

- **Finalizer protocol** (`apiserver`, `protocol`, `finalizers`, `watcher`, `reconciler`).
  An API server stores one object under resourceVersion compare-and-swap. Any
  number of watcher calls, holding snapshots of any age, interleave with other
  actors, lose requests, lose replies and retry on conflict. `Protocol` is the
  step relation and its run theorems; `Finalizers.Updater`,
  `Watcher.OpinionatedWatcher` and `Reconciler.OpinionatedReconciler` are the
  source's methods over a shared `Cluster`. The updater takes any call; a run is lawful as
  long as its calls are ones the protocol allows, and the watcher's and the
  reconciler's keep it lawful, so the run theorems hold for them. Other actors
  may do anything the server allows except touch our finalizers: the watcher's two, or the reconciler's one.
- **Schema compiler** (`schemas`, `merge`, `mergeinplace`, `resolve`, `structural`, `parts`, `required`, `soundness`).
  References inlined, cycles cut, combinators flattened. `Parts` reads off the
  source, without resolving anything, what the outcome is composed of at every
  depth; `RequiredNames` and `Soundness` judge it against a semantics of schemas:
  what it demands, and what it still accepts.
- **Retry scheduler** (`retryheap`, `retryprocessor`, `retryruns`, `listmap`, `legacyretry`).
  Sharded binary heaps with the standard sifts, popped retries running
  unlocked, dequeue by key, bounded backoff; and the legacy path, a ticker over a map of lists kept in arrays.
- **Event pipeline and runners** (`eventqueue`, `concurrentwatcher`, `customcache`,
  `informerpipeline`, `multirunner`). The queue's select loop and its locking,
  hash-sharded workers, delta processing and its listeners, and a goroutine
  group with a guarded channel close, as machines whose steps interleave freely.
- **Pointer rewriting** (`jsonpointer`, `pathpatch`). JSON Pointers (RFC 6901) into
  app metadata rewritten into Kubernetes metadata.

`dafny verify dfyconfig.toml` checks all of it.

## Where the code and its own words differ

The model follows the code. Each difference is a lemma or a contract.

- `doReplaceFinalizer` says that with neither name present it adds the new one; it adds the one to be replaced
  (`Finalizers.ReplaceFallThrough`, and the exact condition in `Finalizers.ReplaceMeetsItsName`).
- Nothing keeps the in-progress and the final finalizer from being configured as one name; a replace would then
  remove it (`Finalizers.SameNameLosesTheFinalizer`, with a run that loses the object in `Finalizers.SameNameVanishes`). The protocol is proved for two different names.
- `bufferedQueue` forgets a pending nil event when the next event arrives
  (`EventQueue.NilEventLost`, exact in `EventQueue.ReceiveAppendsIff` and, over a run, in `EventQueue.FaithfulIff`). No caller pushes nil.
- A failing cache `Get` makes `processDeltas` announce a cached object as an addition
  (`CustomCache.BlindGetAnnouncesAgain`, exact in `CustomCache.EmittedTruthfulIff`).
- Retries keep the state of the first attempt only, so a create that first fails can be delegated again after it has
  succeeded (`Reconciler.DelegatedTwice`). It cannot exactly if no retry is queued, or only the patch of the first attempt
  failed, or the delegate returned the private key, or the policy retries no failed patch at an attempt that can be
  reached (`Reconciler.SucceedsOnceIff`); exponential backoff does retry one unless its maximum is below 1
  (`Reconciler.BackoffRetriesAPatchIff`).
- The documentation of `OpinionatedReconciler.Reconcile` says that an update of a deleting object only loses the finalizer
  and that the later delete is delegated; the code delegates the update as the delete and ignores the later one
  (`Reconciler.DelegatesExactly`).
- `RemoveItemAt` is documented to ignore an index that does not exist; a negative one panics (`ListMaps.ListMap.RemoveItemAt`).
- A custom metadata path with a trailing slash loses the slash (`PathPatch.TrailingSlashLost`, exact in
  `PathPatch.PointsAtAnnotationIff`), and a path under `extraFields` is rewritten again when its patch is marshalled again
  (`PathPatch.SecondPassChanges`, exact in `PathPatch.SecondPassIff`).
- `resolveSchema` flattens `allOf` by merging types but not `nullable`, so a null that only a nullable member lets in is
  refused afterwards (`Soundness.NullableMemberLost`, exact on the source in `Soundness.ResolveKeepsIff` and, for one merge, `Merging.MergeLosesIff`).
- `resolveSchema` keeps of a combinator member the names it requires itself, and loses those its own allOf members
  require, so an object without them is taken (`RequiredNames.NestedNamesLost`, exact in `RequiredNames.HeadMeans`).
- `resolveSchema` means to drop `additionalProperties: false` beside properties, but tests a list it has not filled yet, so
  one that comes with a sub-schema is kept, whether it is the schema's own or a combinator member's
  (`Parts.FalseBesidePropertiesKept`, exact in `Parts.FalseBesidePropertiesIff`). A decoded document cannot carry both a
  boolean and a schema, and then no boolean is left at any depth (`Parts.DecodedKeepsNoBoolean`); a schema built in memory can.

## Model

| member | source | states |
|---|---|---|
| Protocol.DeleteNeverMissed | operator/opinionatedwatcher.go:149-373 | In every run, once a finalizer of ours is stored the object exists and carries one of the two until some DeleteFunc call has returned nil |
| Protocol.AddIsProtected | operator/opinionatedwatcher.go:241-256 | In every run, once AddFunc is called on an object that has been given the in-progress finalizer the object is there, with a finalizer of ours, until a delete is handled, however that call ends |
| Protocol.VanishedMeansHandled | operator/opinionatedwatcher.go:162-206 | An object that once carried one of ours and is gone has had a successful delete call |
| Protocol.NothingBeforeAdd | operator/opinionatedwatcher.go:208-263 | In every run the final finalizer, SyncFunc and UpdateFunc come only after an AddFunc call that returned nil |
| Protocol.StepKeepsInv | operator/finalizers.go:26-194 | Every legal step, of a call of ours or another actor, keeps the order of stored documents and the bookkeeping of our finalizers |
| Protocol.PossibleKeepsOrder | operator/finalizers.go:45-194 | The order of stored documents is kept by any edit the updater can send, lawful or not |
| Protocol.AcceptedBase | operator/finalizers.go:68-81 | A stale patch is never accepted: an accepted one was computed from the very document it replaces, so its index means what it meant |
| Protocol.AcceptedPatch | operator/finalizers.go:68-81 | An accepted patch of ours gains and loses of our finalizers only what its caller may |
| ApiServer.GuardMeansVersion | operator/finalizers.go:53-66 | A patch ending in the resourceVersion operation is accepted only at the version it names, and makes just its one edit |
| Finalizers.Updater.AddFinalizer | operator/finalizers.go:26-43 | Any name at any time: up to four attempts, each further one after a conflict and on a strictly newer document, a conflict returned only after the fourth; success means exactly one accepted write appended the name to its own base, or it was there. The run stays lawful unless it adds the final finalizer before AddFunc has succeeded |
| Finalizers.Updater.DoAddFinalizer | operator/finalizers.go:45-82 | One attempt: append, create the list, or nothing, by the request `AddRequest`; a failure leaves the caller's copy alone |
| Finalizers.Updater.ReplaceFinalizer | operator/finalizers.go:84-101 | Any two names, equal ones too: up to four attempts, each further one after a conflict and on a strictly newer document, a conflict returned only after the fourth; success means one accepted write made exactly the edit of the branch its base took. The run stays lawful if the protocol allows that replace |
| Finalizers.Updater.DoReplaceFinalizer | operator/finalizers.go:103-133 | One attempt of the index-based replace, with both its other branches and the fall-through |
| Finalizers.Updater.RemoveFinalizer | operator/finalizers.go:135-152 | Any name at any time: up to four attempts, each further one after a conflict and on a strictly newer document, a conflict returned only after the fourth; success means the name is gone and all else is in order. The run stays lawful unless it takes one of ours too early |
| Finalizers.Updater.DoRemoveFinalizer | operator/finalizers.go:154-194 | One attempt: the filtered list replaces the list under the version guard, or nothing is sent |
| Finalizers.Updater.FilterOut | operator/finalizers.go:158-166 | The loop keeps the other names in order and reports whether there was one to remove |
| Finalizers.Updater.PatchInto | operator/finalizers.go:68-81 | A request may be lost before or after the server acts; on success the caller holds the document its own write produced |
| Finalizers.Updater.GetInto | operator/finalizers.go:34-38 | A re-read copy is some stored document, never an older one |
| Finalizers.PatchOutcome | operator/finalizers.go:68-81 | An accepted patch directly follows its base in the history and changes only the finalizers |
| Finalizers.RemovalKeepsOthers | operator/finalizers.go:158-166 | Removals of two names commute, so each leaves the others in order |
| Finalizers.ReplaceKeepsOthers | operator/finalizers.go:103-133 | Whichever branch a replace takes, all other finalizers stay, in order |
| Finalizers.ReplaceMeetsItsName | operator/finalizers.go:103-133 | A replace ends with the new name in and the old one out exactly when the new one was there or the old one was there once |
| Finalizers.ReplaceCounts | operator/finalizers.go:103-133 | How often each of the two names is there after a replace: no name is doubled and one occurrence is replaced |
| Finalizers.ReplaceFallThrough | operator/finalizers.go:112-115 | With neither name present the code adds the name it was to replace |
| Finalizers.SameNameLosesTheFinalizer | operator/finalizers.go:103-111 | Replacing a stored name by itself removes it |
| Finalizers.SameNameVanishes | operator/finalizers.go:103-111 | Whatever the one name for both: stored, replaced by itself with the updater's own requests, deleted, and the object is gone with no delete handled |
| Watcher.OpinionatedWatcher.Add | operator/opinionatedwatcher.go:149-274 | Which single handler an add event runs, decided by the snapshot; AddFunc only on an object that has been given the in-progress finalizer; nil means the finalizers ended as that case promises |
| Watcher.OpinionatedWatcher.HandleDelete | operator/opinionatedwatcher.go:173-206 | A handled delete: nil only after DeleteFunc returned nil, and then neither of ours is left on a deleting snapshot |
| Watcher.OpinionatedWatcher.RemoveOurs | operator/opinionatedwatcher.go:182-205 | The removals after a handled delete, judged by the list of the snapshot, leave neither of ours |
| Watcher.OpinionatedWatcher.AddNew | operator/opinionatedwatcher.go:241-274 | A new object: AddFunc is called at a step before which the in-progress finalizer was stored, and if it fails the copy carries it; nil means AddFunc succeeded and the final finalizer is stored |
| Watcher.OpinionatedWatcher.ProtectedAdd | operator/opinionatedwatcher.go:256-260 | The AddFunc call of a new object, possible only once the in-progress finalizer has been stored |
| Watcher.OpinionatedWatcher.Finalize | operator/opinionatedwatcher.go:262-273 | The swap after AddFunc: nil means that the final finalizer is stored |
| Watcher.OpinionatedWatcher.Update | operator/opinionatedwatcher.go:283-386 | Same for update events: skipped, missed add, delete, ignored finalizer update or UpdateFunc |
| Watcher.OpinionatedWatcher.AddMissed | operator/opinionatedwatcher.go:305-328 | The missed add: AddFunc first; the final finalizer ends up stored exactly when one of ours was there to replace |
| Watcher.OpinionatedWatcher.AddMissedThenDispatch | operator/opinionatedwatcher.go:305-386 | After a missed add the refreshed object is dispatched by the list the event came with |
| Watcher.OpinionatedWatcher.Dispatch | operator/opinionatedwatcher.go:330-386 | The rest of an update: delete, drop, ignore our own finalizer write, or UpdateFunc |
| Watcher.OpinionatedWatcher.AddFunc | operator/opinionatedwatcher.go:401-407 | The wrapper records the call, its step and its outcome |
| Watcher.OpinionatedWatcher.SyncFunc | operator/opinionatedwatcher.go:428-434 | Callable only after a successful AddFunc |
| Watcher.OpinionatedWatcher.UpdateFunc | operator/opinionatedwatcher.go:410-416 | Callable only after a successful AddFunc |
| Watcher.OpinionatedWatcher.DeleteFunc | operator/opinionatedwatcher.go:419-425 | Callable only for an object seen deleting that has carried one of ours |
| Watcher.LosingOursMeansDeleting | operator/opinionatedwatcher.go:248-263 | A document that lost both of ours after carrying one belongs to a deleting object, so the replace after an add cannot fall through unnoticed |
| Watcher.ReplacedEndsFinal | operator/opinionatedwatcher.go:248-263 | Once the in-progress finalizer was stored, a replace that succeeds at any later base leaves the final one stored |
| Watcher.ShrunkAway | operator/opinionatedwatcher.go:180-205 | Two removals after a delete, each possibly from a refreshed copy, leave neither of ours |
| Reconciler.OpinionatedReconciler.Reconcile | operator/reconciler.go:164-275 | What is delegated, which finalizer edit follows and what is returned, for every request, state and answer; its deletes and edits are steps of the protocol made with the finalizer updater, and lawful unless the state carries a delete key the delegate has planted |
| Reconciler.DelegationFits | operator/reconciler.go:146-161 | What the wrapped reconciler and the finalizer ever see: deletes only for deleting objects waiting for us, creates only without our finalizer, updates only with it, removal only from deleting objects |
| Reconciler.DelegatesExactly | operator/reconciler.go:164-275 | For every request exactly which action the wrapped reconciler is called with, if any, by action, deletion, finalizer and state key |
| Reconciler.EditsExactly | operator/reconciler.go:203-271 | For every request exactly which edit of the finalizers is made: at most one, and after the one call |
| Reconciler.AnswerExactly | operator/reconciler.go:164-275 | What is returned: the wrapped reconciler's answer if it was called, and a failed edit's error, noted under its key |
| Reconciler.QueuedExactly | operator/informer_controller.go:600-661 | Which retry an event queues: its action, its state and its exact delay |
| Reconciler.DelegatedOnce | operator/reconciler.go:180-260 | If the first delegated create or delete succeeds and only the patch fails, no retry delegates it again, whatever the retries find |
| Reconciler.SucceedsOnceIff | operator/informer_controller.go:600-661 | Over the retries the queue makes, a create or delete goes well at most once exactly if none is queued, or only the patch of the first attempt failed, or the delegate returned the private key itself, or the policy never retries a failed patch at an attempt that can be reached |
| Reconciler.NothingAfterSuccess | operator/informer_controller.go:624-660 | If the policy retries no failed patch, no retry follows a retry that went well |
| Reconciler.FollowingIsChild | operator/retry_processor.go:230-254 | The attempt numbers of an event's retries are those the retry processor gives them |
| Reconciler.BackoffRetriesAPatchIff | operator/informer_controller.go:65-73 | Exponential backoff retries a failed patch exactly if its maximum is at least 1 |
| Reconciler.RetryDelegatesAgainIff | operator/reconciler.go:180-260 | Whether a retry that finds the object as the first attempt did delegates the same action once more |
| Reconciler.DeleteNeverMissed | operator/reconciler.go:174-217 | In every run, once the reconciler's finalizer is stored the object exists and carries it until a delegated delete has returned without error or requeue |
| Reconciler.StillThere | operator/reconciler.go:174-217 | So it is on the cluster a reconciler runs on: after any of its calls, lawful so far, an object once seen with the finalizer is there with it if no delegated delete has succeeded |
| Reconciler.OpinionatedReconciler.WrappedReconcile | operator/reconciler.go:277-282 | A delegated delete that returns clean is the handled delete of the protocol, made only for a deleting object that waits for us |
| Reconciler.OpinionatedReconciler.ReconcileDelete | operator/reconciler.go:177-217 | The delete branch: delegate unless that is done, then remove the finalizer, noting a failed patch |
| Reconciler.OpinionatedReconciler.ReconcileCreate | operator/reconciler.go:229-260 | The create branch: delegate unless that is done, then add the finalizer, noting a failed patch |
| Reconciler.OpinionatedReconciler.ReconcileLive | operator/reconciler.go:223-274 | The branches for an object that is not being deleted |
| Reconciler.EditedOnlyAfterDelegate | operator/reconciler.go:180-260 | Over an event and all its retries a finalizer is removed, or added for a create, only after a delegate call without error or requeue |
| Reconciler.DelegatedTwice | operator/informer_controller.go:624-660 | A concrete create that succeeds twice because a retry's state is dropped, by retries that any policy makes which retries its two failures |
| Reconciler.DoReconcile | operator/informer_controller.go:600-661 | The retry queued for a first attempt: explicit requeue first, else the policy at attempt 0, with the state of the result, which claims a done delete only after one unless the delegate planted the key |
| Reconciler.RetryFunc | operator/informer_controller.go:630-633 | A retry runs the captured request and drops the state it returns |
| Merging.MergeSound | app/manifest.go:1321-1398 | A value satisfying both schemas satisfies their merge, if its nulls get past the merged types |
| Merging.MergeLosesIff | app/manifest.go:1321-1398 | Exactly, on the inputs: of the values both schemas accept the merge loses those with a null at a place the two share, where the receiver has no types and is not nullable and takes over types without null |
| Merging.MergeKeepsIff | app/manifest.go:1321-1398 | Nothing but misplaced nulls is lost: such a value is kept if and only if its nulls get past the merged types |
| Merging.LosesNoNull | app/manifest.go:1321-1398 | A merged-in schema that is nowhere nullable makes the merge lose no null it lets past its own types |
| Merging.NullableLost | app/manifest.go:1322-1323 | A concrete pair: a nullable string merged into an untyped schema refuses null |
| Merging.MergedNullsFit | app/manifest.go:1321-1398 | Merging in a schema that is nowhere nullable loses no null |
| Merging.MergeSucceedsIff | app/manifest.go:1321-1398 | Merging succeeds exactly for pairwise compatible schemas, all the way down |
| Merging.MergeRefuses | app/manifest.go:1336-1382 | A shared extension with two values, and a shared property with another type list or none, are refused |
| Merging.AddTypesOnce | app/manifest.go:1325-1330 | No type is taken over that is there already |
| Merging.MergedCompatibleIff | app/manifest.go:1321-1398 | Compatibility with a merge is compatibility with both its parts |
| Merging.MergeAssociative | app/manifest.go:1321-1398 | For any three schemas both groupings fail together or give the very same schema, and succeed exactly when all three pairs are compatible |
| Merging.MergeCommutes | app/manifest.go:1321-1398 | Both orders succeed together and agree on types as sets, properties, extensions, items and additionalProperties |
| Merging.MergeNoRefs | app/manifest.go:1321-1398 | Merging introduces no reference |
| Merging.CompatibleSymmetric | app/manifest.go:1321-1398 | Which schema receives the other does not matter for success |
| MergingInPlace.Node.MergeSchemas | app/manifest.go:1321-1398 | The updating code fails exactly where the merge is undefined and otherwise leaves the merge in the receiver |
| MergingInPlace.Node.MergeTypesInto | app/manifest.go:1322-1331 | Appending the missing types one by one |
| MergingInPlace.Node.MergeExtensionsInto | app/manifest.go:1333-1341 | The map loop, in any order, fails exactly on a disagreement and otherwise unites the maps |
| MergingInPlace.Node.MergeAdditionalInto | app/manifest.go:1343-1359 | additionalProperties: sub-schemas merge, and true wins over false |
| MergingInPlace.Node.MergePropertiesInto | app/manifest.go:1361-1383 | The property loop, in any order, fails exactly when some shared property cannot be merged |
| StructuralSchemas.ResolveNoRefs | app/manifest.go:1083-1318 | Whatever resolves, cyclic components included, has no reference at any depth |
| StructuralSchemas.ResolveStructural | app/manifest.go:1075-1318 | Whatever the source nests, the result is structural at every depth: combinators hold only required names and what rules them out, everything else is at the root, additionalProperties is no bare boolean |
| StructuralSchemas.MergeStructural | app/manifest.go:1321-1398 | Merging structural schemas gives a structural one |
| Parts.RecursionIsCut | app/manifest.go:1092-1102 | A property that refers to a name already being resolved becomes an object that takes anything, and stays one whatever the combinators merge into it |
| Resolving.Resolve | app/manifest.go:1083-1318 | Resolution is total on every component map, by names not yet visited and then schema size, and never returns a reference at the top |
| StructuralSchemas.CRDSchemaRepeatable | app/manifest.go:1055-1073 | Stripping in place, through a loaded reference too, does not change what a second call compiles, and what is compiled has no reference |
| Parts.ResolveComposed | app/manifest.go:1083-1318 | Whatever resolves, cycles and unions included: at every depth its types, the boolean of its additionalProperties, the preserve extension and what stands under its properties, items and additionalProperties are exactly what the source schemas flowing into that place say, in order; its nullable, required names, other keywords and combinator entries are those of the first of them |
| Parts.ResolveHeaded | app/manifest.go:1126-1318 | The required list is copied, and each allOf, oneOf and anyOf entry holds exactly its member's own required names, with, for oneOf, the discriminating names that member does not define |
| Parts.CompiledProperties | app/manifest.go:1055-1073 | A compiled schema has its component's properties without exactly metadata, kind and apiVersion, and those its combinator members bring |
| Parts.StripExactly | app/manifest.go:1064-1070 | Stripping takes off those three properties and nothing else |
| RequiredNames.HeadMeans | app/manifest.go:1202-1318 | What a resolved schema demands of an object's keys, by its required list and its combinators together, is exactly what the source's lists say: its own names, each allOf member's, one anyOf member's, and one oneOf member chosen |
| RequiredNames.ResolveRefuses | app/manifest.go:1083-1318 | The resolved schema refuses every value that lacks, at any depth, a name its source demands there |
| RequiredNames.EntryMeans | app/manifest.go:1250-1275 | An entry lets an object through exactly if the member's names are there and its excluded ones are not |
| RequiredNames.AllRequiredMeans | app/manifest.go:1228-1232 | The discriminating names are exactly those the oneOf members write; an unloaded reference among them fails |
| RequiredNames.NestedNamesLost | app/manifest.go:1205-1224 | A concrete nested allOf: the source refuses the empty object and the resolved schema takes it |
| Parts.MergeComposed | app/manifest.go:1321-1398 | A merge is composed of the parts of its receiver and then those of the other |
| Parts.TakesAnythingIff | app/manifest.go:1162-1178 | Which additionalProperties turn into the preserve extension can be read off the source |
| Parts.NullsPassIff | app/manifest.go:1322-1331 | Which nulls the resolved types let past can be read off the source: the first part is nullable, none is typed, or one lists null |
| Parts.FalseBesidePropertiesIff | app/manifest.go:1162-1318 | `additionalProperties: false` is left beside properties exactly where some part brings it with a sub-schema that is kept, none brings `true` with one, and some part has properties |
| Parts.FalseBesidePropertiesKept | app/manifest.go:1191-1194 | Two concrete schemas that keep it: their own, and an allOf member's |
| Parts.DecodedKeepsNoBoolean | app/manifest.go:1162-1358 | Where every additionalProperties of the source is a boolean or a schema and not both, no boolean is left at any depth of the result |
| Soundness.ResolveSound | app/manifest.go:1083-1239 | On acyclic components without oneOf and anyOf, no allOf member being nullable, every value the source schema accepts is accepted by the resolved one |
| Soundness.ResolveKeepsIff | app/manifest.go:1083-1239 | Whatever is nullable: an accepted value is accepted by the resolved schema exactly if each of its nulls passes the source's own parts in charge of it |
| Soundness.NullableMemberLost | app/manifest.go:1205-1224 | A nullable allOf member: the source schema takes null and the resolved one does not |
| Soundness.ComponentSound | app/manifest.go:1071-1072 | Both statements for a named component as the compiler starts on it |
| Soundness.VisitedIrrelevant | app/manifest.go:1087-1123 | Referencing something in several places is not a cycle: on acyclic components the result does not depend on what was visited |
| Schemas.RefNameIsLastSegment | app/manifest.go:1401-1404 | The name of a reference is what follows its last slash |
| RetryHeap.RootIsMinimal | operator/retry_processor.go:261-273 | The root of the heap is due first |
| RetryHeap.RetryWorker.Up | operator/retry_processor.go:261-273 | Sifting up restores heap order and loses nothing |
| RetryHeap.RetryWorker.Down | operator/retry_processor.go:261-273 | Sifting down restores heap order within its bound and touches nothing beyond it |
| RetryHeap.RetryWorker.Init | operator/retry_processor.go:124-127 | Heapifying any slice gives a heap of the same entries |
| RetryHeap.RetryWorker.Push | operator/retry_processor.go:92-96 | Pushing adds one entry and keeps heap order |
| RetryHeap.RetryWorker.Pop | operator/retry_processor.go:204-206 | Popping takes an entry that is due no later than any other |
| RetryHeap.RetryWorker.PopReady | operator/retry_processor.go:200-211 | Exactly the entries due now are popped, in nondecreasing order of due time |
| RetryHeap.RetryWorker.Filter | operator/retry_processor.go:111-127 | Exactly the matching entries go, and the heap is rebuilt |
| RetryHeap.RetryWorker.RequeueOne | operator/retry_processor.go:230-254 | At most one retry is pushed: the executed one again, with the error returned, due exactly its delay after the clock reading; an explicit requeue keeps the attempt count, a failure is one attempt later |
| RetryHeap.RetryWorker.Requeue | operator/retry_processor.go:226-257 | Each retry is pushed exactly as often as results put it back |
| RetryHeap.RequeuedExactly | operator/retry_processor.go:226-257 | The same for the specification of the loop: key, closure, action and generation kept, error and exact due time set |
| RetryHeap.KeptCount | operator/retry_processor.go:115-121 | Filtering keeps every other entry as often as it was there |
| RetryProcessors.RetryProcessor.constructor | operator/retry_processor.go:57-82 | An empty pool of the configured size, four workers if that is not positive |
| RetryProcessors.RetryProcessor.Enqueue | operator/retry_processor.go:92-103 | The flat multiset gains exactly the request, in the worker its key hashes to |
| RetryProcessors.RetryProcessor.Dequeue | operator/retry_processor.go:106-127 | The flat multiset loses exactly the matching requests; a nil predicate matches all |
| RetryProcessors.RetryProcessor.DequeueAll | operator/retry_processor.go:130-146 | The flat multiset loses exactly the requests of the key |
| RetryProcessors.RetryProcessor.PopReady | operator/retry_processor.go:197-211 | A worker takes exactly its shard's due requests, in due order |
| RetryProcessors.RetryProcessor.Requeue | operator/retry_processor.go:226-257 | The re-queued requests land in the worker of their key |
| RetryProcessors.RetryProcessor.Len | operator/retry_processor.go:161-169 | The sum over the workers is the number of pending requests |
| RetryProcessors.ChildKeys | operator/retry_processor.go:230-254 | A re-queued request keeps the key and the closure of the one it replaces |
| RetryRuns.AfterDequeue | operator/retry_processor.go:106-146 | After a dequeue every later retry of the key descends from one in flight then, from one the predicate spared, or from a later enqueue |
| RetryRuns.DequeuedNeverRuns | operator/retry_processor.go:106-146 | A pending retry that a dequeue matched is never queued or in flight again |
| RetryRuns.RunKeepsOnePerFunc | operator/retry_processor.go:197-257 | Each enqueued closure is carried by at most one live retry at any time |
| RetryRuns.NotBeforeDue | operator/retry_processor.go:197-257 | Over every run, the next time a closure is popped after its retry was enqueued or put back it is that very retry, and not before its delay after the clock reading is over |
| RetryRuns.BackoffWaits | operator/informer_controller.go:65-73 | With exponential backoff a failure at attempt a is not executed again before the delay of attempt a + 1 |
| RetryRuns.EachRetriedAtMost | operator/informer_controller.go:65-73 | With exponential backoff each enqueued failure that never asks for a requeue is executed at most maxAttempts + 1 times over any run, however the others fare |
| RetryRuns.RetriedExactly | operator/informer_controller.go:65-73 | A failure that fails every time and is not dequeued is executed exactly maxAttempts + 1 times once no retry for it is left |
| RetryRuns.StepLeft | operator/retry_processor.go:226-257 | For any choice of closures the sum of their remaining attempts falls with each execution of theirs, and only their own enqueues raise it |
| RetryRuns.ExecutionsBounded | operator/informer_controller.go:65-73 | The total: executions plus live retries never exceed maxAttempts + 1 times the number of enqueued failures, so the population drains |
| LegacyRetry.Tick | operator/informer_controller.go:674-698 | One key at one tick: which positions are run, what stays in order, and what is collected to be added again, at its attempt for an explicit delay and at the next one for a failure, without its error |
| LegacyRetry.DueAtExactly | operator/informer_controller.go:678-679 | The positions run are exactly those due before the tick, each once and in order |
| LegacyRetry.WaitingExactly | operator/informer_controller.go:678-698 | What stays in the list is exactly what is not due, unchanged and in order |
| LegacyRetry.AddedExactly | operator/informer_controller.go:680-696 | What is collected is the entries run that have a delay, in order, each due its delay after the tick |
| LegacyRetry.NotBeforeDue | operator/informer_controller.go:666-711 | Over every run, the next tick that runs a closure again comes after its delay is over |
| LegacyRetry.DequeueTakesAll | operator/informer_controller.go:586-596 | A dequeue leaves no entry it matches in the list |
| LegacyRetry.EachRunAtMost | operator/informer_controller.go:666-711 | On the legacy path too each queued failure that asks for no explicit delay is run at most maxAttempts + 1 times, however the others fare and whatever comes between the ticker's locked regions |
| LegacyRetry.RunExactly | operator/informer_controller.go:666-711 | A failure that fails every time and is not dequeued is run exactly maxAttempts + 1 times once no entry for it is left |
| LegacyRetry.RunsBounded | operator/informer_controller.go:666-711 | The total: runs plus retries queued or about to be never exceed maxAttempts + 1 times the number of queued failures |
| LegacyRetry.TickPays | operator/informer_controller.go:674-702 | Every run of a closure uses up one of its remaining attempts |
| ListMaps.ListMap.AddItem | operator/util.go:93-99 | The key's list gains the items; every other list stays, though the append may write into spare capacity |
| ListMaps.ListMap.RemoveKey | operator/util.go:102-107 | Exactly the key's list goes |
| ListMaps.ListMap.RemoveItemAt | operator/util.go:111-120 | Removal at an index that exists, no-op beyond the end, panic exactly for a negative index of a present key |
| ListMaps.ListMap.RemoveItem | operator/util.go:126-141 | Exactly the first match goes, and true says there was one |
| ListMaps.ListMap.RemoveItems | operator/util.go:148-171 | The first `limit` matches go, all for a limit below one, and their number is returned |
| ListMaps.ListMap.Remove | operator/util.go:173-188 | The slice shows the list without the index, whether re-sliced, emptied or shifted in its array |
| ListMaps.ListMap.ShiftLeft | operator/util.go:186-186 | Moving the tail one place down within one backing array |
| ListMaps.ListMap.Append | operator/util.go:98-98 | Appending in place or into a larger array shows the same list |
| ListMaps.DropFirstIsFilter | operator/util.go:144-147 | What RemoveItems leaves is a stable filter up to a point which is the end unless the limit was used up |
| ListMaps.LimitCounts | operator/util.go:144-171 | As many elements go as match, but no more than the limit, if that is at least one |
| ListMaps.CutMarks | operator/util.go:156-169 | Removing collected indices from the last to the first removes exactly the collected items |
| EventQueue.QueueFaithful | operator/informer_processor.go:182-231 | In every reachable state delivered, pending and ringed events are the accepted ones in order, the output is enabled exactly when one is pending, and no push sends on the closed channel |
| EventQueue.QStepKeepsInv | operator/informer_processor.go:182-231 | Every step of pushers, loop, consumer and stop keeps that, and a send finds the channel open |
| EventQueue.PushAcceptedIff | operator/informer_processor.go:182-195 | A push that comes before the stop can always send, and then its event is accepted; one that comes after changes nothing |
| EventQueue.RunLoop | operator/informer_processor.go:197-222 | The select loop on any schedule of ready channels delivers and holds exactly what it received |
| EventQueue.TurnsFaithful | operator/informer_processor.go:197-222 | The same for the turn-by-turn specification |
| EventQueue.ServedInTurn | operator/informer_processor.go:203-211 | A consumer that is ready gets the oldest event held |
| EventQueue.ReceiveAppendsIff | operator/informer_processor.go:212-219 | An incoming event is added at the end exactly when the pending event is not nil |
| EventQueue.FaithfulIff | operator/informer_processor.go:197-222 | Over any schedule, nils included: delivered and held events are the received ones in order exactly if no event met a pending nil |
| EventQueue.NilEventLost | operator/informer_processor.go:212-219 | A pending nil event is overwritten |
| ConcurrentWatcher.CallsInOrder | operator/concurrentwatcher.go:80-179 | For every interleaving the calls made for one object are a prefix, in order and argument for argument, of the calls accepted for it |
| ConcurrentWatcher.DrainedMeansAll | operator/concurrentwatcher.go:116-156 | When an object's worker waits on an empty queue every accepted call for it has been made |
| ConcurrentWatcher.AcceptedExactly | operator/concurrentwatcher.go:80-112 | The accepted calls are exactly those pushed before their queue's stop |
| ConcurrentWatcher.OldestServed | operator/concurrentwatcher.go:116-172 | A worker that owes calls can take its next step, which makes or brings in the oldest of them |
| ConcurrentWatcher.SameWorkerIff | operator/concurrentwatcher.go:175-179 | Two objects share a worker exactly if their hashes agree modulo the pool size |
| ConcurrentWatcher.CallRoundTrip | operator/concurrentwatcher.go:158-172 | An event carries its call through the queue unchanged |
| ConcurrentWatcher.ShardOf | operator/concurrentwatcher.go:175-179 | Every object has a worker within the pool |
| ConcurrentWatcher.StepKeepsInv | operator/concurrentwatcher.go:116-156 | Every step keeps each shard's accepted calls equal to its calls made plus its backlog |
| CustomCache.ProcessDeltas | operator/informer_customcache.go:508-543 | The loop leaves the cache and the calls of exactly the deltas before the first failing write, and errs exactly when there is one |
| CustomCache.ReplayIsSnapshot | operator/informer_customcache.go:508-543 | Replaying any prefix of the calls on a copy of the initial cache gives the cache after some prefix of the deltas |
| CustomCache.ReplayAll | operator/informer_customcache.go:508-543 | Replaying all calls gives the cache itself |
| CustomCache.AfterAppend | operator/informer_customcache.go:508-543 | Batches compose: cache and calls of two runs are those of the deltas in sequence |
| CustomCache.CallsCarry | operator/informer_customcache.go:519-541 | One call for each delta of a known type, in order, with its object, and an addition with its batch's isInInitialList |
| CustomCache.CacheIsLast | operator/informer_customcache.go:519-541 | Under each key the cache holds what the last delta about it says |
| CustomCache.EmittedTruthfulIff | operator/informer_customcache.go:523-536 | OnAdd only for absent keys and OnUpdate with the true old value, exactly unless a Get failed on a cached key |
| CustomCache.ReportedTruthfulIff | operator/informer_customcache.go:523-536 | The same for one delta |
| CustomCache.BlindGetAnnouncesAgain | operator/informer_customcache.go:523-536 | A failing Get turns an update of a cached object into OnAdd |
| InformerPipeline.ListenerMirrorsCache | operator/informer_processor.go:51-147 | At every moment of every run each listener that replays its handler's calls holds the cache after some prefix of the deltas, and the calls are truthful unless a Get failed on a cached key |
| InformerPipeline.QuietListenerCaughtUp | operator/informer_processor.go:63-71 | A running listener with an empty queue, nothing being distributed, mirrors the cache itself |
| InformerPipeline.RunningSinceStart | operator/informer_processor.go:73-103 | A listener registered before the start runs from then on and is stopped only by its own stop |
| InformerPipeline.ShutdownStops | operator/informer_processor.go:73-103 | After the shutdown every listener that is left can be stopped |
| InformerPipeline.DeliversOldest | operator/informer_processor.go:130-147 | What a running listener has accepted it can deliver, the oldest first |
| InformerPipeline.DistributionMoves | operator/informer_processor.go:63-71 | Distributing a notice never gets stuck once the processor has started, and each of its steps brings it nearer to its end |
| InformerPipeline.CallsOfPrefix | operator/informer_customcache.go:250-270 | Handlers get the informer's own calls, arguments in place |
| InformerPipeline.StepKeepsInv | operator/informer_processor.go:51-103 | Registration, start, distribution, delivery and shutdown, interleaved, keep every listener on a prefix of the emitted events |
| MultiRunner.SendsAreSafe | app/runner.go:48-79 | In every interleaving a runner about to send finds the channel open and room in it, and the error handler runs at most once per runner |
| MultiRunner.MutexHolderMoves | app/runner.go:56-75 | Whoever holds the mutex can take its next step, so nobody waits for it forever |
| MultiRunner.ReturnsAfterAll | app/runner.go:80-110 | Run returns after all runners have, or says that the exit wait ran out; they were cancelled; a returned error is one a runner reported |
| MultiRunner.ReturnsWhatHappened | app/runner.go:80-110 | Run stops for one reason, a handler that said so or a cancelled context; nil is returned only for the latter, the error last handled for the former, the timeout exactly if the exit wait ran out; errors are handled in the order sent |
| MultiRunner.ErrorsReported | app/runner.go:50-79 | A goroutine that is done has sent its runner's error if there was one, unless the timeout or the closing came first |
| MultiRunner.RunEnds | app/runner.go:50-110 | Every interleaving ends within nine steps a runner and eight, and none gets stuck before Run has returned |
| MultiRunner.MutexKept | app/runner.go:53-79 | Every step keeps the mutex discipline: no runner is past the closed check once the channel is marked closed |
| PathPatch.PointsAtAnnotationIff | k8s/translation.go:51-94 | A well-escaped custom path becomes a pointer of three tokens whose last names the annotation the path means, exactly without a trailing slash |
| PathPatch.SecondPassIff | k8s/translation.go:51-94 | Rewriting twice is rewriting once, exactly unless an extraFields path leads to no Kubernetes field |
| PathPatch.TrailingSlashLost | k8s/translation.go:64-85 | A concrete path whose trailing slash is lost |
| PathPatch.SecondPassChanges | k8s/translation.go:71-79 | A concrete extraFields path that a second pass rewrites again |
| PathPatch.MarshalTwice | k8s/translation.go:51-94 | A whole patch without extraFields can be marshalled twice |
| PathPatch.RefusedIff | k8s/translation.go:54-77 | Exactly the metadata object and the whole of extraFields are refused |
| PathPatch.RewritingKeeps | k8s/translation.go:51-94 | All values stay, and all operations but a replace of custom metadata, which becomes an add; paths to Kubernetes fields stay, and a path into extraFields loses just that segment |
| PathPatch.MarshalJSONPatch | k8s/translation.go:51-94 | The loop rewrites the caller's operations in place: all of them, or those before the first it refuses |
| JsonPointer.DecodeJoined | k8s/translation.go:83-85 | Segments joined by escaped slashes decode to the decoded segments joined by slashes |
| JsonPointer.DecodeOfEncode | k8s/translation.go:83-85 | A token spelled as RFC 6901 asks, section 3, evaluates to itself |
| JsonPointer.TrimmedParts | k8s/translation.go:64-64 | Trimming and splitting a pointer gives its tokens without the empty ones at the end |

## Left out

- Finalizer decoding: a reply or a read replaces the caller's metadata as a whole; slice reuse by the JSON decoder and a document without a finalizers field are not modelled. A resourceVersion is never empty, and a run sees one incarnation of the object.
- Watcher handlers: an unset handler counts as one that returns nil, likewise an unset wrapped reconciler; the jitter between attempts is a moment in which others step.
- Watcher.OpinionatedWatcher.Add: a nil object, which is refused before anything else, is not modelled; nor is it in Update.
- Reconciler.OpinionatedReconciler.Reconcile: state maps are values, so a delegate that returns the very map of its request, and thereby sees later writes to it, is not covered; nor is a delegate that changes the object it is given.
- Schema keywords other than type, nullable, properties, required, items, additionalProperties, extensions and the combinators are one opaque bundle that only narrows and that merging never touches.
- Soundness.ResolveSound: one direction only, because the compiler drops `not` and plain `additionalProperties: false` on purpose and keeps of required names those in `RequiredNames.HeadMeans`; the resolved schema may accept more. oneOf, anyOf and the cycle placeholder change acceptance by design and are covered for structure, termination, absence of references and what they demand.
- MergingInPlace.Node.MergeSchemas: sub-schemas are taken out and put back as values; sharing between schemas, in particular spare capacity of a shared type list, is not modelled, and neither is the half-merged receiver after an error. A nil dereference counts as an error.
- StructuralSchemas.CRDSchemaRepeatable: the in-place deletion of the three properties is a new component map. The OpenAPI library is not part of this model: that a loaded reference shares its target's value, and that a decoded additionalProperties is a boolean or a schema, are taken as given.
- RetryProcessors: wake channels and tickers only decide when a worker looks; times are integers and the exponential delay is a parameter, so its overflow is not modelled. Every enqueue brings a fresh closure.
- LegacyRetry: one key at a time, as each has its own list; keys are independent. Dequeue policies are arbitrary predicates, and the key builders are left out.
- ListMaps: locks make each operation atomic; Range, Keys and the unlocked readers are left out, and they get no snapshot.
- EventQueue: a queue is stopped at most once, as its owners do; a second stop would close a closed channel. The ring buffer is a sequence.
- ConcurrentWatcher: a push is one atomic step here, its locking is EventQueue's; the hash is an arbitrary function, and a panic in a handler is not modelled.
- CustomCache: a store call that fails leaves the store as it was.
- InformerPipeline: re-running a stopped processor, which would close its channels again, is not modelled.
- DynamicMultiRunner and SingletonRunner: their lifecycles have no guarded close to prove.
- HTTP clients, webhooks, tracing, metrics, logging, encodings, code generation and the CLI.
