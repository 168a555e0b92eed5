# A verified model of a versioned audit log

This project models an audit library that keeps the history of entities: every change of an
entity is stored as a numbered version, as a full snapshot or as a field-level delta against
the version before, and any version can be rebuilt later. Around that pipeline the library has
a hash chain over the same records, an LRU cache, two write-ahead logs, a worker pool and a
batch buffer. The model follows the code branch by branch and proves what each part keeps,
over all inputs, all runs and all interleavings. Where the documentation promises more than the
code does, the model follows the code and the exact boundary is a theorem.

`dafny verify dfyconfig.toml` checks everything.

## How the parts fit together

* **Values** (`Entities`, `Text`, `Sorting`, `Json`): Go entities as typed values (structs with tagged and
  embedded fields, pointers, string-keyed maps, normalized slices, times) and Go's rule for finding
  a field by name. A value stands for itself and for its JSON text, and `Json` says what becomes of the few
  values that JSON does not give back as they were.
* **Diff and Apply** (`Changes`, `Merge`, `Replay`, `Equivalence`, `Order`, `DiffEngine`, `Paths`, `DottedKeys`,
  `Exactness`, `RoundTrip`, `Losses`): the class `DiffEngine.Engine` has the loops of the engine, with its
  bounded type cache, and is proved against the edits of `Changes`, whose paths are still lists of segments.
  `Merge` says, without either operation, when two values count as the same, what merging one into another
  means, and when changes can be replayed at all. The central law (`RoundTrip.DiffThenApply`) ties the three
  together through the printed dotted paths: `Replay` is its "if", `Exactness` its "only if", and `Losses` has
  an input for each way to miss it. `Order` shows that the changes of one diff may be applied in any order.
* **The same, from outside** (`Tags`, `Names`, `Undo`, `Applying`): reference definitions that share nothing with
  the engine's own. `Tags` says which fields are compared by the tags on the path to a field, `Names` which field a
  name finds, `Undo` that a delta turned around is the diff the other way, `Applying` what Apply answers on pointers,
  on any delta, and at the first fault.
* **Histories** (`Records`, `Reconstruction`, `Histories`, `Answers`, `Compaction`, `Rewrites`, `Strandings`,
  `HashChain`): the store that keeps deltas, the scans of Reconstruct, the walk of Compact and the hash chain, each
  as imperative methods over the store, each proved against a function on the list of records, about which the
  theorems are stated. `Answers` has the faults of Reconstruct, `Rewrites` the records a compaction rewrites, told
  from the records as they were. `Strandings` has histories and runs that lose a version or answer a wrong
  one, all of them of the entity in `Documents`.
* **The protocol** (`Protocol`, `Runs`, `Auditor`, `Calls`): a versioning call is five separate steps (draw a
  number, read the latest record and settle on a delta, compute the hash, save under the unique key); the state
  machine interleaves the steps of any number of calls, failures, transactions and compaction updates.
  `Runs` states what every run leaves; `Auditor` is the same call as one sequential method over the store,
  engine and hash chain, proved to be a run of the state machine; `Calls` says what the record of a call is, field
  by field.
* **Cache** (`CacheKey`, `Lru`, `LruRuns`): the doubly linked list on the heap and the map into it refine a
  sequence of pairs; the recency theorem is about runs over that sequence.
* **Logs** (`FileWal`, `DbWal`), **pool** (`Pool`) and **batch buffer** (`BatchBuffer`): crash safety at any byte or
  between any two effects, exactly-once, and conservation.

## What the proofs found

* Diff and Apply miss the new entity in exactly four ways (`RoundTrip.DiffThenApply`): a map key with a dot is
  printed into the path and split apart again (`Losses.DottedKeyLost`); a promoted field hidden by an outer
  one is looked up there (`Losses.HiddenIsLost`); a pointer to something that JSON prints as null comes back nil
  (`Losses.NullPointerLost`); and a change may not be replayable: a new key for a nil map, or a map entry whose
  type changes. Only if another change happens to carry into a hidden field can it come right by chance
  (`Losses.ArrivesByChance`).
* A nil map and an empty map are equivalent to the diff engine, but writing a key into a nil map panics;
  the model answers a fault. So a history with only validated deltas can hold a version that cannot be
  rebuilt (`Strandings.NilMapIsStuck`), and compaction can cost a version (`Strandings.CompactionCanStrand`).
  `Histories.RebuildCarried` and `Compaction.CompactKeepsMeaning` are the exact conditions; without nil maps
  neither happens.
* Reconstruct, VerifyIntegrity and Compact list with the default page of 50. Past it Reconstruct can give
  a wrong answer (`Histories.AnswerWithinPage` says exactly when, `Strandings.AnswerPastPage` is one), verification is blind
  (`HashChain.BlindPastPage`), and with the default chain bound, also 50, compaction never rewrites
  anything (`Compaction.DefaultsNeverCompact`).
* A record whose hash step failed is saved without a hash, and a compacted record loses its hash: verification
  of that history fails from then on (`Runs.RunVerifies` is an equivalence, `Runs.CompactedNeverVerifies`).
* VersionInTx does not validate its delta. Two such calls can leave a version that cannot be rebuilt
  (`Strandings.TypeChangeInTransaction`), or, worse, one that Reconstruct answers wrongly without an error
  (`Strandings.DottedKeyInTransaction`). `Runs.RunReconstructs` says exactly when all is right.
* The cache prints the least int64 as a bare "-" (the key stays unique), and invalidating an entity also
  takes out entities whose id continues its id after a colon (`LruRuns.InvalidateTakesOut`). Entity types that
  hold a colon can share keys (`CacheKey.KeyInjective`).
* The file log does not truncate a torn tail before appending again: the next entries are read as the rest of
  the torn one (`FileWal.AppendAfterTear`). A torn line of the sidecar is glued to the next one
  (`FileWal.AckAfterTear`), and can read like the id of an entry that was never acknowledged (`FileWal.AckHides`).
* The entries Version writes to the log hold only type and id; replaying them restores no version
  (`DbWal.AnnouncementsRestoreNothing`).
* A Shutdown of the pool that is not the first returns nil without waiting (`Pool.SecondShutdownDoesNotWait`).
  The documentation of Submit says it blocks until there is space or the pool is shut down; as long as the
  channel is not closed under it, the second never happens (`Pool.BlockedNeverGivesUp`).

## Model

| member | source | states |
|---|---|---|
| Text.SplitJoin | domain/diff/engine.go:379 | Splitting undoes joining with a one-character separator exactly when no piece holds the separator. |
| Sorting.SortIgnoresOrder | domain/diff/engine.go:492-521 | Two lists have the same sorted copy exactly when they hold the same elements equally often, so a normalized slice ignores order and nothing else. |
| Sorting.SortedUnique | domain/diff/engine.go:492-521 | A sorted list is determined by its elements: any sorting algorithm, stable or not, gives the modelled copy. |
| DiffEngine.Engine.GetOrBuildMeta | domain/diff/engine.go:524-574 | Gives the metadata of the type and caches it; fails only when the bounded cache is full and the type is not in it; entries never change or leave. |
| DiffEngine.Engine.DiffFields | domain/diff/engine.go:163-341 | The loop over the fields appends, to the changes given, exactly the printed edits of the struct; fails only on an unsupported field or a full cache. |
| DiffEngine.Engine.DiffSlot | domain/diff/engine.go:170-235 | One field: skipped by id, ignore or tracked mode, promoted without a segment when embedded, else compared under its dotted name. |
| DiffEngine.Engine.DiffField | domain/diff/engine.go:237-338 | The switch on the kind of a field: nested struct, map, pointer pair, slice or leaf, with old and new value recorded. |
| DiffEngine.Engine.DiffMap | domain/diff/engine.go:577-676 | Two maps compared key by key in sorted key order, recursively; the changes do not depend on the order in which keys were collected. |
| DiffEngine.Engine.OrderedKeys | domain/diff/engine.go:583-601 | Collecting the keys of both maps in any order and sorting them gives one list. |
| DiffEngine.Engine.Diff | domain/diff/engine.go:127-158 | Nil pointers, non-structs and different types are refused; otherwise the answer is the delta of the two values, or a failure exactly when an unsupported field is met (or the cache is full). |
| DiffEngine.Engine.Apply | domain/diff/engine.go:346-373 | A copy with the changes replayed in order, each dotted path split and resolved again; an empty delta gives back the input; the first change that cannot be applied fails the call. |
| Applying.DiffFollows | domain/diff/engine.go:680-693 | Diff follows any number of pointers down to a struct, and refuses a nil pointer or anything else it meets first. |
| Applying.ApplyFollows | domain/diff/engine.go:346-373 | Apply follows one pointer: on a set pointer to a struct, with changes to apply, it answers what it answers on the struct; on a nil one it fails; without changes it gives back what it was given. |
| Applying.ApplyLaw | domain/diff/engine.go:346-373 | The central law for what Apply answers on an entity or a pointer to one: fails exactly when a located delta is not replayable, gives the merge otherwise, and something equivalent to the new value exactly when the delta is conveyed and replayable. |
| Applying.FirstFault | domain/diff/engine.go:366-370 | For any delta, wherever it comes from: changes are applied one after another up to the first that fails, whose fault is the answer; there is an answer exactly if none fails. |
| Applying.ChangeOfField | domain/diff/engine.go:378-415 | One change that ends at a field: absent JSON or null zeroes it, JSON of its type sets it to what decoding gives and touches nothing else, any other JSON and any name that finds no field are refused. |
| Applying.ChangeBehindField | domain/diff/engine.go:378-470 | One change that goes on behind a field: refused at a leaf, at a nil map, at a map value that is no map and at a change of dynamic type; through a nil pointer it works on a new zero value. |
| Names.ResolveExact | domain/diff/engine.go:400-404 | The name of a change finds exactly the one field of that name that is embedded least deep; two of that depth hide each other and everything deeper. |
| Tags.DeltaEmptyExactly | domain/diff/engine.go:170-181 | What the tags mean, by paths from the root: the delta is empty exactly if the engine cannot tell apart the values of any field not left out, a field being left out if its path goes through one tagged id or ignore, or through an untagged plain field while some field of its struct, or of a struct that one is embedded in, is tagged tracked; and it is refused exactly if one of these is. |
| Tags.AlikeMeans | domain/diff/engine.go:184-338 | When the engine cannot tell two values of a field apart: leaves when equal, times by the instant, normalized slices as multisets, maps by their entries (nil as empty), pointers by their targets. |
| Tags.SupportedMeans | domain/diff/engine.go:196-202 | When it refuses them: channels and functions always, a pointer if JSON refuses one of two unlike targets or the only one. |
| Tags.OpaqueRefused | domain/diff/engine.go:268-296 | JSON refuses a struct with a channel or a function at any depth. |
| Tags.ReplayedFields | domain/diff/engine.go:346-373 | Replaying a located delta leaves every field that is left out as it was in the value it is replayed on, and brings every other to the new value, as far as JSON keeps it. |
| Tags.TaggedNeverShow | domain/diff/engine.go:170-181 | Entities that differ only in fields tagged id or ignore or, in tracked mode, in untagged plain ones have an empty delta, and no such field is refused. |
| Tags.UntaggedShows | domain/diff/engine.go:170-181 | Without a tracked field, a field with neither tag whose values the engine can tell apart gives a non-empty delta. |
| Undo.ReversedDelta | domain/diff/engine.go:249-337 | A delta with the old and new values of its changes exchanged is the diff the other way: every change records both values. |
| Undo.TakenBack | domain/diff/engine.go:346-373 | Applying the reversed delta takes the change back: it succeeds exactly when that is replayable, and merges the old value in. |
| Undo.DeltaInOrder | domain/diff/engine.go:163-341 | The changes of a diff come in the order in which the fields are declared, embedded structs in their place. |
| Undo.MapInOrder | domain/diff/engine.go:583-603 | Those of a map come by ascending key. |
| Paths.PrintedPathSplits | domain/diff/engine.go:379 | The path Diff prints is read back by Apply as the same segments exactly when no segment holds a dot. |
| Replay.FieldReplay | domain/diff/engine.go:378-487 | On any x equivalent to a, if every changed field is what its name resolves to, replaying the edits from a to b succeeds exactly when they are replayable on x, and then gives the merge of b into x; by mutual induction over nested, embedded, pointer and map levels. |
| Replay.StructReplay | domain/diff/engine.go:163-341 | The same for the fields of a struct reached by name from the host entity, promoted names included: what Diff finds by descending, Apply finds again by resolving names. |
| Replay.MapReplay | domain/diff/engine.go:419-470 | The same for maps, nested to any depth: succeeds exactly when new keys find an allocated map and changed leaves keep their dynamic type. |
| RoundTrip.DiffThenApply | domain/diff/engine.go:127-158 | Central law, through printed paths, for all values Diff accepts: applying Diff(a, b) to any x equivalent to a gives something equivalent to b exactly when every change is conveyed (its name leads back to its place, no changed key holds a dot, JSON keeps the pointers that are set) and is replayable on x; the result then is b on every compared field and x on every excluded one. The only-if half needs that no change happens to carry into a hidden field that changed. |
| RoundTrip.WellNamedRoundTrip | domain/diff/engine.go:127-158 | The same for types without hidden fields: exactly dotted changed keys, unkept pointers, and changes that are not replayable stand in the way. |
| Exactness.FieldFails | domain/diff/engine.go:378-415 | The other half, for one field at any depth: if some change inside is not located by its path as Apply reads it, neither the result nor what JSON gives back of it is the new value, unless another change carries into a hidden field that changed. |
| Exactness.HiddenKept | domain/diff/engine.go:400-409 | A changed field that its own name does not lead to keeps its old value, if no changed name leads into or around it. |
| Exactness.OwnChanges | domain/diff/engine.go:366-370 | The final value of a field found by its name is what its own changes make of it, whatever else changes. |
| RoundTrip.CheckedIsConveyed | domain/version/strategy.go:69-106 | A delta that was checked to lead to the JSON of the new value conveys every change and is replayable, if JSON keeps that value. |
| RoundTrip.ReplayedAlike | domain/diff/engine.go:346-373 | Replaying any delta on two values with the same JSON fails on both or gives the same JSON. |
| RoundTrip.ExactMerge | domain/diff/engine.go:346-373 | Applying Diff(a, b) to a itself: if every change is located, it succeeds iff replayable and gives b on every compared field (a differing normalized slice as its sorted copy) and a everywhere else; the result is equivalent to b exactly when every change is conveyed and replayable. |
| Json.ExpressedKept | domain/diff/engine.go:473-487 | Starting from a value that JSON gives back as it was, JSON keeps what changes exactly if it keeps the new value as a whole. |
| RoundTrip.EmptyDelta | domain/diff/engine.go:152-157 | The delta is empty exactly when the two values are equivalent. |
| Equivalence.EmptyIffSame | domain/diff/engine.go:163-341 | Diff emits nothing for a field exactly when its two values are equivalent. |
| Equivalence.SameReflexive | domain/diff/engine.go:163-341 | "Diff finds nothing" is reflexive. |
| Equivalence.SameEuclidean | domain/diff/engine.go:163-341 | "Diff finds nothing" is symmetric and transitive: two values equivalent to a third are equivalent. |
| Equivalence.MergeSame | domain/diff/engine.go:346-373 | The merge of b into x, when replayable, is equivalent to b exactly if JSON keeps every pointer that is set. |
| Equivalence.ReplayableAllocated | domain/diff/engine.go:451 | Changes replayable on a are replayable on every equivalent value whose maps are all allocated. |
| Order.ApartIncomparable | domain/diff/engine.go:378-415 | Paths that lead to separate places are incomparable segment by segment. |
| Order.Commute | domain/diff/engine.go:378-415 | Two changes at separate places commute: both orders fail or both give the same value. |
| Order.AnyOrder | domain/diff/engine.go:366-370 | A list of pairwise separate changes gives the same value, or fails, in every permutation. |
| Order.DiffOrderFree | domain/diff/engine.go:170-337 | The paths of one diff as segments are pairwise incomparable, and applying its changes in any permutation to any value gives the same result. |
| RoundTrip.DeltaOrderFree | domain/diff/engine.go:346-373 | The same for the printed delta that Apply receives: its paths, split at the dots, are pairwise incomparable, and any permutation of its changes replays to the same. |
| DottedKeys.DottedFails | domain/diff/engine.go:379 | If a changed map key holds a dot, at any depth, the changes as Apply reads them never lead to the new map. |
| DottedKeys.MapRoundTrip | domain/diff/engine.go:603-673 | For all maps: the printed-and-reread changes lead from a to b exactly when no key on which the two maps differ holds a dot, at any depth, and every change is replayable. |
| Losses.DottedKeyLost | domain/diff/engine.go:379 | Input: a document whose map gains the key "a.b"; Apply succeeds and gives a key "a" that holds a map. |
| Losses.OuterHides | domain/diff/engine.go:400-409 | A field of the struct itself hides every promoted field of its name, in either order of declaration and with any siblings. |
| Losses.HiddenIsLost | domain/diff/engine.go:400-409 | When a hidden field changed and no other change carries into it, Apply fails or leaves it as it was, and never gives the new entity. |
| Losses.HiddenNameLost | domain/diff/engine.go:400-409 | Input: a field beside an embedded struct that promotes one of the same name. |
| Losses.NullPointerLost | domain/diff/engine.go:473-487 | Input: a pointer set to a nil slice; Apply succeeds and the pointer stays nil. |
| Losses.ArrivesByChance | domain/diff/engine.go:400-409 | Input that shows why the law needs its condition: the change of a hidden field is not located, and the new entity is reached all the same. |
| Records.Store.Save | testing/inmemory.go:39-46 | Appends the record under its type and id and changes nothing else. |
| Records.Store.Update | testing/inmemory.go:58-69 | Replaces the first record of the version if there is one, else reports not found and changes nothing. |
| Records.Store.GetByVersion | testing/inmemory.go:72-81 | The first record of the version, or none. |
| Records.Store.GetLatest | testing/inmemory.go:84-98 | The record of the highest version, the earliest such on a tie. |
| Records.Store.ListVersions | testing/inmemory.go:120-150 | The records in version order, cut to one page. |
| Records.ByVersionSorts | testing/inmemory.go:131-138 | Listing is ordered by version, either way, and is a permutation of the stored records. |
| Records.GaplessFind | testing/inmemory.go:72-81 | In a history without gaps version v is found at position v-1 and nothing else is found. |
| Records.GaplessLatest | testing/inmemory.go:84-98 | In a history without gaps the latest record is the last one. |
| Records.GaplessPage | domain/port/types.go:31-37 | A listing with a limit shows exactly the leading records of such a history. |
| Records.IncreasingPage | domain/port/types.go:31-37 | So it does of any history stored in version order, gaps or not. |
| Records.PageExact | testing/inmemory.go:140-149 | A page holds the listed records from its offset on, as many as there are up to the limit, and the next page goes on where it ends. |
| Records.LatestExact | testing/inmemory.go:84-98 | Of the records of the highest version the first is the latest. |
| Reconstruction.Reconstruct | domain/reconstruct/engine.go:49-135 | Answers what the records on one page mean, the version being found in one state of the store and the page listed in another: unknown type, missing version, a snapshot decoded, or the nearest snapshot with every later delta replayed; and applies exactly the deltas since that snapshot (fewer only when one fails). |
| Reconstruction.NearestSnapshot | domain/reconstruct/engine.go:83-98 | The backward scan finds the last snapshot not past the target, or none exists. |
| Reconstruction.Forward | domain/reconstruct/engine.go:107-133 | The forward loop over the deltas computes the meaning of the record list and applies each non-empty delta since the snapshot once. |
| Histories.RebuildSound | domain/reconstruct/engine.go:83-135 | On every history that satisfies the run invariant, validated or not: where the records back to the nearest snapshot convey, whatever is rebuilt is equivalent to the entity stored with the version. |
| Histories.StepSound | domain/reconstruct/engine.go:123-132 | A delta that locates its changes, replayed on any equivalent reconstructed state, fails iff not replayable there and otherwise leads to an equivalent of its version. |
| Histories.RebuildProgress | domain/reconstruct/engine.go:107-133 | On such a chain, exactly when a version can be rebuilt: it is a snapshot, or the one before can be rebuilt and the changes are replayable on that. |
| Histories.RebuildCarried | domain/reconstruct/engine.go:83-135 | On such a chain, nil maps and unvalidated deltas included: a version can be rebuilt exactly when its state is carried to it from the nearest snapshot by the stored data, each change replayable on the state so far, and that state is the answer. |
| Histories.RebuildRight | domain/reconstruct/engine.go:83-135 | Exactly when all versions back to the nearest snapshot are rebuilt right: JSON keeps every entity, every delta locates its changes, and these are replayable on the state carried so far (no change carrying into a hidden field that changed). |
| Histories.ValidatedConveys | domain/version/strategy.go:69-106 | Chains of validated deltas convey exactly when JSON keeps every entity in them. |
| Histories.RebuildAllocated | domain/reconstruct/engine.go:83-135 | Without nil maps a version can be rebuilt exactly when every delta since the nearest snapshot is replayable on the stored data before it. |
| Histories.RebuildSucceeds | domain/reconstruct/engine.go:83-135 | Validated deltas are, so with them and without nil maps every version can be rebuilt. |
| Histories.RebuildExact | domain/version/strategy.go:69-106 | Back to the nearest snapshot with only validated, non-empty deltas, the rebuilt entity has the very JSON that was stored, for all types and values. |
| Answers.RebuildFaults | domain/reconstruct/engine.go:83-133 | Rebuilding from any records fails exactly for want of a snapshot, on a last snapshot that does not decode, or with the fault of the first delta after it that cannot be replayed. |
| Answers.AnswerFaults | domain/reconstruct/engine.go:49-135 | For any stored records, any state of the store at the second read and any page: unknown type exactly when it is not registered; not found when no record has the version; a snapshot is decoded or refused; a delta version fails exactly as rebuilding the listed records up to it does. |
| Strandings.NilMapIsStuck | domain/diff/engine.go:451 | Input: a history every delta of which was validated and whose last version cannot be rebuilt: nil map, empty map (no change seen), new key. |
| Strandings.TypeChangeStrands | domain/diff/engine.go:419-470 | Input: a history without nil maps whose second version cannot be rebuilt: the delta was not validated and changes the type of a map entry. |
| Strandings.TwoCalls | audit.go:441-560 | Two calls in transactions one after the other, for all entities the engine can tell apart: version 2 is rebuilt to what the delta makes of version 1, right or not. |
| Strandings.TransactionStrands | audit.go:474-522 | If the second entity cannot be replayed on the first, version 2 cannot be rebuilt. |
| Strandings.TransactionMisleads | audit.go:474-522 | If the delta leads somewhere else, Reconstruct answers that, without an error. |
| Strandings.TypeChangeInTransaction | audit.go:474-522 | Input: two such calls, the second of which changes the type of a map entry; version 2 is lost. |
| Strandings.DottedKeyInTransaction | audit.go:474-522 | Input: two such calls, the second of which adds the key "a.b"; version 2 is answered with a key "a" that holds a map. |
| Histories.AnswerWithinPage | domain/reconstruct/engine.go:73-81 | Under a page limit Reconstruct answers exactly when the version is a snapshot or the last version shown can be rebuilt; its answer for a delta version on a chain that conveys is right exactly when the target is on the page or is equivalent to the last record shown. |
| Strandings.AnswerPastPage | domain/reconstruct/engine.go:73-81 | Input: a page of one record and a history of two; version 2 is answered with version 1. |
| Histories.AnswerEvolved | domain/reconstruct/engine.go:57-81 | Between the two reads the history may grow and deltas may become snapshots: the answer is that of the later history, unless the version lies past the page and was compacted in between. |
| Histories.AnswerCosts | domain/reconstruct/engine.go:49-135 | The deltas Reconstruct applies under a page limit are those since the nearest snapshot shown. |
| Histories.HybridCost | domain/version/strategy.go:32-54 | With a snapshot at every version that is 1 modulo N, those are at most N-1. |
| Histories.DeltaCostExact | domain/reconstruct/engine.go:107-133 | The count of applied deltas is the number of non-empty deltas stored since the nearest snapshot. |
| Compaction.Compact | domain/reconstruct/compaction.go:72-146 | On any store, whatever its records: the store, the count and the error are those of the walk over the listed page, each rewritten record updated under the identifier in its data, up to the first update that fails. |
| Compaction.CompactOwned | domain/reconstruct/compaction.go:72-146 | On the records of one entity in version order, gaps allowed: the page listed becomes what the walk makes of it, the rest and all other entities stay as they were. |
| Compaction.WalkRewrites | domain/reconstruct/compaction.go:117-139 | Each record is kept, or was a delta and is now a snapshot of itself: data and version stay; delta, hash and previous hash are gone. |
| Compaction.WalkTwice | domain/reconstruct/compaction.go:84-145 | A second pass over a finished compaction rewrites nothing. |
| Compaction.WalkBoundsRuns | domain/reconstruct/compaction.go:90-115 | After a finished compaction every run of consecutive deltas is shorter than the bound. |
| Compaction.WalkCounts | domain/reconstruct/compaction.go:84-145 | The count returned is the sum, over the original runs of deltas, of their length divided by the bound and rounded down. |
| Compaction.DefaultsNeverCompact | domain/reconstruct/compaction.go:17 | With the default bound (50) and the default page (50), compaction never rewrites a record of a history that starts with a snapshot. |
| Compaction.CompactTwice | domain/reconstruct/compaction.go:84-145 | After a finished Compact a second one leaves the history as it is and counts 0. |
| Compaction.CompactedRuns | domain/reconstruct/compaction.go:84-145 | After a finished Compact fewer deltas than the bound follow one another on the page listed, and the count reported is the sum of the floored quotas of the runs there were. |
| Compaction.CompactedCost | domain/reconstruct/compaction.go:14-33 | After a finished Compact, Reconstruct applies fewer deltas than the bound to answer any version on the page. |
| Rewrites.CompactedExactly | domain/reconstruct/compaction.go:84-145 | Exactly which records a compaction rewrites, from the records as they were: on the page, every delta that completes a chain (its place in its run of deltas is a multiple of the bound), up to the first that cannot be; each becomes a snapshot of the same data and number for the identifier in the data, without delta and hashes; the count is their number and the error is what stopped it. |
| Rewrites.RewritingOne | domain/reconstruct/compaction.go:117-139 | On any store: a delta that is due becomes a snapshot of the entity that the identifier in its data names, in the place of the first record of its number there; without such a record, or if the store refuses, Compact stops and reports a failed write. |
| Compaction.CompactKeepsMeaning | domain/reconstruct/compaction.go:84-145 | Finished or stopped by an error: the run invariant and all data stay; before, a version is rebuilt to what is carried from the old nearest snapshot, afterwards to what is from the new one, by the same records as far as they convey, and exactly then right; both answers are equivalent; without nil maps no version is lost. |
| Compaction.SnapshotsCarry | domain/reconstruct/compaction.go:84-145 | The same for any choice of deltas turned into snapshots. |
| Strandings.CompactionCanStrand | domain/reconstruct/compaction.go:122-134 | Input: a validated history of six versions that a finished compaction with bound 3 turns into one whose last version is lost; the record it rewrites holds a nil map. |
| HashChain.ComputeAndStore | domain/integrity/chain.go:39-73 | Sets the previous hash from the record before and then the hash; stops half-way when the previous record is missing or the hasher fails. |
| HashChain.LinkingStops | domain/integrity/chain.go:39-73 | Exactly where the hash step stops and what it has written by then, field by field. |
| HashChain.VerifyIntegrity | domain/integrity/chain.go:78-124 | Accepts exactly when every listed record points to the hash of the one before and carries its own hash. |
| HashChain.HashBinds | domain/integrity/chain.go:87-122 | With an injective, never empty hash, two intact chains that end in the same hash have the same length and agree, record by record, on type, id, version, data and previous hash. |
| HashChain.TamperingShows | domain/integrity/chain.go:87-124 | Changing type, id, version, data or previous hash of one verified record, its hash kept, makes verification of the listing it is on fail; with its version kept it is still on it. |
| HashChain.BlindPastPage | domain/integrity/chain.go:79-86 | Verification sees one page: any two histories that agree there are verified alike. |
| Protocol.SelectStrategy | domain/version/strategy.go:32-54 | Never hybrid; a snapshot exactly for the first version, when the override, or without one the default, asks for it, or in hybrid mode at version 1 modulo the interval (10 if that is below 2). |
| Protocol.HybridPeriod | domain/version/strategy.go:32-54 | In hybrid mode exactly one of any N versions in a row is a snapshot. |
| Calls.RecordOfCall | audit.go:247-345 | The record of a call, for any history: the entity, type and id it was given, under the number after the highest; the first is version 1, a full snapshot. |
| Calls.StrategyOfCall | audit.go:253-297 | Exactly when a call stores a snapshot before any delta is looked at: it, or else the configuration, asks for one, or in hybrid mode the number is 1 modulo the interval (10 unless at least 2 is configured), or the previous version cannot be read, decoded or diffed. |
| Calls.DeltaOfCall | audit.go:288-345 | Otherwise: nothing changed, then no delta and the strategy asked for; in a transaction the delta; outside one the delta exactly if replaying it leads to the JSON of the entity, and a full snapshot without it exactly if that fails or leads elsewhere. |
| Calls.HashOfCall | audit.go:348-355 | What each outcome of the hash step leaves in the record: hash and previous hash, one of them, or none. |
| Calls.SaveOfCall | audit.go:357-360 | A save goes through exactly if the store accepts it and the number is free; it then appends that record and changes nothing else. |
| Calls.UpdateOfCompaction | domain/reconstruct/compaction.go:122-134 | A compaction update makes one delta record a snapshot without delta and hashes, everything else staying; a snapshot is left alone. |
| Calls.TwoOrdinaryCalls | audit.go:222-385 | Two calls outside transactions, the second asking for a delta, for all entities: it is stored as the delta exactly if replaying that leads to its JSON, without one if nothing changed, else as a snapshot. |
| Calls.NewKeyIsDelta | audit.go:288-345 | So a document that gains a map key without a dot is stored as a delta. |
| Protocol.SettleFollows | audit.go:273-308 | If the number a worker drew is still free, the latest record it read is the version just before it, and its record continues the history, validated outside transactions. |
| Protocol.OtherWorkerOk | audit.go:247-361 | A save or a compaction update of any history leaves every other worker in flight right: it either lost its number or still fits. |
| Protocol.StepKeeps | audit.go:222-385 | Every step of every worker, a new call or a compaction update keeps the invariant over all histories and all workers in flight. |
| Protocol.RunKeeps | audit.go:222-385 | The invariant holds after every interleaving of any number of workers, whatever fails on the way. |
| Runs.RunVersions | adapter/postgres/schema.go:94-102 | In every interleaving under the unique key, for all registered types and entities of them: versions are exactly 1..n, version 1 is a full snapshot, each stored delta is the diff from what a reader gets of the version just before. |
| Runs.RunReconstructs | audit.go:257-361 | In every interleaving, transactions and compaction included, for all registered types and entities: where the records back to the nearest snapshot convey, a version is rebuilt to exactly what is carried to it from there, and that is right; and exactly then are all versions back to the snapshot rebuilt right (no change carrying into a hidden field that changed). |
| Runs.RunSucceeds | audit.go:288-308 | Without nil maps a version on such a chain can be rebuilt exactly when every delta fits the data before it; without transactions every delta does, and chains convey exactly when JSON keeps every entity in them. |
| Runs.RunReconstructsExactly | domain/version/strategy.go:69-106 | Without transactions a version whose chain has only non-empty deltas is rebuilt to the very JSON that was stored, whatever its type and whatever is nil in it. |
| Runs.RunAnswerBetween | domain/reconstruct/engine.go:57-81 | Reconstruct reads twice while the run goes on: it answers as it would at the second read, unless the version lies past the page and was compacted in between. |
| Runs.RunAnswerFaults | domain/reconstruct/engine.go:50-60 | On what any run leaves, whatever goes on between the two reads: not found exactly for numbers below 1 or above the last version, unknown type exactly for types that are not registered. |
| Runs.RunIsVerified | domain/integrity/chain.go:39-124 | In every interleaving in which every hash step gets through and nothing is compacted, verification accepts every history. |
| Runs.RunVerifies | domain/integrity/chain.go:39-73 | In every interleaving, compaction and failing hash steps included, verification accepts a history exactly when every record has a hash. |
| Runs.HashlessStays | domain/integrity/chain.go:39-73 | A record without a hash never gets one, whatever runs on. |
| Runs.CompactedNeverVerifies | domain/reconstruct/compaction.go:122-134 | Once a delta record has been compacted its history is never verified again. |
| Runs.RunHybridCost | domain/version/strategy.go:32-54 | In an all-hybrid run with interval N, Reconstruct applies at most N-1 deltas to answer any version under any page limit, whatever fell back to a snapshot or was compacted. |
| Auditor.Auditor.DiffAgainst | audit.go:288-308 | Diff against the previous data and, outside transactions, validation by applying it; any failure falls back to a full snapshot. |
| Auditor.Auditor.Version | audit.go:141-385 | A call not interleaved with others: saves the record its history calls for, as the next version, or changes nothing; and exactly when. |
| Auditor.NextIsFree | domain/version/sequence.go:19-28 | The next number is never taken in the history it was read from. |
| Auditor.AloneIsARun | audit.go:222-385 | The five interleavable steps of one call with nothing in between come to the record of the sequential call. |
| CacheKey.DigitsOf | adapter/cache/lru.go:63-79 | The digit loop stays within its 20-byte array for every int64 and gives the decimal digits. |
| CacheKey.AppendInt64 | adapter/cache/lru.go:63-79 | Appends the printed number; the least int64, which negation leaves unchanged, comes out as a bare sign. |
| CacheKey.PrintingInverts | adapter/cache/lru.go:63-79 | The printed number parses back to the number exactly when it is not the least int64. |
| CacheKey.KeyInjective | adapter/cache/lru.go:51-58 | Two versions share a cache key exactly when their numbers agree and type:id is written alike; with colon-free types exactly when they are the same. |
| CacheKey.PrefixMeans | adapter/cache/lru.go:124-128 | Exactly which keys start with the prefix of an entity, for all types and ids: those of entities written like it or continuing it after a colon. |
| Lru.LRU.Get | adapter/cache/lru.go:84-97 | On the heap list and map: gives the value held and moves its pair to the front of the recency sequence; a miss changes nothing. |
| Lru.LRU.Put | adapter/cache/lru.go:101-121 | Updates and moves to front, or evicts the last pair when full and inserts in front; size never exceeds capacity. |
| Lru.LRU.Invalidate | adapter/cache/lru.go:124-136 | Removes exactly the pairs whose key has the prefix, in whatever order the map is walked, and keeps the order of the rest. |
| Lru.LRU.RemoveEntry | adapter/cache/lru.go:167-180 | Unlinks one entry: the links run through the remaining entries in both directions. |
| Lru.LRU.PushFront | adapter/cache/lru.go:147-157 | Links an entry in front. |
| Lru.LRU.EvictLRU | adapter/cache/lru.go:182-188 | Drops the last pair from list and map. |
| Lru.IndexesKeys | adapter/cache/lru.go:30-37 | The map holds exactly the keys of the list. |
| LruRuns.CacheIsFront | adapter/cache/lru.go:84-121 | After any run from empty the cache holds the `capacity` most recently touched keys, most recent first. |
| LruRuns.RecencyTheorem | adapter/cache/lru.go:84-121 | A get hits exactly if fewer than `capacity` distinct other keys were touched since the last touch of its key, and then gives the value of the latest put. |
| LruRuns.NeverPut | adapter/cache/lru.go:84-97 | A key never put is never found. |
| LruRuns.InvalidateTakesOut | adapter/cache/lru.go:124-136 | Invalidation takes out exactly the versions of entities written like the given one or continuing it after a colon. |
| LruRuns.InvalidateKeepsOrder | adapter/cache/lru.go:124-136 | What an invalidation leaves keeps its values and its order. |
| FileWal.Log.Append | adapter/wal/file/file.go:85-120 | Extends the file by one frame: length modulo 2^32, payload, checksum. |
| FileWal.Log.Ack | adapter/wal/file/file.go:124-137 | Extends the sidecar by one line. |
| FileWal.Log.ReadEntries | adapter/wal/file/file.go:209-262 | On any file content the loop terminates with the entries of its frames in order, skipping bad checksums and undecodable payloads, stopping at a cut or oversized frame. |
| FileWal.Log.LoadAcked | adapter/wal/file/file.go:188-205 | The set of trimmed non-empty lines. |
| FileWal.Log.Replay | adapter/wal/file/file.go:142-167 | The entries read whose id is not acknowledged, in order. |
| FileWal.Be32Inverts | adapter/wal/file/file.go:95-96 | The big-endian length and checksum words are read back as written. |
| FileWal.Be32Orders | adapter/wal/file/file.go:95-96 | Words compare byte by byte, first byte first, as the numbers do: the byte order is big-endian. |
| Text.TrimExact | adapter/wal/file/file.go:198-202 | Trimming an acknowledgement line takes off exactly the white space at both ends. |
| FileWal.ReadAfterCrash | adapter/wal/file/file.go:209-262 | For any appends and any prefix of the file, the entries whose frames lie wholly inside it are read, in order, up to the first payload over 100 MiB; and nothing else, unless the length of that payload wraps at 4 GiB. |
| FileWal.ReadableAll | adapter/wal/file/file.go:228-231 | With no payload over the limit, every wholly written frame is among them. |
| FileWal.DamageCostsOne | adapter/wal/file/file.go:245-250 | Replacing a payload by one whose checksum disagrees, or that does not decode, costs that entry and no other. |
| FileWal.AppendAfterTear | adapter/wal/file/file.go:85-120 | Appending any bytes after a torn frame without truncating it, wherever it is torn: nothing more is read while what stands in its place announces more than has been written since; afterwards that counts if its checksum agrees, and reading goes on right behind it. |
| FileWal.ReadAgainAfterTear | adapter/wal/file/file.go:209-262 | If the entries appended next fill the torn frame exactly and the checksum tells, they are lost and those after them are read again. |
| FileWal.AckHides | adapter/wal/file/file.go:188-205 | Exactly which ids a crash of the sidecar can make look acknowledged, for all ids: those some part of a written line reads like; with clean ids the prefixes of acknowledged ones. |
| FileWal.ReplayIntact | adapter/wal/file/file.go:142-167 | Without a crash replay gives exactly the entries not acknowledged, in append order. |
| FileWal.AckAfterTear | adapter/wal/file/file.go:124-137 | Acknowledging after a torn sidecar line: exactly what the whole lines say counts, and what the torn rest glued to the new id says. |
| FileWal.ReplayAfterCrash | adapter/wal/file/file.go:142-167 | At least once, exactly: for any prefix of the log, a wholly written entry is returned under every prefix of the sidecar exactly when no line written there can read like its id. |
| FileWal.ReplayInOrder | adapter/wal/file/file.go:142-167 | And only appended entries are returned, in append order. |
| DbWal.WAL.Append | adapter/wal/db/dbwal.go:103-120 | Inserts at the end unless the id is already logged. |
| DbWal.WAL.RecoverOne | adapter/wal/db/dbwal.go:199-216 | One entry of recovery: save, or recognise the duplicate; acknowledge; stop on a failed save, or on a failed acknowledgement of a fresh save. |
| DbWal.WAL.Recover | adapter/wal/db/dbwal.go:192-219 | Stopped anywhere: logged rows and saved records together still settle to the same table, and no record is overwritten. Exactly, for every pattern of faults: it stops at the first row whose save fails, at which it dies, or whose acknowledgement fails right after it was saved, and nowhere else; rows passed over without acknowledgement stay logged, and each row is counted as replayed, skipped or failed to acknowledge. |
| DbWal.WAL.RecoverUntilComplete | adapter/wal/db/dbwal.go:192-219 | Any number of interrupted recoveries followed by a complete one gives the table of one uninterrupted run. |
| DbWal.SettledKeeps | adapter/wal/db/dbwal.go:200-211 | What recovery aims at keeps every existing record, has every row, and adds only records that were logged. |
| DbWal.SettledFirst | adapter/wal/db/dbwal.go:200-211 | Of several logged rows for one free slot the first is the one saved. |
| DbWal.AnnouncementsRestoreNothing | audit.go:189-203 | The entries Version logs carry type and id only: recovering them restores no version, at most an empty record numbered 0 for each entity. |
| Pool.StepConserves | app/pool.go:79-145 | Every step keeps each item in at most one place and each PendingVersion completed by its worker or by its rejected caller. |
| Pool.StepLifecycle | app/pool.go:79-145 | Every step keeps: queue within capacity, closed only after stopped and with no Submit in progress, workers exit only from an empty closed channel, cancelled only after closed. |
| Pool.NewPoolMeans | app/pool.go:50-72 | A pool starts idle, with the number of workers and the room asked for, and at least one of each. |
| Pool.FirstInFirstOut | app/pool.go:79-145 | In every run items are started in the order in which they were accepted. |
| Pool.OneShutdownWins | app/pool.go:79-109 | In every run items are turned away only once the pool is stopped, and exactly one of the Shutdowns that got that far has stopped it; when that returns, drained or timed out, the context is cancelled. |
| Pool.LateSubmitRejected | app/pool.go:79-82 | Once the pool is stopped, no Submit that has not got past its check is ever accepted, whatever runs on. |
| Pool.ShutdownCanFinish | app/pool.go:106-130 | No deadlock: from wherever a run has got to, a Shutdown that has won and not returned can still return nil. |
| Pool.ExactlyOnce | app/pool.go:79-99 | In every run an accepted item is queued, running or done, in one place and once; a rejected one never is. |
| Pool.CompletedAtMostOnce | domain/types.go:252-256 | In every run a PendingVersion is completed at most once: by the worker of an accepted item or by the caller of a rejected one. |
| Pool.ShutdownDrains | app/pool.go:106-130 | When the winning Shutdown has returned nil every accepted item has run exactly once and is completed, and nothing is queued. |
| Pool.BlockedNeverGivesUp | app/pool.go:93-98 | The pool context is cancelled only after the channel is closed, so a blocked Submit never takes its ctx.Done branch. |
| Pool.SecondShutdownDoesNotWait | app/pool.go:107-109 | A run in which a Shutdown that is not the first returns nil while an accepted item is still queued. |
| BatchBuffer.Buffer.Enqueue | adapter/clickhouse/batch.go:81-83 | Accepts while the channel has room for 2 * BatchSize records and keeps the order. |
| BatchBuffer.Buffer.Send | adapter/clickhouse/batch.go:129-162 | The retry loop: attempts until the first success, at most MaxRetries + 1, gives up only when all were refused, and sleeps BaseBackoff doubled after each failure but the last. |
| BatchBuffer.FlushBounds | adapter/clickhouse/batch.go:136-161 | A flush sleeps at most (2^MaxRetries - 1) * BaseBackoff in all, and drops its batch exactly when every attempt is refused. |
| BatchBuffer.EffectiveMeans | adapter/clickhouse/batch.go:52-64 | Positive settings are taken as they are; the others become 1000 records, 5 s, 3 retries and 100 ms. |
| BatchBuffer.WaitsDouble | adapter/clickhouse/batch.go:140-158 | No wait before the first attempt, the base before the second, and then each wait is twice the one before. |
| BatchBuffer.Buffer.Receive | adapter/clickhouse/batch.go:106-117 | Takes one record and flushes at BatchSize; on a closed and drained channel flushes the rest and exits. Flushed batches, buffer and channel stay, in order, the records enqueued. |
| BatchBuffer.Buffer.Tick | adapter/clickhouse/batch.go:119-123 | A timer tick flushes a buffer that is not empty and conserves all records. |
| BatchBuffer.Buffer.Close | adapter/clickhouse/batch.go:87-92 | Leaves nothing buffered, however ticks fall in between: the flushed batches, in order, are the records enqueued; a second Close does nothing. |

## Left out

- RoundTrip.DiffThenApply: the half that says a change that is not conveyed never arrives asks that no change carries into a hidden field that changed (`Undisturbed`); `Losses.ArrivesByChance` shows that without it the statement is false. What such changes make of each other is not modelled further.
- RoundTrip.ExactMerge: has the same condition in the same half.
- Exactness.FieldFails: has the same condition.
- Exactness.HiddenKept: has the same condition.
- RoundTrip.CheckedIsConveyed: has the same condition.
- Runs.RunReconstructs: has the same condition in its last part, for the changes of one chain. It is about the whole record list; what a page limit does to the answer is `Histories.AnswerWithinPage`.
- RoundTrip.DeltaOrderFree: is about deltas whose paths locate every change; a path read back differently may meet another.
- DiffEngine.Engine.DiffField: a pointer to a pointer is compared by what it leads to in the end, where the code compares the inner pointers themselves, so that two clones always differ; values have no identity here.
- RoundTrip.EmptyDelta: differs from the code on pointers to pointers in the same way.
- Applying.ChangeOfField: is about fields reached through embedded structs; a field promoted through an embedded pointer is set through that pointer, and what a nil one does is in `Changes.ApplyAt` only.
- Applying.ChangeBehindField: has the same condition.
- Calls.StrategyOfCall: takes the highest version to be stored once, as the unique key has it; so do the other lemmas of `Calls` about the version before.
- Rewrites.CompactedExactly: is about records in the order of their versions, as `Compaction.CompactOwned` is.
- Compaction.CompactOwned: is about records in the order of their versions that carry their own identifier; on others Compact is the walk of `Compaction.StoreWalk` and no more is said.
- FileWal.ReadAfterCrash: says what else is read only for a next payload under 4 GiB; from there on its length wraps, and bytes inside it may be taken for frames.
- FileWal.Log.Ack: the sidecar is a sequence of characters, so a cut inside the bytes of one character is not modelled.
- DbWal.WAL.Recover: a failing acknowledgement is taken to leave the row in place, rows are ordered by insertion (ties in creation time are not modelled), and no entry is appended while recovery runs.
- Pool.ExactlyOnce: the channel is closed only while no Submit is in progress; a send on the closed channel, which panics, is not modelled.
- BatchBuffer.Buffer.Send: time is a number of milliseconds without an upper bound; the overflow of a Go duration at very many retries is not modelled.
- BatchBuffer.Buffer.Close: one caller at a time; a second concurrent caller waits for the first.
- applyChange: its cursor into addressable memory is modelled as a recursive function that rebuilds the value (`Changes.ApplyIn`, `Changes.ApplyMap`), since a cursor through nested maps and pointers has no counterpart on values; Apply sharing maps and pointers with its input is therefore not modelled.
- Reflection, struct tags as text, unexported fields, and the bytes of JSON and MsgPack: a value stands for its own JSON; decoding a new map entry into an interface type is taken to keep its dynamic type, and a null inside a map, on which the engine panics, is excluded.
- SHA-256, CRC32: an injective hash that is never empty, and an arbitrary 32-bit checksum.
- SQL, ClickHouse, S3 and GCS adapters: only their contract is used (unique key, not found, duplicate). Their column lists do not carry the delta, so the store modelled is the one that keeps it; the in-memory store itself does not enforce the unique key, the protocol's does.
- VersionInTx: its save counts as visible at once; commit and rollback of the surrounding transaction are not modelled.
- What a caller is told: a save that went through counts as saved whether or not its reply arrived, and acknowledging the log entry after a save is part of the log models only.
- Hooks, metadata and entity size limits, clone and serializer failures: one event that aborts a call.
- Loggers, telemetry, subscribers, health checks, tenants, tiering, storage routing: plumbing without state worth a proof.
- Retention and redaction: retention deletes would break histories without gaps, and redaction rewrites hashed data.
- Locks, goroutine scheduling, timers and liveness: interleavings and ticks are nondeterministic steps, and only safety is proved.
- Query methods of the auditor (Compare, FindChanges, GetAtTime and others): compositions of reads and Diff that would add only easy members.
