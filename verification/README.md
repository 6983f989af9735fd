# SpectonCR in Dafny

SpectonCR is an OCI container registry. This project models the parts of it that are
algorithms and state machines, and proves what they promise:

- the online garbage collector: reference counts, concurrent reapers and the reconciler
  (`GcTables`, `GcManifest`, `GcReaper`, `GcReconciler`, `GcRuns`, `GcStored`,
  `GcWitnesses`);
- the audit log: the keyed hash chain, the Merkle root, the JSON-lines export and the
  incremental checkpoints (`AuditEvents`, `AuditLog`, `Merkle`, `Hex`, `AuditExport`,
  `AuditNames`, `AuditCheckpoint`);
- promotion of an image from one repository to another, with a failure possible at every
  store call (`StoragePaths`, `Promotion`);
- the glob matcher, the signature envelope, the DER reader for RSA keys and the
  authentication challenge parser (`Glob`, `Dsse`, `Der`, `Challenge`);
- multipart uploads, the rebuild rate limiter and the admission decision cache
  (`Multipart`, `RateLimit`, `Admission`).

Code that updates state is modelled as methods and classes whose contracts tie the new
state to functions of the old one; the properties are then proved of those functions, over
all inputs and all runs. `dafny verify dfyconfig.toml` checks everything.

## How the outside world appears

- Database tables are sets, maps and sequences. A SQL transaction is one atomic step; a
  failed one leaves the tables as they were. The reconciler's query is one snapshot step,
  and its later statements are steps of their own.
- The object store is a map or a set of places. A place is the list of non-empty segments
  of a path, because the store drops empty segments. Any call may fail, and a failed
  write, copy or delete may or may not have taken effect; only a failed audit export
  write has none.
- Clocks, storage outcomes, operator pauses and lost updates are arbitrary values.
- A store or database with `reliable` set never fails; what must then succeed is part of the
  contracts.
- SHA-256, HMAC, signatures, base64, zstd, JSON and UTF-8 are function parameters.
  Freedom from collisions is assumed only where a lemma says so, and only over the inputs
  that were actually hashed.

## Where the code departs from what one might expect

The model follows the code in each case, and says exactly when the expectation holds.

- The reaper's comment says a failed storage delete does not stop the row deletion
  (crates/specton-gc/src/reaper.rs:274-277); the code returns an error and rolls back.
- The grace period is checked when rows are selected, not when a blob is reaped
  (`GcRuns.GraceHoldsExactly`, with the run `GcWitnesses.GraceIsNotRechecked`).
- A manifest may name a layer by `sha256:hash` or by `hash`. Both have the same object, so
  reaping one deletes the object of the other even while that one is referred to
  (`GcRuns.LiveBlobsStayExactly`, with the run `GcWitnesses.SharedObjectIsLost`). Where
  names may hold slashes, the two may even belong to different tenants
  (`GcReaper.ReapDeletesExactly`, with the run `GcWitnesses.SlashedTenantLosesObject`).
- Edges know the tenant and the manifest but not the repository, and a failed count is only
  logged. So deleting a manifest in one repository removes the edges of the same manifest
  in another, and a stored manifest may have no edges at all
  (`GcStored.ObjectIsSafeExactly`, with the runs `GcWitnesses.TwoRepositories` and
  `GcWitnesses.FailedCount`).
- An object uploaded while its blob waits to be reaped is deleted before the push that
  needs it (`GcRuns.UploadStaysExactly`, with the run `GcWitnesses.ReapLosesUpload`).
- The reconciler calls every remaining row clean, including a row whose count is below its
  number of edges, and the reaper may then reap that blob although it is referred to
  (`GcReconciler.ReconcileRepairs`, with the run `GcWitnesses.TooLowIsReaped`).
- A correction made from an old snapshot can set the count of a freshly pushed blob to zero
  (`GcReconciler.StaleCorrection`, with the run `GcWitnesses.StaleCorrectionZeroesLive`).
- The reference parser accepts a tag with a trailing slash, which names the same link as
  the tag without it (`StoragePaths.SlashedTagParses`, `Promotion.SlashedTagIsTheTag`).
- A promotion with signatures to the signature tag itself changes that tag before the image
  is complete (`Promotion.Promote`, with `Promotion.SignatureTagIsTouchedFirst`).
- The envelope encoding starts with `6 DSSEv1`, where the DSSE protocol has no leading
  number; no signature made over the protocol's encoding verifies
  (`Dsse.StandardSignaturesNeverVerify`).
- The rate limiter's cap can be passed after an undo has landed on the next day
  (`RateLimit.CapHoldsWhateverHappens`, with the run `RateLimit.StrayedUndoBreaksTheCap`).
- The key reader panics on lengths that overrun the input (`Der.PanicsExactly`, with the
  inputs `Der.CutShortIntegerPanics`, `Der.CutShortAlgorithmPanics` and
  `Der.WrappedIntegerPanics`).

## Model

| member | source | states |
|---|---|---|
| GcTables.Database.AddRefs | crates/specton-gc/src/refcount.rs:86-159 | the loop over the pushed blobs leaves the tables at the specified push, or untouched when the transaction fails; an empty list does nothing |
| GcTables.AddedExactly | crates/specton-gc/src/refcount.rs:100-155 | a push adds the edge and the path of every listed blob and nothing else; a blob is counted up once, taken off the zeroed list and given the larger size, and only if the manifest did not refer to it yet; every other row stays |
| GcTables.AddedConsistent | crates/specton-gc/src/refcount.rs:86-159 | a push keeps counts equal to edges, `zeroed_at` set exactly at zero, and a path for every edge |
| GcTables.PushTwiceIsPushOnce | crates/specton-gc/src/refcount.rs:115-134 | pushing the same manifest again changes no table at all |
| GcTables.Database.RemoveRefs | crates/specton-gc/src/refcount.rs:161-196 | counting down the deleted edges one by one, in any order, equals the specified delete; in consistent tables the positive-count guard skips nothing |
| GcTables.RemovedExactly | crates/specton-gc/src/refcount.rs:161-196 | a delete takes away the edges of the manifest and no other; each blob it referred to is counted down by one, keeps its size and is marked zeroed now when that was the last; every other row, the paths and the logs stay |
| GcTables.RemovedConsistent | crates/specton-gc/src/refcount.rs:161-196 | a delete keeps counts equal to edges, `zeroed_at` set exactly at zero, and a path for every edge |
| GcTables.GuardNeverSkips | crates/specton-gc/src/refcount.rs:176-191 | in consistent tables every edge has a row with a positive count |
| GcTables.DeleteUndoesPush | crates/specton-gc/src/refcount.rs:86-196 | deleting a freshly pushed manifest gives back the edges and every count |
| GcManifest.ExtractBlobDigests | crates/specton-gc/src/manifest.rs:69-102 | the result is the first descriptor of every non-empty digest of config, layers and child manifests, in order and without repetition; it fails exactly on an unreadable manifest |
| GcManifest.FirstOfEachUnique | crates/specton-gc/src/manifest.rs:69-102 | that description fixes the list completely |
| GcManifest.PushCountsManifest | crates/specton-gc/src/manifest.rs:55-102 | pushing a new manifest raises the count of exactly the non-empty digests its config, layers and child manifests have by one, however often each is mentioned, and never the subject's |
| GcReaper.ReapBlob | crates/specton-gc/src/reaper.rs:238-322 | a reap either removes row, paths and every object and logs itself, or skips a row that is not at zero, or fails with all bookkeeping unchanged and only objects of that blob deleted; with a reliable database and store it does not fail |
| GcReaper.ReapedExactly | crates/specton-gc/src/reaper.rs:303-318 | a successful reap drops the row and exactly the paths of that tenant and digest, adds one row with key and bytes to the log, and changes nothing else |
| GcReaper.ReapIsSafe | crates/specton-gc/src/reaper.rs:238-322 | in consistent tables a blob with a live edge is never reaped; a success leaves no path and no object for the blob; consistency is kept |
| GcReaper.ReapDeletesExactly | crates/specton-gc/src/reaper.rs:278-282 | whatever the names are, a reap deletes the object of a path exactly when some path recorded for the reaped blob has the same non-empty segments |
| GcReaper.NamedSharesExactly | crates/specton-gc/src/reaper.rs:278-282 | in repositories with non-empty slash-free names that is the case exactly when the reaped digest is recorded in the same repository and has the same hash, with or without the `sha256:` prefix |
| GcReaper.SlashedNamesShare | crates/specton-gc/src/reaper.rs:278-282 | repository `b/c` in project `a` of tenant `t` has the objects of `c` in `b` of `t/a`, for every digest |
| GcReaper.LiveObjectsSurvive | crates/specton-gc/src/reaper.rs:238-322 | a successful reap of another blob deletes the object of a blob that a manifest refers to if and only if the two share the object; a failed one can delete it only then; the path stays recorded |
| GcReaper.OneBlobSharesNothing | crates/specton-gc/src/reaper.rs:278-282 | where no two recorded paths of different blobs have the same segments, no two blobs share an object |
| GcReaper.DigestsAreOneBlob | crates/specton-gc/src/reaper.rs:278-282 | non-empty slash-free names and digests of the form `sha256:hash` give every object one blob |
| GcReaper.SelectBatch | crates/specton-gc/src/reaper.rs:170-190 | the batch holds unlocked rows at zero for longer than the grace period, each once, oldest first, and leaves none out unless the batch is full |
| GcReaper.ReapOneCycle | crates/specton-gc/src/reaper.rs:163-236 | undisturbed, a cycle tries the selected rows in order until the operator halts it; each is reaped or counts as an error, and none does when database and store are reliable; `blobs` and `bytes` are what was added to the reap log; reaped blobs leave no row, path or object; all other rows stay; a failed query changes nothing |
| GcReconciler.Reconcile | crates/specton-gc/src/reconciler.rs:71-165 | the row loop equals the specified walk over the snapshot; the new drift rows and the statistics are those of `GcReconciler.WalkPassRecords`; an error leaves a walked prefix, at most with one more drift record; a reliable database gives no error |
| GcReconciler.ReconcileRow | crates/specton-gc/src/reconciler.rs:118-154 | one row is classified, recorded and corrected as specified, or breaks off before or after the drift record |
| GcReconciler.TakeSnapshot | crates/specton-gc/src/reconciler.rs:84-112 | every known digest at most once, with its stored count and its number of edges; all of them when the limit allows |
| GcReconciler.WalkRecords | crates/specton-gc/src/reconciler.rs:118-187 | a pass changes only counts and drift rows; it writes one drift row per finding; `corrected` is their number when correcting and zero otherwise; a dry run changes no count |
| GcReconciler.WalkPassRecords | crates/specton-gc/src/reconciler.rs:114-187 | in terms of the tables: a key has a new drift row, and only one, if and only if its count differs from its edges and was not too low; the row says how many edges were expected and which count was observed, `missing` without a row, `orphan` with a row and no edge, `underflow` otherwise; each statistic is the number of drift rows of its kind |
| GcReconciler.BrokenPassRecords | crates/specton-gc/src/reconciler.rs:114-187 | a pass that broke off wrote only such drift rows, one per key, and left edges, paths and reap log alone |
| GcReconciler.WalkCorrects | crates/specton-gc/src/reconciler.rs:118-240 | a correcting pass over unchanged tables corrects exactly the rows it lists, also under a limit |
| GcReconciler.ReconcileExactly | crates/specton-gc/src/reconciler.rs:71-240 | a full correcting pass leaves every count at the smaller of stored count and edges, or at the edges where the row was absent, and keeps `zeroed_at` set exactly at zero |
| GcReconciler.SecondPassIsClean | crates/specton-gc/src/reconciler.rs:71-240 | a second pass finds no drift and writes nothing |
| GcReconciler.ReconcileRepairs | crates/specton-gc/src/reconciler.rs:118-154 | a full correcting pass makes all counts right if and only if no stored count was below its edges |
| GcReconciler.StaleCorrection | crates/specton-gc/src/reconciler.rs:189-240 | a correction from an old snapshot comes out right if and only if the blob has as many edges as it had then, or none when its row was there and is gone; other counts stay |
| GcReconciler.NoDriftNoWrite | crates/specton-gc/src/reconciler.rs:118-154 | rows seen without drift cause no write, whatever the tables hold by then |
| GcReconciler.ConsistentIsClean | crates/specton-gc/src/reconciler.rs:118-154 | consistent tables show no drift for any blob |
| GcRuns.EveryRunKeepsInv | crates/specton-gc/src/refcount.rs:86-196 | in every interleaving of pushes, deletes, uploads, reapers and reconcilers, every count equals the number of manifests with an edge, `zeroed_at` is set exactly at zero, every edge has a path, and the reapers' totals are those of the reap log |
| GcRuns.StartHolds | crates/specton-gc/src/refcount.rs:86-196 | empty tables with idle reapers and reconcilers satisfy that invariant, whatever the object store holds |
| GcRuns.StepKeepsInv | crates/specton-gc/src/refcount.rs:86-196 | every single step of every actor keeps that invariant |
| GcRuns.EveryReapIsSafe | crates/specton-gc/src/reaper.rs:163-322 | in every run from empty tables with any number of reapers: no live blob is reaped, a success leaves nothing behind, any other outcome leaves the tables unchanged, and totals summed over reapers equal the reap log |
| GcRuns.ReconcilersWriteNothing | crates/specton-gc/src/reconciler.rs:71-165 | in every run from empty tables reconcilers write nothing, although their snapshots may be out of date |
| GcRuns.EveryDeleteDecrements | crates/specton-gc/src/refcount.rs:161-196 | in every run from empty tables a delete lowers the count of each blob it lets go by one |
| GcRuns.LiveBlobsStay | crates/specton-gc/src/reaper.rs:163-322 | while a manifest keeps its edge to a blob, no interleaving without a reap of a blob sharing the object removes it from a recorded path, whatever the names are |
| GcRuns.LiveBlobsStayExactly | crates/specton-gc/src/reaper.rs:163-322 | through a whole run the object of a live blob stays if and only if no reap takes a blob sharing it |
| GcRuns.OneBlobKeepsLiveBlobs | crates/specton-gc/src/reaper.rs:163-322 | so it stays in every run in which no two blobs are recorded with the same object |
| GcRuns.UploadStaysExactly | crates/specton-gc/src/reaper.rs:163-322 | an uploaded object is there later if and only if no reap of a blob recorded at its path came in between |
| GcStored.EdgesFollowCalls | crates/specton-registry/src/main.rs:1212-1232 | in every interleaving of storing, counting, dropping and uncounting manifests with uploads, reapers and reconcilers, an edge is there if and only if the manifest lists the blob and its last count or uncount in any repository of the tenant was a count |
| GcStored.CanLoseExactly | crates/specton-gc/src/reaper.rs:163-322 | reapers left to themselves can delete a stored object if and only if some row at zero has it among its paths |
| GcStored.ObjectIsSafeExactly | crates/specton-registry/src/main.rs:1574-1582 | in every such history and whatever the names are, the object of a blob is safe from the reapers if and only if, for every blob recorded with that object, some manifest listing it was counted after it was last uncounted |
| GcStored.StoredBlobIsSafeExactly | crates/specton-registry/src/main.rs:1574-1582 | where no two blobs share an object, that is this one blob; that its repository stores a manifest listing it makes no difference |
| GcRuns.GraceHoldsExactly | crates/specton-gc/src/reaper.rs:170-262 | between selection and reap the grace period still holds if and only if no delete of the last referring manifest came in between |
| GcWitnesses.GraceIsNotRechecked | crates/specton-gc/src/reaper.rs:249-262 | a run from empty tables in which a blob is reaped although it went to zero only a moment before |
| GcWitnesses.SharedObjectIsLost | crates/specton-gc/src/reaper.rs:278-301 | a run from empty tables in which a reap deletes the object of a blob that a manifest refers to throughout |
| GcWitnesses.SlashedTenantLosesObject | crates/specton-gc/src/reaper.rs:278-301 | a run from empty tables in which a reap for tenant `t` deletes the object of a blob that a manifest of tenant `t/a` refers to throughout |
| GcWitnesses.TwoRepositories | crates/specton-registry/src/main.rs:1574-1582 | a manifest counted in two repositories and deleted in one leaves the other with a blob that reapers can delete |
| GcWitnesses.FailedCount | crates/specton-registry/src/main.rs:1212-1232 | a manifest stored without being counted has a blob that reapers can delete |
| GcWitnesses.ReapLosesUpload | crates/specton-gc/src/reaper.rs:238-322 | a run from empty tables that ends with an edge whose uploaded object is gone |
| GcWitnesses.TooLowIsReaped | crates/specton-gc/src/reconciler.rs:139-152 | a full correcting pass leaves a referred blob with count zero alone, and a reaper then reaps it |
| GcWitnesses.StaleCorrectionZeroesLive | crates/specton-gc/src/reconciler.rs:206-220 | a push between snapshot and correction ends with the pushed blob at count zero |
| Merkle.MerkleRoot | crates/specton-audit/src/merkle.rs:12-33 | the level-by-level loop ends and computes the root of the recursively defined tree |
| Merkle.SmallRoots | crates/specton-audit/src/merkle.rs:12-33 | the roots of lists of up to three leaves, written out: left before right, an odd last node paired with itself, the genesis value for none |
| Merkle.NextLevel | crates/specton-audit/src/merkle.rs:18-29 | the inner loop pairs off one level, an odd last node with itself |
| Merkle.RootOfParents | crates/specton-audit/src/merkle.rs:17-31 | one level of pairing keeps the root |
| Merkle.RootBinds | crates/specton-audit/src/merkle.rs:12-43 | lists of equal length with the same root are equal, unless the pair hash collides on inputs that were hashed |
| Merkle.OddListRepeatsLast | crates/specton-audit/src/merkle.rs:18-28 | an odd list of at least three leaves has the same root as the list with its last leaf repeated, so the count is needed to bind |
| AuditEvents.ParseCategory | crates/specton-audit/src/event.rs:41-56 | reads exactly the texts that categories print as |
| AuditEvents.CanonicalBinds | crates/specton-audit/src/hash.rs:14-33 | the canonical payload fixes the key id and the event up to the actor's role, and nothing more |
| AuditEvents.PayloadTellsEvent | crates/specton-audit/src/hash.rs:14-33 | time, category, action, actor, subject, outcome with error code, attributes and key id can each be read off the payload |
| AuditLog.InMemoryAudit.AppendEvent | crates/specton-audit/src/memory.rs:75-97 | a success adds one row after the others with the next id, the given event, its subject's tenant, the active key id, the last row hash as its link and the MAC of both as its hash; a failure means the MAC failed and changes nothing |
| AuditLog.RunStoresEvents | crates/specton-audit/src/memory.rs:75-97 | the rows of a run of appends and rotations carry exactly the appended events, in order, each with its tenant and the key id active at the time, if and only if every event could be hashed |
| AuditLog.InMemoryAudit.RegisterAndActivate | crates/specton-audit/src/memory.rs:44-54 | the id resolves to the new key; stored rows stay, and in a linked log so do the keys of all other ids and, unless a key is replaced, the links |
| AuditLog.InMemoryAudit.QueryRows | crates/specton-audit/src/memory.rs:99-137 | at most the asked-for number of rows, or 100; all of them stored and turned away by no given filter; a shorter page leaves out only rows that some filter turns away |
| AuditLog.PageIsNewestMatches | crates/specton-audit/src/memory.rs:99-137 | a page holds only matching rows, newest first, and leaves out a match only when it is full of newer ones |
| AuditLog.InMemoryAudit.Get | crates/specton-audit/src/memory.rs:139-147 | returns the first row with the id, or reports that there is none |
| AuditLog.InMemoryAudit.VerifyChain | crates/specton-audit/src/memory.rs:149-216 | a range is ok if and only if for every row the key id is known, the stored link is absent or equals the 32-byte hash of the row before it, and the MAC over that hash and the event under that key is the stored hash; otherwise the answer explains the first row that fails: the unknown key, or expected and stored link, or computed and stored hash |
| AuditLog.VerdictExactly | crates/specton-audit/src/memory.rs:168-215 | the same for any list of rows and any seed |
| AuditLog.InRangeExactly | crates/specton-audit/src/memory.rs:150-151 | a range holds every stored row with an id in it as often as it is stored, and no other |
| AuditLog.InRangeConcat | crates/specton-audit/src/memory.rs:150-151 | and in the order of storage |
| AuditLog.SeedExactly | crates/specton-audit/src/memory.rs:153-166 | a range starts on top of the last stored row with a smaller id; without one, on top of the link its first row stores when it does not start at 1, else on top of the genesis value |
| AuditLog.InMemoryAudit.Scan | crates/specton-audit/src/memory.rs:168-215 | the row loop stops at the first fault and reports it, or reports the whole range sound |
| AuditLog.InMemoryAudit.ChainStart | crates/specton-audit/src/memory.rs:153-166 | the range has to link to the latest earlier row, or to its own first link, or to the genesis value |
| AuditLog.AnswerUnique | crates/specton-audit/src/memory.rs:149-216 | the specification allows one answer only |
| AuditLog.FailureNamesLeastBrokenId | crates/specton-audit/src/memory.rs:149-216 | a failing verdict names the least id in the range whose row does not hold on top of the one before it, and how many rows before it were checked |
| AuditLog.EveryRunVerifies | crates/specton-audit/src/memory.rs:44-216 | after every run of appends and activations that does not replace a key, ids are 1 to n and every range verifies with `checked` equal to its number of rows |
| AuditLog.StepKeepsLinked | crates/specton-audit/src/memory.rs:44-97 | an append and a rotation that does not replace a key keep every row linked, hashed under its stored key and numbered without gaps |
| AuditLog.ActivationKeepsChainExactly | crates/specton-audit/src/memory.rs:44-70 | after activating any key under any id, the whole chain verifies if and only if the key gives every stored row of that id the same hash |
| AuditLog.ReplacingAKeyBreaksItsRows | crates/specton-audit/src/memory.rs:44-70 | provided the hash tells the two keys apart on the rows concerned, activating an existing key id with another key keeps the chain verifiable if and only if no row uses that id |
| AuditLog.ChainBinds | crates/specton-audit/src/memory.rs:149-216 | two fully verified logs of equal length with the same last hash agree on key id and canonical payload in every row, unless the MAC collides; of different lengths only if a row hash is the genesis value |
| Hex.RoundTrip | crates/specton-audit/src/export.rs:271-289 | hex text reads back as the bytes it was written from |
| Hex.EncodeIsLowerCase | crates/specton-audit/src/export.rs:143-150 | only digits and the letters a to f are written |
| AuditExport.EncodeJsonl | crates/specton-audit/src/export.rs:165-173 | writes every row's line in order, each ended by a newline |
| AuditExport.LineTellsRow | crates/specton-audit/src/export.rs:127-150 | every field of a row but the actor's role can be read off its line, both hashes through hex |
| AuditExport.SubjectReadsBack | crates/specton-audit/src/export.rs:127-150 | the subject's object reads back field by field, absent fields included |
| AuditExport.ComputeRootForRows | crates/specton-audit/src/export.rs:186-198 | the Merkle root of the row hashes, or an error at the first hash that is not 32 bytes |
| AuditExport.VerifyExportBytes | crates/specton-audit/src/export.rs:271-289 | the line loop computes the specified root or the first error |
| AuditExport.VerifyReadsWhatEncodeWrote | crates/specton-audit/src/export.rs:165-289 | checking an export gives the root of the exported rows exactly when there are rows and all hashes have 32 bytes; otherwise the error is named |
| AuditCheckpoint.ExportPending | crates/specton-audit/src/checkpoint.rs:146-171 | read, export and insert act as specified under failing destination writes and checkpoint inserts |
| AuditCheckpoint.ExportFailsExactly | crates/specton-audit/src/checkpoint.rs:146-171 | on a covered log an export fails if and only if nothing is pending, compression fails, the write fails or the insert fails, and says which |
| AuditCheckpoint.ExportAnswers | crates/specton-audit/src/checkpoint.rs:146-171 | otherwise the answer agrees with the one new checkpoint on range, number of rows, root, place and format |
| AuditCheckpoint.ExportsLeaveTheLog | crates/specton-audit/src/checkpoint.rs:146-171 | in every run the log is what its own appends and rotations made it |
| AuditCheckpoint.PrepareRange | crates/specton-audit/src/export.rs:224-268 | fetches the rows of the range in id order, skips missing ids, and prepares body, root and key |
| AuditCheckpoint.FetchRange | crates/specton-audit/src/export.rs:235-242 | on any log the id loop collects, in ascending id order, one stored row for each id of the range that is stored |
| AuditCheckpoint.FetchExactly | crates/specton-audit/src/export.rs:235-242 | namely the first row stored with that id |
| AuditCheckpoint.PreparePending | crates/specton-audit/src/checkpoint.rs:152-161 | what is exported next starts after the last checkpoint and ends at the tip |
| AuditCheckpoint.CommitPlan | crates/specton-audit/src/checkpoint.rs:161-170 | the object is written before the checkpoint, and a failed insert leaves only the object |
| AuditCheckpoint.PendingIsTheRest | crates/specton-audit/src/checkpoint.rs:146-171 | what is pending is exactly the rows after the last checkpoint |
| AuditCheckpoint.EveryRunIsCovered | crates/specton-audit/src/checkpoint.rs:135-171 | in every serial run of appends and exports with failures at will, row ids are 1 to n, checkpoint ranges are back to back from id 1, never pass the tip, hold every id up to the last checkpoint exactly once, and store the Merkle root of the rows with those ids |
| AuditCheckpoint.ExportChecksToItsRoot | crates/specton-audit/src/checkpoint.rs:146-171 | a successful uncompressed export stores bytes that check to the root in its checkpoint |
| AuditCheckpoint.EveryExportStillChecks | crates/specton-audit/src/checkpoint.rs:146-171 | at the end of every such run the object of every checkpoint, compressed or not and whenever it was made, still checks to its root: no later export overwrites it |
| AuditNames.KeysTellRangesApart | crates/specton-audit/src/export.rs:200-218 | two exports with the same object key have the same range and format, whenever they were made |
| AuditNames.KeyAsText | crates/specton-audit/src/export.rs:200-218 | a key written out: date, hour, both ends of the range, extension |
| AuditNames.NumbersAsText | crates/specton-audit/src/export.rs:200-218 | numbers are decimal without leading zeros, hours have two digits |
| AuditCheckpoint.RootAndCountFixTheLog | crates/specton-audit/src/export.rs:186-198 | two verified logs with the same number of rows and the same exported root agree in every row, up to collisions |
| StoragePaths.SameKindKeys | crates/specton-common/src/storage.rs:11-26 | in named repositories, two keys of one kind name the same object if and only if the repositories are equal and the names are equal up to empty segments |
| StoragePaths.KindsAreDisjoint | crates/specton-common/src/storage.rs:11-26 | in named repositories, blobs, manifests and tags never share an object |
| StoragePaths.KeyParts | crates/specton-common/src/storage.rs:11-26 | the object a key names, segment by segment, for any names at all |
| StoragePaths.PathsAsText | crates/specton-common/src/storage.rs:11-26 | the three kinds of paths written out, with or without the digest prefix |
| StoragePaths.EmptySegmentsCollide | crates/specton-common/src/storage.rs:11-26 | without non-empty segments a tag of one repository names a blob of another |
| StoragePaths.RefRoundTrip | crates/specton-registry/src/promote.rs:28-74 | a printed image reference parses back if and only if it is printable |
| StoragePaths.ReferencesAsText | crates/specton-registry/src/promote.rs:62-74 | a reference written out: a tag after a colon, a digest after an at sign |
| StoragePaths.SlashedTagParses | crates/specton-registry/src/promote.rs:28-60 | a tag with a trailing slash parses and names the same link as the tag without it |
| Promotion.CollectReferencedDigests | crates/specton-registry/src/promote.rs:119-139 | collects the digests of config, layers and child manifests in order |
| Promotion.ReferencedExactly | crates/specton-registry/src/promote.rs:119-139 | a digest is collected exactly when it is the text under `digest` of the config, of an element of `layers` or of an element of `manifests` |
| Promotion.CopyObject | crates/specton-registry/src/promote.rs:164-204 | every state it can leave is the old one or the old one with the missing destination key holding the source bytes; a success reports the stored size; with reliable stores it succeeds when the source has the object and names the error when neither side has |
| Promotion.ResolveDigest | crates/specton-registry/src/promote.rs:206-234 | a digest stands for itself and a tag for the trimmed text of its link; the manifest returned is the stored one; a reliable store gives each error exactly when tag or manifest is missing |
| Text.TrimExactly | crates/specton-registry/src/promote.rs:219 | trimming takes the white space off both ends of a text and nothing else |
| Promotion.CopyReference | crates/specton-registry/src/promote.rs:308-328 | the blob, or else the child manifest, ends up under the same digest in the destination; with reliable stores the copy fails exactly when the source has neither |
| Promotion.CopyReferences | crates/specton-registry/src/promote.rs:305-328 | a success has every reference in the source and in the destination and reports the bytes stored under the copied keys; with reliable stores a failure names the first missing reference |
| Promotion.CopyManifest | crates/specton-registry/src/promote.rs:330-340 | the manifest follows its references, and the bytes of all of them add up |
| Promotion.CopySignature | crates/specton-registry/src/promote.rs:342-382 | one signature is counted if and only if the source has a link at the signature tag and a manifest under the digest it names; then its blobs that the source has, the manifest and the link are in the destination and the bytes are those of exactly these; with reliable stores it succeeds |
| Promotion.CopySignatureBlobs | crates/specton-registry/src/promote.rs:357-367 | exactly the referenced blobs that the source has are in the destination, and the bytes are theirs |
| Promotion.SigTagText | crates/specton-registry/src/promote.rs:343-345 | the signature tag of `sha256:h`, and of `h`, is `sha256-h.sig` |
| Promotion.SignatureIsCopied | crates/specton-registry/src/promote.rs:342-382 | after a successful promotion with signatures of a digest whose signature the source stores: it is counted, its manifest and each of its blobs that the source has are there, and unless the destination is that tag, the signature tag names it |
| Promotion.NoSignatureIsCounted | crates/specton-registry/src/promote.rs:342-382 | not asked for, no link or no manifest: none is counted |
| Promotion.WriteTag | crates/specton-registry/src/promote.rs:384-394 | writes the tag over a complete image, or not at all for a destination named by digest; nothing else changes |
| Promotion.MakePlan | crates/specton-registry/src/promote.rs:246-266 | the plan holds the digest the reference names, the stored manifest and all its direct references; nothing is written; a reliable store gives each error exactly when the tag or manifest is missing or no JSON |
| Promotion.Promote | crates/specton-registry/src/promote.rs:246-421 | at every failure point all old blobs, manifests and other links, told apart by the object they name, are unchanged and everything new mirrors the source; unless signatures are copied to that very link, the destination link changes in the last write only, and then names a stored manifest with all direct references stored; a dry run or an unreadable source writes nothing; a success reports exactly what was copied, the signature included; with reliable stores it fails exactly when the source image is unreadable or a reference is missing, and says which |
| Promotion.Execute | crates/specton-registry/src/promote.rs:303-421 | the same for a given plan: the reported bytes are those of the references, the manifest and the signature with its blobs, the count is the number of references |
| Promotion.PromotedIsClosed | crates/specton-registry/src/promote.rs:246-421 | once the tag is written, its manifest is there and everything that manifest refers to directly |
| Promotion.OtherTagsStayClosed | crates/specton-registry/src/promote.rs:246-421 | every tag with another link whose image was complete stays complete in every state on the way |
| Promotion.SignatureTagIsTouchedFirst | crates/specton-registry/src/promote.rs:368-394 | when the destination names the link of the signature tag, the state after a signature is counted has the signature there; that is neither the old nor the promoted tag unless their texts coincide |
| Promotion.SlashedTagIsTheTag | crates/specton-registry/src/promote.rs:384-394 | a promotion to `tag/` rewrites the link of `tag` |
| Glob.GlobMatchInner | crates/specton-rebuild/src/subscription.rs:289-318 | the greedy leftmost matcher accepts exactly the strings of the declarative glob relation |
| Glob.LeftmostSuffices | crates/specton-rebuild/src/subscription.rs:289-318 | taking the leftmost occurrence of a middle part loses no match |
| Glob.GlobMatch | crates/specton-rebuild/src/subscription.rs:278-287 | for `prefix/*` it accepts exactly what the glob `prefix*` accepts, otherwise what the pattern itself accepts |
| Glob.GlobConcat | crates/specton-rebuild/src/subscription.rs:278-318 | a concatenated pattern matches exactly the concatenations of matches |
| Glob.Matches | crates/specton-rebuild/src/subscription.rs:322-336 | an enabled subscription matches exactly when both lists are empty or hold a matching entry |
| Dsse.DssePae | crates/specton-attest/src/verifier.rs:60-70 | writes the specified layout, leading number included |
| Dsse.DecodeInverts | crates/specton-attest/src/verifier.rs:60-70 | a decoder reads back payload type and payload of every encoding |
| Dsse.DecodeOnlyEncodings | crates/specton-attest/src/verifier.rs:60-70 | the decoder accepts nothing but encodings |
| Dsse.PaeInjective | crates/specton-attest/src/verifier.rs:60-70 | equal encodings have equal type and equal payload |
| Dsse.NeverStandard | crates/specton-attest/src/verifier.rs:56-70 | no encoding the code makes is an encoding of the DSSE protocol; it is that encoding with two bytes in front |
| Dsse.VerifyEnvelope | crates/specton-attest/src/verifier.rs:75-94 | verified, badly encoded and unverified, each if and only if: the first deciding signature is accepted, is not base64, or there is none |
| Dsse.AcceptedMeansSigned | crates/specton-attest/src/verifier.rs:60-94 | if verifiers accept only signed messages, an accepted envelope carries a signed type and payload |
| Dsse.StandardSignaturesNeverVerify | crates/specton-attest/src/verifier.rs:56-94 | if verifiers accept only signatures over the protocol's encodings, no signature of any envelope is accepted |
| Der.DerReadTagLength | crates/specton-auth/src/main.rs:1133-1155 | the reader with its 64-bit wrap-around is the specified one |
| Der.Pkcs1ReadsBack | crates/specton-auth/src/main.rs:1185-1216 | the DER sequence of two positive integers reads back as their minimal big-endian bytes |
| Der.SpkiReadsBack | crates/specton-auth/src/main.rs:1158-1182 | so does its SubjectPublicKeyInfo wrapping |
| Der.SpkiSkipsPkcs1 | crates/specton-auth/src/main.rs:1158-1182 | the SubjectPublicKeyInfo attempt rejects every PKCS#1 key |
| Der.RsaKeyRoundTrip | crates/specton-auth/src/main.rs:1106-1130 | both forms give the same minimal bytes, whose value is the number and whose first byte is not zero |
| Der.PanicsExactly | crates/specton-auth/src/main.rs:1158-1216 | the reader panics if and only if a claimed length overruns what follows in either form, wrap-around included |
| Der.CutShortIntegerPanics | crates/specton-auth/src/main.rs:1185-1216 | four bytes with an integer cut short after its head make the reader panic |
| Der.CutShortAlgorithmPanics | crates/specton-auth/src/main.rs:1158-1182 | so do four bytes with an algorithm cut short |
| Der.WrappedIntegerPanics | crates/specton-auth/src/main.rs:1133-1216 | and twelve bytes whose integer ends, after wrap-around, before it starts |
| Challenge.SplitOutsideQuotes | crates/specton-mirror/src/upstream.rs:93-132 | cuts at exactly the commas outside quotes |
| Challenge.ParseChallenge | crates/specton-mirror/src/upstream.rs:93-132 | the loop computes the specified parse |
| Challenge.ParseInvertsPrint | crates/specton-mirror/src/upstream.rs:93-132 | a printed parameter list, in any order and with unknown or repeated names, parses to its meaning; values quoted or not |
| Challenge.ChallengeRoundTrip | crates/specton-mirror/src/upstream.rs:93-132 | every challenge with a lower-case space-free scheme and quote-free values reads back from any order of its parameters |
| Multipart.SanitizedIsLeast | crates/specton-resilience/src/multipart.rs:75-86 | the part size is the least one that is as large as asked for, at least 5 MiB and keeps within 10,000 parts; the threshold is the larger of the asked-for one and the part size; concurrency is clamped to 1 to 16 |
| Multipart.CutParts | crates/specton-resilience/src/multipart.rs:105-120 | the cutting loop gives the specified parts and never overflows for payloads up to the largest slice |
| Multipart.UploadAll | crates/specton-resilience/src/multipart.rs:130-140 | whatever is uploaded is the right part under its number, and a success means all of them |
| Multipart.UploadIsLegal | crates/specton-resilience/src/multipart.rs:75-120 | the parts concatenate to the payload, number 2 to 10,000, and all but the last have at least 5 MiB |
| Multipart.PutChunked | crates/specton-resilience/src/multipart.rs:93-152 | success or failure, the object is exactly the payload or untouched, and after a success it is the payload; a reliable store gives success |
| RateLimit.Limiter.CheckAndIncrement | crates/specton-rebuild/src/rate_limit.rs:35-53 | counts one more and allows it exactly up to the cap; an overflowing count is an error and changes nothing |
| RateLimit.UndoRestores | crates/specton-rebuild/src/rate_limit.rs:35-75 | a decrement right after an increment gives every counter its old value |
| RateLimit.Limiter.Fire | crates/specton-rebuild/src/service.rs:54-119 | each result if and only if its condition; the count grows by one except for errors of the limiter and undone failures; other counters stay |
| RateLimit.AloneIsFire | crates/specton-rebuild/src/service.rs:54-119 | the steps of a call that nothing comes between change the counters and deliver exactly as one `fire` does |
| RateLimit.StepKeepsInv | crates/specton-rebuild/src/service.rs:54-119 | every step of every interleaving keeps the count at least sent plus in flight, up to strayed undos |
| RateLimit.EmissionsBounded | crates/specton-rebuild/src/service.rs:54-119 | over every run emissions never exceed the cap by more than the undos that hit another day |
| RateLimit.StrayedExactly | crates/specton-rebuild/src/rate_limit.rs:58-75 | what that bound allows for is the number of undos in the run that take back a count of another day |
| RateLimit.CapHoldsWithinTheDay | crates/specton-rebuild/src/rate_limit.rs:25-75 | runs within one day never exceed the cap, lost decrements and configuration errors included |
| RateLimit.NeverAbovePeak | crates/specton-rebuild/src/service.rs:54-119 | from any state, strays or not, emissions of the day never exceed the larger of the active calls and the cap plus held places minus the counter, as long as no further undo strays |
| RateLimit.PeakIsReached | crates/specton-rebuild/src/service.rs:54-119 | and some run of the day reaches exactly that number |
| RateLimit.CapHoldsExactly | crates/specton-rebuild/src/service.rs:54-119 | every continuation of the day respects the cap if and only if the active calls are within it and the counter covers all held places |
| RateLimit.NeverAboveFullPeak | crates/specton-rebuild/src/service.rs:54-119 | over every continuation, with undos of earlier days landing today, emissions of the day never exceed the larger of the active calls and the cap plus held places plus calls of earlier days still to be undone minus the counter |
| RateLimit.FullPeakIsReached | crates/specton-rebuild/src/service.rs:54-119 | and some continuation reaches exactly that number |
| RateLimit.CapHoldsWhateverHappens | crates/specton-rebuild/src/service.rs:54-119 | every continuation respects the cap if and only if the active calls are within it and the counter covers all held places and all calls of earlier days that may still be undone |
| RateLimit.StrayedUndoBreaksTheCap | crates/specton-rebuild/src/rate_limit.rs:58-75 | a run across midnight that emits twice under a cap of one |
| Admission.KindOfOne | crates/specton-registry/src/admission.rs:241-323 | one policy blocks, or allows, exactly under the stated conditions, with the reason and code that go with the first condition met |
| Admission.ScopeGlobIsGlob | crates/specton-registry/src/admission.rs:111-117 | for patterns with a star at most at the end, scope matching is the declarative glob |
| Admission.FoldIsFirstWorst | crates/specton-registry/src/admission.rs:231-239 | merging keeps the first of the worst verdicts |
| Admission.KindIsOrderFree | crates/specton-registry/src/admission.rs:193-239 | the kind is the maximum of Allow, Warn and Block, whatever the order of policies |
| Admission.CacheKeyInjective | crates/specton-registry/src/admission.rs:193-229 | different digests or policies never share a cache entry |
| Admission.StoringDropsOnlyExpired | crates/specton-registry/src/admission.rs:164-179 | storing leaves the new entry and every old one, except that a cache grown past its limit loses exactly the expired entries |
| Admission.Filter | crates/specton-registry/src/admission.rs:203-211 | exactly the listed policies that are enabled, of the tenant and whose scope holds the project and the repository, in order |
| Admission.KeptExactly | crates/specton-registry/src/admission.rs:92-118 | a policy is kept if and only if it is listed, enabled, of the tenant, lists no project, all or the request's, and lists no repository or an entry that is the request's or, ending in a star, a prefix of it |
| Admission.ScopeIsGlobs | crates/specton-registry/src/admission.rs:92-118 | for patterns with a star at most at the end, the last condition is that some entry matches as a glob |
| Admission.OutOfScopeIsSkipped | crates/specton-registry/src/admission.rs:203-211 | a policy out of scope changes nothing, wherever it is listed |
| Admission.ApplicableExactly | crates/specton-registry/src/admission.rs:203-211 | each enabled policy of the tenant whose scope matches is kept as often as listed, and no other |
| Admission.ApplicableConcat | crates/specton-registry/src/admission.rs:203-211 | filtering keeps the order of the policies |
| Admission.Evaluate | crates/specton-registry/src/admission.rs:193-229 | the loop folds the verdicts used, cached or computed, over exactly the policies in scope; with none in scope, or on bypass, the answer is allow and the cache stays |
| Admission.UseOne | crates/specton-registry/src/admission.rs:218-226 | one round uses the cached verdict and leaves the cache alone, or stores and uses a fresh one |
| Admission.CallIsTransparent | crates/specton-registry/src/admission.rs:193-229 | an undisturbed call on a cache that agrees with the inputs answers as a gate without a cache |
| Admission.OneRound | crates/specton-registry/src/admission.rs:216-227 | an undisturbed lookup, with a store on a miss, is one round of the evaluation loop |
| Admission.AloneIsTheLoop | crates/specton-registry/src/admission.rs:217-228 | a call that is left alone takes steps that give the verdict and the cache of the evaluation loop |
| Admission.CacheIsTransparent | crates/specton-registry/src/admission.rs:147-229 | with inputs fixed per digest and policy, every call of any interleaving of concurrent calls returns the cache-free fold, whatever clock, expiry and pruning do |
| Admission.StoredVerdictIsServed | crates/specton-registry/src/admission.rs:155-162 | after a verdict was stored on a miss of any cache, the answer for the same digest and policy is the fresh one if and only if the entry has expired, was pruned at once, or holds the same verdict |
| Admission.VerdictsAreAtMostOneTtlOld | crates/specton-registry/src/admission.rs:147-229 | in any interleaving, a verdict taken from the cache was computed and stored by some call for the same digest and policy less than one lifetime ago |
| Admission.RecordsAreStores | crates/specton-registry/src/admission.rs:164-179 | the records this speaks of are exactly the verdicts computed and stored by the run, in order |

## Left out

- HTTP handlers, routing, OIDC, Vault and SCIM clients, emitters, webhooks, the dashboard and the command-line tools: I/O.
- SQL text and isolation levels, sleeps and rate pacing: transactions are atomic, as the schema intends; statements of two transactions do not interleave, and a failed commit is taken to have had no effect.
- The Postgres audit sink and the Postgres stores: the same algorithms as the in-memory ones, behind a database.
- HMAC, SHA-256, Ed25519, RSA, base64, zstd, PEM and JSON internals: function parameters.
- Percent-encoding of path segments by the object store: it maps different segments to different ones.
- `last_seen_at`, `mark_drift_corrected` and the unimplemented backfill of the collector: not read by any decision.
- The order in which the reconciler's query returns rows: any order is allowed; the sort order of text depends on the database.
- 64-bit overflow of row ids, counts, byte totals and times: unbounded numbers, except in the DER reader, the multipart arithmetic and the rate limiter's counter.
- The filesystem and object-store export destinations; how a date is printed in an export key: any text is allowed there.
- The `promotions` table rows written before and after a promotion: their failures are ignored by the code.
- Recording of rebuild events and the choice of emitter in `fire`: only success or failure is kept.
- The scanner's rule evaluation, the circuit breaker, retries and replication: parameters or not part of this model.
- `group_matches` in the authentication service and the usage rollup: different algorithms that would need different statements.
- Lazy worker, expiry reaper, failover counter, import runner, token budget and custom-resource reconcilers: smaller step models.
- Artifact-type validators, provenance inference, lineage detection and status mapping: settled by reading one branch.
- GcReaper.ReapOneCycle: stated for a cycle nobody disturbs; cycles interleaved with everything else are the steps of `GcRuns`.
- Promotion.CopyReference: references are followed one level, as the code does; layers of an index's child manifests are not copied.
- Multipart.PutChunked: parts are uploaded in any order but not at the same time.
