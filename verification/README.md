# PackScout publication: a verified model

PackScout publishes a catalogue through Convex mutations over document tables. This project models the
mutations whose correctness is hardest to see by reading one of them, and proves what every sequence of
them keeps. Each mutation is serializable, so a run is a sequence of atomic steps over a store.

| part | modules | what it models |
|---|---|---|
| Retained estimates | `RetainedEvMerge`, `RetainedEvJournal`, `RetainedEvHistory`, `RetainedEvAnswers`, `RetainedEvStore` | the merge rule of the last known estimate, the before/after journal of each activation, rollback and repeated rollback, the one-time initialization |
| Release staging | `ReleaseStaging`, `ReleaseStagingProof`, `ReleaseAnswers`, `EvFactsBackfill`, `BackfillAnswers`, `ReleaseStore` | ordered batches, closed references, shard packing, top-chase accounting, finalize, and the resumable backfill of estimate facts |
| Catalogue manifest | `ManifestPublication`, `ManifestInvariants`, `ManifestAnswers`, `ManifestStore` | activate, refresh, roll back, clear and block as a compare-and-swap machine, interleaved with the deletions of both retention phases |
| Retention | `RetentionSelection`, `RetentionProtection`, `ProtectionAnswers`, `AuditPaging`, `AuditAnswers`, `ReferenceAudit`, `RetentionJournal`, `RetentionRequests`, `RequestAnswers`, `RetentionStore` | the bounded protection sets, the selection of one candidate, the paged edge audit, the bounded receipt journal, and whole retention requests that advance the audit by one page each while publication goes on |
| Pack snapshots | `OrderedKeys`, `PublicationSequence`, `PackSnapshot`, `PackHeads`, `PackAnswers`, `PackStore`, `PackLedger` | incremental checks against the whole-pack schema, fenced activation and recovery, the exact-replay ledger |
| Read model | `KeysetOrder`, `KeysetScan`, `KeysetTraversal`, `KeysetAnswers`, `DesiredCollectible`, `PackContents` | keyset pages over two index ranges, the in-memory page, the skip-scan, contents paging of a pinned snapshot |
| Closed beta | `BetaAccess`, `BetaAccessProof`, `BetaAllowlistProof`, `BetaAnswers`, `BetaStore` | sign-in, allowlist edits, operator decisions, welcome claims and settlements |

`Prelude`, `Lists` and `Runs` are shared. In each part one module defines the steps as functions on
values, others prove what those steps keep, and a class updates the tables in place, with the loops of
the source; its methods are proved to take exactly those steps. A module whose name ends in `Answers`
says what the steps mean to a caller: which requests are accepted, why each other one is refused, and
what an accepted one leaves, on the stored rows and without the checks and helpers of the steps.

## Reading the model

- An identifier is an integer: its rank in the canonical string order, which is the order of the
  indexes. A publication sequence is the number it writes; `PublicationSequence` proves that the string
  comparison is the numeric one. A timestamp is the number of milliseconds it denotes.
- A hash stands for the value that is hashed, and equality of canonical JSON is equality of values. A
  hash that only restates other checked fields is left out.
- Document ids and public ids name the same rows. A table is a map by its public id, or a list in the
  order of the index that the code reads it through; rows with equal index keys come in creation order.
- A refusal throws, and the transaction discards its writes. Where the code checks and writes row by
  row, the methods work on a copy and store it at the end.
- Times, the verdict of the provider eligibility and freshness policy, the external retention proof,
  and whether a request's digest and signature hold are inputs of a step.

## Where the code and its documentation differ

- The comment on `scanPackHeads` says `hasMore` is true only when a further match was observed. A scan
  that spends its budget reports more even when the last head was the last one:
  `KeysetScan.ScanOneHead` returns such a page, `HasMoreMeansAFurtherMatchIff` says exactly when the
  comment holds.
- `finalize` of a pack snapshot removes duplicate valuation identities; the whole-pack schema
  (`packages/contracts/src/pack-catalog-domain.ts:264-270`) forbids them. Sealed snapshots satisfy the
  schema exactly when the eligible identities are distinct: `PackSnapshot.CompleteIsWholeIffValuationsDistinct`;
  `PackHeads.SealedButNotWhole` starts, fills and seals a pack that shows the gap.
- A rollback of a retained-estimate activation is meant to restore the table of its target. It restores
  exactly the table that was stored then, unless the activation seeded: under a legacy pointer nothing
  was stored, and the rollback leaves the fold of the seed's facts instead.
  `RetainedEvHistory.RollbackRestoresWhatItsTargetLeft` states both cases, `RestoredIsStoredIff` says
  exactly when the restored table is the stored one, `SeededRollbackIsNotWhatWasStored` is a run where it
  is not.
- The rows of a retained-estimate journal are chosen by comparing with the stored table, not with the
  seeded one, so the rows of a seeding activation could lead back to another table than the seeded one.
  They do exactly if some kept value has a failure that the seed and the next release swap and restore:
  `RetainedEvHistory.SeededRowsRevertIff`. No reachable store meets that input, because an activation
  seeds only while the table is empty: `RetainedEvHistory.RunKeepsInv`, `SeedingMeetsAnEmptyTable`. The
  code therefore keeps its promise here; the lemma `SeedingOverKeptValuesLeavesAGap` only shows that the
  condition is needed.
- The comment on `updateEntry` says that repeating an update converges on full admission when the
  bounded scan cuts off matches. The scan takes the first hundred matches whatever their decision, so a
  repetition admits nobody: `BetaAllowlistProof.RerunAdmitsNobody`. `AdmissionIsCompleteIff` says exactly
  when a write and its repetitions admit everybody; `HundredAndFirstIsLeftWaiting` is a run of a hundred
  and one sign-ins of which the last is never admitted.
- The comment on `claimDueWelcomes` says that due identities are served oldest-armed first. The index
  orders due records by creation: `BetaAllowlistProof.OldestArmedFirstIff` says exactly which directories
  are served as the comment promises, `LaterArmedServedFirst` is a run of sign-ins and decisions after
  which the later-armed welcome is taken first.

## Model

| member | source | states |
|---|---|---|
| `RetainedEvMerge.ObserveLaws` | convex/dataReleaseV3RetainedEv.ts:107-134 | one observation keeps a value present, never moves the estimate's time back, keeps any failure strictly later than the estimate, and observing twice is observing once; for arbitrary times |
| `RetainedEvMerge.FoldReachesNormalForm` | convex/dataReleaseV3RetainedEv.ts:107-134 | from a kept value with distinct times, any history ends in the latest success, with the latest failure exactly if it is later |
| `RetainedEvMerge.NormalFormUnique` | convex/dataReleaseV3RetainedEv.ts:107-134 | the normal form is determined by the start and the multiset of observations |
| `RetainedEvMerge.MergeIsOrderFree` | convex/dataReleaseV3RetainedEv.ts:126-134 | any permutation of the observations gives the same value |
| `RetainedEvMerge.NullStartNormalForm` | convex/dataReleaseV3RetainedEv.ts:126-134 | from nothing kept, the result is the normal form exactly when no failure that came before the first success is later than everything the result knows |
| `RetainedEvMerge.OrderMattersWithoutAStartOrWithTies` | convex/dataReleaseV3RetainedEv.ts:107-134 | two histories that show why a kept start and distinct times are needed |
| `RetainedEvHistory.RevertCrossesTheBridge` | convex/dataReleaseV3RetainedEv.ts:224-237 | undo and redo over rows that bridge two tables are exact inverses, and every check on the way holds |
| `RetainedEvHistory.SeededRowsRevertIff` | convex/dataReleaseV3RetainedEv.ts:158-193 | the journal of a seeding activation leads back to the seeded table exactly if no kept value has a failure that the seed replaces at the same instant and the next release puts back |
| `RetainedEvHistory.SeedingMeetsAnEmptyTable` | convex/dataReleaseV3RetainedEv.ts:158-179 | in every reachable store where an activation would seed the table is empty, so that condition is met |
| `RetainedEvHistory.ActivationBridges` | convex/dataReleaseV3RetainedEv.ts:158-193 | without a seed, or from an empty table, the journal bridges the seeded and the final table |
| `RetainedEvHistory.TableIsTheFoldOfItsLineage` | convex/dataReleaseV3RetainedEv.ts:158-237 | after every run the retained table is the fold of the observations along the active release's lineage |
| `RetainedEvHistory.RollbackRestoresWhatItsTargetLeft` | convex/dataReleaseV3RetainedEv.ts:195-237 | after every run a rollback is refused only by its pointer checks, never by the journal, and restores the table stored while its target was last active; after a seeding activation, when nothing was stored, the fold of the seed's facts |
| `RetainedEvHistory.RestoredIsStoredIff` | convex/dataReleaseV3RetainedEv.ts:158-237 | the restored table is the stored one exactly if the last move of the pointer did not seed, or no fact it seeded from is an available estimate |
| `RetainedEvHistory.SeededRollbackIsNotWhatWasStored` | convex/dataReleaseV3RetainedEv.ts:158-237 | a legacy pointer, one activation and the rollback, after which the table holds an estimate it never held while the legacy release was active |
| `RetainedEvHistory.ActivationMeetsNoConflict` | convex/dataReleaseV3RetainedEv.ts:158-193 | after every run an activation's retained step succeeds exactly when the fact sets it reads are sealed; no stored value makes it fail |
| `RetainedEvHistory.ReadinessHolds` | convex/dataReleaseV3RetainedEvWitness.ts:60-73 | after every run the pointer loads, its rows are the recorded ones, and every stored value is what the journal says this direction left |
| `RetainedEvHistory.WitnessIsAFixedPoint` | convex/dataReleaseV3RetainedEvWitness.ts:89-92 | after every run, merging any fact of the active release into the table changes nothing, so the witness check never fires |
| `RetainedEvHistory.RetainedValuesHaveSources` | convex/dataReleaseV3RetainedEvWitness.ts:21-35 | after every run each retained value is backed by a sealed fact of the release it names, which is stored and complete, with its estimate and price |
| `RetainedEvStore.Store.ObserveLoaded` | convex/dataReleaseV3RetainedEv.ts:158-193 | the loop over a release's facts computes the fold on the loaded scopes |
| `RetainedEvStore.Store.LoadExisting` | convex/dataReleaseV3RetainedEv.ts:88-97 | loads the stored values of the scopes, refusing exactly when one is not sound |
| `RetainedEvStore.Store.CollectChanges` | convex/dataReleaseV3RetainedEv.ts:175-179 | lists exactly the scopes whose stored value differs from the final one |
| `RetainedEvStore.Store.ActivateRetained` | convex/dataReleaseV3RetainedEv.ts:158-193 | takes the journal's activation step on the tables, or refuses and changes nothing |
| `RetainedEvStore.Store.RevertChecked` | convex/dataReleaseV3RetainedEv.ts:224-237 | checking and writing row by row equals checking all rows and then writing all |
| `RetainedEvStore.Store.RollbackRetained` | convex/dataReleaseV3RetainedEv.ts:195-237 | takes the journal's rollback step, or refuses and changes nothing |
| `RetainedEvStore.Store.Activate` | convex/dataReleaseV3Lifecycle.ts:1184-1288 | the whole activation step with its guards in order |
| `RetainedEvStore.Store.Rollback` | convex/dataReleaseV3Lifecycle.ts:1290-1367 | the whole rollback step with its guards in order |
| `RetainedEvStore.Store.Initialize` | convex/dataReleaseV3EvFactsBackfill.ts:127-168 | the one-time initialization of a legacy pointer without a journal: its guards in order, the seed, the new pointer |
| `RetainedEvAnswers.ReleaseAnswers` | convex/dataReleaseV3Lifecycle.ts:1068-1182 | a release is completed once, and its fact set is sealed once, after that; nothing else of the store changes |
| `RetainedEvAnswers.ActivationIsRefused` | convex/dataReleaseV3Lifecycle.ts:1200-1235 | for every store: exactly which activations name no complete release, another fingerprint, another predecessor, or older data without the override, in that order |
| `RetainedEvAnswers.ActivationIsAccepted` | convex/dataReleaseV3Lifecycle.ts:1184-1288 | in a reachable store an activation is accepted exactly if it names a complete release by its fingerprint, expects the pointer as it is, finds its facts sealed, and is no regression without the override |
| `RetainedEvAnswers.ActivationIsChecked` | convex/dataReleaseV3RetainedEv.ts:158-193 | in any store, damaged or not, it also reads only sound stored values |
| `RetainedEvAnswers.NoActivationGoesBack` | convex/dataReleaseV3Lifecycle.ts:1227-1233 | an accepted activation without the override, over a stored active release, selects one whose data is no older |
| `RetainedEvAnswers.ActivationEffect` | convex/dataReleaseV3Lifecycle.ts:1236-1268 | the pointer moves to the requested release and keeps the displaced one, under the next generation; one more transition lists exactly the moved values it covers; only a seeding predecessor is marked |
| `RetainedEvAnswers.RollbackAnswers` | convex/dataReleaseV3Lifecycle.ts:1310-1340 | in a reachable store a rollback is accepted exactly if it expects the active release and targets the kept one, which is complete and current; which refusal it meets otherwise |
| `RetainedEvAnswers.JournalIsRead` | convex/dataReleaseV3RetainedEv.ts:195-237 | in any store the journal is read back exactly if the active state refers to the transition between the two releases, the rows are those it digests, and every value is still the one it left |
| `RetainedEvAnswers.RollbackIsChecked` | convex/dataReleaseV3Lifecycle.ts:1310-1340 | in any store a rollback also needs an intact journal |
| `RetainedEvAnswers.RollbackEffect` | convex/dataReleaseV3Lifecycle.ts:1341-1352 | the two releases change places under the next generation, and the journal is read the other way without a row rewritten |
| `RetainedEvAnswers.InitializeAnswers` | convex/dataReleaseV3EvFactsBackfill.ts:127-168 | in a reachable store a confirmed pointer row starts its journal exactly once and only reports it from then on; every other request is refused |
| `RetainedEvAnswers.RepeatIsChecked` | convex/dataReleaseV3EvFactsBackfill.ts:137-140 | in any store a repeated initialization is accepted exactly if both releases still have their facts and the journal is intact |
| `RetainedEvAnswers.StartIsChecked` | convex/dataReleaseV3EvFactsBackfill.ts:141-160 | in any store the first initialization is accepted exactly for a recorded activation of a release never cut over, with a stored predecessor, sealed facts and sound values |
| `RetainedEvAnswers.InitializeEffect` | convex/dataReleaseV3EvFactsBackfill.ts:159-167 | it moves neither pointer nor generation, records one transition, and marks both releases |
| `RetainedEvAnswers.PublicDataNeverGoesBack` | convex/dataReleaseV3Lifecycle.ts:1220-1233 | over any run without rollbacks and overrides the data time of the active release never falls |
| `ReleaseStagingProof.ApplyBatchKeepsStaged` | convex/dataReleaseV3Lifecycle.ts:871-1041 | every accepted batch keeps the order of all tables, the closed references, both tallies, the packing, the staged facts, and the running timestamp as the latest of the staged records', absent exactly without one |
| `ReleaseStagingProof.RunIsStaged` | convex/dataReleaseV3Lifecycle.ts:871-1041 | so does every sequence of accepted and refused batches |
| `ReleaseStagingProof.VerifiedNeverExceedsDeclared` | convex/dataReleaseV3Lifecycle.ts:772-776 | in every staging state verified top chases never exceed declared ones |
| `ReleaseStagingProof.TalliesAreSetSizes` | convex/dataReleaseV3Lifecycle.ts:669-777 | the two tallies count the repacks with a staged top-chase row and the repacks that advertise one; equal tallies mean equal sets |
| `ReleaseStagingProof.EveryDeclaredTopChaseIsStaged` | convex/dataReleaseV3Lifecycle.ts:1106-1116 | equal tallies leave exactly one matching chase row for every repack that advertises a top chase |
| `ReleaseStagingProof.FinalizedReleaseIsWhole` | convex/dataReleaseV3Lifecycle.ts:1068-1182 | a finalized release has its declared sizes in strict order, closed references, a sound category tree, exact top chases, packed shards and sealed facts, and no record later than its data time, which is not ahead of the clock |
| `ReleaseStagingProof.RowOfTheIthRepack` | convex/dataReleaseV3Lifecycle.ts:829-858 | the i-th repack is row i mod 32 of shard i div 32 |
| `ReleaseAnswers.BatchAnswers` | convex/dataReleaseV3Lifecycle.ts:903-960 | on the staged tables: exactly which batches are due, in order, within their count, closed, eligible and full, and which refusal the first fault meets |
| `ReleaseAnswers.BatchIsInserted` | convex/dataReleaseV3Lifecycle.ts:779-869 | an accepted batch is appended to its own table and to the chain, and no other table changes |
| `ReleaseAnswers.RepackBatchLeaves` | convex/dataReleaseV3Lifecycle.ts:829-858 | a repack batch adds one shard and one fact row for each of its repacks, in order, field by field, and moves the fact set on |
| `ReleaseAnswers.CompleteReleaseIsClosed` | convex/dataReleaseV3Lifecycle.ts:908-909 | a complete release takes no batch and no finalize |
| `ReleaseAnswers.FinalizeAnswers` | convex/dataReleaseV3Lifecycle.ts:1091-1158 | on the staged tables: finalize seals exactly a release whose sizes, top chases, batches and times agree with manifest and request, whose categories are rooted, which is not dated ahead, and whose facts are priced; which refusal it meets otherwise |
| `ReleaseAnswers.FinalizeSeals` | convex/dataReleaseV3Lifecycle.ts:1156-1162 | finalizing seals the staged facts and completes the release, and changes no row |
| `ReleaseAnswers.RunTakesTheDue` | convex/dataReleaseV3Lifecycle.ts:871-1041 | in every run a request that is due, in order and sound is taken into its table and the chain, and any other leaves the release as it is |
| `ReleaseAnswers.FactSetIsChecked` | convex/dataReleaseV3EvFacts.ts:69-83 | in any release a sound repack batch is refused exactly when its fact set is not in step with what was accepted |
| `ReleaseAnswers.FinalizeIsChecked` | convex/dataReleaseV3Lifecycle.ts:1091-1158 | in any release: the first fault of totals, categories, dates and facts that refuses finalize |
| `EvFactsBackfill.NextRowHolds` | convex/dataReleaseV3EvFactsBackfill.ts:81-107 | on a release completed by staging no row check of the backfill fires |
| `EvFactsBackfill.BackfillStep` | convex/dataReleaseV3EvFactsBackfill.ts:50-124 | a request either changes nothing or extends the stored facts by one page that takes at least one row unless none is left |
| `EvFactsBackfill.CurrentRequestAdvances` | convex/dataReleaseV3EvFactsBackfill.ts:50-124 | a request at the current cursor is accepted exactly unless its page ends a release that has an invalid fact |
| `EvFactsBackfill.RunStoresAPrefix` | convex/dataReleaseV3EvFactsBackfill.ts:50-124 | under any accepted, retried and refused requests the stored facts are a prefix of the release's facts in id order |
| `EvFactsBackfill.BackfillRefinesStaging` | convex/dataReleaseV3EvFacts.ts:69-101 | a backfill that completes leaves the facts and the digest that staging and finalize would have left |
| `EvFactsBackfill.FollowingCompletes` | convex/dataReleaseV3EvFactsBackfill.ts:50-124 | a client that follows the cursor completes the set within one request per remaining repack |
| `BackfillAnswers.CurrentRequestAnswers` | convex/dataReleaseV3EvFactsBackfill.ts:50-124 | the request at the cursor is accepted unless its page is the last one and some available estimate has no positive price; a refusal is always a state conflict |
| `BackfillAnswers.CurrentRequestLeaves` | convex/dataReleaseV3EvFactsBackfill.ts:50-124 | accepted, it stores the most rows a page may take, each fact field by field, seals the set exactly with the last page, leaves the rest of the release alone, and what it replies |
| `BackfillAnswers.OtherRequestAnswers` | convex/dataReleaseV3EvFactsBackfill.ts:61-70 | a sealed set and the last request are reported unchanged, any other cursor is refused |
| `BackfillAnswers.UnadmittedIsRefused` | convex/dataReleaseV3EvFactsBackfill.ts:17-37 | a request for another release, another pointer or an incomplete or oversized release is refused |
| `BackfillAnswers.PageTakesRows` | convex/dataReleaseV3EvFactsBackfill.ts:76-103 | a page takes the most rows within thirty-two and four mebibytes, the first always |
| `BackfillAnswers.PageIsChecked` | convex/dataReleaseV3EvFactsBackfill.ts:81-99 | in any store a page is read exactly if every row it takes agrees with its shard, ascends from the cursor, and has no fact yet |
| `BackfillAnswers.SealedSetIsChecked` | convex/dataReleaseV3EvFactsBackfill.ts:58-61 | in any store a sealed set is reported exactly if count, facts and digest still are what was sealed |
| `BackfillAnswers.OpenSetIsChecked` | convex/dataReleaseV3EvFactsBackfill.ts:62-67 | in any store a set that is still being staged is never backfilled, and of the requests behind the cursor only the last one is repeated |
| `BackfillAnswers.PageIsSettled` | convex/dataReleaseV3EvFactsBackfill.ts:104-123 | in any store a page that was read is stored exactly unless it is too long, empty before the end, or ends in an invalid fact |
| `ReleaseStore.Store.KeysAscend` | convex/dataReleaseV3Lifecycle.ts:925-931 | comparing neighbours decides strict order |
| `ReleaseStore.Store.ReferencesHold` | convex/dataReleaseV3Lifecycle.ts:669-777 | the loops decide the references of a batch and count its top chases |
| `ReleaseStore.Store.InsertRecords` | convex/dataReleaseV3Lifecycle.ts:779-869 | inserts the records, facts and shard of one batch, row by row |
| `ReleaseStore.Store.ApplyBatch` | convex/dataReleaseV3Lifecycle.ts:871-1041 | the whole batch step with its guards in order, or nothing |
| `ReleaseStore.Store.HierarchyHolds` | convex/dataReleaseV3Lifecycle.ts:1043-1066 | the loop decides that every parent exists one level up |
| `ReleaseStore.Store.Finalize` | convex/dataReleaseV3Lifecycle.ts:1068-1182 | the whole finalize step with its guards in order, or nothing |
| `ReleaseStore.Store.ReadPage` | convex/dataReleaseV3EvFactsBackfill.ts:69-111 | the page loop with its byte and row limits computes the page of the specification |
| `ReleaseStore.Store.BackfillFacts` | convex/dataReleaseV3EvFactsBackfill.ts:50-124 | the whole backfill step with its guards in order, or nothing |
| `ManifestInvariants.RunKeepsInv` | convex/catalogRetention.ts:121-382 | every interleaving of publication and retention steps keeps the store's invariant |
| `ManifestInvariants.PointersResolveAfterEveryRun` | convex/catalogManifestState.ts:225-303 | after every run both pointers resolve to stored complete manifests of their identity and creation time, with exactly their edges, and every edge has its manifest and a complete release |
| `ManifestInvariants.DeletableManifestIsUnreferenced` | convex/catalogRetentionGraph.ts:575-692 | a manifest retention may delete is neither pointer's, not externally protected, not named by Heat, and not young |
| `ManifestInvariants.OutgoingManifestIsNeverBlocked` | convex/catalogManifestRollback.ts:162-174 | after every run the active manifest is not blocked, so a rollback always keeps it as the previous one |
| `ManifestInvariants.GenerationCountsPointerOperations` | convex/catalogManifestState.ts:77-136 | the generation counts the stored pointer operations, and the state always matches its terminal receipt |
| `ManifestInvariants.ExactReplayReturnsTheReceipt` | convex/catalogManifestOperations.ts:88-135 | an exact repeat returns the stored receipt and changes nothing; other bytes under either identity are refused and change nothing |
| `ManifestInvariants.ReceiptsPersist` | convex/catalogManifestOperations.ts:161-190 | a stored receipt is kept by every later step |
| `ManifestInvariants.RefreshesNeverRegress` | convex/catalogManifestRefresh.ts:38-57 | however often the active manifest is refreshed, no provider's settled facts, head or observation time moves back |
| `ManifestAnswers.ReplayAnswers` | convex/catalogManifestOperations.ts:88-135 | on the receipts: exactly which requests are replayed, which conflict, and which are fresh |
| `ManifestAnswers.ActivationAnswers` | convex/catalogManifestActivate.ts:122-160 | in a reachable store a fresh activation is accepted exactly if it is canonical, expected, a change of references, unblocked, allowed, served and selectable; which refusal it meets otherwise |
| `ManifestAnswers.ActivationLeaves` | convex/catalogManifestActivate.ts:160-211 | over every store: the requested manifest is active, the one that was active is previous, by pointer and by id; a new manifest is stored complete with exactly its edges |
| `ManifestAnswers.RefreshAnswers` | convex/catalogManifestRefresh.ts:59-120 | in a reachable store a fresh refresh is accepted exactly if it names the active manifest, is served and allowed, and no selection moved back |
| `ManifestAnswers.RefreshLeaves` | convex/catalogManifestRefresh.ts:121-166 | a refresh replaces the observation under the next generation and nothing else |
| `ManifestAnswers.RollbackAnswers` | convex/catalogManifestRollback.ts:40-160 | in a reachable store a fresh rollback is accepted exactly if it targets a stored canonical manifest of that identity, unblocked, allowed and served |
| `ManifestAnswers.RollbackLeaves` | convex/catalogManifestRollback.ts:161-211 | the target is active and the outgoing manifest previous |
| `ManifestAnswers.ClearAnswers` | convex/catalogManifestRollback.ts:66-113 | a fresh clear is accepted exactly if something is active and the state is expected; it clears both pointers and the observation |
| `ManifestAnswers.BlockAnswers` | convex/catalogManifestBlock.ts:31-124 | a fresh block is accepted exactly if the fingerprint is not active, belongs to that id, and the sequence is later; it writes the block row and touches no pointer |
| `ManifestAnswers.ActivationIsChecked` | convex/catalogManifestActivate.ts:47-120 | in any store, damaged or not: the first fault of the state row, the active manifest, the stored manifest and its edges that declines an activation |
| `ManifestAnswers.RefreshIsChecked` | convex/catalogManifestRefresh.ts:59-120 | the same for a refresh |
| `ManifestAnswers.RollbackIsChecked` | convex/catalogManifestRollback.ts:40-160 | the same for a rollback |
| `ManifestAnswers.BlockedOutgoingIsDropped` | convex/catalogManifestRollback.ts:162-174 | in any store an outgoing manifest that is blocked is not kept as previous |
| `ManifestAnswers.ClearIsChecked` | convex/catalogManifestRollback.ts:56-66 | the same for a clear |
| `ManifestAnswers.BlockIsChecked` | convex/catalogManifestBlock.ts:51-90 | the same for a block |
| `ManifestAnswers.DisplacedManifestIsKept` | convex/catalogManifestActivate.ts:176-205 | in every run, from an activation until the pointers move again, the manifest it displaced is the previous one, stored with its edges, and no retention request may delete it |
| `ManifestAnswers.TwoActivationsKeepBoth` | convex/catalogManifestActivate.ts:160-211 | a run from an empty store: two activations are accepted, the second manifest is active and the first is kept as previous with its edges |
| `ManifestStore.Store.LoadReplay` | convex/catalogManifestOperations.ts:88-135 | answers nothing exactly if no stored receipt shares an identity with the request; an answer is that of the whole request, which then changes nothing; while identities are unique, the stored receipt whenever the request is the same |
| `ManifestStore.Store.InsertManifest` | convex/catalogManifestActivate.ts:69-120 | stores the manifest and exactly its edges, one by one |
| `ManifestStore.Store.ActivateManifest` | convex/catalogManifestActivate.ts:122-211 | the activation step with its guards in order |
| `ManifestStore.Store.Advances` | convex/catalogManifestRefresh.ts:38-57 | the loop decides that no selection moved back |
| `ManifestStore.Store.RefreshActiveState` | convex/catalogManifestRefresh.ts:59-166 | the refresh step with its guards in order |
| `ManifestStore.Store.RollbackManifest` | convex/catalogManifestRollback.ts:40-211 | the rollback step to a manifest |
| `ManifestStore.Store.ClearManifest` | convex/catalogManifestRollback.ts:40-211 | the rollback step that clears the pointer |
| `ManifestStore.Store.BlockManifest` | convex/catalogManifestBlock.ts:31-124 | the block step, which never touches the pointer |
| `ManifestStore.Store.DeleteWithEdges` | convex/catalogRetention.ts:161-188 | deletes a manifest and exactly its edges, one by one |
| `ManifestStore.Store.Retire` | convex/catalogRetention.ts:55-119 | fails or retires a release and deletes as many of its rows, which are only counted, as allowed, the release last; the publication row beside it is a verdict of the request |
| `RetentionSelection.ScanOfProtectedRowsIsComplete` | convex/catalogRetentionGraph.ts:694-738 | a scan of MAX+1 rows that meets only protected rows has read every row |
| `RetentionSelection.WindowFindsTheLeast` | convex/catalogRetentionGraph.ts:694-738 | reading MAX+1 rows is enough to find the least unprotected row |
| `RetentionSelection.SelectRemovable` | convex/catalogRetentionGraph.ts:694-738 | the selected manifest is the least removable one by (eligible time, id), and none means there is none anywhere |
| `RetentionSelection.CandidateLiesInTheScannedWindow` | convex/catalogRetention.ts:154-185 | whatever is selected lies in the oldest-first window scanned for Heat references |
| `RetentionSelection.SelectProvider` | convex/catalogRetentionGraph.ts:890-976 | the same for one platform's releases, retired ones first, refused when the choice is protected or referenced |
| `RetentionProtection.BuildManifestProtections` | convex/catalogRetentionGraph.ts:575-692 | the build keeps exactly the protection relation, or refuses an unresolved pointer or more than MAX entries |
| `RetentionProtection.AllowanceIsBounded` | convex/catalogRetentionGraph.ts:649-669 | the allowance adds at most three manifests, each complete, not yet eligible and not kept for an earlier reason |
| `RetentionProtection.AllowanceIsUsedUp` | convex/catalogRetentionGraph.ts:649-669 | when it adds fewer than there is room for, every manifest of its window is kept |
| `RetentionProtection.BuildProviderProtections` | convex/catalogRetentionGraph.ts:740-888 | the same build for one platform's releases |
| `RetentionProtection.SelectedManifestIsUnreferenced` | convex/catalogRetentionGraph.ts:575-738 | build and selection together never pick an active, previous, externally protected, Heat-named or young abandoned manifest |
| `RetentionProtection.SelectedReleaseIsUnreferenced` | convex/catalogRetentionGraph.ts:740-976 | build and selection together never pick a head, pending, protected, referenced or young abandoned release |
| `ProtectionAnswers.SelectionTakesTheOldest` | convex/catalogRetentionGraph.ts:694-738 | the selected manifest is the oldest by eligible time and id of those that may go: unprotected and complete, or abandoned and past their time |
| `ProtectionAnswers.ListingsAscend` | convex/catalogRetentionGraph.ts:700-725 | a listing has each id once, older rows first |
| `ProtectionAnswers.ProviderTakesRetiredFirst` | convex/catalogRetentionGraph.ts:890-976 | of one platform the oldest retired release, else the oldest that may go |
| `ProtectionAnswers.HeatIsLookedUp` | convex/catalogRetentionGraph.ts:623-658 | Heat references are looked up for exactly the 41 oldest rows of each lifecycle and the 41 youngest recent ones |
| `ProtectionAnswers.ManifestsAreKeptFor` | convex/catalogRetentionGraph.ts:575-692 | apart from the allowance a manifest is kept exactly for the reasons its rows, pointers, proof and Heat references give |
| `ProtectionAnswers.AllowanceKeepsTheYoungest` | convex/catalogRetentionGraph.ts:649-669 | a recent complete manifest that no reason keeps is older than every one the allowance keeps |
| `ProtectionAnswers.ReleasesAreKeptFor` | convex/catalogRetentionGraph.ts:740-888 | apart from the allowance a release is kept exactly for the reasons its edges, head, attempts and proof give |
| `ProtectionAnswers.ReleaseAllowanceKeepsTheYoungest` | convex/catalogRetentionGraph.ts:830-857 | the allowance of a platform adds at most three releases that no other reason keeps, none of them older than one left out |
| `ProtectionAnswers.ReleaseAllowanceIsUsedUp` | convex/catalogRetentionGraph.ts:830-857 | with room left every release of its window is kept |
| `ProtectionAnswers.PointersResolve` | convex/catalogRetentionGraph.ts:593-622 | a pointer resolves exactly if it names a listed complete row, or nothing |
| `AuditPaging.SettleRows` | convex/catalogManifestRetentionReferences.ts:172-226 | a page of manifests settles the next 32, or all that remain, exactly if each passes in strict order up to the lookahead row |
| `AuditPaging.SettleGroups` | convex/catalogManifestRetentionReferences.ts:226-286 | a page of edges settles the rows up to the last group that may go on, or to the end, exactly if each belongs |
| `AuditPaging.Page` | convex/catalogManifestRetentionReferences.ts:172-286 | from a record that stands for settled rows, an accepted page leaves one that stands for more of them; a refused one has found a fault |
| `AuditPaging.PassingPageGoesForward` | convex/catalogManifestRetentionReferences.ts:172-286 | over listings that pass no page is refused, whatever the record it starts from, and the next record lies strictly ahead |
| `AuditAnswers.ManifestPageAnswers` | convex/catalogManifestRetentionReferences.ts:181-222 | with more than thirty-two manifests left a page takes thirty-two, is refused exactly if one fails or repeats the next, and goes on at the last of them |
| `AuditAnswers.LastManifestPageAnswers` | convex/catalogManifestRetentionReferences.ts:181-226 | with no more than that it takes them all and begins with the edges |
| `AuditAnswers.EdgePageAnswers` | convex/catalogManifestRetentionReferences.ts:226-286 | of a full read the last group is left for the next page; the page is refused exactly if one group fills the read or a row fails |
| `AuditAnswers.LastEdgePageAnswers` | convex/catalogManifestRetentionReferences.ts:226-286 | a read that is not full takes every edge left and completes the audit |
| `AuditAnswers.ExactStoresPass` | convex/catalogManifestRetentionReferences.ts:60-170 | the audited property row by row: every id once, every manifest with one to eight proven references to distinct platforms and exactly their edges, and no edge of anything else |
| `ReferenceAudit.AuditPage` | convex/catalogManifestRetentionReferences.ts:172-286 | one page over any store settles more of it, or the store is not exact |
| `ReferenceAudit.Audit` | convex/catalogManifestRetentionReferences.ts:172-286 | page after page over one store terminates and completes exactly if its edges are the union of every manifest's expected edges |
| `ReferenceAudit.ListingIsExact` | convex/catalogManifestRetentionReferences.ts:60-170 | the index listings of every store that publication and retention keep sound are exact |
| `RetentionRequests.RunKeepsInv` | convex/catalogRetention.ts:121-382 | over every interleaving of publication steps and retention requests the store stays sound, the receipts stay in order and unique, and the retention-state row loads |
| `RetentionRequests.NoPageIsRefused` | convex/catalogRetentionState.ts:43-81 | after every run an audit page under any proof snapshot is accepted, although publications and deletions came between the pages |
| `RetentionRequests.AuditCompletes` | convex/catalogRetentionState.ts:43-81 | whatever publications come between, the audit of one proof snapshot is complete once twice as many of its requests were accepted as manifests were stored meanwhile, and three more |
| `RetentionRequests.PhaseWasCleared` | convex/catalogRetention.ts:189-203 | a manifest phase marked complete was cleared, at a complete audit, by a request of the same proof snapshot that left no removable manifest |
| `RetentionRequests.ReleasesWaitForManifests` | convex/catalogRetention.ts:244-302 | every accepted provider request leaves the audit and the manifest phase of its own snapshot complete, and follows or makes a check that no manifest is removable |
| `RetentionRequests.RowsLeftAreListed` | convex/catalogRetention.ts:315-340 | the rows of the second selection are exactly the release index of the store that the retirement leaves |
| `RetentionRequests.SecondSelectionRefusesIff` | convex/catalogRetention.ts:335-340 | the second selection refuses a request exactly if it finds a retired release that is still protected, or a complete one whose completion record does not hold; never for a reference |
| `RequestAnswers.JournalAnswers` | convex/catalogRetentionOperations.ts:80-127 | on the receipts: exactly which retention requests are replayed, conflict, come under another generation, or execute |
| `RequestAnswers.ExecutionPrunes` | convex/catalogRetentionOperations.ts:151-239 | an executed request deletes the oldest receipts, all that expired or overflow but at most ten, stores its own under the next generation, and says whether more could go |
| `RequestAnswers.AuditGoesOn` | convex/catalogRetentionState.ts:43-81 | a complete audit of the snapshot is kept with its manifest phase; otherwise one page follows, from the top under another digest |
| `RequestAnswers.ManifestRequestAnswers` | convex/catalogRetention.ts:121-188 | in a reachable store a manifest request is accepted exactly if it executes, its proof holds, at most forty manifests are kept, and it takes nothing before the audit is complete and then the oldest that may go, within its budget |
| `RequestAnswers.ReleaseRequestAnswers` | convex/catalogRetention.ts:243-340 | in a reachable store a provider request is accepted exactly if it executes, the audit is complete, no manifest may go, few releases are kept, its choice is unneeded and its second selection finds no fault |
| `RequestAnswers.RowsAfterAreLeft` | convex/catalogRetention.ts:315-340 | which rows the second selection reads, one by one |
| `RequestAnswers.ReleasesAreKept` | convex/catalogRetentionGraph.ts:740-888 | a request keeps exactly the releases that its head, attempts, edges, active manifest, proof or allowance give a reason for |
| `RequestAnswers.ManifestRequestDeletes` | convex/catalogRetention.ts:161-188 | it deletes exactly that manifest with its edges |
| `RequestAnswers.ManifestRequestLeaves` | convex/catalogRetention.ts:189-241 | it records its receipt, and settles the manifest phase exactly if the audit is complete and nothing else may go |
| `RequestAnswers.ReleaseRequestEnds` | convex/catalogRetention.ts:55-119 | it deletes the chosen release if its rows fit the budget, else retires or fails it and deletes as many; nothing else moves |
| `RequestAnswers.ReleaseRequestLeaves` | convex/catalogRetention.ts:341-382 | it records its receipt and settles the manifest phase of its snapshot |
| `RetentionStore.Store.AdvanceAudit` | convex/catalogRetentionState.ts:43-81 | one page on from the stored record, or from the top under another proof snapshot |
| `RetentionStore.Store.BuildGraph` | convex/catalogRetentionGraph.ts:1025-1065 | the manifest protections of a request, refused exactly if the proof does not hold or too many are protected |
| `RetentionStore.Store.DecideManifests` | convex/catalogRetention.ts:121-203 | accepts a manifest request exactly if its step is possible, with the manifest it deletes and whether another is removable |
| `RetentionStore.Store.DecideReleases` | convex/catalogRetention.ts:244-340 | accepts a provider request exactly if its step, with both selections, is possible, with the release it retires |
| `RetentionStore.Store.BuildReleaseGraph` | convex/catalogRetentionGraph.ts:740-888 | the release protections of a request, refused exactly if there are too many references or protections or the head does not resolve |
| `RetentionStore.Store.ChooseRelease` | convex/catalogRetentionGraph.ts:890-976 | selects the release that the protections and the retirement checks allow, or none fits |
| `RetentionStore.Store.SelectAgain` | convex/catalogRetention.ts:335-340 | decides whether the selection over the rows left passes its checks |
| `RetentionStore.Store.RetainManifests` | convex/catalogRetention.ts:121-241 | takes exactly the manifest request's step, or none is possible and nothing changes |
| `RetentionStore.Store.RetainReleases` | convex/catalogRetention.ts:244-382 | takes exactly the provider request's step, or none is possible and nothing changes |
| `RetentionJournal.JournalIsBounded` | convex/catalogRetentionOperations.ts:151-208 | a run that starts within the maximum stays within it at every step |
| `RetentionJournal.OverlongJournalShrinks` | convex/catalogRetentionOperations.ts:151-208 | a longer journal shrinks with every executed request until it fits |
| `RetentionJournal.ExactReplayReturnsTheReceipt` | convex/catalogRetentionOperations.ts:80-127 | while its receipt is kept an exact repeat returns it and changes nothing |
| `RetentionJournal.NoRequestExecutesTwice` | convex/catalogRetentionState.ts:83-117 | two executed requests name strictly increasing generations, so none executes twice even after pruning |
| `RetentionJournal.Journal.Select` | convex/catalogRetentionOperations.ts:151-190 | the two scans select min(page, max(expired, overflow)) rows |
| `RetentionJournal.Journal.Prune` | convex/catalogRetentionOperations.ts:151-208 | deletes exactly that oldest-first prefix and says whether more remains |
| `RetentionJournal.Journal.Admit` | convex/catalogRetentionOperations.ts:80-127 | answers a request from the journal or the generation fence exactly if it would not execute |
| `RetentionJournal.Journal.Record` | convex/catalogRetentionOperations.ts:151-239 | prunes, advances the generation and stores the receipt of an admitted request: the rest of its step |
| `OrderedKeys.SmallestByRank` | convex/packSnapshotStore.ts:205-276 | the n smallest are the elements with fewer than n smaller ones |
| `OrderedKeys.SmallestAlongTheWay` | convex/packSnapshotStore.ts:205-276 | cutting the running category list at every batch never changes the n smallest overall |
| `PublicationSequence.CompareIsNumeric` | convex/packCatalogStoreSupport.ts:27-29 | length first, then text, is numeric order on canonical digit strings |
| `PackSnapshot.ApplyBatchKeepsStaged` | convex/packSnapshotStore.ts:183-278 | every batch keeps the running totals in step with the concatenated contents |
| `PackSnapshot.RunningTopChaseIsTheMaximum` | convex/packSnapshotStore.ts:205-276 | the running top chase is the greatest contender over all contents, ties to the smallest id |
| `PackSnapshot.FinalizeReadsTheContents` | convex/packSnapshotStore.ts:295-328 | what finalize reads from root and dependency rows, in terms of the contents |
| `PackSnapshot.FinalizeChecksTheWhole` | convex/packSnapshotStore.ts:295-328 | finalize seals exactly when the contents as a whole satisfy what it checks batch by batch |
| `PackSnapshot.CompleteIsWholeIffValuationsDistinct` | convex/packSnapshotStore.ts:308-317 | a sealed snapshot satisfies the whole-pack schema exactly if no two eligible contents share a valuation identity |
| `PackHeads.ActiveSnapshotIsWhole` | convex/packSnapshotStore.ts:332-403 | after every run a head shows a complete snapshot of its own pack that differs from the previous one, and memberships list its contents |
| `PackHeads.SealedButNotWhole` | convex/packSnapshotStore.ts:308-317 | a run that starts, fills and seals a two-record pack that the whole-pack schema forbids |
| `PackHeads.FirstActivationProofIsSealed` | convex/packSnapshotStore.ts:109-117 | after every run the first-activation proof of a complete snapshot fails only for a staging under a head or a moved provider head |
| `PackHeads.NextIsMonotone` | convex/packHeadRecovery.ts:72-135 | one step moves generation, epoch and accepted sequence only forward, and says by how much |
| `PackHeads.RunIsMonotone` | convex/packHeadRecovery.ts:72-135 | so does every run |
| `PackHeads.PreHoldActivationNeverApplies` | convex/packHeadRecovery.ts:72-90 | an activation prepared before a hold is refused after it for ever |
| `PackHeads.ReturnNeedsALaterSequence` | convex/packHeadRecovery.ts:91-121 | a displaced snapshot returns through activation only under a strictly later declared sequence |
| `PackAnswers.NewSnapshotIsStaged` | convex/packSnapshotStore.ts:119-181 | a new snapshot is staged exactly if its summary holds and its pack has a head or a proven provider; every field of the fresh root |
| `PackAnswers.StoredSnapshotIsRedeclared` | convex/packSnapshotStore.ts:119-181 | a stored snapshot takes exactly a later declaration of the same bytes |
| `PackAnswers.ForeignBatchIsRefused` | convex/packSnapshotStore.ts:183-204 | a batch for no snapshot of its pack is refused |
| `PackAnswers.DueBatchAnswers` | convex/packSnapshotStore.ts:205-250 | the due batch is staged exactly if it continues the contents, fits the total and has current profiles; which refusal it meets otherwise |
| `PackAnswers.OtherBatchAnswers` | convex/packSnapshotStore.ts:190-204 | any other batch is only compared with what is stored |
| `PackAnswers.StagedBatchIsStored` | convex/packSnapshotStore.ts:250-278 | a staged batch is stored behind the others with exactly its memberships, and nothing else changes |
| `PackAnswers.SealAnswers` | convex/packSnapshotStore.ts:280-294 | which seal requests name the declared pack and content, and what a sealed or blocked snapshot answers |
| `PackAnswers.SealingEndsStaging` | convex/packSnapshotStore.ts:295-330 | a staging snapshot waits, completes, or is blocked for the total or the whole |
| `PackAnswers.SealingReadsTheWhole` | convex/packSnapshotStore.ts:295-328 | after every run sealing completes a snapshot exactly if sizes, order, probabilities, currency, top chase, categories, profiles and valuations of its contents are those declared, stated record by record |
| `PackAnswers.BlockAnswers` | convex/packSnapshotStore.ts:430-449 | a snapshot is blocked exactly unless its pack shows it or it is blocked already |
| `PackAnswers.ActivationReadsTheSnapshot` | convex/packSnapshotStore.ts:340-372 | an activation of a snapshot that is not complete, not the declared one, expired or out of date is refused, each for its own reason |
| `PackAnswers.FirstActivationAnswers` | convex/packSnapshotStore.ts:373-403 | the first activation applies exactly if it expects no head and the snapshot was proven; the head it leaves |
| `PackAnswers.LaterActivationAnswers` | convex/packSnapshotStore.ts:373-403 | over a head: refused exactly while it is held; otherwise a conflict, a repeated declaration or a switch, exactly when |
| `PackAnswers.SwitchIsRecorded` | convex/packSnapshotStore.ts:385-403 | what a switch leaves: the head one generation on, and the two snapshots marked |
| `PackAnswers.HoldAnswers` | convex/packHeadRecovery.ts:72-90 | a hold is applied exactly on the expected free head, and raises its epoch |
| `PackAnswers.ResumeAnswers` | convex/packHeadRecovery.ts:122-135 | a resume is applied exactly on the expected held head, and only ends the hold |
| `PackAnswers.RetainedAnswers` | convex/packHeadRecovery.ts:91-121 | under a hold the retained snapshot returns exactly if it is the previous one, stored and complete |
| `PackAnswers.RetainedIsRecorded` | convex/packHeadRecovery.ts:91-121 | what its return leaves |
| `PackAnswers.HeldHeadIsNotActivated` | convex/packSnapshotStore.ts:374 | an activation of a held pack leaves the store as it is, whatever it expects |
| `PackAnswers.HeldHeadMoves` | convex/packHeadRecovery.ts:72-135 | in one step only a resume of that pack ends its hold, and only a retained activation switches it |
| `PackAnswers.HoldLastsUntilResumed` | convex/packHeadRecovery.ts:72-135 | so over every run: a hold lasts until the pack is resumed, and without a retained activation it shows the same snapshot |
| `PackStore.Store.Start` | convex/packSnapshotStore.ts:119-181 | the start step |
| `PackStore.Store.RunningTopChase` | convex/packSnapshotStore.ts:205-276 | the loop over one batch computes the running top chase |
| `PackStore.Store.ApplyBatch` | convex/packSnapshotStore.ts:183-278 | the batch step with its guards in order |
| `PackStore.Store.Seal` | convex/packSnapshotStore.ts:280-330 | the finalize step |
| `PackStore.Store.Activate` | convex/packSnapshotStore.ts:332-403 | the activation step, which replaces the head and re-marks two snapshots |
| `PackStore.Store.BlockSnapshot` | convex/packSnapshotStore.ts:430-449 | the block step |
| `PackStore.Store.Hold` | convex/packHeadRecovery.ts:72-90 | the hold step |
| `PackStore.Store.ActivateRetained` | convex/packHeadRecovery.ts:91-121 | the retained activation step |
| `PackStore.Store.Resume` | convex/packHeadRecovery.ts:122-135 | the resume step |
| `PackLedger.RunKeepsUnique` | convex/packCatalogOperationStore.ts:97-190 | after every run no two rows share an operation id or an idempotency key |
| `PackLedger.StoredRowAnswersForGood` | convex/packCatalogOperationStore.ts:97-167 | after every run, what a stored row answers to the same, an expired, an altered and a foreign request under its operation id, and to one that reuses only its idempotency key; none of them executes |
| `PackLedger.HandlersRunOnce` | convex/packCatalogOperationStore.ts:97-190 | over every run two executed operations share neither identity |
| `PackLedger.Ledger.Handle` | convex/packCatalogOperationStore.ts:97-190 | answers from the ledger or stores what the handler produced |
| `KeysetScan.SegmentsAreTheRest` | convex/packCatalogReadModel.ts:170-189 | the tie range followed by the key range is exactly the list strictly after the cursor |
| `KeysetScan.ScanPackHeads` | convex/packCatalogReadModel.ts:155-206 | one scan returns the page of the list after the cursor for any filter, page size and budget |
| `KeysetScan.HasMoreExactly` | convex/packCatalogReadModel.ts:150-206 | a page says there is more exactly when a further match was read or the budget ran out |
| `KeysetScan.HasMoreMeansAFurtherMatchIff` | convex/packCatalogReadModel.ts:150-206 | the documented meaning, a further match was read, holds exactly if the budget outlasts the list or reaches one match more than the page holds |
| `KeysetScan.ScanOneHead` | convex/packCatalogReadModel.ts:150-206 | a scan of a one-head index with a page of one and a budget of one returns that head and says there is more, and there is none |
| `KeysetTraversal.PageIsAnInterval` | convex/packCatalogReadModel.ts:155-206 | a page lists exactly the matches between its own cursor and the next one, and the next lies strictly ahead |
| `KeysetTraversal.PageAdvances` | convex/packCatalogReadModel.ts:155-206 | every page moves the settled prefix of the list forward, or ends it |
| `KeysetTraversal.Traverse` | convex/packCatalogReadModel.ts:155-206 | following the cursor terminates and lists exactly the filtered list, in order |
| `KeysetTraversal.StableHeadListedOnce` | convex/packCatalogReadModel.ts:155-206 | however the index changes between requests, a matching head that keeps its place is listed exactly once |
| `KeysetAnswers.ListsAreSorted` | convex/packCatalogReadModel.ts:155-189 | a list is ordered exactly if each head comes before every later one by its sort field, then by id, both reversed when descending |
| `KeysetAnswers.ListIsTheIndex` | convex/packCatalogReadModel.ts:170-189 | an index is read as it is, or from its end |
| `KeysetAnswers.RestComesAfter` | convex/packCatalogReadModel.ts:170-189 | after a cursor exactly the heads that come after it by field and id are left, in order |
| `KeysetAnswers.PageIsCut` | convex/packCatalogReadModel.ts:155-206 | a page lists every match up to where it is cut: before the match that no longer fits, at the budget, or at the end; and where it resumes |
| `DesiredCollectible.CollectCandidates` | convex/packCatalogV1.ts:366-398 | the skip-scan over any membership and head rows collects exactly the packs with a row of their active snapshot, and fails closed exactly above its limit |
| `DesiredCollectible.MembershipIsContents` | convex/packSnapshotStore.ts:258-262 | after every run a membership row of a head's active snapshot is there exactly if that snapshot's contents have the collectible |
| `DesiredCollectible.FindDesired` | convex/packCatalogV1.ts:366-398 | after every run the lookup collects exactly the packs whose active snapshot has the collectible, once each in id order |
| `DesiredCollectible.CandidatePageIsAnUnlimitedScan` | convex/packCatalogV1.ts:123-141 | the in-memory page has the items, continuation and cursor of an index scan with unlimited budget |
| `PackContents.ReadContents` | convex/packCatalogV1.ts:239-269 | the batch walk returns exactly the requested slice of the concatenated batches |
| `PackContents.ReachableStoreServes` | convex/packCatalogV1.ts:239-269 | in every reachable store no batch row of a complete snapshot is missing or altered |
| `PackContents.GetPublicPack` | convex/packCatalogV1.ts:208-300 | a page of a pinned snapshot, its next cursor, and every error outcome |
| `PackContents.CompleteIsImmutable` | convex/packSnapshotStore.ts:183-449 | no operation changes a complete snapshot's pack, contents or readability, except the block of that snapshot |
| `PackContents.PinnedOverARun` | convex/packSnapshotStore.ts:183-449 | over a stretch of any run a pinned snapshot keeps its contents and is readable exactly while it is not blocked |
| `PackContents.TraverseContents` | convex/packCatalogV1.ts:208-300 | following contents cursors while any operations change the store between the requests terminates and yields exactly the contents pinned at the first request; it expires with a strict prefix of them exactly if that snapshot was blocked meanwhile |
| `BetaAccessProof.DecisionMoves` | convex/productUsers.ts:166-219 | a stored decision changes only by an operator's step on it, or from waiting to an admission by an entry on the list that covers the record |
| `BetaAccessProof.DecisionStands` | convex/productUsers.ts:121-126 | an approved or declined decision stands through any run without an operator's step on it |
| `BetaAccessProof.DecisionHasAnOrigin` | convex/productUsers.ts:127-219 | in every run from an empty directory each approval was given by an operator, or by an entry that was on the list and covered the record |
| `BetaAccessProof.MarkerMoves` | convex/productUserRecords.ts:222-310 | a welcome marker is armed only at an admitted contact, claimed only by a pass that takes it, closed only by its settlement |
| `BetaAccessProof.AdmittedContactIsMarked` | convex/productUserRecords.ts:270-310 | after any contact of an admitted record its welcome is decided |
| `BetaAccessProof.TerminalMarkerStands` | convex/productUserRecords.ts:262-264 | a `sent` or `not_applicable` marker never changes, in any run |
| `BetaAccessProof.SettledOnce` | convex/productUserWelcome.ts:171-210 | a welcome is settled at most once |
| `BetaAccessProof.ClaimsAreSeparated` | convex/productUserWelcome.ts:96-152 | two claims of one record are separated by at least the earlier claim's lease, whatever the clock does in between |
| `BetaAccess.ChosenAreClaimable` | convex/productUserWelcome.ts:112-135 | every record a pass takes is due or lapsed, so the refusal for any other marker never fires |
| `BetaAllowlistProof.RunKeepsInv` | convex/betaAllowlist.ts:86-116 | over every interleaving no two entries share an email or a wallet key, and no subject has two records |
| `BetaAllowlistProof.NoStateConflict` | convex/productUserRecords.ts:507-522 | the refusal of two records for one subject never fires in such a state |
| `BetaAllowlistProof.AdmissionIsExact` | convex/betaAllowlist.ts:130-168 | an entry write admits exactly the waiting records its bounded scans reach |
| `BetaAllowlistProof.ReportedCountIsExact` | convex/betaAllowlist.ts:130-168 | the reported count is the number of records changed |
| `BetaAllowlistProof.RerunAdmitsNobody` | convex/betaAllowlist.ts:251-322 | after an accepted write any number of updates that edit nothing leaves the whole store as the write left it |
| `BetaAllowlistProof.AdmissionIsCompleteIff` | convex/betaAllowlist.ts:60-66 | a write and any number of repetitions leave no matching record waiting exactly if the write's scans reach every one that waits |
| `BetaAllowlistProof.HundredAndFirstIsLeftWaiting` | convex/betaAllowlist.ts:60-66 | a run of a hundred and one sign-ins with one email, an entry for it and any number of repetitions: the last record is left waiting |
| `BetaAllowlistProof.PassIsExhaustive` | convex/productUserWelcome.ts:112-130 | a pass that is not full leaves nothing that could be claimed, and a due record is passed over only for due records |
| `BetaAllowlistProof.LapsedServedOldestFirst` | convex/productUserWelcome.ts:119-130 | a lapsed claim is passed over only for due records and for claims that expired no later |
| `BetaAllowlistProof.DueTakenByRank` | convex/productUserWelcome.ts:112-118 | a pass takes a due record exactly if fewer due records than its limit were created before it |
| `BetaAllowlistProof.OldestArmedFirstIff` | convex/productUserWelcome.ts:92-94 | every valid pass leaves only due records armed no earlier than those it takes, exactly if due records within reach were armed in creation order |
| `BetaAllowlistProof.LaterArmedServedFirst` | convex/productUserWelcome.ts:92-94 | a run of two sign-ins, approvals and returns after which a pass of one takes the later-armed welcome and leaves the older one |
| `BetaAnswers.TwoRecordsAreRefused` | convex/productUserRecords.ts:512-522 | a subject with two records is refused by every lookup |
| `BetaAnswers.InvitationIsTheMatch` | convex/betaAllowlistRecords.ts:229-245 | the first entry with the email invites, else the first with the wallet, else none |
| `BetaAnswers.FirstContactAnswers` | convex/productUsers.ts:136-164 | a new record field by field: admitted and armed exactly if an entry invites it |
| `BetaAnswers.ReturnAnswers` | convex/productUsers.ts:166-219 | a returning record keeps what is known, and is written exactly if something changed, is stale, missing, admitted or marked |
| `BetaAnswers.ReturnDecides` | convex/productUsers.ts:170-187 | the decision after a contact: an admission of a waiting record that is invited, the default made explicit, or the one that stood |
| `BetaAnswers.ReturnMarks` | convex/productUserRecords.ts:270-310 | the welcome after a contact: none changes; first admission or one since the last contact arms it if an address is known, an earlier one is grandfathered |
| `BetaAnswers.CreateAnswers` | convex/betaAllowlist.ts:194-242 | an entry is created exactly if it names somebody and nobody already named; its fields, whom it admits and the reported count |
| `BetaAnswers.MissingEntryIsReported` | convex/betaAllowlist.ts:265-269 | an update of a missing entry changes nothing |
| `BetaAnswers.UpdateAnswers` | convex/betaAllowlist.ts:257-322 | an entry is edited exactly under the same conditions, not counting itself; its fields, its date, whom it admits |
| `BetaAnswers.RemoveAnswers` | convex/betaAllowlist.ts:331-341 | exactly the named entry goes, and no record moves |
| `BetaAnswers.NobodyToDecide` | convex/productUserAccessReview.ts:170-176 | without a record there is nothing to decide |
| `BetaAnswers.DecideAnswers` | convex/productUserAccessReview.ts:177-216 | the decision moves exactly unless the state already holds, and what is reported of it |
| `BetaAnswers.ClaimAnswers` | convex/productUserWelcome.ts:58-152 | a pass is refused exactly out of range; it takes only due and lapsed markers, under a fresh lease, and changes nothing else |
| `BetaAnswers.ClaimsAreReported` | convex/productUserWelcome.ts:112-152 | it reports exactly the records it takes, once each, due ones in creation order, then by expiry |
| `BetaAnswers.NothingIsSettled` | convex/productUserWelcome.ts:183-188 | without a record or a marker nothing is settled |
| `BetaAnswers.SettleAnswers` | convex/productUserWelcome.ts:189-209 | an open marker becomes sent, with its own due time and this step as its time, exactly if the request says so, else not applicable; a closed one is reported |
| `BetaAnswers.StandingAnswers` | convex/productUserRecords.ts:315-325 | an edit by hand of the standing changes nothing else |
| `BetaAnswers.SentHasASettlement` | convex/productUserWelcome.ts:171-210 | in every run from an empty directory a sent welcome was settled as sent at that time, under an open marker armed at its due time |
| `BetaAnswers.WelcomeWasArmed` | convex/productUserRecords.ts:270-310 | every welcome that is due, claimed or sent was armed at its due time by a contact of that subject that was admitted, in good standing and with an address |
| `BetaStore.Store.EstablishProductUser` | convex/productUsers.ts:127-219 | the sign-in step: merge, match, arm, and patch only when something changed |
| `BetaStore.Store.GatherCandidates` | convex/betaAllowlist.ts:135-153 | the two scans and the map list each candidate once |
| `BetaStore.Store.AdmitMatching` | convex/betaAllowlist.ts:130-168 | patches every waiting candidate and counts them |
| `BetaStore.Store.CreateEntry` | convex/betaAllowlist.ts:194-242 | the create step with its guards in order |
| `BetaStore.Store.UpdateEntry` | convex/betaAllowlist.ts:257-322 | the update step with its guards in order |
| `BetaStore.Store.RemoveEntry` | convex/betaAllowlist.ts:331-341 | the remove step, which moves no decision |
| `BetaStore.Store.DecideAccess` | convex/productUserAccessReview.ts:166-216 | the operator step, which keeps provenance when nothing changes |
| `BetaStore.Store.ClaimDueWelcomes` | convex/productUserWelcome.ts:96-152 | the claim pass: due first, then lapsed, each patched and listed |
| `BetaStore.Store.SettleWelcome` | convex/productUserWelcome.ts:171-210 | the settlement step |

## Left out

- HTTP routing, authentication, nonces, request digests, signing keys, cursor signatures and the binding of a list cursor to its filters: a step receives an authorized, parsed request and a checked cursor.
- Schema validation of request bodies and stored JSON, and the platform's byte and operation limits, except the page bytes of the backfill and the limits that take part in a proof.
- SHA-256 and canonical JSON: a hash is the value it hashes; two hashes that restate fields compared elsewhere are not modelled.
- The order of chase keys as one string `repack:collectible`: the model orders the pair, which is the same order for ids of one length without a colon; what is proved from it needs only that the pairs are distinct.
- The internals of provider releases (proof, state, cleanup in several mutations) and of the eligibility policy: a release is present, complete or retired, and the policy is a verdict given to activate, refresh and rollback.
- The retention receipt's details (the reported protection set, counts and continuation flags): a request is modelled by what it decides and writes.
- The checks of a retention proof (its digest, the predecessors and operations it names, and the provider protections that a manifest request reports for every platform), of a retired release's publication row and completion record, and of the completion record of a release that a second selection finds: all are verdicts given to a request.
- ManifestStore.Store.Retire: counts the rows of a provider release instead of listing them, and does not patch its publication row, because nothing that is proved reads either; it deletes as many rows as the budget allows, and the release once none is left.
- Heat publication: only the references it makes to manifests are modelled, as an input of retention.
- The join of provider profiles into list pages, the dashboard bundle, shell status counts and collectible search.
- The exact-replay ledger of data-release and retained-estimate operations, which has the form of the two ledgers that are modelled.
- `start` of a data release with its fingerprint, and the status, progress and active-state queries.
- The directory listing and search, the allowlist listing, saved items and the operator queue: reads without state.
- Normalization of emails, wallet addresses and captions: an address is its lowercase key and its casing.
- A timestamp that does not parse: every stored time is one that the code wrote.
- Records staged before a counter or timestamp aggregate existed: the fallbacks for absent fields.
