# Ratary: verified model of migration, ingestion, evolution and sync

Ratary stores memories for AI clients. This project models the parts of it that move or
transform those memories and proves what they keep:

- **Metadata backfill** (`Relational`, `BackfillModel`, `BackfillMemories`, `BackfillAcceptance`,
  `BackfillTables`, `BackfillGraph`, `BackfillRun`, `BackfillParity`): the copy of every table from
  D1 to Postgres, in which a target memory with the same codename or slug keeps its own id and every
  later foreign key is rewritten. A target accepts or refuses a write as a whole: `BackfillAcceptance`
  says when an upsert is accepted, the other claims about a result are for runs that complete.
- **Knowledge ingestion** (`Normalizer`, `Chunker`, `Embedding`, `KnowledgeStore`,
  `StoreInvariant`, `StoreReplay`, `Pipeline`, `PipelineProofs`): text normaliser, overlapping
  chunker, retrying embedding stage, versioned store, and six gated stages threaded over batches.
- **Memory evolution** (`Snapshots`, `Evolution`, `FieldMerge`): append-only versions behind a head
  counter, restore, and the field merge that sync uses too.
- **Content offload** (`ContentOffload`, `OffloadSafety`): bodies move to object storage with a
  read-back, under arbitrary faults of storage and database.
- **Embedding index** (`Similarity`, `EmbeddingStore`, `EmbeddingJob`, `EmbeddingJobProofs`):
  cosine over the reals, one stored row per memory and model, search, and the budgeted job.
- **Incremental pull** (`ClientSync`), **login lockout** (`LoginGuard`), **week labels** (`IsoWeek`)
  and **transcript packing** (`Transcript`).

Loops of the source are methods proved against functions on values; the theorems are about those
functions. Hashes of named parts are kept as the tuple of the parts, so equal ids mean equal parts.
Provider, storage, database and clock are parameters: each theorem holds for everything they may do.

## Where the code does less than promised

Each of these is an exact condition, proved in both directions, with a lemma at a failing input.

- A completed backfill maps memories one-to-one, and a second run changes nothing, iff no source
  row without codename and slug has its id on a target row that an earlier source row matches by
  codename or slug (`MergeExample`).
- A completed backfill carries the relation graph over, renamed one-to-one, iff there is no such row
  and no relation has an end outside the scanned memories with the id of a target row that a scanned
  memory takes over (`MistakenEndExample`).
- Versions and current row are the full list of a memory's states iff no ordinary update met a memory
  with a body and nothing wrote to the row without recording. `updateMemory` reads the row with
  `findById`, which selects an empty text for the content
  (src/repositories/memory-sql.constants.ts:3, src/repositories/memory-reader.sql.ts:50-61); the version that it
  appends has no body, and an update that gives no content wipes the one in the row
  (`LostBodyExample`). Only restore and merge load the body. Everything but the bodies is kept. A
  pushed change that gives no content wipes the body in the same way (`PushedBodyExactly`), and the
  favorite and archive switches record no version.
- A batch keeps the store consistent iff every version that the status pass passes over, because the
  same document comes with another version later in the batch, has its record already and gets no
  new embedding. For a first run: iff no document comes with two texts. Two files `a\b` and `a/b`
  with different texts are one document with two (`SharedPathExample`).
- An offload run is safe under all faults iff no row to be moved has the object key of a row that
  already depends on its object (`CollisionExample`). Ids without a slash rule that out, and ids
  that the program makes are UUIDs (src/utils/memory-mapper.ts:4-6), so it takes rows written by
  others.
- Repeated pulls deliver everything iff no two memories of equal time lie across a page edge
  (`TieAtEdgeExample`).
- The stored cursor is found again iff the workspace id needs no trimming: it is looked up as given
  but stored trimmed (`UncleanWorkspaceRepeats`). The shipped resolvers trim it and refuse or replace
  a blank one before a pull (src/scope/default-scope-resolver.ts:25-31, 62-74), so it takes a caller
  that builds its own scope.
- Transcript chunks hold whole turns under the cap iff every turn fits under the header alone
  (`OversizedTurnExample`; the parser cuts its turns, so only a long header or a caller with turns of
  its own gets there).
- A snapshot merged with itself is unchanged iff its tags and keywords repeat nothing
  (`RepeatedTagExample`).
- `isoWeek` is right iff neither the year of the date nor that of its week is between 0 and 99
  (`MislabelledFromYear100`).

One fact is not a condition: a dry embedding run without force always looks at exactly one batch,
because the query that lists memories without an embedding returns the same ones again
(`DryRunSeesOneBatch`).

## Model

| member | source | states |
|---|---|---|
| BackfillModel.AtMostOneHit | src/db/migrations.ts:1390-1399 | The unique indexes on (owner, codename) and (owner, slug) leave an upsert at most one row to conflict with |
| BackfillModel.MatchMeaning | scripts/lib/d1-to-postgres-backfill.ts:258-272 | A codename decides before a slug: a row that has one matches by owner and codename whatever its slug, and only without one by owner and slug |
| BackfillModel.ScopeMeaning | scripts/lib/d1-to-postgres-backfill.ts:310-337 | An empty owner reads every row; otherwise exactly the rows of the owner, or of the organizations that the owner has |
| BackfillAcceptance.UpsertAcceptedExactly | scripts/lib/d1-to-postgres-backfill.ts:258-272 | A memory upsert is accepted iff the row has an id, a target row has its name or its id is free or it has no name, and the target accepts the state with that one row written; the answer is that state and the id of that row |
| BackfillAcceptance.RowAcceptedExactly | scripts/lib/d1-to-postgres-backfill.ts:190-256 | An upsert of any other table is accepted iff the row has a key and the target accepts the state with the row written under it |
| BackfillAcceptance.MemoriesComplete | scripts/lib/d1-to-postgres-backfill.ts:339-380 | Valid memories complete into an empty table of a target that only asks for unique names: all arrive under their own ids, and nothing else is there |
| BackfillAcceptance.RunCompletes | scripts/lib/d1-to-postgres-backfill.ts:420-441 | A whole run into such a target without memories completes, keys being text |
| BackfillRun.Target.ExecuteMemoryUpsert | scripts/lib/d1-to-postgres-backfill.ts:258-272 | An accepted upsert changes one row of one table: the one that has the codename, else the slug, else the id of the source row, else a new one; that row then carries the source row, and keeps its own key and the columns that are not copied; a refused one changes nothing |
| BackfillMemories.WithoutClashFaithful | scripts/lib/d1-to-postgres-backfill.ts:339-380 | Without a clash a completed pass maps source ids one-to-one, every source row stands complete at its mapped id, each lands under its own id or on a row of its name, and no other target row changes |
| BackfillMemories.OneToOneExactlyWithoutClash | scripts/lib/d1-to-postgres-backfill.ts:258-272 | The id map is total and one-to-one iff there is no clash |
| BackfillMemories.AgreeingIdsNeverClash | scripts/lib/d1-to-postgres-backfill.ts:258-272 | Ids that mean the same memory on both sides (owner, codename, slug agree) rule a clash out |
| BackfillMemories.RerunUnchangedExactlyWithoutClash | scripts/lib/d1-to-postgres-backfill.ts:339-380 | A second pass over memories completes without a change iff the first had no clash, and then gives the same id map |
| BackfillRun.MergeExample | scripts/lib/d1-to-postgres-backfill.ts:258-272 | A concrete source and target on which a pass over the memories completes and two of them become one |
| BackfillTables.TableIsCarried | scripts/lib/d1-to-postgres-backfill.ts:382-418 | A completed pass over any other table puts every scanned row under its key with its memory ids renamed, and touches nothing else |
| BackfillTables.CompletedRunArrives | scripts/lib/d1-to-postgres-backfill.ts:420-441 | After a completed run without a clash every table has arrived under the final id map, and tables outside the list are untouched |
| BackfillTables.RunIsOneToOneExactlyWithoutClash | scripts/lib/d1-to-postgres-backfill.ts:420-441 | For a whole run: the id map is one-to-one on the scanned memories iff there is no clash |
| BackfillTables.RepeatedRunChangesNothing | scripts/lib/d1-to-postgres-backfill.ts:420-441 | A completed run repeated leaves the same target and id map, iff there was no clash |
| BackfillGraph.RelationEndsRenamed | scripts/lib/d1-to-postgres-backfill.ts:283-302 | For every scanned relation, after a completed run: an end that was not scanned is as before, a scanned one is the image of its memory iff that image is not empty or the id was empty too (an empty string is falsy) |
| BackfillGraph.ReachabilityPreserved | scripts/lib/d1-to-postgres-backfill.ts:292-305 | One memory or end of a relation reaches another over relations before the run iff their names do after it |
| BackfillGraph.RelationGraphRenamed | scripts/lib/d1-to-postgres-backfill.ts:274-308 | The relation graph in the target, ends outside the scanned memories included, is the source graph renamed by an injective map (same links, same reachability) iff there is no clash and no such end has the id of a target row that a scanned memory takes over |
| BackfillRun.MistakenEndExample | scripts/lib/d1-to-postgres-backfill.ts:274-308 | A run for one owner that completes and makes the link to another owner's memory a link of a memory to itself |
| BackfillGraph.EmbeddingsRenamed | scripts/lib/d1-to-postgres-backfill.ts:283-290 | Every migrated embedding belongs to the image of its source memory, and that memory exists |
| BackfillRun.BackfillMemoriesTable | scripts/lib/d1-to-postgres-backfill.ts:339-380 | Whatever the page size, each scoped row is read once and in order; a dry run writes nothing and maps ids to themselves; a refused write ends the run |
| BackfillRun.BackfillTable | scripts/lib/d1-to-postgres-backfill.ts:382-418 | The same paging for every other table, with foreign keys rewritten |
| BackfillRun.BackfillD1ToPostgres | scripts/lib/d1-to-postgres-backfill.ts:420-441 | All tables in order; the statistics count each row once; no write when dry |
| BackfillRun.TableListIsWellOrdered | scripts/lib/d1-to-postgres-backfill.ts:11-188 | The shipped table list has distinct tables, memories before the two tables that point at them, and keys that are never rewritten |
| BackfillParity.VerifyPostgresParity | scripts/lib/postgres-parity.ts:56-77 | Reports both counts per table, and for each whether they agree; ok iff all agree |
| BackfillParity.ParityNoticesOneRow | scripts/lib/postgres-parity.ts:29-54 | Counts that agree no longer do when one counted target row goes missing or one more is there |
| BackfillParity.EmptyTargetReachesParity | scripts/lib/postgres-parity.ts:29-77 | A completed run into an empty target makes every pair of counts agree, memberships counted through the owner's organizations included |
| BackfillParity.TableListSupportsParity | scripts/lib/d1-to-postgres-backfill.ts:11-188 | The shipped table list meets what the parity theorem asks |
| Normalizer.Normalize | scripts/lib/knowledge-ingestion-pipeline.ts:66-84 | The result has no CR, nothing blank before a line end, no two blank lines in a row and no outer white space |
| Normalizer.CollapseBlankRuns | scripts/lib/knowledge-ingestion-pipeline.ts:70-81 | The loop with its run counter keeps the first of each run of empty lines |
| Normalizer.NormalizeIdempotent | scripts/lib/knowledge-ingestion-pipeline.ts:66-84 | Normalising twice is normalising once |
| Normalizer.FixedExactlyWhenNormal | scripts/lib/knowledge-ingestion-pipeline.ts:66-84 | A text is left alone iff it is in normal form |
| Normalizer.LineEndingsIrrelevant | scripts/lib/knowledge-ingestion-pipeline.ts:67 | LF and CRLF versions of a file normalise to the same text |
| Normalizer.LoneCrIsLineEnding | scripts/lib/knowledge-ingestion-pipeline.ts:67 | So do the LF and the lone-CR version |
| Normalizer.NormalizeKeepsInk | scripts/lib/knowledge-ingestion-pipeline.ts:66-84 | Only white space goes: the visible characters stay, in order |
| Normalizer.EmptyExactlyWhenBlank | scripts/lib/knowledge-ingestion-pipeline.ts:86-112 | The content is empty, and the document refused, iff the file shows nothing |
| Chunker.BuildChunks | scripts/lib/knowledge-ingestion-pipeline.ts:124-166 | The loop ends for every admissible overlap and makes the trimmed, non-blank windows; other options are refused |
| Chunker.WindowCount | scripts/lib/knowledge-ingestion-pipeline.ts:135-163 | 1 + ceil(max(0, n - max) / (max - overlap)) windows |
| Chunker.WindowsReassemble | scripts/lib/knowledge-ingestion-pipeline.ts:135-163 | Later windows without their first overlap characters give the content back |
| Chunker.ChunksAreWellFormed | scripts/lib/knowledge-ingestion-pipeline.ts:140-161 | Chunks are numbered consecutively, 1 to max characters long, stretches of the content |
| Chunker.ChunksCoverContent | scripts/lib/knowledge-ingestion-pipeline.ts:140-165 | Every visible position of the content lies in some chunk |
| Chunker.ChunksNameTheirWindows | scripts/lib/knowledge-ingestion-pipeline.ts:140-161 | Each chunk names its window as its section and holds the text of that window without outer white space |
| Embedding.AttemptEmbedding | scripts/lib/knowledge-ingestion-pipeline.ts:312-334 | The retry loop of one job ends and computes the specified attempts |
| Embedding.RunEmbeddingStage | scripts/lib/knowledge-ingestion-pipeline.ts:234-370 | The loop over chunks is the specified stage for every provider, cancel set and retry limit |
| Embedding.StageIsLawful | scripts/lib/knowledge-ingestion-pipeline.ts:254-369 | One job and one execution per chunk in order; records plus failures are the chunks; every history is PENDING, attempts, end state, with as many RUNNING as attempts within maxRetries + 1; retryable only when attempts are used up |
| Embedding.ProviderDecides | scripts/lib/knowledge-ingestion-pipeline.ts:312-366 | All calls but the last failed retryably, and the last one decides record, digest and error category |
| Embedding.UnaskedJobsEnd | scripts/lib/knowledge-ingestion-pipeline.ts:263-310 | For every chunk of a stage: a record that exists completes it; else a cancelled job ends Cancelled after one attempt, resumable, in its category, and else an empty text ends Failed as a corrupted chunk, not resumable; either makes the stage count a failure |
| Embedding.UnaskedLeaveNoRecord | scripts/lib/knowledge-ingestion-pipeline.ts:263-310 | No record is left for a cancelled or empty chunk |
| Embedding.CallsAreAttempts | scripts/lib/knowledge-ingestion-pipeline.ts:312-366 | The provider is called once for every attempt of the chunks that reach it, and for nothing else |
| Embedding.JobsNameTheirChunks | scripts/lib/knowledge-ingestion-pipeline.ts:254-262 | Each job is for its own chunk, document and organization, under the id that its execution carries |
| Embedding.ResumeIsFree | scripts/lib/knowledge-ingestion-pipeline.ts:245-274 | Re-running a successful stage on its own records never calls the provider; the records come back unchanged iff equal ids mean equal records |
| KnowledgeStore.PersistKnowledgeArtifacts | scripts/lib/knowledge-store-boundary.ts:54-152 | The three map loops compute the specified batch merge, counters and id lists |
| StoreInvariant.StatusesExactly | scripts/lib/knowledge-store-boundary.ts:98-137 | After a batch an expected record is available without a token iff an embedding of its document and version is stored and no failure is injected, else pending with its own token; any other record is as it was, or new and pending |
| StoreInvariant.CompleteBatchReports | scripts/lib/knowledge-store-boundary.ts:98-152 | A complete batch reports every version of its documents as available, and no partial failure, iff no failure is injected; else every version as pending |
| StoreInvariant.LastVersionWins | scripts/lib/knowledge-store-boundary.ts:98-107 | Of several documents with one id the version of the last is expected |
| StoreReplay.BatchIsQueuedExactly | scripts/lib/knowledge-store-boundary.ts:193-213 | A version of a complete batch is in the recovery queue iff the index was told to fail it |
| StoreReplay.NothingFailsUnasked | scripts/lib/knowledge-store-boundary.ts:193-209 | With nothing told to fail and no earlier failure an index update completes every event |
| KnowledgeStore.RecoverPendingVersions | scripts/lib/knowledge-store-boundary.ts:154-183 | Pending records become available and missing index events are added |
| StoreInvariant.RecoveredExactly | scripts/lib/knowledge-store-boundary.ts:154-183 | Recovery makes exactly the pending records available, without a token, keeps every other record, all embeddings and all events, and adds only pending events |
| KnowledgeStore.QueueAfterUpdate | scripts/lib/knowledge-store-boundary.ts:193-213 | After an index update nothing is pending and the recovery queue names exactly the failed versions |
| StoreInvariant.PersistKeepsConsistent | scripts/lib/knowledge-store-boundary.ts:54-152 | A complete batch keeps ids unique, counts positive and exact, and available records indexed; persisted plus duplicates is the batch |
| StoreInvariant.PersistKeepsConsistentExactly | scripts/lib/knowledge-store-boundary.ts:72-137 | Any batch with a record for every document and for nothing else keeps a consistent snapshot consistent iff every version that the status pass passes over has its record already and no new embedding in the batch |
| StoreInvariant.RecoverKeepsConsistent | scripts/lib/knowledge-store-boundary.ts:154-183 | Recovery keeps all of that and leaves nothing pending |
| StoreInvariant.IndexKeepsConsistent | scripts/lib/knowledge-store-boundary.ts:193-209 | So does an index update, whatever fails |
| StoreReplay.SuccessIsAbsorbed | scripts/lib/knowledge-ingestion-pipeline.ts:571-636 | A batch that completed store and index is held by the snapshot: records available, embeddings stored, events completed |
| StoreReplay.ReplayChangesNothing | scripts/lib/knowledge-store-boundary.ts:61-152 | Persisting a held batch again keeps records and embeddings, counts every embedding as a duplicate, and the events put back to pending complete again |
| Pipeline.OrchestratePipeline | scripts/lib/knowledge-ingestion-pipeline.ts:404-665 | The stage loop computes the specified run, refused chunk options included |
| PipelineProofs.StatusShape | scripts/lib/knowledge-ingestion-pipeline.ts:457-653 | Completed stages, then at most one failed one, then skipped ones, in the fixed order |
| PipelineProofs.AcceptedDocumentsAlwaysChunk | scripts/lib/knowledge-ingestion-pipeline.ts:490-545 | Every file is accepted or counted as failed by the normaliser, and the chunk stage never counts a failed document |
| PipelineProofs.DocumentOfFile | scripts/lib/knowledge-ingestion-pipeline.ts:86-112 | A file becomes a document iff there is an organization, its path ends in a name and its text shows something; the content is the normalised text, the reference the path with forward slashes |
| PipelineProofs.UninjectedRunCompletes | scripts/lib/knowledge-ingestion-pipeline.ts:457-653 | With nothing injected, no earlier index failure and every chunk embedded, all stages complete and exactly the versions of the batch are reported available |
| PipelineProofs.FailedEmbeddingStoresNothing | scripts/lib/knowledge-ingestion-pipeline.ts:547-569 | When embedding fails the previous snapshot is returned and the last two stages are skipped |
| PipelineProofs.EveryRunConsistent | scripts/lib/knowledge-ingestion-pipeline.ts:404-665 | After any sequence of runs threaded from the empty snapshot: unique ids, positive exact embedding counts, an index event for every available record |
| PipelineProofs.DistinctPathsStayConsistent | scripts/lib/knowledge-ingestion-pipeline.ts:404-665 | So it is when the paths within each batch differ up to slashes |
| PipelineProofs.RunKeepsConsistentExactly | scripts/lib/knowledge-ingestion-pipeline.ts:490-653 | A run that embedded everything, with recovery and index update as they may go, leaves a consistent snapshot iff every passed-over version had its record and the embeddings of all its chunks before; documents and chunks are those that its files make |
| PipelineProofs.FirstRunConsistentExactly | scripts/lib/knowledge-ingestion-pipeline.ts:404-665 | The first run leaves a consistent snapshot iff no document comes with two texts |
| PipelineProofs.SharedPathExample | scripts/lib/knowledge-ingestion-pipeline.ts:91-98 | Files `a\b` and `a/b` with different texts, embedded without a failure, leave an inconsistent snapshot |
| PipelineProofs.ReplayIsHarmless | scripts/lib/knowledge-ingestion-pipeline.ts:404-665 | Replaying a successful batch on its own snapshot changes nothing, stores nothing new and completes all stages again |
| Evolution.EvolutionStores.OnMemoryUpdated | src/evolution/memory-evolution-coordinator.ts:25-49 | Appends the previous state as version head + 1 and increments, also when the head is missing |
| Evolution.EvolutionStores.RestoreToVersion | src/evolution/memory-evolution.service.ts:100-123 | The returned memory shows exactly the version; a missing memory or version changes nothing |
| Evolution.EvolutionStores.MergeVersions | src/evolution/memory-evolution.service.ts:126-160 | Merges a version with another one or with the current row, recording the state before |
| Evolution.MergeShowsMerged | src/evolution/memory-evolution.service.ts:126-160 | A merge is accepted iff the versions it names are there; in the row each text is then the incoming one unless blank, importance the maximum, tags and keywords both lists with the base first, and the rest that of version `base`, whether the other side is a version or the row |
| Evolution.VersionsAreImmutable | src/evolution/memory-evolution-coordinator.ts:38-46 | No step changes or drops an earlier version, deleting the memory included |
| Evolution.StepExtendsTimeline | src/evolution/memory-evolution-coordinator.ts:25-49 | A recording step puts the row as it was handed to the hook where the current state stood and adds the new one; a silent one replaces the current state |
| Evolution.OtherTimelinesStay | src/evolution/memory-evolution-coordinator.ts:25-49 | No step touches another memory's timeline |
| Evolution.StateBeforeIsKeptExactly | src/services/memory.service.ts:227-298 | A recording step keeps the state before in full iff it is not an ordinary update of a memory with a body; the version then has every field but the body |
| Evolution.UpdateKeepsBodyExactly | src/repositories/memory-writer.sql.ts:127-198 | An ordinary update leaves the given content or none, and does what it asks for iff it gives a content or there was none |
| Evolution.SwitchesExactly | src/services/memory.service.ts:405-432 | The favorite and archive switches change their flag and nothing else, and record nothing |
| Evolution.RowsComeAndGo | src/evolution/memory-evolution-coordinator.ts:21-23 | Creating adds the row and starts its history at 0 if it has none; deleting takes the row and leaves versions and head |
| Evolution.LostBodyExample | src/services/memory.service.ts:227-298 | A memory with a body, an update without content, and restore of version 1: no body in the row, in the version and after the restore |
| Evolution.EvolutionStores.UpdateMemory | src/services/memory.service.ts:227-298 | The update in place: read without the body, record, write; a missing memory changes nothing |
| Evolution.TimelineIsKept | src/evolution/memory-evolution-coordinator.ts:21-49 | From any state numbered without a gap, after any sequence of operations: numbered 1 to head without a gap, and versions with the current row are, but for the bodies, all states of the memory, a silent write taken with the state it changed; bodies included iff no ordinary update met one |
| Evolution.TimelineIsFullHistory | src/evolution/memory-evolution-coordinator.ts:21-49 | Versions with the current row are the full list of states, those of before included, iff no ordinary update met a body and nothing wrote silently |
| Evolution.RestoreShowsVersion | src/evolution/memory-evolution.service.ts:100-123 | restore(k) succeeds iff 1 <= k <= head, shows version k and keeps the state before as the newest version |
| Evolution.RestoreUndone | src/evolution/memory-evolution.service.ts:100-123 | Restoring the version a restore appended undoes it |
| Snapshots.SnapshotRoundTrip | src/evolution/memory-evolution.types.ts:57-74 | Writing a snapshot back and taking it again is the identity; writing a memory's own snapshot changes nothing |
| Snapshots.MergeKeepsPromise | src/evolution/default-memory-merge-policy.ts:5-23 | One merge field by field: non-blank incoming texts, both lists with the base first, the greater importance, the context of the base |
| Snapshots.MergeAssociative | src/evolution/default-memory-merge-policy.ts:10-23 | Merging is associative |
| Snapshots.MergeIdempotentExactly | src/evolution/default-memory-merge-policy.ts:10-23 | Merging a snapshot with itself is harmless iff tags and keywords repeat nothing |
| Snapshots.RepeatedTagExample | src/evolution/default-memory-merge-policy.ts:18 | A tag that stands twice is merged away |
| Snapshots.MergeKeepsLists | src/evolution/default-memory-merge-policy.ts:18-19 | Tags and keywords are unions that lose nothing, invent nothing, repeat nothing and keep the base's order first |
| Snapshots.BracketingIrrelevant | src/evolution/default-memory-merge-policy.ts:10-23 | Any bracketing of a list of merges gives the same snapshot |
| Snapshots.LastNonBlankTextWins | src/evolution/default-memory-merge-policy.ts:5-17 | Over any list of merges the last non-blank title, content, summary and notes win |
| Snapshots.ImportanceIsMaximal | src/evolution/default-memory-merge-policy.ts:10-23 | Importance is the maximum; project, flags, level, category, type and language are the first snapshot's |
| FieldMerge.PolicyAgreesExactly | src/client-sync/client-sync.service.ts:211-241 | With the policy a pushed project or favorite flag is dropped; the result is the plain one iff the change does none of what the policy holds back |
| FieldMerge.PushedFieldsAreTaken | src/client-sync/client-sync.service.ts:211-241 | Without the policy the pushed fields are set and the others kept, tags of both united; with it pushed texts that are not blank, the own project and favorite flag |
| FieldMerge.PushedBodyExactly | src/client-sync/client-sync.service.ts:187-209 | After a pushed update the body is the pushed content if the merge takes it, else empty; a push without content keeps the body iff there is none |
| FieldMerge.TagsAreUnited | src/client-sync/client-sync.service.ts:211-241 | With or without the policy no tag is lost and none is invented |
| ContentOffload.OffloadStores.OffloadRow | src/backfill/content-offload-backfill.ts:81-115 | The steps for one row under every combination of faults, with each intermediate state recorded |
| OffloadSafety.OffloadedExactly | src/backfill/content-offload-backfill.ts:81-115 | For every fault, with and without clearInline: a row that is to be moved is counted as offloaded iff the put did not throw, the read gave back its non-empty body, it was linked and, if asked, cleared; else as failed. What is left of the row in either case |
| OffloadSafety.ObjectsLeftExactly | src/backfill/content-offload-backfill.ts:81-104 | The storage is left as the put left it, but an object read back with another body is removed when the delete works |
| OffloadSafety.NotMovedExactly | src/backfill/content-offload-backfill.ts:66-79 | Any other row, and any row in a dry run, is left alone and counted as skipped, or as offloaded by a dry run |
| ContentOffload.OffloadStores.BackfillContentOffload | src/backfill/content-offload-backfill.ts:32-124 | The nested paging loops are the specified run, state by state |
| OffloadSafety.EachSelectedRowOnce | src/backfill/content-offload-backfill.ts:43-121 | Every selected row is visited once and no other row is |
| OffloadSafety.TallyAddsUp | src/backfill/content-offload-backfill.ts:62-116 | scanned is the number of visits and equals offloaded + skipped + failed |
| OffloadSafety.SafeExactlyWithoutCollision | src/backfill/content-offload-backfill.ts:81-115 | At every step, under all faults, each body is inline unchanged or its key names an equal object, iff keys do not collide |
| OffloadSafety.PlainIdsNeverCollide | src/backfill/content-offload-backfill.ts:126-129 | Distinct ids without a slash, and keys this job wrote, rule collisions out |
| OffloadSafety.CollisionExample | src/backfill/content-offload-backfill.ts:126-129 | Ids `b` and `a/b` in workspaces that make their keys meet: a run without any fault counts both as offloaded and the first body is gone |
| OffloadSafety.SecondRunSkipsMoved | src/backfill/content-offload-backfill.ts:66-69 | A row counted as offloaded is skipped by any second run and stays as it is |
| OffloadSafety.DryRunWritesNothing | src/backfill/content-offload-backfill.ts:76-79 | A dry run changes nothing |
| Similarity.CosineSimilarity | src/embedding/cosine-similarity.ts:1-27 | The loop's quotient is the score: its square times both norms is the squared product, with the product's sign; 0 for a zero vector; unequal lengths are refused |
| Similarity.DotSquaredAtMostNorms | src/embedding/cosine-similarity.ts:10-20 | dot^2 <= normA * normB for all vectors of equal length |
| Similarity.ScoreWithinBounds | src/embedding/cosine-similarity.ts:22-26 | The score is between -1 and 1 |
| Similarity.ScoreIsUnique | src/embedding/cosine-similarity.ts:22-26 | The two vectors determine the score |
| Similarity.ScoreIsSymmetric | src/embedding/cosine-similarity.ts:1-27 | The score is symmetric |
| Similarity.ScoreIgnoresLength | src/embedding/cosine-similarity.ts:1-27 | A positive factor does not change the score |
| Similarity.SelfScoresOne | src/embedding/cosine-similarity.ts:22-26 | A vector scores 1 against itself unless it is zero |
| EmbeddingStore.D1EmbeddingStore.UpsertEmbedding | src/embedding/d1-embedding.store.ts:41-77 | Refuses a wrong length, rewrites the row of the memory and model, or inserts one |
| EmbeddingStore.UpsertAcceptedExactly | src/embedding/d1-embedding.store.ts:41-77 | An upsert is accepted iff the length is the claimed one and no other owner's row stands for the memory and model; it takes the row that is there, or adds one |
| EmbeddingStore.UpsertMeaning | src/embedding/d1-embedding.store.ts:41-77 | One row per memory and model remains, it holds the input, and all other rows are untouched |
| EmbeddingStore.FindAfterUpsert | src/embedding/d1-embedding.store.ts:90-108 | findByMemoryId reads back what was stored |
| EmbeddingStore.D1EmbeddingStore.SearchSimilar | src/embedding/d1-embedding.store.ts:110-142 | At most limit matches of the owner's rows of the query's dimension, with their scores, in descending order, and nothing omitted scores above them |
| EmbeddingStore.FoundExactly | src/embedding/d1-embedding.store.ts:110-142 | Every match is of a row of the owner whose vector has the query's dimension, with its score; with room every such row is found |
| EmbeddingStore.SortIsStable | src/embedding/d1-embedding.store.ts:141 | Rows of equal score keep the order of the query |
| EmbeddingJob.EmbeddingJobRunner.ProcessMemory | src/embedding/embedding-job.runner.ts:87-116 | One memory: skipped and linked when its hash is stored, else embedded, else counted as failed |
| EmbeddingJobProofs.ProcessedExactly | src/embedding/embedding-job.runner.ts:87-116 | Skipped iff the row is current and no force is asked; a dry run counts any other as embedded and writes nothing; a real one embeds it iff the answer can be stored and linked |
| EmbeddingJob.EmbeddingJobRunner.Run | src/embedding/embedding-job.runner.ts:42-121 | The budgeted loop over batches is the specified run in every mode |
| EmbeddingJobProofs.JobStaysInBudget | src/embedding/embedding-job.runner.ts:59-120 | scanned <= maxMemories and scanned = embedded + skipped + failed |
| EmbeddingJobProofs.ProcessedMemoriesPoint | src/embedding/embedding-job.runner.ts:89-151 | After a real run every memory embedded or skipped points at a stored row of its own and its owner's whose hash matches its text; a skipped one at a row of the job's model |
| EmbeddingJobProofs.RealRunCompletes | src/embedding/embedding-job.runner.ts:59-118 | Without force, memories stay unembedded only when the budget is spent; without a failure the unembedded memories are visited once, in order, up to the budget, and the others remain |
| EmbeddingJobProofs.ForcedRunVisitsAll | src/embedding/embedding-job.runner.ts:63-126 | A forced run visits the owner's memories once each, in order, up to the budget, whatever fails |
| EmbeddingJobProofs.DryRunSeesOneBatch | src/embedding/embedding-job.runner.ts:71-77 | A dry run without force visits exactly the first batch and changes nothing |
| EmbeddingJobProofs.DryRoundsWriteNothing | src/embedding/embedding-job.runner.ts:96-109 | No dry run changes anything |
| ClientSync.ClientSyncService.PullChanges | src/client-sync/client-sync.service.ts:34-63 | One pull: page, next cursor, hasMore and the stored cursor; an unknown platform changes nothing |
| ClientSync.RowsMeaning | src/client-sync/client-sync.service.ts:43-48 | A pull is about the memories of the owner that are not archived, of the trimmed workspace unless it is blank, changed after the start |
| ClientSync.PulledExactly | src/client-sync/client-sync.service.ts:43-60 | The answer is the first of those, at most 100, with whether there are more; the cursor is the time of the last one, else the start, else now; no other cursor changes |
| ClientSync.DrainIsSubsequence | src/client-sync/client-sync.service.ts:43-52 | Whatever the ties, nothing is delivered twice or out of order |
| ClientSync.DrainDeliversExactly | src/client-sync/client-sync.service.ts:43-52 | Everything behind the cursor is delivered iff no tie lies across a page edge, and then in max(1, ceil(n / 100)) calls |
| ClientSync.CallsMeaning | src/client-sync/client-sync.constants.ts:16 | The number of calls is the number of pages of 100, at least one |
| ClientSync.PullDeliversEverything | src/client-sync/client-sync.service.ts:34-63 | From any starting cursor, passed on or stored, until hasMore is false: exact delivery, number of calls, and a final cursor behind which nothing is left |
| ClientSync.DistinctTimesDeliverEverything | src/client-sync/client-sync.service.ts:34-63 | With distinct times a session delivers everything in max(1, ceil(n / 100)) calls |
| ClientSync.TieAtEdgeExample | src/client-sync/client-sync.service.ts:43-52 | Of 101 memories of equal time a client gets 100, and never the last one |
| ClientSync.StoredCursorIsFound | src/client-sync/client-sync.service.ts:138-144 | A later pull without a cursor starts from the stored one iff the workspace id is the trimmed one |
| ClientSync.OtherCursorsStay | src/client-sync/client-sync.service.ts:138-144 | A pull moves the start of a later one without a cursor only for its owner, its platform in any letter case, and the workspace id that equals the trimmed one |
| ClientSync.CleanExactly | src/repositories/repository-scope.ts:19-22 | That is iff it is absent, or not empty and without outer white space |
| ClientSync.UncleanWorkspaceRepeats | src/client-sync/client-sync.service.ts:39-41 | Otherwise pulling without a cursor gives the same answer again and again |
| LoginGuard.LoginGuard.AssertNotLocked | src/auth/login-guard.ts:20-27 | Refuses while the lock lasts, removes an expired one |
| LoginGuard.LoginGuard.RecordFailure | src/auth/login-guard.ts:29-54 | Counts the failure and locks at the fifth |
| LoginGuard.SuccessForgets | src/auth/login-guard.ts:56-58 | After a success the email has no row, passes the check and starts counting at one |
| LoginGuard.LockHoldsExactly | src/auth/login-guard.ts:20-27 | A check passes iff no lock lasts; it drops the row iff a lock has expired |
| LoginGuard.GuessesAreBounded | src/auth/login-guard.ts:20-58 | Without a success, guesses let through within T number at most 5 * (floor(T / 15 min) + 1); the count never exceeds 5 and a lock is set exactly at 5 |
| LoginGuard.MixedGuessesAreBounded | src/auth/login-guard.ts:20-58 | The bound holds for an email whatever calls for other emails come in between |
| LoginGuard.BoundIsReached | src/auth/login-guard.ts:20-58 | For every number of lockouts some run reaches the bound |
| LoginGuard.EmailsAreIndependent | src/auth/login-guard.ts:20-70 | Any sequence of guard calls leaves an email the same row, and lets the same of its calls through, as the calls about that email alone |
| IsoWeek.WeekLabel | scripts/checkpoint-operational-proof.ts:9-16 | The label is the year and week of section 3.2.2 of ISO 8601:2004 iff neither the date's nor its week's year is between 0 and 99 |
| IsoWeek.MislabelledFromYear100 | scripts/checkpoint-operational-proof.ts:13 | From year 100 on only 1 to 3 January of year 100 are mislabelled |
| IsoWeek.IsoWeekExists | scripts/checkpoint-operational-proof.ts:12-14 | Every day has its week, numbered 1 to 53 |
| IsoWeek.NextWeek | scripts/checkpoint-operational-proof.ts:12-14 | The following week is the next number or week 01 of the next year |
| IsoWeek.OneLabelPerWeek | scripts/checkpoint-operational-proof.ts:15 | Two days share a label iff they lie in one week from Monday to Sunday |
| IsoWeek.LabelReads | scripts/checkpoint-operational-proof.ts:15 | The label of a year from 0 on is digits that denote the year, "-W" and two digits that denote the week |
| IsoWeek.DayNumbersFollow | scripts/checkpoint-operational-proof.ts:10 | Consecutive Gregorian dates have consecutive day numbers across months, leap days and years, with 1 January 1970 as 0 |
| Transcript.ParseTranscriptJsonl | scripts/lib/transcript-parser.ts:69-117 | The loop with its flushes groups utterances into cleaned, cut, non-empty turns |
| Transcript.HeardExactly | scripts/lib/transcript-parser.ts:85-113 | A line is heard iff it is a message of the user that shows something, or of the assistant that does after cleaning |
| Transcript.QueryIsUnwrapped | scripts/lib/transcript-parser.ts:47-53 | A query in its tags is cleaned to the trimmed query; so is one without tags |
| Transcript.ImageMarkGoes | scripts/lib/transcript-parser.ts:47-53 | An image mark in front of a query goes, in any letter case, with the white space after it |
| Transcript.CleanKeepsInk | scripts/lib/transcript-parser.ts:55-62 | Cleaning an answer drops nothing that shows but redacted paragraphs |
| Transcript.TurnsSpellDialogue | scripts/lib/transcript-parser.ts:74-115 | Before cleaning and cutting the turns spell out the dialogue: each utterance once, in order; only the first may lack a user |
| Transcript.CleanIdempotent | scripts/lib/transcript-parser.ts:55-62 | Cleaning an answer twice is cleaning it once |
| Transcript.AnswersAreCleanedOnce | scripts/lib/transcript-parser.ts:77-83 | The second cleaning when a turn is flushed changes nothing |
| Transcript.ParsedTurnsAreShort | scripts/lib/transcript-parser.ts:64-83 | Turns have at most 2013 and 4013 characters and are not empty |
| Transcript.ChunkTurns | scripts/lib/transcript-parser.ts:169-199 | The greedy loop computes the specified chunks |
| Transcript.FormatReads | scripts/lib/transcript-parser.ts:142-153 | The text of a turn is its number and what each side said under its name, if anything |
| Transcript.HeaderAloneExactly | scripts/lib/transcript-parser.ts:197-199 | Without turns the header is the one chunk; with turns it never stands alone, unless it is as long as the cap |
| Transcript.PackedProperlyExactly | scripts/lib/transcript-parser.ts:169-199 | Chunks are whole turns in order, each once, under 60000 characters and filled greedily, iff every turn fits under the header alone |
| Transcript.OversizedTurnExample | scripts/lib/transcript-parser.ts:186-189 | A turn of 60000 characters is cut, whatever the header, and no proper packing exists |
| Transcript.ParsedTranscriptPacks | scripts/lib/transcript-parser.ts:169-199 | Under a header that leaves room for one longest turn, parsed turns are packed so |

## Left out

- SQL text, drivers, HTTP controllers, command lines, file reading and log rendering: plumbing.
- Cryptography and encodings: hashes are kept as the hashed parts, so collisions of truncated digests are outside the model.
- Strings are sequences of Unicode scalar values, each counted as one unit; surrogate pairs split by a cut are not modelled.
- Rounding of floating-point scores: similarity is over the reals, with Math.sqrt as an exact root.
- Timestamps and messages that do not decide anything: created and updated times of store records and embeddings, error texts, checkpoint ids, last_attempt_at and last_ip.
- Concurrent writers, and crashes between two writes of evolution: runs are sequential. Content offload has every intermediate state.
- Other unique indexes and foreign keys of the backfill target: one acceptance test of the state a write would leave.
- The lower-casing of emails and platform ids: ASCII letters only.
- BackfillRun.Target.ExecuteMemoryUpsert: a codename or slug that is present but empty is not an arbiter, as in the code; the target's own id generation is not modelled.
- EmbeddingJob.EmbeddingJobRunner.Run: the project filter is not modelled, a link that fails on the path of a skipped memory (where the program does not catch it and the run ends with an error) is taken to succeed, and rows of equal time are listed in one fixed order.
- ClientSync.PullDeliversEverything: memories do not change while a session of pulls goes on.
- Pushing changes, apart from the field merge: it hands each change to MemoryService, which is not part of this model.
- Evolution.EvolutionStores.UpdateMemory: the enrichment of an update and its conflict check are not modelled; the fields that are written are arbitrary.
- Evolution.TimelineIsFullHistory: jobs that write columns of a memory directly are one operation with arbitrary fields; created ids are taken to be new, as UUIDs are.
- Evolution.EvolutionStores.MergeVersions: owners and workspaces are not distinguished, one memory id stands for one memory; diffs and confidence are not modelled.
- OffloadSafety.SafeExactlyWithoutCollision: a read may throw, find nothing or return other text, but not make up the very body that was sent.
- Transcript.ParseTranscriptJsonl: a line that is JSON but not an object of the declared shape is not modelled; of the user cleaner, what it makes of a text with tags in its middle or in odd order is modelled but not characterised.
- Transcript titles, summaries, project detection and tags: one-branch text rules.
- The other paged backfills (search index, graph, vector): the same loop as content offload with weaker claims.
