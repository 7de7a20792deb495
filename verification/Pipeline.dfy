/**
 * orchestratePipeline of scripts/lib/knowledge-ingestion-pipeline.ts: six gated stages
 * over a batch of files and the snapshot of the batch before.
 */
module Pipeline {
  import opened Outcomes
  import opened JsStrings
  import opened Normalizer
  import opened Knowledge
  import opened Chunker
  import opened Embedding
  import opened OrderedMap
  import opened KnowledgeStore

  datatype RawSourceFile = RawSourceFile(filePath: string, content: string)

  datatype Stage = SourceIntake | NormalizerStage | ChunkBuilder | EmbeddingGenerator | KnowledgeStoreStage | IndexUpdate

  datatype StageStatus = StageCompleted | StageFailed | StageSkipped

  datatype StageResult = StageResult(stage: Stage, status: StageStatus, processed: nat, failed: nat)

  const PIPELINE_STAGES: seq<Stage> :=
    [SourceIntake, NormalizerStage, ChunkBuilder, EmbeddingGenerator, KnowledgeStoreStage, IndexUpdate]

  datatype Options = Options(
    sourceFailed: nat, organizationId: string, maxChunkSize: int, overlap: int,
    maxRetries: int, provider: Provider, existingRecords: seq<EmbeddingRecord>, cancelledJobIds: set<JobId>,
    previous: Snapshot, failBefore: bool, autoRecover: bool, failVersionIds: set<VersionId>)

  /** Everything the orchestrator holds between stages. */
  datatype Progress = Progress(
    documents: seq<Document>, chunks: seq<Chunk>, embedding: StageRun,
    snapshot: Snapshot, persisted: Option<PersistResult>,
    statuses: map<Stage, StageStatus>, results: seq<StageResult>)

  // ---------------------------------------------------------------- normalizer stage

  function ForwardSlashes(path: string): (r: string)
    ensures |r| == |path|
  {
    seq(|path|, i requires 0 <= i < |path| => if path[i] == '\\' then '/' else path[i])
  }

  /** What follows the last slash. */
  function LastSegment(path: string): string {
    if path == "" || path[|path| - 1] == '/' then ""
    else LastSegment(path[..|path| - 1]) + [path[|path| - 1]]
  }

  /** The document, or None when the document schema refuses an empty field. */
  function NormalizeSourceFile(raw: RawSourceFile, organizationId: string): Option<Document> {
    var content := NormalizeWhitespace(raw.content);
    var sourceRef := ForwardSlashes(raw.filePath);
    var title := LastSegment(sourceRef);
    if organizationId == "" || sourceRef == "" || title == "" || content == "" then None
    else Some(Document(DocumentId(organizationId, sourceRef), organizationId, sourceRef, title, content, Version(content)))
  }

  function NormalizeAll(files: seq<RawSourceFile>, organizationId: string): (documents: seq<Document>)
    ensures |documents| <= |files|
  {
    if files == [] then []
    else
      var front := NormalizeAll(files[..|files| - 1], organizationId);
      var document := NormalizeSourceFile(files[|files| - 1], organizationId);
      if document.Some? then front + [document.value] else front
  }

  // ---------------------------------------------------------------- chunk stage

  datatype ChunkPass = ChunkPass(chunks: seq<Chunk>, failed: nat)

  /** None when buildChunks refuses the options: that error is not caught. */
  function ChunkAll(documents: seq<Document>, maxChunkSize: int, overlap: int): Option<ChunkPass> {
    if documents == [] then Some(ChunkPass([], 0))
    else
      var front :- ChunkAll(documents[..|documents| - 1], maxChunkSize, overlap);
      var built :- Chunks(documents[|documents| - 1], maxChunkSize, overlap);
      Some(if built == [] then front.(failed := front.failed + 1) else front.(chunks := front.chunks + built))
  }

  // ---------------------------------------------------------------- one stage

  function Prerequisite(stage: Stage): Option<Stage> {
    match stage
    case SourceIntake => None
    case NormalizerStage => Some(SourceIntake)
    case ChunkBuilder => Some(NormalizerStage)
    case EmbeddingGenerator => Some(ChunkBuilder)
    case KnowledgeStoreStage => Some(EmbeddingGenerator)
    case IndexUpdate => Some(KnowledgeStoreStage)
  }

  function Report(p: Progress, stage: Stage, status: StageStatus, processed: nat, failed: nat): Progress {
    p.(statuses := p.statuses[stage := status], results := p.results + [StageResult(stage, status, processed, failed)])
  }

  function AvailableIds(records: Records): seq<VersionId> {
    if records == [] then []
    else
      var front, e := AvailableIds(records[..|records| - 1]), records[|records| - 1];
      if e.value.status == AvailableVersion then front + [e.key] else front
  }

  /** The store stage, with its optional recovery of a partial failure. */
  function StoreBatch(p: Progress, o: Options): PersistResult {
    var persist := Persist(p.documents, p.embedding.records, p.snapshot, o.failBefore);
    if persist.partialFailure && o.autoRecover then
      var recovered := Recover(persist.snapshot);
      persist.(snapshot := recovered, partialFailure := false, pendingVersionIds := [],
               availableVersionIds := AvailableIds(recovered.records))
    else persist
  }

  predicate Gated(p: Progress, stage: Stage) {
    var prerequisite := Prerequisite(stage);
    prerequisite.Some? && !(prerequisite.value in p.statuses && p.statuses[prerequisite.value] == StageCompleted)
  }

  function StageStep(files: seq<RawSourceFile>, o: Options, p: Progress, stage: Stage): Option<Progress> {
    if Gated(p, stage) then Some(Report(p, stage, StageSkipped, 0, 0))
    else match stage
      case SourceIntake => Some(Report(p, stage, StageCompleted, |files|, o.sourceFailed))
      case NormalizerStage =>
        var documents := NormalizeAll(files, o.organizationId);
        Some(Report(p.(documents := documents), stage, StageCompleted, |documents|, |files| - |documents|))
      case ChunkBuilder =>
        var pass :- ChunkAll(p.documents, o.maxChunkSize, o.overlap);
        Some(Report(p.(chunks := pass.chunks), stage, StageCompleted, |pass.chunks|, pass.failed))
      case EmbeddingGenerator =>
        var embedding := RunStage(p.chunks, o.provider, o.maxRetries, o.existingRecords, o.cancelledJobIds);
        Some(Report(p.(embedding := embedding), stage, if embedding.failed > 0 then StageFailed else StageCompleted,
                    |embedding.records|, embedding.failed))
      case KnowledgeStoreStage =>
        var persist := StoreBatch(p, o);
        Some(Report(p.(snapshot := persist.snapshot, persisted := Some(persist)), stage,
                    if persist.partialFailure then StageFailed else StageCompleted,
                    persist.persistedEmbeddingCount, if persist.partialFailure then 1 else 0))
      case IndexUpdate =>
        var snapshot := ApplyIndexUpdate(p.snapshot, o.failVersionIds);
        var failedCount := |EventsWith(snapshot.indexEvents, FailedEvent)|;
        Some(Report(p.(snapshot := snapshot), stage, if failedCount > 0 then StageFailed else StageCompleted,
                    |EventsWith(snapshot.indexEvents, CompletedEvent)|, failedCount))
  }

  function Start(o: Options): Progress {
    Progress([], [], StageRun([], [], [], 0, 0), o.previous, None, map[], [])
  }

  function AfterStages(files: seq<RawSourceFile>, o: Options, k: nat): Option<Progress>
    requires k <= 6
  {
    if k == 0 then Some(Start(o))
    else
      var before :- AfterStages(files, o, k - 1);
      StageStep(files, o, before, PIPELINE_STAGES[k - 1])
  }

  function RunPipeline(files: seq<RawSourceFile>, o: Options): Option<Progress> {
    AfterStages(files, o, 6)
  }

  // ---------------------------------------------------------------- the loops

  method NormalizeFiles(files: seq<RawSourceFile>, organizationId: string) returns (documents: seq<Document>, failed: nat)
    ensures documents == NormalizeAll(files, organizationId) && failed == |files| - |documents|
  {
    hide NormalizeSourceFile;
    documents, failed := [], 0;
    assert files[..0] == [];
    for i := 0 to |files|
      invariant documents == NormalizeAll(files[..i], organizationId) && failed == i - |documents|
    {
      assert files[..i + 1][..i] == files[..i];
      var document := NormalizeSourceFile(files[i], organizationId);
      if document.Some? {
        documents := documents + [document.value];
      } else {
        failed := failed + 1;
      }
    }
    assert files[..|files|] == files;
  }

  lemma ChunkAllStep(documents: seq<Document>, n: nat, maxChunkSize: int, overlap: int)
    requires n < |documents|
    ensures ChunkAll(documents[..n + 1], maxChunkSize, overlap) ==
              (var front := ChunkAll(documents[..n], maxChunkSize, overlap);
               var built := Chunks(documents[n], maxChunkSize, overlap);
               if front.None? || built.None? then None
               else Some(if built.value == [] then front.value.(failed := front.value.failed + 1)
                         else front.value.(chunks := front.value.chunks + built.value)))
    ensures ChunkAll(documents[..0], maxChunkSize, overlap) == Some(ChunkPass([], 0))
  {
    hide Chunks;
    assert documents[..n + 1][..n] == documents[..n];
  }

  lemma {:induction false} ChunkErrorIsFinal(documents: seq<Document>, n: nat, maxChunkSize: int, overlap: int)
    requires n <= |documents| && ChunkAll(documents[..n], maxChunkSize, overlap).None?
    ensures ChunkAll(documents, maxChunkSize, overlap).None?
  {
    hide Chunks;
    if n == |documents| {
      assert documents[..n] == documents;
    } else {
      assert documents[..|documents| - 1][..n] == documents[..n];
      ChunkErrorIsFinal(documents[..|documents| - 1], n, maxChunkSize, overlap);
    }
  }

  method ChunkDocuments(documents: seq<Document>, maxChunkSize: int, overlap: int) returns (pass: Option<ChunkPass>)
    ensures pass == ChunkAll(documents, maxChunkSize, overlap)
  {
    hide Chunks, ChunkAll;
    var allChunks: seq<Chunk> := [];
    var failed := 0;
    if |documents| > 0 {
      ChunkAllStep(documents, 0, maxChunkSize, overlap);
    } else {
      NoDocuments(documents, maxChunkSize, overlap);
    }
    for i := 0 to |documents|
      invariant failed >= 0
      invariant ChunkAll(documents[..i], maxChunkSize, overlap) == Some(ChunkPass(allChunks, failed))
    {
      ChunkAllStep(documents, i, maxChunkSize, overlap);
      var built := BuildChunks(documents[i], maxChunkSize, overlap);
      if built.None? {
        ChunkErrorIsFinal(documents, i + 1, maxChunkSize, overlap);
        return None;
      }
      if |built.value| == 0 {
        failed := failed + 1;
        continue;
      }
      allChunks := allChunks + built.value;
    }
    assert documents[..|documents|] == documents;
    pass := Some(ChunkPass(allChunks, failed));
  }

  lemma NoDocuments(documents: seq<Document>, maxChunkSize: int, overlap: int)
    ensures ChunkAll(documents[..0], maxChunkSize, overlap) == Some(ChunkPass([], 0))
  {
  }

  lemma {:induction false} StageErrorIsFinal(files: seq<RawSourceFile>, o: Options, k: nat, n: nat)
    requires k <= n <= 6 && AfterStages(files, o, k).None?
    ensures AfterStages(files, o, n).None?
  {
    if k < n {
      StageErrorIsFinal(files, o, k, n - 1);
    }
  }

  lemma FirstStep(files: seq<RawSourceFile>, o: Options)
    ensures AfterStages(files, o, 1) == Some(Report(Start(o), SourceIntake, StageCompleted, |files|, o.sourceFailed))
  {
    assert AfterStages(files, o, 0) == Some(Start(o));
  }

  lemma SkippedStep(files: seq<RawSourceFile>, o: Options, p: Progress, stage: Stage)
    requires Gated(p, stage)
    ensures StageStep(files, o, p, stage) == Some(Report(p, stage, StageSkipped, 0, 0))
  {
  }

  /** The store stage: persist the batch, then recover a partial failure if that is on. */
  method StoreStage(p: Progress, o: Options) returns (persist: PersistResult)
    ensures persist == StoreBatch(p, o)
  {
    hide Persist, Recover, AvailableIds;
    persist := PersistKnowledgeArtifacts(p.documents, p.embedding.records, p.snapshot, o.failBefore);
    if persist.partialFailure && o.autoRecover {
      var recovered := RecoverPendingVersions(persist.snapshot);
      persist := persist.(snapshot := recovered, partialFailure := false, pendingVersionIds := [],
                          availableVersionIds := AvailableIds(recovered.records));
    }
  }

  /** The work of a stage that is not skipped. */
  method RunOneStage(files: seq<RawSourceFile>, o: Options, p: Progress, stage: Stage) returns (next: Option<Progress>)
    requires !Gated(p, stage)
    ensures next == StageStep(files, o, p, stage)
  {
    hide NormalizeAll, ChunkAll, RunStage, StoreBatch, ApplyIndexUpdate, EventsWith, Gated;
    match stage {
      case SourceIntake =>
        next := Some(Report(p, stage, StageCompleted, |files|, o.sourceFailed));
      case NormalizerStage =>
        var documents, failed := NormalizeFiles(files, o.organizationId);
        next := Some(Report(p.(documents := documents), stage, StageCompleted, |documents|, failed));
      case ChunkBuilder =>
        var pass := ChunkDocuments(p.documents, o.maxChunkSize, o.overlap);
        if pass.None? {
          return None;
        }
        next := Some(Report(p.(chunks := pass.value.chunks), stage, StageCompleted, |pass.value.chunks|, pass.value.failed));
      case EmbeddingGenerator =>
        var embedding := RunEmbeddingStage(p.chunks, o.provider, o.maxRetries, o.existingRecords, o.cancelledJobIds);
        var status := if embedding.failed > 0 then StageFailed else StageCompleted;
        next := Some(Report(p.(embedding := embedding), stage, status, |embedding.records|, embedding.failed));
      case KnowledgeStoreStage =>
        var persist := StoreStage(p, o);
        var status := if persist.partialFailure then StageFailed else StageCompleted;
        next := Some(Report(p.(snapshot := persist.snapshot, persisted := Some(persist)), stage, status,
                            persist.persistedEmbeddingCount, if persist.partialFailure then 1 else 0));
      case IndexUpdate =>
        var snapshot := ApplyIndexUpdate(p.snapshot, o.failVersionIds);
        var completedCount, failedCount := |EventsWith(snapshot.indexEvents, CompletedEvent)|, |BuildIndexRecoveryQueue(snapshot)|;
        next := Some(Report(p.(snapshot := snapshot), stage, if failedCount > 0 then StageFailed else StageCompleted, completedCount, failedCount));
    }
  }

  method OrchestratePipeline(files: seq<RawSourceFile>, o: Options) returns (output: Option<Progress>)
    ensures output == RunPipeline(files, o)
  {
    hide StageStep;
    FirstStep(files, o);
    var p := Report(Start(o), SourceIntake, StageCompleted, |files|, o.sourceFailed);
    for k := 1 to 6
      invariant AfterStages(files, o, k) == Some(p)
    {
      var stage := PIPELINE_STAGES[k];
      assert AfterStages(files, o, k + 1) == StageStep(files, o, p, stage);
      var prerequisite := Prerequisite(stage);
      if prerequisite.Some? && !(prerequisite.value in p.statuses && p.statuses[prerequisite.value] == StageCompleted) {
        SkippedStep(files, o, p, stage);
        p := Report(p, stage, StageSkipped, 0, 0);
        continue;
      }
      var next := RunOneStage(files, o, p, stage);
      if next.None? {
        StageErrorIsFinal(files, o, k + 1, 6);
        return None;
      }
      p := next.value;
    }
    output := Some(p);
  }
}
