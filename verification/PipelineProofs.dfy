/** What holds of every run of the pipeline, and of every sequence of runs. */
module PipelineProofs {
  import opened Outcomes
  import opened JsStrings
  import opened Normalizer
  import opened Knowledge
  import opened Chunker
  import opened Embedding
  import opened OrderedMap
  import opened KnowledgeStore
  import opened StoreInvariant
  import opened StoreReplay
  import opened Pipeline

  // ---------------------------------------------------------------- stage statuses

  /** Completed stages, then at most one failed one, then skipped ones, in the fixed order. */
  ghost predicate Shaped(results: seq<StageResult>, cut: nat) {
    |results| <= 6 && forall i :: 0 <= i < |results| ==>
      && results[i].stage == PIPELINE_STAGES[i]
      && results[i].status == (if i < cut then StageCompleted else if i == cut then StageFailed else StageSkipped)
  }

  ghost predicate StatusesAgree(p: Progress) {
    && |p.results| <= 6
    && (forall i :: 0 <= i < |p.results| ==> PIPELINE_STAGES[i] in p.statuses && p.statuses[PIPELINE_STAGES[i]] == p.results[i].status)
  }

  /** Every stage ends in one report and touches neither the statuses nor the results before it. */
  lemma StepReports(files: seq<RawSourceFile>, o: Options, p: Progress, stage: Stage)
    returns (q: Progress, status: StageStatus, processed: nat, failed: nat)
    requires StageStep(files, o, p, stage).Some?
    ensures StageStep(files, o, p, stage).value == Report(q, stage, status, processed, failed)
    ensures q.results == p.results && q.statuses == p.statuses
    ensures status == StageSkipped <==> Gated(p, stage)
    ensures status == StageFailed ==> stage in {EmbeddingGenerator, KnowledgeStoreStage, IndexUpdate}
  {
    hide NormalizeAll, ChunkAll, RunStage, StoreBatch, ApplyIndexUpdate, EventsWith, Gated;
    var next := StageStep(files, o, p, stage).value;
    var r := next.results[|next.results| - 1];
    q, status, processed, failed := next.(results := p.results, statuses := p.statuses), r.status, r.processed, r.failed;
  }

  lemma StepStatus(files: seq<RawSourceFile>, o: Options, p: Progress, k: nat)
    requires 1 <= k < 6 && |p.results| == k && StatusesAgree(p)
    ensures var next := StageStep(files, o, p, PIPELINE_STAGES[k]);
            next.Some? ==>
              && |next.value.results| == k + 1 && next.value.results[..k] == p.results && StatusesAgree(next.value)
              && var r := next.value.results[k];
                 && r.stage == PIPELINE_STAGES[k]
                 && (r.status == StageSkipped <==> p.results[k - 1].status != StageCompleted)
                 && (r.status == StageFailed ==> k >= 3)
  {
    hide StageStep;
    if StageStep(files, o, p, PIPELINE_STAGES[k]).Some? {
      var q, status, processed, failed := StepReports(files, o, p, PIPELINE_STAGES[k]);
      assert Prerequisite(PIPELINE_STAGES[k]) == Some(PIPELINE_STAGES[k - 1]);
      forall i | 0 <= i < k ensures PIPELINE_STAGES[i] != PIPELINE_STAGES[k] {
      }
    }
  }

  lemma {:induction false} StatusShape(files: seq<RawSourceFile>, o: Options, k: nat) returns (cut: nat)
    requires 1 <= k <= 6 && AfterStages(files, o, k).Some?
    ensures 3 <= cut < k || cut == 6
    ensures |AfterStages(files, o, k).value.results| == k && Shaped(AfterStages(files, o, k).value.results, cut)
    ensures StatusesAgree(AfterStages(files, o, k).value)
  {
    hide StageStep;
    if k == 1 {
      FirstStage(files, o);
      cut := 6;
    } else {
      StageBefore(files, o, k);
      cut := StatusShape(files, o, k - 1);
      hide AfterStages, StatusesAgree;
      var p := AfterStages(files, o, k - 1).value;
      StepStatus(files, o, p, k - 1);
      cut := ShapeGrows(p.results, AfterStages(files, o, k).value.results, cut);
    }
  }

  lemma StageBefore(files: seq<RawSourceFile>, o: Options, k: nat)
    requires 1 <= k <= 6 && AfterStages(files, o, k).Some?
    ensures AfterStages(files, o, k - 1).Some?
    ensures AfterStages(files, o, k) == StageStep(files, o, AfterStages(files, o, k - 1).value, PIPELINE_STAGES[k - 1])
  {
    hide StageStep;
  }

  lemma ShapeGrows(before: seq<StageResult>, after: seq<StageResult>, cut: nat) returns (next: nat)
    requires Shaped(before, cut) && 1 <= |before| < 6 && |after| == |before| + 1 && after[..|before|] == before
    requires 3 <= cut < |before| || cut == 6
    requires var r, k := after[|before|], |before|;
             && r.stage == PIPELINE_STAGES[k]
             && (r.status == StageSkipped <==> before[k - 1].status != StageCompleted) && (r.status == StageFailed ==> k >= 3)
    ensures Shaped(after, next) && (3 <= next < |after| || next == 6)
  {
    next := if after[|before|].status == StageFailed then |before| else cut;
    assert forall i :: 0 <= i < |before| ==> after[i] == before[i];
  }

  lemma FirstStage(files: seq<RawSourceFile>, o: Options)
    ensures AfterStages(files, o, 1) == Some(Report(Start(o), SourceIntake, StageCompleted, |files|, o.sourceFailed))
    ensures StatusesAgree(AfterStages(files, o, 1).value)
  {
    assert AfterStages(files, o, 0) == Some(Start(o));
    assert StageStep(files, o, Start(o), PIPELINE_STAGES[0]) ==
           Some(Report(Start(o), SourceIntake, StageCompleted, |files|, o.sourceFailed));
  }

  // ---------------------------------------------------------------- the document of a file

  /** What follows the last slash: it holds none, and stands at the end after one, or is all there is. */
  lemma {:induction false} LastSegmentMeaning(path: string)
    ensures var title := LastSegment(path);
            && '/' !in title && |title| <= |path| && path[|path| - |title|..] == title
            && (|title| == |path| || path[|path| - |title| - 1] == '/')
  {
    if path != "" && path[|path| - 1] != '/' {
      var n := |path| - 1;
      LastSegmentMeaning(path[..n]);
      var front := LastSegment(path[..n]);
      TailGrows(path, |front|);
    }
  }

  lemma TailGrows(path: string, m: nat)
    requires m < |path|
    ensures var n := |path| - 1;
            path[|path| - (m + 1)..] == path[..n][n - m..] + [path[n]] && (m < n ==> path[..n][n - m - 1] == path[|path| - (m + 1) - 1])
  {
  }

  /**
   * A file becomes a document iff there is an organization, its path names a file and its text
   * shows something. The document has the normalized text as content and as version, the path
   * with forward slashes as reference, and its last part as title.
   */
  lemma DocumentOfFile(raw: RawSourceFile, organizationId: string)
    ensures NormalizeSourceFile(raw, organizationId).Some?
            <==> organizationId != "" && raw.filePath != "" && raw.filePath[|raw.filePath| - 1] !in {'/', '\\'} && Ink(raw.content) != ""
    ensures NormalizeSourceFile(raw, organizationId).Some? ==>
              var d := NormalizeSourceFile(raw, organizationId).value;
              && d.content == NormalizeWhitespace(raw.content) && d.version == Version(d.content) && d.organizationId == organizationId
              && d.documentId == DocumentId(organizationId, d.sourceRef)
              && |d.sourceRef| == |raw.filePath|
              && (forall i :: 0 <= i < |raw.filePath| ==> d.sourceRef[i] == if raw.filePath[i] == '\\' then '/' else raw.filePath[i])
              && d.title == LastSegment(d.sourceRef) && d.title != ""
  {
    hide NormalizeWhitespace, Ink;
    EmptyExactlyWhenBlank(raw.content);
    var path := ForwardSlashes(raw.filePath);
    LastSegmentMeaning(path);
  }

  // ---------------------------------------------------------------- what each stage leaves

  /** Documents, chunks and embeddings after the first four stages. */
  lemma FourStages(files: seq<RawSourceFile>, o: Options)
    ensures var documents := NormalizeAll(files, o.organizationId);
            var pass := ChunkAll(documents, o.maxChunkSize, o.overlap);
            && (AfterStages(files, o, 4).Some? <==> pass.Some?)
            && (pass.Some? ==>
                  var p := AfterStages(files, o, 4).value;
                  var embedding := RunStage(pass.value.chunks, o.provider, o.maxRetries, o.existingRecords, o.cancelledJobIds);
                  && p.documents == documents && p.chunks == pass.value.chunks && p.embedding == embedding
                  && p.snapshot == o.previous && p.persisted == None
                  && p.results == [
                       StageResult(SourceIntake, StageCompleted, |files|, o.sourceFailed),
                       StageResult(NormalizerStage, StageCompleted, |documents|, |files| - |documents|),
                       StageResult(ChunkBuilder, StageCompleted, |pass.value.chunks|, pass.value.failed),
                       StageResult(EmbeddingGenerator, if embedding.failed > 0 then StageFailed else StageCompleted,
                                   |embedding.records|, embedding.failed)]
                  && p.statuses == map[SourceIntake := StageCompleted, NormalizerStage := StageCompleted, ChunkBuilder := StageCompleted,
                                       EmbeddingGenerator := p.results[3].status])
  {
    hide NormalizeAll, ChunkAll, RunStage, StoreBatch, ApplyIndexUpdate, EventsWith;
    FirstStage(files, o);
    assert AfterStages(files, o, 2) == StageStep(files, o, AfterStages(files, o, 1).value, NormalizerStage);
    var three := StageStep(files, o, AfterStages(files, o, 2).value, ChunkBuilder);
    assert AfterStages(files, o, 3) == three;
  }

  /** What the store stage leaves, and whether it completed. */
  ghost function StoredBy(documents: seq<Document>, batch: seq<EmbeddingRecord>, o: Options): Snapshot {
    var persist := Persist(documents, batch, o.previous, o.failBefore);
    if persist.partialFailure && o.autoRecover then Recover(persist.snapshot) else persist.snapshot
  }

  ghost predicate StoreCompletes(documents: seq<Document>, batch: seq<EmbeddingRecord>, o: Options) {
    Persist(documents, batch, o.previous, o.failBefore).partialFailure ==> o.autoRecover
  }

  /** The snapshot a run returns: the previous one unless every job had a record. */
  ghost function Returned(documents: seq<Document>, embedding: StageRun, o: Options): Snapshot {
    if embedding.failed > 0 then o.previous
    else if !StoreCompletes(documents, embedding.records, o) then StoredBy(documents, embedding.records, o)
    else ApplyIndexUpdate(StoredBy(documents, embedding.records, o), o.failVersionIds)
  }

  /** The store stage tells what it stored, and one failure if it is still partial; a recovered batch names every available record. */
  ghost predicate StoreReported(told: PersistResult, r: StageResult, documents: seq<Document>, batch: seq<EmbeddingRecord>, o: Options) {
    var persist := Persist(documents, batch, o.previous, o.failBefore);
    var recovered := persist.partialFailure && o.autoRecover;
    && r.stage == KnowledgeStoreStage && r.processed == persist.persistedEmbeddingCount
    && told.partialFailure == (persist.partialFailure && !o.autoRecover)
    && (told.partialFailure <==> r.status == StageFailed) && r.failed == (if told.partialFailure then 1 else 0)
    && (recovered ==> told.pendingVersionIds == [] && told.availableVersionIds == AvailableIds(Recover(persist.snapshot).records))
  }

  /** The index stage counts the completed and the failed events. */
  ghost predicate IndexReported(r: StageResult, s: Snapshot) {
    && r.stage == IndexUpdate && r.processed == |EventsWith(s.indexEvents, CompletedEvent)| && r.failed == |EventsWith(s.indexEvents, FailedEvent)|
    && (r.status == StageFailed <==> r.failed > 0)
  }

  lemma {:induction false} AvailableIdsMeaning(records: Records)
    ensures forall v :: v in AvailableIds(records) <==> exists i :: 0 <= i < |records| && records[i].key == v && records[i].value.status == AvailableVersion
  {
    if records != [] {
      var n := |records| - 1;
      AvailableIdsMeaning(records[..n]);
      assert forall i :: 0 <= i < n ==> records[..n][i] == records[i];
    }
  }

  lemma LastStages(files: seq<RawSourceFile>, o: Options)
    requires AfterStages(files, o, 4).Some?
    ensures RunPipeline(files, o).Some?
    ensures var four, p := AfterStages(files, o, 4).value, RunPipeline(files, o).value;
            && p.documents == four.documents && p.chunks == four.chunks && p.embedding == four.embedding
            && p.snapshot == Returned(p.documents, p.embedding, o)
            && (p.persisted.Some? <==> p.embedding.failed == 0)
            && |p.results| == 6 && p.results[..4] == four.results
            && (p.results[4].status == StageCompleted <==> p.embedding.failed == 0 && StoreCompletes(p.documents, p.embedding.records, o))
            && (p.results[5].status == StageCompleted <==>
                  p.results[4].status == StageCompleted && EventsWith(p.snapshot.indexEvents, FailedEvent) == [])
            && (p.persisted.Some? ==>
                  var persist := Persist(p.documents, p.embedding.records, o.previous, o.failBefore);
                  && p.persisted.value.persistedEmbeddingCount == persist.persistedEmbeddingCount
                  && p.persisted.value.duplicateEmbeddingCount == persist.duplicateEmbeddingCount
                  && (!persist.partialFailure ==> p.persisted.value == persist))
            && (p.persisted.Some? ==> StoreReported(p.persisted.value, p.results[4], p.documents, p.embedding.records, o))
            && (p.results[4].status == StageCompleted ==> IndexReported(p.results[5], p.snapshot))
  {
    hide NormalizeAll, ChunkAll, RunStage, Persist, Recover, ApplyIndexUpdate, EventsWith, AvailableIds, StageStep;
    FourStages(files, o);
    var p := AfterStages(files, o, 4).value;
    assert AfterStages(files, o, 5) == StageStep(files, o, p, KnowledgeStoreStage);
    StoreStep(files, o, p);
    var q := AfterStages(files, o, 5).value;
    assert AfterStages(files, o, 6) == StageStep(files, o, q, IndexUpdate);
    IndexStep(files, o, q);
  }

  lemma StoreStep(files: seq<RawSourceFile>, o: Options, p: Progress)
    requires EmbeddingGenerator in p.statuses && p.snapshot == o.previous && p.persisted == None
    ensures StageStep(files, o, p, KnowledgeStoreStage).Some?
    ensures var q := StageStep(files, o, p, KnowledgeStoreStage).value;
            && q.documents == p.documents && q.chunks == p.chunks && q.embedding == p.embedding
            && KnowledgeStoreStage in q.statuses && |q.results| == |p.results| + 1 && q.results[..|p.results|] == p.results
            && q.results[|p.results|].status == q.statuses[KnowledgeStoreStage]
            && (if p.statuses[EmbeddingGenerator] != StageCompleted
                then q.snapshot == p.snapshot && q.persisted == None && q.statuses[KnowledgeStoreStage] == StageSkipped
                else
                  var persist := Persist(p.documents, p.embedding.records, o.previous, o.failBefore);
                  && q.snapshot == StoredBy(p.documents, p.embedding.records, o)
                  && (q.statuses[KnowledgeStoreStage] == StageCompleted <==> StoreCompletes(p.documents, p.embedding.records, o))
                  && q.persisted.Some? && q.persisted.value.persistedEmbeddingCount == persist.persistedEmbeddingCount
                  && q.persisted.value.duplicateEmbeddingCount == persist.duplicateEmbeddingCount
                  && (!persist.partialFailure ==> q.persisted.value == persist)
                  && StoreReported(q.persisted.value, q.results[|p.results|], p.documents, p.embedding.records, o))
  {
    hide Persist, Recover, AvailableIds;
  }

  lemma IndexStep(files: seq<RawSourceFile>, o: Options, p: Progress)
    requires KnowledgeStoreStage in p.statuses
    ensures StageStep(files, o, p, IndexUpdate).Some?
    ensures var q := StageStep(files, o, p, IndexUpdate).value;
            && q.documents == p.documents && q.chunks == p.chunks && q.embedding == p.embedding && q.persisted == p.persisted
            && |q.results| == |p.results| + 1 && q.results[..|p.results|] == p.results
            && q.snapshot == (if p.statuses[KnowledgeStoreStage] == StageCompleted then ApplyIndexUpdate(p.snapshot, o.failVersionIds)
                              else p.snapshot)
            && (q.results[|p.results|].status == StageCompleted <==>
                  p.statuses[KnowledgeStoreStage] == StageCompleted && EventsWith(q.snapshot.indexEvents, FailedEvent) == [])
            && (p.statuses[KnowledgeStoreStage] == StageCompleted ==> IndexReported(q.results[|p.results|], q.snapshot))
  {
    hide ApplyIndexUpdate, EventsWith;
  }

  // ---------------------------------------------------------------- documents and chunks

  /** Files whose paths agree up to slashes hold the same text: distinct paths guarantee it. */
  ghost predicate OneContentPerPath(files: seq<RawSourceFile>) {
    forall f, g :: f in files && g in files && ForwardSlashes(f.filePath) == ForwardSlashes(g.filePath)
      ==> NormalizeWhitespace(f.content) == NormalizeWhitespace(g.content)
  }

  lemma DistinctPathsSuffice(files: seq<RawSourceFile>)
    requires forall i, j :: 0 <= i < j < |files| ==> ForwardSlashes(files[i].filePath) != ForwardSlashes(files[j].filePath)
    ensures OneContentPerPath(files)
  {
  }

  ghost predicate FromFile(d: Document, files: seq<RawSourceFile>, organizationId: string) {
    exists f :: f in files && NormalizeSourceFile(f, organizationId) == Some(d)
  }

  lemma {:induction false} DocumentsComeFromFiles(files: seq<RawSourceFile>, organizationId: string)
    ensures forall d :: d in NormalizeAll(files, organizationId) ==> FromFile(d, files, organizationId)
  {
    hide NormalizeSourceFile;
    if files != [] {
      DocumentsComeFromFiles(files[..|files| - 1], organizationId);
      forall d | d in NormalizeAll(files, organizationId) ensures FromFile(d, files, organizationId) {
        if NormalizeSourceFile(files[|files| - 1], organizationId) != Some(d) {
          assert FromFile(d, files[..|files| - 1], organizationId);
          var f :| f in files[..|files| - 1] && NormalizeSourceFile(f, organizationId) == Some(d);
          assert f in files;
        }
      }
    }
  }

  lemma FilesGiveOneVersionEach(files: seq<RawSourceFile>, organizationId: string)
    requires OneContentPerPath(files)
    ensures OneVersionEach(NormalizeAll(files, organizationId))
  {
    hide NormalizeWhitespace, LastSegment, NormalizeAll;
    DocumentsComeFromFiles(files, organizationId);
    var documents := NormalizeAll(files, organizationId);
    forall i, j | 0 <= i < |documents| && 0 <= j < |documents| && documents[i].documentId == documents[j].documentId
      ensures documents[i].version == documents[j].version
    {
      assert FromFile(documents[i], files, organizationId) && FromFile(documents[j], files, organizationId);
      var f :| f in files && NormalizeSourceFile(f, organizationId) == Some(documents[i]);
      var g :| g in files && NormalizeSourceFile(g, organizationId) == Some(documents[j]);
    }
  }

  /** Normalized and not empty. */
  ghost predicate Visible(d: Document) {
    d.content != "" && !IsSpace(d.content[0])
  }

  lemma {:induction false} DocumentsAreVisible(files: seq<RawSourceFile>, organizationId: string)
    ensures forall d :: d in NormalizeAll(files, organizationId) ==> Visible(d)
  {
    hide NormalizeAll, NormalizeWhitespace;
    DocumentsComeFromFiles(files, organizationId);
    forall d | d in NormalizeAll(files, organizationId) ensures Visible(d) {
      var f :| f in files && NormalizeSourceFile(f, organizationId) == Some(d);
      NormalizeIsNormal(f.content);
    }
  }

  ghost predicate ChunkOfSome(c: Chunk, documents: seq<Document>) {
    c.documentId == c.chunkId.documentId && c.version == c.chunkId.version && ForSome(documents, c.documentId, c.version)
  }

  ghost predicate HasChunk(chunks: seq<Chunk>, d: Document) {
    exists i :: 0 <= i < |chunks| && chunks[i].documentId == d.documentId && chunks[i].version == d.version
  }

  lemma OwnChunks(d: Document, size: int, overlap: int)
    requires Visible(d) && Chunks(d, size, overlap).Some?
    ensures var chunks := Chunks(d, size, overlap).value;
            chunks != [] && forall i :: 0 <= i < |chunks| ==> ChunkOfSome(chunks[i], [d])
    ensures HasChunk(Chunks(d, size, overlap).value, d)
  {
    ChunksUnfold(d, size, overlap);
    hide Chunks;
    VisibleDocumentHasChunk(d, size, overlap);
    ChunksAreWellFormed(d, size, overlap);
    var chunks := Chunks(d, size, overlap).value;
    forall i | 0 <= i < |chunks| ensures ChunkOfSome(chunks[i], [d]) {
      assert WellFormed(chunks[i], d, i, size);
      assert d in [d];
    }
    assert WellFormed(chunks[0], d, 0, size);
  }

  lemma MoreChunks(a: seq<Chunk>, b: seq<Chunk>, earlier: seq<Document>, d: Document)
    requires forall i :: 0 <= i < |a| ==> ChunkOfSome(a[i], earlier)
    requires forall i :: 0 <= i < |b| ==> ChunkOfSome(b[i], [d])
    requires (forall x :: x in earlier ==> HasChunk(a, x)) && HasChunk(b, d)
    ensures forall i :: 0 <= i < |a + b| ==> ChunkOfSome((a + b)[i], earlier + [d])
    ensures forall x :: x in earlier + [d] ==> HasChunk(a + b, x)
  {
    forall i | 0 <= i < |a + b| ensures ChunkOfSome((a + b)[i], earlier + [d]) {
      var c := (a + b)[i];
      if i < |a| {
        var x :| x in earlier && x.documentId == c.documentId && x.version == c.version;
        assert x in earlier + [d];
      } else {
        assert d in earlier + [d];
      }
    }
    forall x | x in earlier + [d] ensures HasChunk(a + b, x) {
      if HasChunk(a, x) {
        var i :| 0 <= i < |a| && a[i].documentId == x.documentId && a[i].version == x.version;
        assert (a + b)[i] == a[i];
      } else {
        var i :| 0 <= i < |b| && b[i].documentId == x.documentId && b[i].version == x.version;
        assert (a + b)[|a| + i] == b[i];
      }
    }
  }

  /** No document goes without a chunk, no chunk is for anything but a document. */
  lemma {:induction false} ChunkPassIsSound(documents: seq<Document>, size: int, overlap: int)
    requires ChunkAll(documents, size, overlap).Some?
    requires forall d :: d in documents ==> Visible(d)
    ensures var pass := ChunkAll(documents, size, overlap).value;
            && pass.failed == 0
            && (forall i :: 0 <= i < |pass.chunks| ==> ChunkOfSome(pass.chunks[i], documents))
            && (forall d :: d in documents ==> HasChunk(pass.chunks, d))
  {
    hide Chunks, Visible, ChunkOfSome, HasChunk;
    if documents != [] {
      var n := |documents| - 1;
      SplitLast(documents);
      ChunkPassIsSound(documents[..n], size, overlap);
      OwnChunks(documents[n], size, overlap);
      MoreChunks(ChunkAll(documents[..n], size, overlap).value.chunks, Chunks(documents[n], size, overlap).value,
                 documents[..n], documents[n]);
    }
  }

  /** Whatever the files hold: each is counted once by the normalizer, and none fails in the chunk stage. */
  lemma AcceptedDocumentsAlwaysChunk(files: seq<RawSourceFile>, o: Options)
    requires RunPipeline(files, o).Some?
    ensures var r := RunPipeline(files, o).value.results;
            && |r| == 6 && r[1].stage == NormalizerStage && r[2].stage == ChunkBuilder
            && r[1].processed + r[1].failed == |files| && r[2].failed == 0
  {
    hide NormalizeAll, ChunkAll, RunStage, RunPipeline;
    ReachesFour(files, o);
    FourStages(files, o);
    LastStages(files, o);
    var documents := NormalizeAll(files, o.organizationId);
    DocumentsAreVisible(files, o.organizationId);
    ChunkPassIsSound(documents, o.maxChunkSize, o.overlap);
    var r, four := RunPipeline(files, o).value.results, AfterStages(files, o, 4).value.results;
    assert r[1] == r[..4][1] && r[2] == r[..4][2];
  }

  lemma ReachesFour(files: seq<RawSourceFile>, o: Options)
    requires RunPipeline(files, o).Some?
    ensures AfterStages(files, o, 4).Some?
  {
    if AfterStages(files, o, 4).None? {
      StageErrorIsFinal(files, o, 4, 6);
    }
  }

  // ---------------------------------------------------------------- consistency over runs

  ghost predicate AllWellFormed(records: seq<EmbeddingRecord>) {
    forall r :: r in records ==> WellFormedRecord(r)
  }

  /** Without failures the embedding stage hands over a record for every document, and for nothing else. */
  lemma BatchIsCovering(files: seq<RawSourceFile>, o: Options)
    requires RunPipeline(files, o).Some? && AllWellFormed(o.existingRecords)
    requires RunPipeline(files, o).value.embedding.failed == 0
    ensures var p := RunPipeline(files, o).value;
            CoveringBatch(p.documents, p.embedding.records) && p.documents == NormalizeAll(files, o.organizationId)
  {
    hide *;
    ReachesFour(files, o);
    FourStages(files, o);
    LastStages(files, o);
    DocumentsAreVisible(files, o.organizationId);
    var p := RunPipeline(files, o).value;
    ChunkPassIsSound(p.documents, o.maxChunkSize, o.overlap);
    StageBatchIsCovering(p.documents, p.chunks, o);
  }

  lemma BatchIsComplete(files: seq<RawSourceFile>, o: Options)
    requires RunPipeline(files, o).Some? && OneContentPerPath(files) && AllWellFormed(o.existingRecords)
    requires RunPipeline(files, o).value.embedding.failed == 0
    ensures var p := RunPipeline(files, o).value; CompleteBatch(p.documents, p.embedding.records)
  {
    hide RunPipeline, OneContentPerPath, AllWellFormed, OneVersionEach, CoveringBatch;
    BatchIsCovering(files, o);
    FilesGiveOneVersionEach(files, o.organizationId);
  }

  lemma {:induction false} StageBatchIsCovering(documents: seq<Document>, chunks: seq<Chunk>, o: Options)
    requires AllWellFormed(o.existingRecords)
    requires forall i :: 0 <= i < |chunks| ==> ChunkOfSome(chunks[i], documents)
    requires forall d :: d in documents ==> HasChunk(chunks, d)
    requires RunStage(chunks, o.provider, o.maxRetries, o.existingRecords, o.cancelledJobIds).failed == 0
    ensures CoveringBatch(documents, RunStage(chunks, o.provider, o.maxRetries, o.existingRecords, o.cancelledJobIds).records)
  {
    hide RunStage, WellFormedRecord, Covers, HasChunk;
    RecordsFollowChunks(chunks, o.provider, o.maxRetries, o.existingRecords, o.cancelledJobIds);
    RecordsAreWellFormed(chunks, o.provider, o.maxRetries, o.existingRecords, o.cancelledJobIds);
    RecordsCoverDocuments(documents, chunks, RunStage(chunks, o.provider, o.maxRetries, o.existingRecords, o.cancelledJobIds).records);
  }

  lemma RecordsCoverDocuments(documents: seq<Document>, chunks: seq<Chunk>, records: seq<EmbeddingRecord>)
    requires forall i :: 0 <= i < |chunks| ==> ChunkOfSome(chunks[i], documents)
    requires forall d :: d in documents ==> HasChunk(chunks, d)
    requires |records| == |chunks| && AllWellFormed(records)
    requires forall i :: 0 <= i < |chunks| ==> records[i].embeddingId == EmbeddingIdFor(chunks[i])
    ensures forall r :: r in records ==> ForSome(documents, r.documentId, r.version)
    ensures forall d :: d in documents ==> Covers(records, d)
  {
    forall i | 0 <= i < |records| ensures records[i].documentId == chunks[i].documentId && records[i].version == chunks[i].version {
      assert WellFormedRecord(records[i]) && ChunkOfSome(chunks[i], documents);
    }
    forall d | d in documents ensures Covers(records, d) {
      var i :| 0 <= i < |chunks| && chunks[i].documentId == d.documentId && chunks[i].version == d.version;
      assert records[i] in records;
    }
  }

  lemma RecoverKeepsCounts(s: Snapshot)
    ensures AllCounted(Recover(s).records, Recover(s).embeddings) <==> AllCounted(s.records, s.embeddings)
  {
    hide CountFor, AddMissingEvents;
    var recovered := Recover(s).records;
    assert forall i :: 0 <= i < |s.records| ==> (Counted(recovered[i], s.embeddings) <==> Counted(s.records[i], s.embeddings));
  }

  lemma InconsistentCounts(s: Snapshot, failVersionIds: set<VersionId>)
    requires !AllCounted(s.records, s.embeddings)
    ensures !Consistent(s) && !Consistent(ApplyIndexUpdate(s, failVersionIds))
  {
  }

  /** LosersAreSettled, asked of the chunks that the batch is going to have rather than of their embeddings. */
  ghost predicate LosersAreChunkedBefore(documents: seq<Document>, chunks: seq<Chunk>, s: Snapshot) {
    forall d :: d in documents ==>
      Wins(d, documents) || (Has(s.records, VersionIdFor(d)) && ChunkedBefore(d, chunks, s.embeddings))
  }

  ghost predicate ChunkedBefore(d: Document, chunks: seq<Chunk>, embeddings: Embeddings) {
    forall c :: c in chunks && c.documentId == d.documentId && c.version == d.version ==> Has(embeddings, EmbeddingIdFor(c))
  }

  /** A record is for the document and version of its chunk, and has the id that the chunk gives it. */
  ghost predicate ForChunk(r: EmbeddingRecord, c: Chunk) {
    r.embeddingId == EmbeddingIdFor(c) && r.documentId == c.documentId && r.version == c.version
  }

  ghost predicate ForChunks(records: seq<EmbeddingRecord>, chunks: seq<Chunk>) {
    |records| == |chunks| && forall i :: 0 <= i < |chunks| ==> ForChunk(records[i], chunks[i])
  }

  lemma NothingNewByChunks(d: Document, chunks: seq<Chunk>, records: seq<EmbeddingRecord>, embeddings: Embeddings)
    requires ForChunks(records, chunks)
    ensures NothingNew(d.documentId, d.version, records, embeddings) <==> ChunkedBefore(d, chunks, embeddings)
  {
    hide Has, EmbeddingIdFor;
    if NothingNew(d.documentId, d.version, records, embeddings) {
      forall c | c in chunks && c.documentId == d.documentId && c.version == d.version ensures Has(embeddings, EmbeddingIdFor(c)) {
        var i :| 0 <= i < |chunks| && chunks[i] == c;
        assert ForChunk(records[i], chunks[i]) && records[i] in records;
      }
    }
    if ChunkedBefore(d, chunks, embeddings) {
      forall r | r in records && r.documentId == d.documentId && r.version == d.version ensures Has(embeddings, r.embeddingId) {
        var i :| 0 <= i < |records| && records[i] == r;
        assert ForChunk(records[i], chunks[i]) && chunks[i] in chunks;
      }
    }
  }

  lemma SettledByChunks(documents: seq<Document>, chunks: seq<Chunk>, records: seq<EmbeddingRecord>, s: Snapshot)
    requires ForChunks(records, chunks)
    ensures LosersAreSettled(documents, records, s) <==> LosersAreChunkedBefore(documents, chunks, s)
  {
    hide Wins, NothingNew, ChunkedBefore, ForChunks;
    forall d | d in documents
      ensures NothingNew(d.documentId, d.version, records, s.embeddings) <==> ChunkedBefore(d, chunks, s.embeddings)
    {
      NothingNewByChunks(d, chunks, records, s.embeddings);
    }
  }

  lemma StageFollowsChunks(documents: seq<Document>, chunks: seq<Chunk>, o: Options)
    requires AllWellFormed(o.existingRecords)
    requires forall i :: 0 <= i < |chunks| ==> ChunkOfSome(chunks[i], documents)
    requires RunStage(chunks, o.provider, o.maxRetries, o.existingRecords, o.cancelledJobIds).failed == 0
    ensures ForChunks(RunStage(chunks, o.provider, o.maxRetries, o.existingRecords, o.cancelledJobIds).records, chunks)
  {
    hide RunStage, ForSome;
    var records := RunStage(chunks, o.provider, o.maxRetries, o.existingRecords, o.cancelledJobIds).records;
    RecordsFollowChunks(chunks, o.provider, o.maxRetries, o.existingRecords, o.cancelledJobIds);
    RecordsAreWellFormed(chunks, o.provider, o.maxRetries, o.existingRecords, o.cancelledJobIds);
    forall i | 0 <= i < |chunks| ensures ForChunk(records[i], chunks[i]) {
      assert records[i] in records && ChunkOfSome(chunks[i], documents);
    }
  }

  lemma RunFollowsChunks(files: seq<RawSourceFile>, o: Options)
    requires RunPipeline(files, o).Some? && RunPipeline(files, o).value.embedding.failed == 0 && AllWellFormed(o.existingRecords)
    ensures var p, pass := RunPipeline(files, o).value, ChunkAll(NormalizeAll(files, o.organizationId), o.maxChunkSize, o.overlap);
            && p.documents == NormalizeAll(files, o.organizationId) && pass.Some? && p.chunks == pass.value.chunks
            && ForChunks(p.embedding.records, p.chunks)
  {
    hide RunPipeline, NormalizeAll, ChunkAll, RunStage, Visible, ChunkOfSome, HasChunk, ForChunks, AllWellFormed, Returned, StoreCompletes;
    ReachesFour(files, o);
    FourStages(files, o);
    LastStages(files, o);
    DocumentsAreVisible(files, o.organizationId);
    var p := RunPipeline(files, o).value;
    ChunkPassIsSound(p.documents, o.maxChunkSize, o.overlap);
    StageFollowsChunks(p.documents, p.chunks, o);
  }

  /**
   * The condition of PersistKeepsConsistentExactly for a whole run, on what can be worked
   * out before it: the documents and the chunks of its files.
   */
  lemma RunKeepsConsistentExactly(files: seq<RawSourceFile>, o: Options)
    requires RunPipeline(files, o).Some? && RunPipeline(files, o).value.embedding.failed == 0
    requires AllWellFormed(o.existingRecords) && Consistent(o.previous)
    ensures ChunkAll(NormalizeAll(files, o.organizationId), o.maxChunkSize, o.overlap).Some?
    ensures Consistent(RunPipeline(files, o).value.snapshot)
            <==> LosersAreChunkedBefore(NormalizeAll(files, o.organizationId),
                                        ChunkAll(NormalizeAll(files, o.organizationId), o.maxChunkSize, o.overlap).value.chunks, o.previous)
  {
    hide RunPipeline, AllWellFormed, Consistent, LosersAreSettled, LosersAreChunkedBefore, ForChunks, NormalizeAll, ChunkAll;
    RunConsistentIfSettled(files, o);
    RunFollowsChunks(files, o);
    var p := RunPipeline(files, o).value;
    SettledByChunks(p.documents, p.chunks, p.embedding.records, o.previous);
  }

  /**
   * A run that embedded everything keeps the snapshot consistent, whatever the store and the
   * index do, exactly when every passed-over version was settled before.
   */
  lemma RunConsistentIfSettled(files: seq<RawSourceFile>, o: Options)
    requires RunPipeline(files, o).Some? && RunPipeline(files, o).value.embedding.failed == 0
    requires AllWellFormed(o.existingRecords) && Consistent(o.previous)
    ensures var p := RunPipeline(files, o).value;
            Consistent(p.snapshot) <==> LosersAreSettled(p.documents, p.embedding.records, o.previous)
  {
    hide RunPipeline, AllWellFormed, CoveringBatch, Consistent, Persist, Recover, ApplyIndexUpdate, LosersAreSettled, AllCounted;
    ReachesFour(files, o);
    LastStages(files, o);
    BatchIsCovering(files, o);
    var p := RunPipeline(files, o).value;
    PersistKeepsConsistentExactly(p.documents, p.embedding.records, o.previous, o.failBefore);
    var persist := Persist(p.documents, p.embedding.records, o.previous, o.failBefore);
    RecoverKeepsCounts(persist.snapshot);
    var stored := StoredBy(p.documents, p.embedding.records, o);
    if LosersAreSettled(p.documents, p.embedding.records, o.previous) {
      if persist.partialFailure && o.autoRecover {
        RecoverKeepsConsistent(persist.snapshot);
      }
      IndexKeepsConsistent(stored, o.failVersionIds);
    } else {
      InconsistentCounts(stored, o.failVersionIds);
    }
  }

  /** With one text for each path a run that does not throw keeps the snapshot consistent, even when embedding fails. */
  lemma RunKeepsConsistent(files: seq<RawSourceFile>, o: Options)
    requires RunPipeline(files, o).Some? && OneContentPerPath(files) && AllWellFormed(o.existingRecords)
    requires Consistent(o.previous)
    ensures Consistent(RunPipeline(files, o).value.snapshot)
  {
    hide RunPipeline, OneContentPerPath, AllWellFormed, Consistent, Wins, OneVersionEach;
    var p := RunPipeline(files, o).value;
    if p.embedding.failed == 0 {
      RunConsistentIfSettled(files, o);
      BatchIsComplete(files, o);
      OnlyVersionWins(p.documents);
    } else {
      FailedEmbeddingStoresNothing(files, o);
    }
  }

  datatype Batch = Batch(files: seq<RawSourceFile>, options: Options)

  /** The snapshot after a list of runs, each given the one before; a run that throws leaves it. */
  function Threaded(runs: seq<Batch>): Snapshot {
    if runs == [] then EMPTY_SNAPSHOT
    else
      var before, run := Threaded(runs[..|runs| - 1]), runs[|runs| - 1];
      var output := RunPipeline(run.files, run.options.(previous := before));
      if output.Some? then output.value.snapshot else before
  }

  /** Every list of runs from the empty snapshot leaves a consistent one. */
  lemma {:induction false} EveryRunConsistent(runs: seq<Batch>)
    requires forall run :: run in runs ==> OneContentPerPath(run.files) && AllWellFormed(run.options.existingRecords)
    ensures Consistent(Threaded(runs))
  {
    hide RunPipeline, OneContentPerPath, AllWellFormed;
    if runs != [] {
      hide Consistent;
      var run := runs[|runs| - 1];
      EveryRunConsistent(runs[..|runs| - 1]);
      var before := Threaded(runs[..|runs| - 1]);
      if RunPipeline(run.files, run.options.(previous := before)).Some? {
        assert run in runs;
        RunKeepsConsistent(run.files, run.options.(previous := before));
      }
    }
  }

  /** In particular when no two files of a batch have the same path. */
  lemma DistinctPathsStayConsistent(runs: seq<Batch>)
    requires forall run :: run in runs ==> AllWellFormed(run.options.existingRecords)
    requires forall run :: run in runs ==>
               forall i, j :: 0 <= i < j < |run.files| ==> ForwardSlashes(run.files[i].filePath) != ForwardSlashes(run.files[j].filePath)
    ensures Consistent(Threaded(runs))
  {
    hide Threaded, Consistent, AllWellFormed, OneContentPerPath;
    forall run | run in runs ensures OneContentPerPath(run.files) {
      DistinctPathsSuffice(run.files);
    }
    EveryRunConsistent(runs);
  }

  /** A run whose embedding stage failed stores nothing: it returns the snapshot it was given. */
  lemma FailedEmbeddingStoresNothing(files: seq<RawSourceFile>, o: Options)
    requires RunPipeline(files, o).Some? && RunPipeline(files, o).value.embedding.failed > 0
    ensures var p := RunPipeline(files, o).value;
            && p.snapshot == o.previous && p.persisted == None && |p.results| == 6
            && p.results[3].status == StageFailed && p.results[4].status == StageSkipped && p.results[5].status == StageSkipped
  {
    hide NormalizeAll, ChunkAll, RunStage, Persist, Recover, ApplyIndexUpdate, EventsWith;
    ReachesFour(files, o);
    FourStages(files, o);
    LastStages(files, o);
    var cut := StatusShape(files, o, 6);
    var p := RunPipeline(files, o).value;
    assert p.results[3] == p.results[..4][3];
  }

  /** With nothing injected, nothing failed before and everything embedded, all stages complete and every document's version is available. */
  lemma UninjectedRunCompletes(files: seq<RawSourceFile>, o: Options)
    requires RunPipeline(files, o).Some? && RunPipeline(files, o).value.embedding.failed == 0
    requires OneContentPerPath(files) && AllWellFormed(o.existingRecords) && Consistent(o.previous)
    requires !o.failBefore && o.failVersionIds == {} && NoneFailedYet(o.previous.indexEvents)
    ensures var p := RunPipeline(files, o).value;
            && EveryStageCompleted(p) && p.persisted.Some?
            && forall v :: v in p.persisted.value.availableVersionIds <==> IsVersionOf(v, NormalizeAll(files, o.organizationId))
  {
    hide RunPipeline, OneContentPerPath, AllWellFormed, CompleteBatch, Consistent, Persist, Recover, EventsWith, NoneFailedYet, NormalizeAll, ChunkAll,
         RunStage, IsVersionOf, AvailableIds;
    ReachesFour(files, o);
    FourStages(files, o);
    LastStages(files, o);
    BatchIsComplete(files, o);
    var p := RunPipeline(files, o).value;
    CompleteBatchReports(p.documents, p.embedding.records, o.previous, false);
    NothingFailsUnasked(p.documents, p.embedding.records, o.previous, false);
    NoneWithExactly(p.snapshot.indexEvents, FailedEvent);
    assert forall i :: 0 <= i < 4 ==> p.results[i] == p.results[..4][i];
  }

  // ---------------------------------------------------------------- when two versions share a path

  /** The first run of all leaves a consistent snapshot exactly when no document comes with two texts. */
  lemma FirstRunConsistentExactly(files: seq<RawSourceFile>, o: Options)
    requires RunPipeline(files, o).Some? && RunPipeline(files, o).value.embedding.failed == 0
    requires AllWellFormed(o.existingRecords) && o.previous == EMPTY_SNAPSHOT
    ensures Consistent(RunPipeline(files, o).value.snapshot) <==> OneVersionEach(NormalizeAll(files, o.organizationId))
  {
    hide RunPipeline, AllWellFormed, Wins, OneVersionEach, NothingNew, CoveringBatch;
    BatchIsCovering(files, o);
    RunConsistentIfSettled(files, o);
    var p := RunPipeline(files, o).value;
    OneVersionEachExactly(p.documents);
    if LosersAreSettled(p.documents, p.embedding.records, o.previous) {
      forall d | d in p.documents ensures Wins(d, p.documents) {
        assert !Has(o.previous.records, VersionIdFor(d));
      }
    }
  }

  lemma {:induction false} ValidOptionsChunkAll(documents: seq<Document>, size: int, overlap: int)
    requires ValidOptions(size, overlap)
    ensures ChunkAll(documents, size, overlap).Some?
    ensures forall c :: c in ChunkAll(documents, size, overlap).value.chunks ==> c.text != ""
  {
    hide Chunks;
    if documents != [] {
      var n := |documents| - 1;
      ValidOptionsChunkAll(documents[..n], size, overlap);
      ChunksAreWellFormed(documents[n], size, overlap);
      var built := Chunks(documents[n], size, overlap).value;
      forall c | c in built ensures c.text != "" {
        var i :| 0 <= i < |built| && built[i] == c;
        assert WellFormed(built[i], documents[n], i, size);
      }
    }
  }

  /** A provider that always answers embeds every chunk that holds text. */
  lemma {:induction false} AnsweringProviderEmbedsAll(chunks: seq<Chunk>, provider: Provider, maxRetries: int)
    requires maxRetries >= 0 && forall n: nat :: provider(n).Vector? && |provider(n).digest| >= 8
    requires forall c :: c in chunks ==> c.text != ""
    ensures RunStage(chunks, provider, maxRetries, [], {}).failed == 0
  {
    if chunks != [] {
      AnsweringProviderEmbedsAll(chunks[..|chunks| - 1], provider, maxRetries);
      AttemptsUnfold(provider, RunStage(chunks[..|chunks| - 1], provider, maxRetries, [], {}).calls, 0, maxRetries, [Pending], None);
    }
  }

  /** Two files that differ in the slash and in the text, embedded without a failure, leave a record that counts nothing. */
  lemma SharedPathExample(o: Options)
    requires o.organizationId != "" && ValidOptions(o.maxChunkSize, o.overlap) && o.maxRetries >= 0
    requires o.previous == EMPTY_SNAPSHOT && o.existingRecords == [] && o.cancelledJobIds == {}
    requires forall n: nat :: o.provider(n).Vector? && |o.provider(n).digest| >= 8
    ensures var files := [RawSourceFile("a\\b", "x"), RawSourceFile("a/b", "y")];
            && RunPipeline(files, o).Some? && RunPipeline(files, o).value.embedding.failed == 0
            && !Consistent(RunPipeline(files, o).value.snapshot)
  {
    var files := [RawSourceFile("a\\b", "x"), RawSourceFile("a/b", "y")];
    hide RunPipeline, NormalizeAll, ChunkAll, RunStage, Consistent, OneVersionEach, AfterStages;
    var documents := NormalizeAll(files, o.organizationId);
    TwoVersionsOfOne(o.organizationId);
    ValidOptionsChunkAll(documents, o.maxChunkSize, o.overlap);
    AnsweringProviderEmbedsAll(ChunkAll(documents, o.maxChunkSize, o.overlap).value.chunks, o.provider, o.maxRetries);
    FourStages(files, o);
    LastStages(files, o);
    FirstRunConsistentExactly(files, o);
  }

  lemma TwoVersionsOfOne(organizationId: string)
    requires organizationId != ""
    ensures !OneVersionEach(NormalizeAll([RawSourceFile("a\\b", "x"), RawSourceFile("a/b", "y")], organizationId))
  {
    var f, g := RawSourceFile("a\\b", "x"), RawSourceFile("a/b", "y");
    hide NormalizeWhitespace;
    NormalIsFixed("x");
    NormalIsFixed("y");
    assert ForwardSlashes("a\\b") == "a/b" && ForwardSlashes("a/b") == "a/b";
    assert LastSegment("a/b") == "b" by {
      assert "a/b"[..2] == "a/";
    }
    assert [f, g][..1] == [f] && [f][..0] == [];
    var documents := NormalizeAll([f, g], organizationId);
    assert NormalizeAll([f], organizationId) == [NormalizeSourceFile(f, organizationId).value];
    assert documents == [NormalizeSourceFile(f, organizationId).value, NormalizeSourceFile(g, organizationId).value];
    assert documents[0].documentId == documents[1].documentId && documents[0].version != documents[1].version;
  }

  // ---------------------------------------------------------------- replay

  ghost predicate EveryStageCompleted(p: Progress) {
    |p.results| == 6 && forall i :: 0 <= i < 6 ==> p.results[i].status == StageCompleted
  }

  /** Same files, organization and chunk options, on the other run's snapshot, with nothing injected. */
  ghost predicate Replays(o: Options, first: Options, snapshot: Snapshot) {
    && o.previous == snapshot && o.organizationId == first.organizationId
    && o.maxChunkSize == first.maxChunkSize && o.overlap == first.overlap
    && !o.failBefore && o.failVersionIds == {}
  }

  lemma {:induction false} NoneWithExactly(events: Events, status: EventStatus)
    ensures EventsWith(events, status) == [] <==> forall k :: 0 <= k < |events| ==> events[k].value.status != status
  {
    if events != [] {
      var n := |events| - 1;
      NoneWithExactly(events[..n], status);
      assert forall k :: 0 <= k < n ==> events[..n][k] == events[k];
    }
  }

  lemma SuccessfulRunIsAbsorbed(files: seq<RawSourceFile>, o: Options)
    requires RunPipeline(files, o).Some? && OneContentPerPath(files) && AllWellFormed(o.existingRecords)
    requires Consistent(o.previous) && EveryStageCompleted(RunPipeline(files, o).value)
    ensures var p := RunPipeline(files, o).value;
            && p.embedding.failed == 0 && Consistent(p.snapshot) && Absorbed(p.documents, p.embedding.records, p.snapshot)
  {
    hide RunPipeline, OneContentPerPath, AllWellFormed, CompleteBatch, Consistent, Absorbed, Persist, Recover, EventsWith;
    ReachesFour(files, o);
    LastStages(files, o);
    BatchIsComplete(files, o);
    var p := RunPipeline(files, o).value;
    NoneWithExactly(p.snapshot.indexEvents, FailedEvent);
    StoredAgrees(p.documents, p.embedding.records, o);
    SuccessIsAbsorbed(p.documents, p.embedding.records, o.previous, o.failBefore, o.failVersionIds);
  }

  lemma StoredAgrees(documents: seq<Document>, batch: seq<EmbeddingRecord>, o: Options)
    requires StoreCompletes(documents, batch, o)
    ensures StoredBy(documents, batch, o) == Stored(documents, batch, o.previous, o.failBefore)
  {
  }

  lemma SameDocumentsAndIds(files: seq<RawSourceFile>, first: Options, o: Options)
    requires RunPipeline(files, first).Some? && Replays(o, first, RunPipeline(files, first).value.snapshot)
    requires RunPipeline(files, first).value.embedding.failed == 0
    ensures RunPipeline(files, o).Some?
    ensures var p, q := RunPipeline(files, first).value, RunPipeline(files, o).value;
            && q.documents == p.documents && q.chunks == p.chunks
            && (q.embedding.failed == 0 ==>
                  && |q.embedding.records| == |p.embedding.records|
                  && forall i :: 0 <= i < |q.embedding.records| ==> q.embedding.records[i].embeddingId == p.embedding.records[i].embeddingId)
  {
    hide NormalizeAll, ChunkAll, RunStage, Persist, RunPipeline, EmbeddingIdFor, Returned, EventsWith;
    ReachesFour(files, first);
    FourStages(files, first);
    LastStages(files, first);
    FourStages(files, o);
    LastStages(files, o);
    var p, q := RunPipeline(files, first).value, RunPipeline(files, o).value;
    RecordsFollowChunks(p.chunks, first.provider, first.maxRetries, first.existingRecords, first.cancelledJobIds);
    if q.embedding.failed == 0 {
      RecordsFollowChunks(q.chunks, o.provider, o.maxRetries, o.existingRecords, o.cancelledJobIds);
    }
  }

  lemma SameIdsAbsorbed(documents: seq<Document>, a: seq<EmbeddingRecord>, b: seq<EmbeddingRecord>, s: Snapshot)
    requires Absorbed(documents, a, s) && |a| == |b| && forall i :: 0 <= i < |a| ==> a[i].embeddingId == b[i].embeddingId
    ensures Absorbed(documents, b, s)
  {
    forall r | r in b ensures Has(s.embeddings, r.embeddingId) {
      var i :| 0 <= i < |b| && b[i] == r;
      assert a[i] in a;
    }
  }

  /** A run whose store changes nothing after indexing. */
  lemma ReplayedRun(files: seq<RawSourceFile>, o: Options)
    requires RunPipeline(files, o).Some? && RunPipeline(files, o).value.embedding.failed == 0 && o.failVersionIds == {} && !o.failBefore
    requires var q := RunPipeline(files, o).value;
             var persist := Persist(q.documents, q.embedding.records, o.previous, false);
             && !persist.partialFailure && ApplyIndexUpdate(persist.snapshot, {}) == o.previous
             && EventsWith(o.previous.indexEvents, FailedEvent) == []
    ensures var q := RunPipeline(files, o).value;
            var persist := Persist(q.documents, q.embedding.records, o.previous, false);
            && q.snapshot == o.previous && EveryStageCompleted(q) && q.persisted.Some?
            && q.persisted.value.persistedEmbeddingCount == persist.persistedEmbeddingCount
            && q.persisted.value.duplicateEmbeddingCount == persist.duplicateEmbeddingCount
  {
    hide RunPipeline, NormalizeAll, ChunkAll, RunStage, Persist, ApplyIndexUpdate, EventsWith;
    ReachesFour(files, o);
    FourStages(files, o);
    LastStages(files, o);
    var q := RunPipeline(files, o).value;
    assert forall i :: 0 <= i < 4 ==> q.results[i] == q.results[..4][i];
  }

  /**
   * Replaying a batch that went through all stages, on its own snapshot, with any provider
   * answers that succeed: the snapshot is the same, every embedding is a duplicate, and
   * all stages complete again, although the store put every index event back to pending.
   */
  lemma ReplayIsHarmless(files: seq<RawSourceFile>, first: Options, o: Options)
    requires RunPipeline(files, first).Some? && OneContentPerPath(files) && Consistent(first.previous)
    requires AllWellFormed(first.existingRecords) && AllWellFormed(o.existingRecords)
    requires EveryStageCompleted(RunPipeline(files, first).value)
    requires Replays(o, first, RunPipeline(files, first).value.snapshot)
    ensures RunPipeline(files, o).Some?
    ensures var p, q := RunPipeline(files, first).value, RunPipeline(files, o).value;
            q.embedding.failed == 0 ==>
              && q.snapshot == p.snapshot && EveryStageCompleted(q) && q.persisted.Some?
              && q.persisted.value.persistedEmbeddingCount == 0
              && q.persisted.value.duplicateEmbeddingCount == |q.embedding.records| == |p.embedding.records|
  {
    hide RunPipeline, OneContentPerPath, AllWellFormed, CompleteBatch, Consistent, Absorbed, Persist, Recover, EventsWith, ApplyIndexUpdate,
         EveryStageCompleted;
    SuccessfulRunIsAbsorbed(files, first);
    SameDocumentsAndIds(files, first, o);
    var p, q := RunPipeline(files, first).value, RunPipeline(files, o).value;
    if q.embedding.failed == 0 {
      BatchIsComplete(files, o);
      SameIdsAbsorbed(q.documents, p.embedding.records, q.embedding.records, p.snapshot);
      ReplayChangesNothing(q.documents, q.embedding.records, p.snapshot);
      NothingFailed(p.documents, p.embedding.records, p.snapshot);
      ReplayedRun(files, o);
    }
  }

  lemma NothingFailed(documents: seq<Document>, batch: seq<EmbeddingRecord>, s: Snapshot)
    requires Absorbed(documents, batch, s)
    ensures EventsWith(s.indexEvents, FailedEvent) == []
  {
    NoneWithExactly(s.indexEvents, FailedEvent);
  }
}
