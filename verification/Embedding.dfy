/**
 * runEmbeddingStage of scripts/lib/knowledge-ingestion-pipeline.ts: one job per chunk,
 * bounded retries, reuse of existing records, cancellation.
 */
module Embedding {
  import opened Outcomes
  import opened Knowledge

  datatype JobState = Pending | Running | Retrying | Failed | Completed | Cancelled

  datatype FailureCategory =
    | TemporaryProviderFailure | Timeout | InvalidPayload | CorruptedChunk | CancelledJob | Unknown

  /** What one provider call does; a thrown error is told by its category. */
  datatype ProviderOutcome = Vector(digest: string) | Throws(category: FailureCategory)

  /** The n-th provider call of a run answers as it likes. */
  type Provider = nat -> ProviderOutcome

  datatype EmbeddingJob = EmbeddingJob(
    jobId: JobId, organizationId: string, documentId: DocumentId, chunkIds: seq<ChunkId>, model: string)

  datatype Execution = Execution(
    jobId: JobId, chunkId: ChunkId, state: JobState, stateHistory: seq<JobState>, attemptCount: nat,
    retryable: bool, resumable: bool, errorCategory: Option<FailureCategory>)

  const MODEL := "deterministic-local-v1"
  const PARAMS := "default"

  function JobIdFor(chunk: Chunk): JobId {
    JobId(chunk.chunkId, chunk.version, MODEL, PARAMS)
  }

  function CreateJob(chunk: Chunk): EmbeddingJob {
    EmbeddingJob(JobIdFor(chunk), chunk.organizationId, chunk.documentId, [chunk.chunkId], MODEL)
  }

  function EmbeddingIdFor(chunk: Chunk): EmbeddingId {
    EmbeddingId(JobIdFor(chunk), chunk.chunkId, MODEL)
  }

  function CreateRecord(chunk: Chunk, digest: string): EmbeddingRecord {
    EmbeddingRecord(EmbeddingIdFor(chunk), chunk.chunkId, chunk.documentId, chunk.organizationId, chunk.version, MODEL, digest)
  }

  function ShouldRetry(category: FailureCategory): bool {
    category.TemporaryProviderFailure? || category.Timeout?
  }

  /** A digest below 8 characters fails the record schema, which lands in the same catch. */
  function Attempted(outcome: ProviderOutcome): ProviderOutcome {
    if outcome.Vector? && |outcome.digest| < 8 then Throws(Unknown) else outcome
  }

  // ---------------------------------------------------------------- one chunk

  datatype AttemptRun = AttemptRun(attempts: nat, stateHistory: seq<JobState>, last: Option<ProviderOutcome>)

  /** The retry loop, from `attempt` attempts already made. */
  function Attempts(provider: Provider, calls: nat, attempt: nat, maxRetries: int, history: seq<JobState>, last: Option<ProviderOutcome>):
    (run: AttemptRun)
    ensures run.attempts >= attempt
    decreases maxRetries + 1 - attempt
  {
    if attempt > maxRetries then AttemptRun(attempt, history, last)
    else
      var history' := history + if attempt == 0 then [Running] else [Retrying, Running];
      var outcome := Attempted(provider(calls));
      if outcome.Throws? && ShouldRetry(outcome.category) && attempt + 1 <= maxRetries
      then Attempts(provider, calls + 1, attempt + 1, maxRetries, history', Some(outcome))
      else AttemptRun(attempt + 1, history', Some(outcome))
  }

  datatype ChunkRun = ChunkRun(execution: Execution, record: Option<EmbeddingRecord>, calls: nat)

  function RunChunk(chunk: Chunk, provider: Provider, calls: nat, maxRetries: int,
                    existing: map<EmbeddingId, EmbeddingRecord>, cancelled: set<JobId>): ChunkRun
  {
    var job := JobIdFor(chunk);
    if EmbeddingIdFor(chunk) in existing then
      ChunkRun(Execution(job, chunk.chunkId, Completed, [Pending, Completed], 0, false, true, None),
               Some(existing[EmbeddingIdFor(chunk)]), calls)
    else if job in cancelled then
      ChunkRun(Execution(job, chunk.chunkId, Cancelled, [Pending, Running, Cancelled], 1, false, true, Some(CancelledJob)),
               None, calls)
    else if |chunk.text| == 0 then
      ChunkRun(Execution(job, chunk.chunkId, Failed, [Pending, Running, Failed], 1, false, false, Some(CorruptedChunk)),
               None, calls)
    else
      var run := Attempts(provider, calls, 0, maxRetries, [Pending], None);
      if run.last.Some? && run.last.value.Vector? then
        ChunkRun(Execution(job, chunk.chunkId, Completed, run.stateHistory + [Completed], run.attempts, false, true, None),
                 Some(CreateRecord(chunk, run.last.value.digest)), calls + run.attempts)
      else
        var category := if run.last.Some? then run.last.value.category else Unknown;
        ChunkRun(Execution(job, chunk.chunkId, Failed, run.stateHistory + [Failed], run.attempts, ShouldRetry(category),
                           category.CancelledJob? || ShouldRetry(category), Some(category)),
                 None, calls + run.attempts)
  }

  // ---------------------------------------------------------------- all chunks

  datatype StageRun = StageRun(
    jobs: seq<EmbeddingJob>, records: seq<EmbeddingRecord>, executions: seq<Execution>, failed: nat, calls: nat)

  /** The Map built from a list: of equal keys the last entry stays. */
  function ById(records: seq<EmbeddingRecord>): (m: map<EmbeddingId, EmbeddingRecord>)
    ensures forall id :: id in m ==> m[id] in records && m[id].embeddingId == id
    ensures forall r :: r in records ==> r.embeddingId in m
  {
    if records == [] then map[]
    else
      var last := records[|records| - 1];
      ById(records[..|records| - 1])[last.embeddingId := last]
  }

  function RunStage(chunks: seq<Chunk>, provider: Provider, maxRetries: int, existing: seq<EmbeddingRecord>, cancelled: set<JobId>): StageRun
  {
    if chunks == [] then StageRun([], [], [], 0, 0)
    else
      var chunk := chunks[|chunks| - 1];
      var before := RunStage(chunks[..|chunks| - 1], provider, maxRetries, existing, cancelled);
      var run := RunChunk(chunk, provider, before.calls, maxRetries, ById(existing), cancelled);
      StageRun(before.jobs + [CreateJob(chunk)],
               before.records + (if run.record.Some? then [run.record.value] else []),
               before.executions + [run.execution],
               before.failed + (if run.record.Some? then 0 else 1),
               run.calls)
  }

  lemma AttemptsUnfold(provider: Provider, calls: nat, attempt: nat, maxRetries: int, history: seq<JobState>, last: Option<ProviderOutcome>)
    requires attempt <= maxRetries
    ensures var history' := history + if attempt == 0 then [Running] else [Retrying, Running];
            var outcome := Attempted(provider(calls));
            Attempts(provider, calls, attempt, maxRetries, history, last) ==
              if outcome.Throws? && ShouldRetry(outcome.category) && attempt + 1 <= maxRetries
              then Attempts(provider, calls + 1, attempt + 1, maxRetries, history', Some(outcome))
              else AttemptRun(attempt + 1, history', Some(outcome))
  {
  }

  /** The retry loop of one job. */
  method AttemptEmbedding(provider: Provider, calls: nat, maxRetries: int) returns (run: AttemptRun)
    ensures run == Attempts(provider, calls, 0, maxRetries, [Pending], None)
  {
    var attempt := 0;
    var stateHistory := [Pending];
    var last: Option<ProviderOutcome> := None;
    while attempt <= maxRetries
      invariant Attempts(provider, calls, 0, maxRetries, [Pending], None) ==
                Attempts(provider, calls + attempt, attempt, maxRetries, stateHistory, last)
      invariant 0 <= attempt
      decreases maxRetries - attempt
    {
      AttemptsUnfold(provider, calls + attempt, attempt, maxRetries, stateHistory, last);
      var outcome := Attempted(provider(calls + attempt));
      attempt := attempt + 1;
      stateHistory := stateHistory + if attempt == 1 then [Running] else [Retrying, Running];
      last := Some(outcome);
      if outcome.Vector? {
        return AttemptRun(attempt, stateHistory, last);
      }
      if !ShouldRetry(outcome.category) || attempt > maxRetries {
        return AttemptRun(attempt, stateHistory, last);
      }
    }
    run := AttemptRun(attempt, stateHistory, last);
  }

  lemma NextChunk(chunks: seq<Chunk>, n: nat, provider: Provider, maxRetries: int, existing: seq<EmbeddingRecord>, cancelled: set<JobId>)
    requires n < |chunks|
    ensures var before := RunStage(chunks[..n], provider, maxRetries, existing, cancelled);
            var run := RunChunk(chunks[n], provider, before.calls, maxRetries, ById(existing), cancelled);
            RunStage(chunks[..n + 1], provider, maxRetries, existing, cancelled) ==
              StageRun(before.jobs + [CreateJob(chunks[n])],
                       before.records + (if run.record.Some? then [run.record.value] else []),
                       before.executions + [run.execution],
                       before.failed + (if run.record.Some? then 0 else 1),
                       run.calls)
  {
    assert chunks[..n + 1][..n] == chunks[..n];
  }

  lemma NoChunkYet(chunks: seq<Chunk>, provider: Provider, maxRetries: int, existing: seq<EmbeddingRecord>, cancelled: set<JobId>)
    ensures RunStage(chunks[..0], provider, maxRetries, existing, cancelled) == StageRun([], [], [], 0, 0)
  {
  }

  method RunEmbeddingStage(chunks: seq<Chunk>, provider: Provider, maxRetries: int, existing: seq<EmbeddingRecord>, cancelled: set<JobId>)
    returns (stage: StageRun)
    ensures stage == RunStage(chunks, provider, maxRetries, existing, cancelled)
  {
    hide RunStage, Attempts, ById, CreateJob;
    NoChunkYet(chunks, provider, maxRetries, existing, cancelled);
    var existingById := ById(existing);
    var jobs: seq<EmbeddingJob> := [];
    var records: seq<EmbeddingRecord> := [];
    var executions: seq<Execution> := [];
    var failed, calls := 0, 0;
    for i := 0 to |chunks|
      invariant failed >= 0 && calls >= 0
      invariant RunStage(chunks[..i], provider, maxRetries, existing, cancelled) == StageRun(jobs, records, executions, failed, calls)
    {
      NextChunk(chunks, i, provider, maxRetries, existing, cancelled);
      var chunk := chunks[i];
      var job := CreateJob(chunk);
      var jobId := JobIdFor(chunk);
      jobs := jobs + [job];
      if EmbeddingIdFor(chunk) in existingById {
        records := records + [existingById[EmbeddingIdFor(chunk)]];
        executions := executions + [Execution(jobId, chunk.chunkId, Completed, [Pending, Completed], 0, false, true, None)];
        continue;
      }
      if jobId in cancelled {
        failed := failed + 1;
        executions := executions + [Execution(jobId, chunk.chunkId, Cancelled, [Pending, Running, Cancelled], 1, false, true, Some(CancelledJob))];
        continue;
      }
      if |chunk.text| == 0 {
        failed := failed + 1;
        executions := executions + [Execution(jobId, chunk.chunkId, Failed, [Pending, Running, Failed], 1, false, false, Some(CorruptedChunk))];
        continue;
      }
      var run := AttemptEmbedding(provider, calls, maxRetries);
      calls := calls + run.attempts;
      if run.last.Some? && run.last.value.Vector? {
        records := records + [CreateRecord(chunk, run.last.value.digest)];
        executions := executions + [Execution(jobId, chunk.chunkId, Completed, run.stateHistory + [Completed], run.attempts, false, true, None)];
        continue;
      }
      failed := failed + 1;
      var category := if run.last.Some? then run.last.value.category else Unknown;
      executions := executions + [Execution(jobId, chunk.chunkId, Failed, run.stateHistory + [Failed], run.attempts,
                                            ShouldRetry(category), category.CancelledJob? || ShouldRetry(category), Some(category))];
    }
    assert chunks[..|chunks|] == chunks;
    stage := StageRun(jobs, records, executions, failed, calls);
  }

  // ---------------------------------------------------------------- histories

  /** k attempts: RUNNING, then RETRYING RUNNING for each further one. */
  function Runs(k: nat): seq<JobState> {
    if k == 0 then [] else if k == 1 then [Running] else Runs(k - 1) + [Retrying, Running]
  }

  /** The history of a job is PENDING, its attempts, and the state it ended in. */
  ghost predicate LawfulExecution(e: Execution, maxRetries: nat) {
    && e.stateHistory == [Pending] + Runs(e.attemptCount) + [e.state]
    && e.state in {Completed, Failed, Cancelled}
    && e.attemptCount <= maxRetries + 1
    && (e.retryable ==> e.state == Failed && e.attemptCount == maxRetries + 1)
    && (e.state == Completed <==> e.errorCategory == None)
  }

  /** A run of the loop: its calls up to the last one were retryable failures, the last one decides. */
  ghost predicate LawfulAttempts(run: AttemptRun, provider: Provider, calls: nat, maxRetries: nat) {
    && 1 <= run.attempts <= maxRetries + 1
    && run.stateHistory == [Pending] + Runs(run.attempts)
    && (forall n: nat :: calls <= n < calls + run.attempts - 1 ==> RetryableCall(provider, n))
    && run.last == Some(Attempted(provider(calls + run.attempts - 1)))
    && (RetryableCall(provider, calls + run.attempts - 1) ==> run.attempts == maxRetries + 1)
  }

  /** The call failed for a reason that passes. */
  ghost predicate RetryableCall(provider: Provider, n: nat) {
    provider(n).Throws? && Passing(provider(n).category)
  }

  ghost predicate Passing(category: FailureCategory) {
    category == TemporaryProviderFailure || category == Timeout
  }

  /** A record made for this chunk, with this digest. */
  ghost predicate MadeFrom(r: EmbeddingRecord, chunk: Chunk, digest: string) {
    && r.embeddingId == EmbeddingIdFor(chunk) && r.chunkId == chunk.chunkId && r.documentId == chunk.documentId
    && r.organizationId == chunk.organizationId && r.version == chunk.version && r.model == MODEL && r.vectorDigest == digest
  }

  /** A digest of at least 8 characters makes a record; a shorter one is an unknown failure, as any thrown error is one of its category. */
  ghost predicate Decided(run: ChunkRun, chunk: Chunk, outcome: ProviderOutcome) {
    var e := run.execution;
    if outcome.Vector? && |outcome.digest| >= 8 then
      run.record.Some? && MadeFrom(run.record.value, chunk, outcome.digest) && e.state == Completed && e.resumable && !e.retryable
    else
      var category := if outcome.Throws? then outcome.category else Unknown;
      && run.record == None && e.state == Failed && e.errorCategory == Some(category)
      && (e.retryable <==> Passing(category)) && (e.resumable <==> Passing(category) || category == CancelledJob)
  }

  lemma {:induction false} AttemptsFrom(provider: Provider, calls: nat, attempt: nat, maxRetries: nat, history: seq<JobState>, last: Option<ProviderOutcome>)
    requires attempt <= maxRetries && calls >= attempt
    requires history == [Pending] + Runs(attempt)
    requires forall n: nat :: calls - attempt <= n < calls ==> RetryableCall(provider, n)
    ensures LawfulAttempts(Attempts(provider, calls, attempt, maxRetries, history, last), provider, calls - attempt, maxRetries)
    decreases maxRetries - attempt
  {
    AttemptsUnfold(provider, calls, attempt, maxRetries, history, last);
    var history' := history + if attempt == 0 then [Running] else [Retrying, Running];
    assert history' == [Pending] + Runs(attempt + 1) by {
      if attempt > 0 {
        assert Runs(attempt + 1) == Runs(attempt) + [Retrying, Running];
      }
    }
    var outcome := Attempted(provider(calls));
    if outcome.Throws? && ShouldRetry(outcome.category) && attempt + 1 <= maxRetries {
      assert RetryableCall(provider, calls);
      AttemptsFrom(provider, calls + 1, attempt + 1, maxRetries, history', Some(outcome));
    }
  }

  lemma ChunkIsLawful(chunk: Chunk, provider: Provider, calls: nat, maxRetries: nat, existing: map<EmbeddingId, EmbeddingRecord>, cancelled: set<JobId>)
    ensures var run := RunChunk(chunk, provider, calls, maxRetries, existing, cancelled);
            && LawfulExecution(run.execution, maxRetries)
            && run.execution.jobId == JobIdFor(chunk) && run.execution.chunkId == chunk.chunkId
            && (run.record.Some? <==> run.execution.state == Completed)
  {
    hide Attempts;
    assert Runs(1) == [Running] && Runs(0) == [];
    assert [Pending] + Runs(0) == [Pending];
    AttemptsFrom(provider, calls, 0, maxRetries, [Pending], None);
    assert [Pending] + Runs(0) + [Completed] == [Pending, Completed];
    assert [Pending] + Runs(1) + [Cancelled] == [Pending, Running, Cancelled];
    assert [Pending] + Runs(1) + [Failed] == [Pending, Running, Failed];
    var run := Attempts(provider, calls, 0, maxRetries, [Pending], None);
    assert run.last.value.Throws? && ShouldRetry(run.last.value.category) ==> RetryableCall(provider, calls + run.attempts - 1);
  }

  /** Neither reused, nor cancelled, nor empty: the provider is asked. */
  ghost predicate AsksProvider(chunk: Chunk, existing: map<EmbeddingId, EmbeddingRecord>, cancelled: set<JobId>) {
    EmbeddingIdFor(chunk) !in existing && JobIdFor(chunk) !in cancelled && |chunk.text| > 0
  }

  /** The attempts are the provider calls, and the last of them decides the outcome and the digest. */
  lemma ProviderDecides(chunk: Chunk, provider: Provider, calls: nat, maxRetries: nat, existing: map<EmbeddingId, EmbeddingRecord>, cancelled: set<JobId>)
    ensures var run := RunChunk(chunk, provider, calls, maxRetries, existing, cancelled);
            if !AsksProvider(chunk, existing, cancelled) then run.calls == calls
            else
              && run.execution.attemptCount > 0 && run.calls == calls + run.execution.attemptCount
              && (forall n: nat :: calls <= n < run.calls - 1 ==> RetryableCall(provider, n))
              && Decided(run, chunk, provider(run.calls - 1))
              && (RetryableCall(provider, run.calls - 1) ==> run.execution.attemptCount == maxRetries + 1)
  {
    hide Attempts;
    assert [Pending] + Runs(0) == [Pending];
    AttemptsFrom(provider, calls, 0, maxRetries, [Pending], None);
  }

  /**
   * One job and one execution per chunk, in order; every execution is lawful; records
   * and failures together account for every chunk.
   */
  lemma {:induction false} StageIsLawful(chunks: seq<Chunk>, provider: Provider, maxRetries: nat, existing: seq<EmbeddingRecord>, cancelled: set<JobId>)
    ensures var stage := RunStage(chunks, provider, maxRetries, existing, cancelled);
            && |stage.jobs| == |stage.executions| == |chunks|
            && |stage.records| + stage.failed == |chunks|
            && (forall i :: 0 <= i < |chunks| ==>
                  && stage.jobs[i] == CreateJob(chunks[i])
                  && stage.executions[i].jobId == JobIdFor(chunks[i]) && stage.executions[i].chunkId == chunks[i].chunkId
                  && LawfulExecution(stage.executions[i], maxRetries))
            && (stage.failed == 0 <==> forall i :: 0 <= i < |chunks| ==> stage.executions[i].state == Completed)
  {
    hide RunChunk, LawfulExecution, ById, RunStage, CreateJob, JobIdFor;
    assert chunks[..|chunks|] == chunks;
    NoChunkYet(chunks, provider, maxRetries, existing, cancelled);
    if chunks == [] {
      assert chunks[..0] == chunks;
    } else {
      var n := |chunks| - 1;
      NextChunk(chunks, n, provider, maxRetries, existing, cancelled);
      StageIsLawful(chunks[..n], provider, maxRetries, existing, cancelled);
      var before := RunStage(chunks[..n], provider, maxRetries, existing, cancelled);
      ChunkIsLawful(chunks[n], provider, before.calls, maxRetries, ById(existing), cancelled);
      assert forall i :: 0 <= i < n ==> chunks[..n][i] == chunks[i];
    }
  }

  /** Each job is for its own chunk alone, under the id that the execution and the cancel list use. */
  lemma JobsNameTheirChunks(chunks: seq<Chunk>, provider: Provider, maxRetries: nat, existing: seq<EmbeddingRecord>, cancelled: set<JobId>, i: nat)
    requires i < |chunks|
    ensures var stage := RunStage(chunks, provider, maxRetries, existing, cancelled);
            && |stage.jobs| == |chunks| && |stage.executions| == |chunks|
            && var job := stage.jobs[i];
               && job.chunkIds == [chunks[i].chunkId] && job.documentId == chunks[i].documentId
               && job.organizationId == chunks[i].organizationId && job.model == "deterministic-local-v1"
               && job.jobId == stage.executions[i].jobId == JobId(chunks[i].chunkId, chunks[i].version, job.model, "default")
  {
    hide RunStage, LawfulExecution;
    StageIsLawful(chunks, provider, maxRetries, existing, cancelled);
  }

  // ---------------------------------------------------------------- records

  /** A record that the stage itself could have made for some chunk with this id. */
  ghost predicate WellFormedRecord(r: EmbeddingRecord) {
    && r.embeddingId.chunkId == r.chunkId && r.embeddingId.jobId == JobId(r.chunkId, r.version, MODEL, PARAMS)
    && r.embeddingId.model == MODEL
    && r.documentId == r.chunkId.documentId && r.version == r.chunkId.version
  }

  /** Chunks as buildChunks makes them: the id names the document and version. */
  ghost predicate WellFormedChunks(chunks: seq<Chunk>) {
    forall i :: 0 <= i < |chunks| ==>
      chunks[i].documentId == chunks[i].chunkId.documentId && chunks[i].version == chunks[i].chunkId.version
  }

  /** In a stage without failures the i-th record is the i-th chunk's. */
  lemma RecordIsForChunk(chunk: Chunk, provider: Provider, calls: nat, maxRetries: int,
                         existing: map<EmbeddingId, EmbeddingRecord>, cancelled: set<JobId>)
    requires forall id :: id in existing ==> existing[id].embeddingId == id
    ensures var run := RunChunk(chunk, provider, calls, maxRetries, existing, cancelled);
            run.record.Some? ==> run.record.value.embeddingId == EmbeddingIdFor(chunk)
  {
    hide Attempts;
  }

  lemma {:induction false} RecordsFollowChunks(chunks: seq<Chunk>, provider: Provider, maxRetries: int, existing: seq<EmbeddingRecord>, cancelled: set<JobId>)
    requires RunStage(chunks, provider, maxRetries, existing, cancelled).failed == 0
    ensures var records := RunStage(chunks, provider, maxRetries, existing, cancelled).records;
            && |records| == |chunks|
            && forall i :: 0 <= i < |chunks| ==> records[i].embeddingId == EmbeddingIdFor(chunks[i])
  {
    if chunks != [] {
      hide RunChunk, ById, EmbeddingIdFor, RunStage;
      var n := |chunks| - 1;
      assert chunks[..n + 1] == chunks;
      NextChunk(chunks, n, provider, maxRetries, existing, cancelled);
      RecordsFollowChunks(chunks[..n], provider, maxRetries, existing, cancelled);
      RecordIsForChunk(chunks[n], provider, RunStage(chunks[..n], provider, maxRetries, existing, cancelled).calls, maxRetries,
                       ById(existing), cancelled);
      assert forall i :: 0 <= i < n ==> chunks[..n][i] == chunks[i];
    }
  }

  lemma {:induction false} RecordsAreWellFormed(chunks: seq<Chunk>, provider: Provider, maxRetries: int, existing: seq<EmbeddingRecord>, cancelled: set<JobId>)
    requires WellFormedChunks(chunks)
    requires forall r :: r in existing ==> WellFormedRecord(r)
    ensures forall r :: r in RunStage(chunks, provider, maxRetries, existing, cancelled).records ==> WellFormedRecord(r)
    ensures forall r :: r in RunStage(chunks, provider, maxRetries, existing, cancelled).records ==>
              exists i :: 0 <= i < |chunks| && r.embeddingId == EmbeddingIdFor(chunks[i])
  {
    if chunks != [] {
      hide Attempts;
      var n := |chunks| - 1;
      assert forall i :: 0 <= i < n ==> chunks[..n][i] == chunks[i];
      RecordsAreWellFormed(chunks[..n], provider, maxRetries, existing, cancelled);
    }
  }

  // ---------------------------------------------------------------- jobs that are not put to the provider

  ghost predicate HasRecordOf(records: seq<EmbeddingRecord>, chunk: Chunk) {
    exists r :: r in records && r.embeddingId == EmbeddingIdFor(chunk)
  }

  ghost predicate EndsReused(e: Execution) {
    e.state == Completed && e.attemptCount == 0 && e.stateHistory == [Pending, Completed] && e.errorCategory == None && e.resumable && !e.retryable
  }

  ghost predicate EndsCancelled(e: Execution) {
    && e.state == Cancelled && e.attemptCount == 1 && e.stateHistory == [Pending, Running, Cancelled]
    && e.errorCategory == Some(CancelledJob) && e.resumable && !e.retryable
  }

  ghost predicate EndsCorrupted(e: Execution) {
    && e.state == Failed && e.attemptCount == 1 && e.stateHistory == [Pending, Running, Failed]
    && e.errorCategory == Some(CorruptedChunk) && !e.resumable && !e.retryable
  }

  /** How a job ends that has a record already, or is cancelled, or has nothing to embed. */
  ghost predicate EndsUnasked(e: Execution, chunk: Chunk, existing: seq<EmbeddingRecord>, cancelled: set<JobId>) {
    && (HasRecordOf(existing, chunk) ==> EndsReused(e))
    && (!HasRecordOf(existing, chunk) && JobIdFor(chunk) in cancelled ==> EndsCancelled(e))
    && (!HasRecordOf(existing, chunk) && JobIdFor(chunk) !in cancelled && chunk.text == "" ==> EndsCorrupted(e))
  }

  lemma HeldExactly(existing: seq<EmbeddingRecord>, chunk: Chunk)
    ensures EmbeddingIdFor(chunk) in ById(existing) <==> HasRecordOf(existing, chunk)
  {
    hide EmbeddingIdFor;
    if EmbeddingIdFor(chunk) in ById(existing) {
      assert ById(existing)[EmbeddingIdFor(chunk)] in existing;
    }
  }

  lemma ChunkEndsUnasked(chunk: Chunk, provider: Provider, calls: nat, maxRetries: int, existing: seq<EmbeddingRecord>, cancelled: set<JobId>)
    ensures var run := RunChunk(chunk, provider, calls, maxRetries, ById(existing), cancelled);
            && EndsUnasked(run.execution, chunk, existing, cancelled)
            && (HasRecordOf(existing, chunk) ==> run.record.Some? && run.record.value in existing)
            && (!HasRecordOf(existing, chunk) && (JobIdFor(chunk) in cancelled || chunk.text == "") ==> run.record == None)
  {
    HeldExactly(existing, chunk);
    hide Attempts, ById, HasRecordOf, EmbeddingIdFor, JobIdFor;
    assert EmbeddingIdFor(chunk) in ById(existing) ==> ById(existing)[EmbeddingIdFor(chunk)] in existing;
  }

  /** Chunks of one id have one text, as buildChunks names them. */
  ghost predicate IdsTellText(chunks: seq<Chunk>) {
    forall i, j :: 0 <= i < |chunks| && 0 <= j < |chunks| && chunks[i].chunkId == chunks[j].chunkId ==> chunks[i].text == chunks[j].text
  }

  /** Every record of a stage is an existing one, or was made for a chunk that was put to the provider. */
  lemma {:induction false} RecordsHaveOrigin(chunks: seq<Chunk>, provider: Provider, maxRetries: int, existing: seq<EmbeddingRecord>, cancelled: set<JobId>)
    ensures forall r :: r in RunStage(chunks, provider, maxRetries, existing, cancelled).records ==>
              r in existing
              || exists j :: 0 <= j < |chunks| && r.embeddingId == EmbeddingIdFor(chunks[j])
                   && JobIdFor(chunks[j]) !in cancelled && chunks[j].text != ""
  {
    if chunks != [] {
      hide Attempts, RunStage, ById, EmbeddingIdFor, JobIdFor;
      var n := |chunks| - 1;
      assert chunks[..n + 1] == chunks;
      RecordsHaveOrigin(chunks[..n], provider, maxRetries, existing, cancelled);
      assert forall i :: 0 <= i < n ==> chunks[..n][i] == chunks[i];
      NextChunk(chunks, n, provider, maxRetries, existing, cancelled);
      MadeForChunk(chunks[n], provider, RunStage(chunks[..n], provider, maxRetries, existing, cancelled).calls, maxRetries, existing, cancelled);
    } else {
      NoChunkYet(chunks, provider, maxRetries, existing, cancelled);
    }
  }

  lemma MadeForChunk(chunk: Chunk, provider: Provider, calls: nat, maxRetries: int, existing: seq<EmbeddingRecord>, cancelled: set<JobId>)
    ensures var run := RunChunk(chunk, provider, calls, maxRetries, ById(existing), cancelled);
            run.record.Some? ==>
              run.record.value in existing
              || (run.record.value.embeddingId == EmbeddingIdFor(chunk) && JobIdFor(chunk) !in cancelled && chunk.text != "")
  {
    hide Attempts, JobIdFor;
    assert EmbeddingIdFor(chunk) in ById(existing) ==> ById(existing)[EmbeddingIdFor(chunk)] in existing;
  }

  /**
   * Jobs that the provider never sees: one with a record completes with it; any other that is
   * cancelled, or else has no text, ends so after one attempt, leaves no record, and the stage
   * counts a failure.
   */
  lemma {:induction false} UnaskedJobsEnd(chunks: seq<Chunk>, provider: Provider, maxRetries: int, existing: seq<EmbeddingRecord>, cancelled: set<JobId>, i: nat)
    requires i < |chunks|
    ensures var stage := RunStage(chunks, provider, maxRetries, existing, cancelled);
            && |stage.executions| == |chunks| && EndsUnasked(stage.executions[i], chunks[i], existing, cancelled)
            && (HasRecordOf(existing, chunks[i]) ==> HasRecordOf(stage.records, chunks[i]))
            && (!HasRecordOf(existing, chunks[i]) && (JobIdFor(chunks[i]) in cancelled || chunks[i].text == "") ==> stage.failed > 0)
  {
    hide RunChunk, RunStage, ById, EmbeddingIdFor, JobIdFor, EndsUnasked;
    var n := |chunks| - 1;
    assert chunks[..n + 1] == chunks;
    NextChunk(chunks, n, provider, maxRetries, existing, cancelled);
    ExecutionEach(chunks[..n], provider, maxRetries, existing, cancelled);
    if i < n {
      UnaskedJobsEnd(chunks[..n], provider, maxRetries, existing, cancelled, i);
    } else {
      var calls := RunStage(chunks[..n], provider, maxRetries, existing, cancelled).calls;
      ChunkEndsUnasked(chunks[n], provider, calls, maxRetries, existing, cancelled);
      RecordIsForChunk(chunks[n], provider, calls, maxRetries, ById(existing), cancelled);
    }
  }

  lemma {:induction false} ExecutionEach(chunks: seq<Chunk>, provider: Provider, maxRetries: int, existing: seq<EmbeddingRecord>, cancelled: set<JobId>)
    ensures |RunStage(chunks, provider, maxRetries, existing, cancelled).executions| == |chunks|
  {
    if chunks != [] {
      hide RunChunk;
      ExecutionEach(chunks[..|chunks| - 1], provider, maxRetries, existing, cancelled);
    }
  }

  /** No record is left for such a job. */
  lemma UnaskedLeaveNoRecord(chunks: seq<Chunk>, provider: Provider, maxRetries: int, existing: seq<EmbeddingRecord>, cancelled: set<JobId>, i: nat)
    requires i < |chunks| && !HasRecordOf(existing, chunks[i]) && IdsTellText(chunks)
    requires JobIdFor(chunks[i]) in cancelled || chunks[i].text == ""
    ensures !HasRecordOf(RunStage(chunks, provider, maxRetries, existing, cancelled).records, chunks[i])
  {
    hide RunStage;
    RecordsHaveOrigin(chunks, provider, maxRetries, existing, cancelled);
  }

  /** What the jobs that were put to the provider took together. */
  ghost function AskedAttempts(chunks: seq<Chunk>, executions: seq<Execution>, existing: seq<EmbeddingRecord>, cancelled: set<JobId>): nat
    requires |executions| == |chunks|
  {
    if chunks == [] then 0
    else
      var n := |chunks| - 1;
      AskedAttempts(chunks[..n], executions[..n], existing, cancelled)
      + if HasRecordOf(existing, chunks[n]) || JobIdFor(chunks[n]) in cancelled || chunks[n].text == "" then 0 else executions[n].attemptCount
  }

  /** The provider is called once for every attempt, and for nothing else. */
  lemma {:induction false} CallsAreAttempts(chunks: seq<Chunk>, provider: Provider, maxRetries: nat, existing: seq<EmbeddingRecord>, cancelled: set<JobId>)
    ensures var stage := RunStage(chunks, provider, maxRetries, existing, cancelled);
            |stage.executions| == |chunks| && stage.calls == AskedAttempts(chunks, stage.executions, existing, cancelled)
  {
    hide RunChunk, RunStage, ById, EmbeddingIdFor, JobIdFor;
    ExecutionEach(chunks, provider, maxRetries, existing, cancelled);
    if chunks == [] {
      NoChunkYet(chunks, provider, maxRetries, existing, cancelled);
      assert chunks[..0] == chunks;
    } else {
      var n := |chunks| - 1;
      assert chunks[..n + 1] == chunks;
      CallsAreAttempts(chunks[..n], provider, maxRetries, existing, cancelled);
      NextChunk(chunks, n, provider, maxRetries, existing, cancelled);
      var before := RunStage(chunks[..n], provider, maxRetries, existing, cancelled);
      ProviderDecides(chunks[n], provider, before.calls, maxRetries, ById(existing), cancelled);
      HeldExactly(existing, chunks[n]);
      assert RunStage(chunks, provider, maxRetries, existing, cancelled).executions[..n] == before.executions;
    }
  }

  // ---------------------------------------------------------------- resuming from its own records

  /** With a record for every chunk the provider is never called and each record is looked up. */
  lemma {:induction false} AllReused(chunks: seq<Chunk>, provider: Provider, maxRetries: int, existing: seq<EmbeddingRecord>, cancelled: set<JobId>)
    requires forall i :: 0 <= i < |chunks| ==> EmbeddingIdFor(chunks[i]) in ById(existing)
    ensures var again := RunStage(chunks, provider, maxRetries, existing, cancelled);
            && again.calls == 0 && again.failed == 0 && |again.records| == |chunks|
            && forall i :: 0 <= i < |chunks| ==> again.records[i] == ById(existing)[EmbeddingIdFor(chunks[i])]
  {
    hide Attempts, ById, RunStage, EmbeddingIdFor;
    assert chunks[..|chunks|] == chunks;
    NoChunkYet(chunks, provider, maxRetries, existing, cancelled);
    if chunks == [] {
      assert chunks[..0] == chunks;
    } else {
      var n := |chunks| - 1;
      assert forall i :: 0 <= i < n ==> chunks[..n][i] == chunks[i];
      AllReused(chunks[..n], provider, maxRetries, existing, cancelled);
      NextChunk(chunks, n, provider, maxRetries, existing, cancelled);
    }
  }

  ghost predicate OneRecordPerId(records: seq<EmbeddingRecord>) {
    forall i, j :: 0 <= i < |records| && 0 <= j < |records| && records[i].embeddingId == records[j].embeddingId ==> records[i] == records[j]
  }

  /**
   * Running a fully successful stage again on its own records, whatever the provider
   * and the cancellations now do, calls the provider zero times and fails nothing; it
   * returns the same records exactly when no two different records share an id.
   */
  lemma ResumeIsFree(chunks: seq<Chunk>, provider: Provider, maxRetries: int, existing: seq<EmbeddingRecord>, cancelled: set<JobId>,
                     provider': Provider, maxRetries': int, cancelled': set<JobId>)
    requires RunStage(chunks, provider, maxRetries, existing, cancelled).failed == 0
    ensures var records := RunStage(chunks, provider, maxRetries, existing, cancelled).records;
            var again := RunStage(chunks, provider', maxRetries', records, cancelled');
            && again.calls == 0 && again.failed == 0
            && (again.records == records <==> OneRecordPerId(records))
  {
    hide RunStage, ById;
    var records := RunStage(chunks, provider, maxRetries, existing, cancelled).records;
    RecordsFollowChunks(chunks, provider, maxRetries, existing, cancelled);
    forall i | 0 <= i < |chunks| ensures EmbeddingIdFor(chunks[i]) in ById(records) {
      assert records[i] in records;
    }
    AllReused(chunks, provider', maxRetries', records, cancelled');
    var again := RunStage(chunks, provider', maxRetries', records, cancelled').records;
    if again == records {
      forall i, j | 0 <= i < |records| && 0 <= j < |records| && records[i].embeddingId == records[j].embeddingId
        ensures records[i] == records[j]
      {
        assert records[i] == ById(records)[EmbeddingIdFor(chunks[i])];
        assert records[j] == ById(records)[EmbeddingIdFor(chunks[j])];
      }
    }
    if OneRecordPerId(records) {
      forall i | 0 <= i < |records| ensures again[i] == records[i] {
        var held := ById(records)[records[i].embeddingId];
        var j :| 0 <= j < |records| && records[j] == held;
      }
    }
  }
}
