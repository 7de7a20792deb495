/** What a run of the embedding job leaves, in its three modes. */
module EmbeddingJobProofs {
  import opened Outcomes
  import opened EmbeddingStore
  import opened EmbeddingJob

  // ---------------------------------------------------------------- accounting

  /** Every scanned memory is counted once and logged once. */
  ghost predicate Balanced(p: Progress) {
    p.report.scanned == p.report.embedded + p.report.skipped + p.report.failed == |p.log|
  }

  ghost predicate Known(p: Progress, ids: seq<string>) {
    forall id :: id in ids ==> id in p.state.memories
  }

  lemma LastOfBatch(p: Progress, ids: seq<string>, o: Options, answers: Answers) returns (front: Progress)
    requires ids != [] && Known(p, ids)
    ensures Known(p, ids[..|ids| - 1]) && front == ProcessAll(p, ids[..|ids| - 1], o, answers)
    ensures ids[|ids| - 1] in front.state.memories
    ensures ProcessAll(p, ids, o, answers) == ProcessNext(front, ids[|ids| - 1], o, answers)
  {
    assert ids[..|ids|] == ids;
    NextInBatch(p, ids, |ids| - 1, o, answers);
    front := ProcessAll(p, ids[..|ids| - 1], o, answers);
  }

  lemma {:induction false} BatchBalanced(p: Progress, ids: seq<string>, o: Options, answers: Answers)
    requires Known(p, ids) && Balanced(p)
    ensures Balanced(ProcessAll(p, ids, o, answers))
  {
    if ids != [] {
      hide ProcessAll, Process, Known;
      var front := LastOfBatch(p, ids, o, answers);
      BatchBalanced(p, ids[..|ids| - 1], o, answers);
    }
  }

  lemma {:induction false} RoundsBalanced(p: Progress, o: Options, answers: Answers, forceOffset: nat, seen: set<string>)
    requires Balanced(p) && p.report.scanned <= o.maxMemories
    ensures Balanced(Rounds(p, o, answers, forceOffset, seen))
    ensures Rounds(p, o, answers, forceOffset, seen).report.scanned <= o.maxMemories
    decreases o.maxMemories - p.report.scanned
  {
    hide Rounds, ProcessAll, NextBatch, Balanced;
    if p.report.scanned >= o.maxMemories {
      RoundsEnd(p, o, answers, forceOffset, seen);
    } else {
      RoundsStep(p, o, answers, forceOffset, seen);
      var ids := BatchNow(p, o, forceOffset, seen);
      if ids != [] {
        BatchBalanced(p, ids, o, answers);
        RoundsBalanced(ProcessAll(p, ids, o, answers), o, answers, if o.forceReembed then forceOffset + |ids| else forceOffset,
                       if o.dryRun then seen + SetOf(ids) else seen);
      }
    }
  }

  function Limit(p: Progress, o: Options): nat
    requires p.report.scanned <= o.maxMemories
  {
    if o.batchSize <= o.maxMemories - p.report.scanned then o.batchSize else o.maxMemories - p.report.scanned
  }

  function BatchNow(p: Progress, o: Options, forceOffset: nat, seen: set<string>): (ids: seq<string>)
    requires p.report.scanned <= o.maxMemories
    ensures |ids| <= Limit(p, o) && Known(p, ids)
    ensures forall id :: id in ids ==> p.state.memories[id].ownerId == o.ownerId
  {
    NextBatch(p.state, o, forceOffset, seen, Limit(p, o))
  }

  /** In every mode the job stays within its budget and its report adds up. */
  lemma JobStaysInBudget(s: State, o: Options, answers: Answers)
    ensures var q := RunJob(s, o, answers);
            && q.report.scanned <= o.maxMemories && |q.log| == q.report.scanned
            && q.report.scanned == q.report.embedded + q.report.skipped + q.report.failed
  {
    RoundsBalanced(Start(s), o, answers, 0, {});
  }

  // ---------------------------------------------------------------- one memory

  /** A row of this memory, owner and model whose hash is that of the memory's text. */
  ghost predicate Current(s: State, memory: Memory, o: Options) {
    exists row :: row in s.rows && Keys(row, memory.id, o.ownerId, o.modelId) && row.contentHash == memory.text
  }

  /** Can the provider's answer be stored and linked? */
  ghost predicate Storable(s: State, memory: Memory, o: Options, answer: Answer) {
    && answer.Result? && |answer.vector| == answer.dimensions && !answer.linkFails
    && forall row :: row in s.rows && row.memoryId == memory.id && row.modelId == answer.modelId ==> row.ownerId == o.ownerId
  }

  /**
   * A memory is skipped iff its row is current and no force is asked. A dry run counts any other
   * as embedded and writes nothing; a real one embeds it iff the answer can be stored and linked,
   * and else counts it as failed.
   */
  lemma ProcessedExactly(s: State, memory: Memory, o: Options, answer: Answer)
    requires Valid(s)
    ensures var r := Process(s, memory, o, answer);
            && (r.outcome == Skipped <==> Current(s, memory, o) && !o.forceReembed)
            && (r.outcome == Skipped ==> r.state.rows == s.rows)
            && (o.dryRun ==> r.state == s && r.outcome != Failed)
            && (r.outcome == Embedded && !o.dryRun ==> Storable(s, memory, o, answer))
            && (!o.dryRun && r.outcome != Skipped && Storable(s, memory, o, answer) ==> r.outcome == Embedded)
            && (r.outcome == Failed ==> r.state.memories == s.memories)
  {
    CurrentIsFound(s, memory, o);
    if answer.Result? {
      UpsertAcceptedExactly(s.rows, UpsertInput(memory.id, o.ownerId, answer.modelId, answer.dimensions, answer.vector, memory.text), UnusedId(s.rows));
    }
    hide OneRowEach, Upsert, NoRepeats, Current;
  }

  lemma CurrentIsFound(s: State, memory: Memory, o: Options)
    requires Valid(s)
    ensures var found := FindByMemoryId(s.rows, memory.id, o.ownerId, o.modelId);
            Current(s, memory, o) <==> found.Some? && found.value.contentHash == memory.text
  {
    var found := FindByMemoryId(s.rows, memory.id, o.ownerId, o.modelId);
    if Current(s, memory, o) {
      var row :| row in s.rows && Keys(row, memory.id, o.ownerId, o.modelId) && row.contentHash == memory.text;
      var i :| 0 <= i < |s.rows| && s.rows[i] == row;
      var j :| 0 <= j < |s.rows| && s.rows[j] == found.value;
      assert i == j;
    }
  }

  // ---------------------------------------------------------------- pointing at a matching row

  /** The memory points at a stored row of its own and its owner's, whose hash is that of its text; of the given model, if any. */
  ghost predicate Points(s: State, id: string, model: Option<string>) {
    && id in s.memories
    && exists row :: row in s.rows && row.id == s.memories[id].embeddingId && row.memoryId == id
         && row.ownerId == s.memories[id].ownerId && row.contentHash == s.memories[id].text
         && (model.Some? ==> row.modelId == model.value)
  }

  /** A skipped memory was found under the job's model; an embedded one has the model that the provider names. */
  ghost function ModelOf(outcome: Outcome, o: Options): Option<string> {
    if outcome == Skipped then Some(o.modelId) else None
  }

  /** Stored rows stay stored, or are rewritten for the same memory with its current text. */
  ghost predicate RowsCarried(before: seq<EmbeddingRow>, after: seq<EmbeddingRow>, memory: Memory) {
    forall row :: row in before ==>
      row in after || (row.memoryId == memory.id && RowAt(after, row.id, memory, row.ownerId, row.modelId))
  }

  ghost predicate RowAt(rows: seq<EmbeddingRow>, rowId: string, memory: Memory, ownerId: string, modelId: string) {
    exists row :: row in rows && row.id == rowId && row.memoryId == memory.id && row.contentHash == memory.text
      && row.ownerId == ownerId && row.modelId == modelId
  }

  lemma UpsertCarries(rows: seq<EmbeddingRow>, input: UpsertInput, freshId: string, memory: Memory)
    requires OneRowEach(rows) && forall row :: row in rows ==> row.id != freshId
    requires input.memoryId == memory.id && input.contentHash == memory.text
    requires Upsert(rows, input, freshId).Some?
    ensures var u := Upsert(rows, input, freshId).value; RowsCarried(rows, u.rows, memory) && RowAt(u.rows, u.id, memory, input.ownerId, input.modelId)
  {
    UpsertMeaning(rows, input, freshId);
    var u := Upsert(rows, input, freshId).value;
    forall row | row in rows && Keys(row, input.memoryId, input.ownerId, input.modelId) ensures row.id == u.id {
      OneRowPerKey(rows, row, input);
    }
    hide Upsert, OneRowEach;
  }

  lemma OneRowPerKey(rows: seq<EmbeddingRow>, row: EmbeddingRow, input: UpsertInput)
    requires OneRowEach(rows) && row in rows && Keys(row, input.memoryId, input.ownerId, input.modelId)
    ensures FindByMemoryId(rows, input.memoryId, input.ownerId, input.modelId) == Some(row)
  {
    var found := FindByMemoryId(rows, input.memoryId, input.ownerId, input.modelId);
    var i :| 0 <= i < |rows| && rows[i] == row;
    var j :| 0 <= j < |rows| && rows[j] == found.value;
  }

  lemma ProcessedRows(s: State, memory: Memory, o: Options, answer: Answer)
    requires Valid(s)
    ensures RowsCarried(s.rows, Process(s, memory, o, answer).state.rows, memory)
  {
    hide NoRepeats, OneRowEach, Upsert;
    if answer.Result? {
      var input := UpsertInput(memory.id, o.ownerId, answer.modelId, answer.dimensions, answer.vector, memory.text);
      if Upsert(s.rows, input, UnusedId(s.rows)).Some? {
        UpsertCarries(s.rows, input, UnusedId(s.rows), memory);
      }
    }
  }

  /** A real visit that is not counted as failed leaves the memory pointing at a matching row. */
  lemma SuccessPoints(s: State, id: string, o: Options, answer: Answer)
    requires Valid(s) && id in s.memories && s.memories[id].ownerId == o.ownerId && !o.dryRun
    requires o.forceReembed || s.memories[id].embeddingId == ""
    ensures var r := Process(s, s.memories[id], o, answer);
            && (r.outcome != Failed ==> Points(r.state, id, ModelOf(r.outcome, o)) && r.state.memories[id].embeddingId != "")
            && (r.outcome == Skipped ==> !o.forceReembed)
            && (r.outcome == Failed ==> r.state.memories == s.memories)
  {
    hide NoRepeats, OneRowEach, Upsert;
    var memory := s.memories[id];
    if answer.Result? {
      var input := UpsertInput(memory.id, o.ownerId, answer.modelId, answer.dimensions, answer.vector, memory.text);
      if Upsert(s.rows, input, UnusedId(s.rows)).Some? {
        UpsertMeaning(s.rows, input, UnusedId(s.rows));
        UpsertCarries(s.rows, input, UnusedId(s.rows), memory);
      }
    }
  }

  /** No later visit breaks a memory's link, whichever memory it is for. */
  lemma ProcessKeepsPointing(s: State, id: string, o: Options, answer: Answer, other: string, model: Option<string>)
    requires Valid(s) && id in s.memories && Points(s, other, model)
    requires other == id ==> Process(s, s.memories[id], o, answer).state.memories[id] == s.memories[id]
    ensures Points(Process(s, s.memories[id], o, answer).state, other, model)
  {
    ProcessKeepsIds(s, s.memories[id], o, answer);
    ProcessedRows(s, s.memories[id], o, answer);
    hide Process;
  }

  ghost predicate AllPointing(p: Progress, o: Options) {
    forall k :: 0 <= k < |p.log| && p.log[k].outcome != Failed ==>
      Points(p.state, p.log[k].id, ModelOf(p.log[k].outcome, o)) && (p.log[k].outcome == Skipped ==> !o.forceReembed)
  }

  /** A memory without an embedding points nowhere: no stored row has an empty id. */
  lemma BareDoesNotPoint(s: State, id: string, model: Option<string>)
    requires Valid(s) && id in s.memories && s.memories[id].embeddingId == ""
    ensures !Points(s, id, model)
  {
  }

  lemma StepKeepsPointing(p: Progress, id: string, o: Options, answers: Answers)
    requires Valid(p.state) && id in p.state.memories && p.state.memories[id].ownerId == o.ownerId && !o.dryRun
    requires o.forceReembed || p.state.memories[id].embeddingId == ""
    requires AllPointing(p, o)
    ensures AllPointing(ProcessNext(p, id, o, answers), o)
  {
    var answer := AnswerAt(answers, p.report.scanned, o.modelId);
    var q := ProcessNext(p, id, o, answers);
    SuccessPoints(p.state, id, o, answer);
    IdOf(p.state, id);
    hide Process, Points, Valid, AnswerAt;
    forall k | 0 <= k < |p.log| && p.log[k].outcome != Failed ensures Points(q.state, p.log[k].id, ModelOf(p.log[k].outcome, o)) {
      if p.log[k].id != id || q.log[|p.log|].outcome == Failed {
        ProcessKeepsPointing(p.state, id, o, answer, p.log[k].id, ModelOf(p.log[k].outcome, o));
      } else if !o.forceReembed {
        BareDoesNotPoint(p.state, id, ModelOf(p.log[k].outcome, o));
      }
    }
  }

  /** The batch is the owner's and, unless forced, has no embedding yet. */
  ghost predicate Ready(s: State, o: Options, ids: seq<string>) {
    NoRepeats(ids) && forall k :: 0 <= k < |ids| ==>
      ids[k] in s.memories && s.memories[ids[k]].ownerId == o.ownerId && (o.forceReembed || s.memories[ids[k]].embeddingId == "")
  }

  lemma {:induction false} OthersUntouched(p: Progress, ids: seq<string>, o: Options, answers: Answers, id: string)
    requires Valid(p.state) && Known(p, ids) && id in p.state.memories
    ensures var m, m' := p.state.memories[id], ProcessAll(p, ids, o, answers).state.memories[id];
            m' == m.(embeddingId := m'.embeddingId) && (id !in ids ==> m' == m)
  {
    if ids != [] {
      hide ProcessAll, Process, Valid;
      var n := |ids| - 1;
      SplitLast(ids);
      var front := LastOfBatch(p, ids, o, answers);
      OthersUntouched(p, ids[..n], o, answers, id);
      ValidAfter(p, ids[..n], o, answers);
      IdOf(front.state, ids[n]);
      ProcessKeepsIds(front.state, front.state.memories[ids[n]], o, AnswerAt(answers, front.report.scanned, o.modelId));
    }
  }

  lemma IdOf(s: State, id: string)
    requires Valid(s) && id in s.memories
    ensures s.memories[id].id == id
  {
  }

  lemma OneIsDistinct(id: string)
    ensures NoRepeats([id])
  {
  }

  lemma ReadyLast(p: Progress, ids: seq<string>, o: Options, answers: Answers)
    requires ids != [] && Valid(p.state) && Ready(p.state, o, ids)
    ensures Known(p, ids) && Ready(p.state, o, ids[..|ids| - 1])
    ensures var s := ProcessAll(p, ids[..|ids| - 1], o, answers).state;
            && Valid(s) && Ready(s, o, [ids[|ids| - 1]])
  {
    var n := |ids| - 1;
    hide Valid, ProcessAll, NoRepeats;
    LastNotEarlier(ids);
    ReadyIsKnown(p, ids, o);
    hide Known;
    OthersUntouched(p, ids[..n], o, answers, ids[n]);
    KnownThenValid(p, ids[..n], o, answers);
    OneIsDistinct(ids[n]);
  }

  lemma ReadyIsKnown(p: Progress, ids: seq<string>, o: Options)
    requires ids != [] && Ready(p.state, o, ids)
    ensures Known(p, ids) && Known(p, ids[..|ids| - 1]) && ids[|ids| - 1] in p.state.memories
  {
    hide NoRepeats;
    forall k | 0 <= k < |ids| ensures ids[k] in p.state.memories {
    }
  }

  lemma {:induction false} BatchKeepsPointing(p: Progress, ids: seq<string>, o: Options, answers: Answers)
    requires Valid(p.state) && !o.dryRun && Ready(p.state, o, ids) && AllPointing(p, o)
    ensures Known(p, ids) && Valid(ProcessAll(p, ids, o, answers).state) && AllPointing(ProcessAll(p, ids, o, answers), o)
  {
    if ids != [] {
      hide ProcessAll, Process, Valid, Points, Known;
      var n := |ids| - 1;
      ReadyLast(p, ids, o, answers);
      var front := LastOfBatch(p, ids, o, answers);
      BatchKeepsPointing(p, ids[..n], o, answers);
      assert [ids[n]][0] == ids[n];
      StepKeepsPointing(front, ids[n], o, answers);
      KnownThenValid(p, ids, o, answers);
    }
  }

  lemma {:induction false} KnownThenValid(p: Progress, ids: seq<string>, o: Options, answers: Answers)
    requires Valid(p.state) && Known(p, ids)
    ensures Valid(ProcessAll(p, ids, o, answers).state)
  {
    ValidAfter(p, ids, o, answers);
  }

  lemma BatchIsReady(p: Progress, o: Options, forceOffset: nat, seen: set<string>)
    requires Valid(p.state) && p.report.scanned <= o.maxMemories
    ensures Ready(p.state, o, BatchNow(p, o, forceOffset, seen))
  {
    BatchDistinct(p.state, o, forceOffset, seen, Limit(p, o));
    hide NoRepeats, OneRowEach;
    var ids := BatchNow(p, o, forceOffset, seen);
    forall k | 0 <= k < |ids| ensures ids[k] in ids && ids[k] in p.state.memories {
    }
  }

  lemma {:induction false} RoundsPoint(p: Progress, o: Options, answers: Answers, forceOffset: nat, seen: set<string>)
    requires Valid(p.state) && !o.dryRun && AllPointing(p, o) && p.report.scanned <= o.maxMemories
    ensures var q := Rounds(p, o, answers, forceOffset, seen); Valid(q.state) && AllPointing(q, o)
    decreases o.maxMemories - p.report.scanned
  {
    hide Rounds, ProcessAll, NextBatch, Valid, AllPointing, Ready;
    if p.report.scanned >= o.maxMemories {
      RoundsEnd(p, o, answers, forceOffset, seen);
    } else {
      RoundsStep(p, o, answers, forceOffset, seen);
      var ids := BatchNow(p, o, forceOffset, seen);
      if ids != [] {
        BatchIsReady(p, o, forceOffset, seen);
        BatchKeepsPointing(p, ids, o, answers);
        RoundsPoint(ProcessAll(p, ids, o, answers), o, answers, if o.forceReembed then forceOffset + |ids| else forceOffset, seen);
      }
    }
  }

  /**
   * After a real run, every memory it embedded or skipped points at a stored row of its
   * own and its owner's whose hash matches its text; skipped ones at one of the job's model.
   */
  lemma ProcessedMemoriesPoint(s: State, o: Options, answers: Answers)
    requires Valid(s) && !o.dryRun
    ensures var q := RunJob(s, o, answers);
            forall k :: 0 <= k < |q.log| && q.log[k].outcome != Failed ==> Points(q.state, q.log[k].id, ModelOf(q.log[k].outcome, o))
  {
    RoundsPoint(Start(s), o, answers, 0, {});
  }

  // ---------------------------------------------------------------- completion

  lemma {:induction false} RoundsExhaust(p: Progress, o: Options, answers: Answers, forceOffset: nat, seen: set<string>)
    requires !o.dryRun && !o.forceReembed && o.batchSize > 0 && p.report.scanned <= o.maxMemories
    ensures var q := Rounds(p, o, answers, forceOffset, seen);
            q.report.scanned < o.maxMemories ==> Unembedded(q.state, o.ownerId) == []
    decreases o.maxMemories - p.report.scanned
  {
    hide Rounds, ProcessAll, Owned;
    if p.report.scanned >= o.maxMemories {
      RoundsEnd(p, o, answers, forceOffset, seen);
    } else {
      RoundsStep(p, o, answers, forceOffset, seen);
      var ids := BatchNow(p, o, forceOffset, seen);
      if ids != [] {
        RoundsExhaust(ProcessAll(p, ids, o, answers), o, answers, forceOffset, seen);
      }
    }
  }

  /** `after` is `before` but for the memory `id`, which now has an embedding. */
  ghost predicate GivenTo(before: map<string, Memory>, after: map<string, Memory>, id: string) {
    after.Keys == before.Keys && (forall k :: k in before && k != id ==> after[k] == before[k])
    && (id in after ==> after[id].embeddingId != "")
  }

  lemma OwnedSplit(order: seq<string>, memories: map<string, Memory>, ownerId: string)
    requires order != []
    ensures var n := |order| - 1;
            var front := Owned(order[..n], memories, ownerId, true);
            Owned(order, memories, ownerId, true) ==
              if order[n] in memories && memories[order[n]].ownerId == ownerId && memories[order[n]].embeddingId == ""
              then front + [order[n]] else front
  {
  }

  /** Giving a memory an embedding takes exactly it off the list. */
  lemma {:induction false} OwnedWithout(order: seq<string>, before: map<string, Memory>, after: map<string, Memory>, ownerId: string, j: nat)
    requires NoRepeats(order) && j < |Owned(order, before, ownerId, true)|
    requires GivenTo(before, after, Owned(order, before, ownerId, true)[j])
    ensures var u := Owned(order, before, ownerId, true); Owned(order, after, ownerId, true) == u[..j] + u[j + 1..]
  {
    hide Owned;
    var n := |order| - 1;
    OwnedNonEmpty(order, before, ownerId);
    OwnedSplit(order, before, ownerId);
    OwnedSplit(order, after, ownerId);
    var u, front := Owned(order, before, ownerId, true), Owned(order[..n], before, ownerId, true);
    LastNotEarlier(order);
    if j < |front| {
      OwnedWithout(order[..n], before, after, ownerId, j);
      assert front[j] in front;
      WithoutOne(front, order[n], j);
    } else {
      SameWithout(order[..n], before, after, ownerId, order[n]);
      assert u[..j] + u[j + 1..] == front;
    }
  }

  lemma WithoutOne(front: seq<string>, last: string, j: nat)
    requires j < |front|
    ensures (front + [last])[j] == front[j]
    ensures (front + [last])[..j] + (front + [last])[j + 1..] == front[..j] + front[j + 1..] + [last]
  {
  }

  lemma OwnedNonEmpty(order: seq<string>, memories: map<string, Memory>, ownerId: string)
    requires Owned(order, memories, ownerId, true) != []
    ensures order != []
  {
  }

  lemma LastNotEarlier(order: seq<string>)
    requires order != [] && NoRepeats(order)
    ensures NoRepeats(order[..|order| - 1]) && order[|order| - 1] !in order[..|order| - 1]
  {
  }

  lemma {:induction false} SameWithout(order: seq<string>, before: map<string, Memory>, after: map<string, Memory>, ownerId: string, id: string)
    requires id !in order && after.Keys == before.Keys && forall k :: k in before && k != id ==> after[k] == before[k]
    ensures Owned(order, after, ownerId, true) == Owned(order, before, ownerId, true)
  {
    if order != [] {
      SameWithout(order[..|order| - 1], before, after, ownerId, id);
    }
  }

  lemma OrdersDistinct(s: State)
    requires Valid(s)
    ensures NoRepeats(s.created) && NoRepeats(s.updated)
  {
  }

  lemma FirstEmbedded(s: State, o: Options, answer: Answer)
    requires Valid(s) && !o.dryRun && !o.forceReembed && Unembedded(s, o.ownerId) != []
    ensures var u := Unembedded(s, o.ownerId);
            && u[0] in s.memories
            && var r := Process(s, s.memories[u[0]], o, answer);
               r.outcome != Failed ==> Unembedded(r.state, o.ownerId) == u[1..]
  {
    var u := Unembedded(s, o.ownerId);
    assert u[0] in u;
    var r := Process(s, s.memories[u[0]], o, answer);
    hide Process, OneRowEach, NoRepeats, Points;
    IdOf(s, u[0]);
    SuccessPoints(s, u[0], o, answer);
    ProcessKeepsIds(s, s.memories[u[0]], o, answer);
    OrdersDistinct(s);
    if r.outcome != Failed {
      OwnedWithout(s.updated, s.memories, r.state.memories, o.ownerId, 0);
    }
  }

  ghost function IdsOf(log: seq<Visit>): seq<string> {
    seq(|log|, k requires 0 <= k < |log| => log[k].id)
  }

  lemma {:induction false} FailuresStay(p: Progress, ids: seq<string>, o: Options, answers: Answers)
    requires Known(p, ids)
    ensures ProcessAll(p, ids, o, answers).report.failed >= p.report.failed
    ensures IdsOf(ProcessAll(p, ids, o, answers).log) == IdsOf(p.log) + ids
  {
    if ids == [] {
      assert IdsOf(p.log) + ids == IdsOf(p.log);
    } else {
      hide ProcessAll, Process, IdsOf, Known;
      var front := LastOfBatch(p, ids, o, answers);
      FailuresStay(p, ids[..|ids| - 1], o, answers);
      SplitLast(ids);
      var q := ProcessNext(front, ids[|ids| - 1], o, answers);
      IdsOfAppend(front.log, q.log[|front.log|]);
      assert IdsOf(p.log) + ids[..|ids| - 1] + [ids[|ids| - 1]] == IdsOf(p.log) + ids;
    }
  }

  lemma IdsOfAppend(log: seq<Visit>, v: Visit)
    ensures IdsOf(log + [v]) == IdsOf(log) + [v.id]
  {
  }

  lemma {:induction false} RoundsFailuresStay(p: Progress, o: Options, answers: Answers, forceOffset: nat, seen: set<string>)
    requires p.report.scanned <= o.maxMemories
    ensures Rounds(p, o, answers, forceOffset, seen).report.failed >= p.report.failed
    decreases o.maxMemories - p.report.scanned
  {
    hide Rounds, ProcessAll, NextBatch;
    if p.report.scanned >= o.maxMemories {
      RoundsEnd(p, o, answers, forceOffset, seen);
    } else {
      RoundsStep(p, o, answers, forceOffset, seen);
      var ids := BatchNow(p, o, forceOffset, seen);
      if ids != [] {
        FailuresStay(p, ids, o, answers);
        RoundsFailuresStay(ProcessAll(p, ids, o, answers), o, answers, if o.forceReembed then forceOffset + |ids| else forceOffset,
                           if o.dryRun then seen + SetOf(ids) else seen);
      }
    }
  }

  /** A batch from the front of the list, without a failure, comes off the list. */
  lemma {:induction false} BatchComesOff(p: Progress, k: nat, o: Options, answers: Answers)
    requires Valid(p.state) && !o.dryRun && !o.forceReembed
    requires k <= |Unembedded(p.state, o.ownerId)|
    ensures var u := Unembedded(p.state, o.ownerId);
            && Known(p, u[..k])
            && var q := ProcessAll(p, u[..k], o, answers);
               && Valid(q.state)
               && (q.report.failed == p.report.failed ==> Unembedded(q.state, o.ownerId) == u[k..])
  {
    var u := Unembedded(p.state, o.ownerId);
    forall id | id in u[..k] ensures id in p.state.memories {
      assert id in u;
    }
    if k > 0 {
      hide ProcessAll, Process, Valid, Unembedded, IdsOf, AnswerAt, Counted;
      var ids := u[..k];
      assert ids[..k - 1] == u[..k - 1];
      var front := LastOfBatch(p, ids, o, answers);
      BatchComesOff(p, k - 1, o, answers);
      FailuresStay(p, u[..k - 1], o, answers);
      KnownThenValid(p, ids, o, answers);
      hide Known;
      LastComesOff(front, u, k, o, answers);
    }
  }

  lemma LastComesOff(front: Progress, u: seq<string>, k: nat, o: Options, answers: Answers)
    requires Valid(front.state) && !o.dryRun && !o.forceReembed && 0 < k <= |u| && u[k - 1] in front.state.memories
    ensures ProcessNext(front, u[k - 1], o, answers).report.failed >= front.report.failed
    ensures var q := ProcessNext(front, u[k - 1], o, answers);
            Unembedded(front.state, o.ownerId) == u[k - 1..] && q.report.failed == front.report.failed ==>
              Unembedded(q.state, o.ownerId) == u[k..]
  {
    hide Process, Valid, Unembedded, AnswerAt;
    if Unembedded(front.state, o.ownerId) == u[k - 1..] {
      FirstEmbedded(front.state, o, AnswerAt(answers, front.report.scanned, o.modelId));
      assert u[k - 1..][1..] == u[k..];
    }
  }

  lemma SlicesJoin(front: seq<string>, u: seq<string>, k: nat, done: nat)
    requires k + done <= |u|
    ensures front + u[..k] + u[k..][..done] == front + u[..k + done] && u[k..][done..] == u[k + done..]
  {
  }

  lemma {:induction false} RoundsFollowList(p: Progress, o: Options, answers: Answers, seen: set<string>)
    requires Valid(p.state) && !o.dryRun && !o.forceReembed && o.batchSize > 0 && p.report.scanned <= o.maxMemories
    requires Rounds(p, o, answers, 0, seen).report.failed == p.report.failed
    ensures var q, u := Rounds(p, o, answers, 0, seen), Unembedded(p.state, o.ownerId);
            && q.report.scanned >= p.report.scanned
            && var done := q.report.scanned - p.report.scanned;
               && done == (if |u| <= o.maxMemories - p.report.scanned then |u| else o.maxMemories - p.report.scanned)
               && IdsOf(q.log) == IdsOf(p.log) + u[..done]
               && Unembedded(q.state, o.ownerId) == u[done..]
    decreases o.maxMemories - p.report.scanned
  {
    hide Rounds, ProcessAll, Valid, Unembedded, IdsOf, BatchNow;
    var u := Unembedded(p.state, o.ownerId);
    if p.report.scanned >= o.maxMemories {
      RoundsEnd(p, o, answers, 0, seen);
      assert IdsOf(p.log) + u[..0] == IdsOf(p.log);
    } else {
      RoundNow(p, o, answers, seen);
      var ids := BatchNow(p, o, 0, seen);
      var k := |ids|;
      BatchIsPrefix(p, o, seen);
      if ids == [] {
        assert IdsOf(p.log) + u[..0] == IdsOf(p.log);
      } else {
        var next := ProcessAll(p, ids, o, answers);
        BatchComesOff(p, k, o, answers);
        FailuresStay(p, ids, o, answers);
        RoundsFailuresStay(next, o, answers, 0, seen);
        RoundsFollowList(next, o, answers, seen);
        SlicesJoin(IdsOf(p.log), u, k, Rounds(p, o, answers, 0, seen).report.scanned - next.report.scanned);
      }
    }
  }

  lemma RoundNow(p: Progress, o: Options, answers: Answers, seen: set<string>)
    requires p.report.scanned < o.maxMemories && !o.dryRun && !o.forceReembed
    ensures var ids := BatchNow(p, o, 0, seen);
            && Known(p, ids)
            && Rounds(p, o, answers, 0, seen) == if ids == [] then p else Rounds(ProcessAll(p, ids, o, answers), o, answers, 0, seen)
  {
    hide Rounds, ProcessAll, NextBatch;
    RoundsStep(p, o, answers, 0, seen);
  }

  lemma BatchIsPrefix(p: Progress, o: Options, seen: set<string>)
    requires p.report.scanned < o.maxMemories && !o.dryRun && !o.forceReembed && o.batchSize > 0
    ensures var u, ids := Unembedded(p.state, o.ownerId), BatchNow(p, o, 0, seen);
            && |ids| <= |u| && ids == u[..|ids|] && (ids == [] ==> u == [])
  {
  }

  /**
   * A real run without force. It ends with memories still unembedded only if the budget is
   * spent. If nothing failed, it visited the first unembedded memories, each once and in
   * order, up to the budget, and exactly the others are left.
   */
  lemma RealRunCompletes(s: State, o: Options, answers: Answers)
    requires Valid(s) && !o.dryRun && !o.forceReembed && o.batchSize > 0
    ensures var q := RunJob(s, o, answers);
            && (Unembedded(q.state, o.ownerId) != [] ==> q.report.scanned == o.maxMemories)
            && (q.report.failed == 0 ==>
                  var u := Unembedded(s, o.ownerId);
                  var done := if |u| <= o.maxMemories then |u| else o.maxMemories;
                  IdsOf(q.log) == u[..done] && Unembedded(q.state, o.ownerId) == u[done..])
  {
    hide Rounds, Valid, Unembedded, Balanced;
    JobStaysInBudget(s, o, answers);
    RoundsExhaust(Start(s), o, answers, 0, {});
    if RunJob(s, o, answers).report.failed == 0 {
      RoundsFollowList(Start(s), o, answers, {});
      assert IdsOf(Start(s).log) == [];
    }
  }

  // ---------------------------------------------------------------- dry runs and forced runs

  lemma {:induction false} DryBatch(p: Progress, ids: seq<string>, o: Options, answers: Answers)
    requires o.dryRun && Known(p, ids)
    ensures ProcessAll(p, ids, o, answers).state == p.state
  {
    if ids != [] {
      hide ProcessAll;
      var front := LastOfBatch(p, ids, o, answers);
      DryBatch(p, ids[..|ids| - 1], o, answers);
    }
  }

  /** A dry run without force sees the first batch only: the query lists the same memories again. */
  lemma DryRunSeesOneBatch(s: State, o: Options, answers: Answers)
    requires Valid(s) && o.dryRun && !o.forceReembed
    ensures var q, u := RunJob(s, o, answers), Unembedded(s, o.ownerId);
            q.state == s && IdsOf(q.log) == Take(u, 0, if o.batchSize <= o.maxMemories then o.batchSize else o.maxMemories)
  {
    hide Rounds, ProcessAll, Unembedded, Valid, Take, Unseen, SetOf;
    var p := Start(s);
    var u := Unembedded(s, o.ownerId);
    if o.maxMemories == 0 {
      RoundsEnd(p, o, answers, 0, {});
    } else {
      RoundsStep(p, o, answers, 0, {});
      var ids := BatchNow(p, o, 0, {});
      AllUnseen(Take(u, 0, Limit(p, o)), {});
      if ids != [] {
        var next := ProcessAll(p, ids, o, answers);
        DryBatch(p, ids, o, answers);
        FailuresStay(p, ids, o, answers);
        if next.report.scanned >= o.maxMemories {
          RoundsEnd(next, o, answers, 0, {} + SetOf(ids));
        } else {
          RoundsStep(next, o, answers, 0, {} + SetOf(ids));
          SecondFetchAgrees(u, Limit(p, o), Limit(next, o), ids);
        }
      }
    }
  }

  lemma {:induction false} AllUnseen(ids: seq<string>, seen: set<string>)
    requires forall id :: id in ids ==> id !in seen
    ensures Unseen(ids, seen) == ids
  {
    if ids != [] {
      SplitLast(ids);
      AllUnseen(ids[..|ids| - 1], seen);
    }
  }

  lemma {:induction false} AllSeen(ids: seq<string>, seen: set<string>)
    requires forall id :: id in ids ==> id in seen
    ensures Unseen(ids, seen) == []
  {
    if ids != [] {
      SplitLast(ids);
      AllSeen(ids[..|ids| - 1], seen);
    }
  }

  lemma SecondFetchAgrees(u: seq<string>, a: nat, b: nat, ids: seq<string>)
    requires ids == Take(u, 0, a) && b <= a
    ensures Unseen(Take(u, 0, b), {} + SetOf(ids)) == []
  {
    forall id | id in Take(u, 0, b) ensures id in ids {
      var k :| 0 <= k < |Take(u, 0, b)| && Take(u, 0, b)[k] == id;
      assert ids[k] == id;
    }
    AllSeen(Take(u, 0, b), {} + SetOf(ids));
  }

  lemma {:induction false} OwnedStable(order: seq<string>, before: map<string, Memory>, after: map<string, Memory>, ownerId: string)
    requires after.Keys == before.Keys && forall k :: k in before ==> after[k].ownerId == before[k].ownerId
    ensures Owned(order, after, ownerId, false) == Owned(order, before, ownerId, false)
  {
    if order != [] {
      OwnedStable(order[..|order| - 1], before, after, ownerId);
    }
  }

  lemma OwnersUntouched(p: Progress, ids: seq<string>, o: Options, answers: Answers)
    requires Valid(p.state) && Known(p, ids)
    ensures var q := ProcessAll(p, ids, o, answers);
            q.state.created == p.state.created
            && Owned(q.state.created, q.state.memories, o.ownerId, false) == Owned(p.state.created, p.state.memories, o.ownerId, false)
  {
    var q := ProcessAll(p, ids, o, answers);
    CreatedStays(p, ids, o, answers);
    hide ProcessAll, Valid;
    forall k | k in p.state.memories ensures q.state.memories[k].ownerId == p.state.memories[k].ownerId {
      OthersUntouched(p, ids, o, answers, k);
    }
    OwnedStable(p.state.created, p.state.memories, q.state.memories, o.ownerId);
  }

  lemma {:induction false} CreatedStays(p: Progress, ids: seq<string>, o: Options, answers: Answers)
    requires Known(p, ids)
    ensures ProcessAll(p, ids, o, answers).state.created == p.state.created
  {
    if ids != [] {
      hide ProcessAll;
      var front := LastOfBatch(p, ids, o, answers);
      CreatedStays(p, ids[..|ids| - 1], o, answers);
    }
  }

  lemma ForcedBatch(p: Progress, o: Options, offset: nat, seen: set<string>)
    requires Valid(p.state) && o.forceReembed && p.report.scanned <= o.maxMemories
    requires var all := Owned(p.state.created, p.state.memories, o.ownerId, false);
             offset <= |all| && (o.dryRun ==> seen == SetOf(all[..offset]))
    ensures var all := Owned(p.state.created, p.state.memories, o.ownerId, false);
            BatchNow(p, o, offset, seen) == Take(all, offset, Limit(p, o))
  {
    var all := Owned(p.state.created, p.state.memories, o.ownerId, false);
    OwnedDistinct(p.state.created, p.state.memories, o.ownerId, false);
    if o.dryRun {
      forall id | id in Take(all, offset, Limit(p, o)) ensures id !in seen {
        LaterIsUnseen(all, offset, Limit(p, o), id);
      }
      AllUnseen(Take(all, offset, Limit(p, o)), seen);
    }
  }

  lemma LaterIsUnseen(all: seq<string>, offset: nat, count: nat, id: string)
    requires NoRepeats(all) && offset <= |all| && id in Take(all, offset, count)
    ensures id !in all[..offset]
  {
    var k :| 0 <= k < |Take(all, offset, count)| && Take(all, offset, count)[k] == id;
    assert all[offset + k] == id;
  }

  lemma {:induction false} ForcedRounds(p: Progress, o: Options, answers: Answers, offset: nat, seen: set<string>)
    requires Valid(p.state) && o.forceReembed && o.batchSize > 0 && p.report.scanned == offset <= o.maxMemories
    requires var all := Owned(p.state.created, p.state.memories, o.ownerId, false);
             && offset <= |all| && IdsOf(p.log) == all[..offset] && (o.dryRun ==> seen == SetOf(all[..offset]))
    ensures var all := Owned(p.state.created, p.state.memories, o.ownerId, false);
            IdsOf(Rounds(p, o, answers, offset, seen).log) == Take(all, 0, o.maxMemories)
    decreases o.maxMemories - p.report.scanned
  {
    hide Rounds, ProcessAll, NextBatch, Valid, IdsOf, Owned;
    var all := Owned(p.state.created, p.state.memories, o.ownerId, false);
    if p.report.scanned >= o.maxMemories {
      RoundsEnd(p, o, answers, offset, seen);
    } else {
      RoundsStep(p, o, answers, offset, seen);
      ForcedBatch(p, o, offset, seen);
      var ids := BatchNow(p, o, offset, seen);
      if ids != [] {
        FailuresStay(p, ids, o, answers);
        OwnersUntouched(p, ids, o, answers);
        KnownThenValid(p, ids, o, answers);
        assert all[..offset] + ids == all[..offset + |ids|];
        SetGrows(all, offset, |ids|);
        ForcedRounds(ProcessAll(p, ids, o, answers), o, answers, offset + |ids|, if o.dryRun then seen + SetOf(ids) else seen);
      }
    }
  }

  lemma SetGrows(all: seq<string>, offset: nat, k: nat)
    requires offset + k <= |all|
    ensures SetOf(all[..offset + k]) == SetOf(all[..offset]) + SetOf(all[offset..offset + k])
  {
    assert all[..offset + k] == all[..offset] + all[offset..offset + k];
  }

  /** A forced run, dry or real, visits the owner's memories once each and in order, up to the budget, whatever fails. */
  lemma ForcedRunVisitsAll(s: State, o: Options, answers: Answers)
    requires Valid(s) && o.forceReembed && o.batchSize > 0
    ensures IdsOf(RunJob(s, o, answers).log) == Take(Owned(s.created, s.memories, o.ownerId, false), 0, o.maxMemories)
    ensures NoRepeats(IdsOf(RunJob(s, o, answers).log))
  {
    var all := Owned(s.created, s.memories, o.ownerId, false);
    ForcedRounds(Start(s), o, answers, 0, {});
    OwnedDistinct(s.created, s.memories, o.ownerId, false);
    TakeDistinct(all, 0, o.maxMemories);
  }

  /** No dry run changes anything. */
  lemma {:induction false} DryRoundsWriteNothing(p: Progress, o: Options, answers: Answers, forceOffset: nat, seen: set<string>)
    requires o.dryRun && p.report.scanned <= o.maxMemories
    ensures Rounds(p, o, answers, forceOffset, seen).state == p.state
    decreases o.maxMemories - p.report.scanned
  {
    hide Rounds, ProcessAll, NextBatch;
    if p.report.scanned >= o.maxMemories {
      RoundsEnd(p, o, answers, forceOffset, seen);
    } else {
      RoundsStep(p, o, answers, forceOffset, seen);
      var ids := BatchNow(p, o, forceOffset, seen);
      if ids != [] {
        DryBatch(p, ids, o, answers);
        DryRoundsWriteNothing(ProcessAll(p, ids, o, answers), o, answers, if o.forceReembed then forceOffset + |ids| else forceOffset,
                              seen + SetOf(ids));
      }
    }
  }
}
