/** src/embedding/embedding-job.runner.ts: batches of memories are embedded within a budget. */
module EmbeddingJob {
  import opened Outcomes
  import opened EmbeddingStore

  /** `text` is what buildEmbedText makes of the memory; its digest is kept as the text itself. */
  datatype Memory = Memory(id: string, ownerId: string, text: string, embeddingId: string)

  /** The memory table, the two orders in which it is read, and the stored embeddings. */
  datatype State = State(created: seq<string>, updated: seq<string>, memories: map<string, Memory>, rows: seq<EmbeddingRow>)

  datatype Options = Options(
    ownerId: string, modelId: string, batchSize: nat, dryRun: bool, forceReembed: bool, maxMemories: nat)

  /** What provider and database do for one memory: no result, or a vector, whose link may then fail. */
  datatype Answer = NoResult | Result(modelId: string, dimensions: nat, vector: seq<real>, linkFails: bool)

  /** The n-th memory processed meets the n-th answer; after the last one an empty vector. */
  type Answers = seq<Answer>

  function AnswerAt(answers: Answers, n: nat, modelId: string): Answer {
    if n < |answers| then answers[n] else Result(modelId, 0, [], false)
  }

  ghost predicate NoRepeats(ids: seq<string>) {
    forall i, j :: 0 <= i < j < |ids| ==> ids[i] != ids[j]
  }

  ghost predicate Listed(order: seq<string>, memories: map<string, Memory>) {
    NoRepeats(order) && forall id :: id in order <==> id in memories
  }

  ghost predicate Valid(s: State) {
    && Listed(s.created, s.memories) && Listed(s.updated, s.memories)
    && (forall id :: id in s.memories ==> s.memories[id].id == id)
    && OneRowEach(s.rows) && (forall row :: row in s.rows ==> row.id != "")
  }

  // ---------------------------------------------------------------- reading

  /** The ids of an order that belong to the owner, perhaps only those without an embedding. */
  function Owned(order: seq<string>, memories: map<string, Memory>, ownerId: string, bare: bool): (ids: seq<string>)
    ensures |ids| <= |order|
    ensures forall id :: id in ids <==>
              id in order && id in memories && memories[id].ownerId == ownerId && (bare ==> memories[id].embeddingId == "")
  {
    if order == [] then []
    else
      var front, id := Owned(order[..|order| - 1], memories, ownerId, bare), order[|order| - 1];
      assert order == order[..|order| - 1] + [id];
      if id in memories && memories[id].ownerId == ownerId && (bare ==> memories[id].embeddingId == "") then front + [id] else front
  }

  function Unembedded(s: State, ownerId: string): seq<string> {
    Owned(s.updated, s.memories, ownerId, true)
  }

  function Take(ids: seq<string>, from: nat, count: nat): (r: seq<string>)
    ensures |r| <= count
    ensures forall id :: id in r ==> id in ids
  {
    if from >= |ids| then [] else if from + count >= |ids| then ids[from..] else ids[from..from + count]
  }

  function Unseen(ids: seq<string>, seen: set<string>): (r: seq<string>)
    ensures |r| <= |ids|
    ensures forall id :: id in r <==> id in ids && id !in seen
  {
    if ids == [] then []
    else
      var front, id := Unseen(ids[..|ids| - 1], seen), ids[|ids| - 1];
      assert ids == ids[..|ids| - 1] + [id];
      if id !in seen then front + [id] else front
  }

  /** The memories of the next round, after the dry-run filter. */
  function NextBatch(s: State, o: Options, forceOffset: nat, seen: set<string>, limit: nat): (ids: seq<string>)
    ensures |ids| <= limit
    ensures forall id :: id in ids ==> id in s.memories && s.memories[id].ownerId == o.ownerId
  {
    var fetched :=
      if o.forceReembed then Take(Owned(s.created, s.memories, o.ownerId, false), forceOffset, limit)
      else Take(Unembedded(s, o.ownerId), 0, limit);
    if o.dryRun then Unseen(fetched, seen) else fetched
  }

  // ---------------------------------------------------------------- one memory

  datatype Outcome = Embedded | Skipped | Failed

  datatype Processed = Processed(state: State, outcome: Outcome)

  /** UPDATE memories SET embedding_id = ? WHERE id = ? AND owner_id = ? */
  function Linked(memories: map<string, Memory>, id: string, ownerId: string, embeddingId: string): map<string, Memory> {
    if id in memories && memories[id].ownerId == ownerId then memories[id := memories[id].(embeddingId := embeddingId)] else memories
  }

  /** Some id that no row has, as generateId makes one. */
  function UnusedId(rows: seq<EmbeddingRow>): (id: string)
    ensures id != "" && forall row :: row in rows ==> |row.id| < |id|
  {
    if rows == [] then "x" else UnusedId(rows[1..]) + rows[0].id + "x"
  }

  function EmbedMemory(s: State, memory: Memory, o: Options, answer: Answer): Processed {
    match answer
    case NoResult => Processed(s, Failed)
    case Result(modelId, dimensions, vector, linkFails) =>
      match Upsert(s.rows, UpsertInput(memory.id, o.ownerId, modelId, dimensions, vector, memory.text), UnusedId(s.rows))
      case None => Processed(s, Failed)
      case Some(u) =>
        var stored := s.(rows := u.rows);
        if linkFails then Processed(stored, Failed)
        else Processed(stored.(memories := Linked(s.memories, memory.id, o.ownerId, u.id)), Embedded)
  }

  function Process(s: State, memory: Memory, o: Options, answer: Answer): Processed {
    var existing := FindByMemoryId(s.rows, memory.id, o.ownerId, o.modelId);
    if existing.Some? && existing.value.contentHash == memory.text && !o.forceReembed then
      Processed(if !o.dryRun && memory.embeddingId == ""
                then s.(memories := Linked(s.memories, memory.id, o.ownerId, existing.value.id)) else s, Skipped)
    else if o.dryRun then Processed(s, Embedded)
    else EmbedMemory(s, memory, o, answer)
  }

  // ---------------------------------------------------------------- rounds

  datatype Report = Report(scanned: nat, embedded: nat, skipped: nat, failed: nat)

  datatype Visit = Visit(id: string, outcome: Outcome)

  datatype Progress = Progress(state: State, report: Report, log: seq<Visit>)

  function Counted(r: Report, outcome: Outcome): Report {
    Report(r.scanned + 1, r.embedded + (if outcome.Embedded? then 1 else 0), r.skipped + (if outcome.Skipped? then 1 else 0),
           r.failed + if outcome.Failed? then 1 else 0)
  }

  function ProcessNext(p: Progress, id: string, o: Options, answers: Answers): Progress
    requires id in p.state.memories
  {
    var r := Process(p.state, p.state.memories[id], o, AnswerAt(answers, p.report.scanned, o.modelId));
    Progress(r.state, Counted(p.report, r.outcome), p.log + [Visit(id, r.outcome)])
  }

  lemma ProcessKeepsIds(s: State, memory: Memory, o: Options, answer: Answer)
    ensures var t := Process(s, memory, o, answer).state;
            && t.memories.Keys == s.memories.Keys && t.created == s.created && t.updated == s.updated
            && (forall id :: id in s.memories && id != memory.id ==> t.memories[id] == s.memories[id])
            && (forall id :: id in s.memories ==> t.memories[id] == s.memories[id].(embeddingId := t.memories[id].embeddingId))
  {
  }

  function ProcessAll(p: Progress, ids: seq<string>, o: Options, answers: Answers): (q: Progress)
    requires forall id :: id in ids ==> id in p.state.memories
    ensures q.report.scanned == p.report.scanned + |ids| && q.state.memories.Keys == p.state.memories.Keys
  {
    if ids == [] then p
    else
      var n := |ids| - 1;
      var front := ProcessAll(p, ids[..n], o, answers);
      ProcessKeepsIds(front.state, front.state.memories[ids[n]], o, AnswerAt(answers, front.report.scanned, o.modelId));
      ProcessNext(front, ids[n], o, answers)
  }

  function SetOf(ids: seq<string>): set<string> {
    set id | id in ids
  }

  /** The rounds from a given progress on. */
  function Rounds(p: Progress, o: Options, answers: Answers, forceOffset: nat, seen: set<string>): (q: Progress)
    decreases o.maxMemories - p.report.scanned
  {
    if p.report.scanned >= o.maxMemories then p
    else
      var remaining := o.maxMemories - p.report.scanned;
      var ids := NextBatch(p.state, o, forceOffset, seen, if o.batchSize <= remaining then o.batchSize else remaining);
      if ids == [] then p
      else Rounds(ProcessAll(p, ids, o, answers), o, answers, if o.forceReembed then forceOffset + |ids| else forceOffset,
                  if o.dryRun then seen + SetOf(ids) else seen)
  }

  function Start(s: State): Progress {
    Progress(s, Report(0, 0, 0, 0), [])
  }

  function RunJob(s: State, o: Options, answers: Answers): Progress {
    Rounds(Start(s), o, answers, 0, {})
  }

  // ---------------------------------------------------------------- the program

  lemma {:induction false} OwnedDistinct(order: seq<string>, memories: map<string, Memory>, ownerId: string, bare: bool)
    requires NoRepeats(order)
    ensures NoRepeats(Owned(order, memories, ownerId, bare))
  {
    if order != [] {
      OwnedDistinct(order[..|order| - 1], memories, ownerId, bare);
    }
  }

  lemma TakeDistinct(ids: seq<string>, from: nat, count: nat)
    requires NoRepeats(ids)
    ensures NoRepeats(Take(ids, from, count))
  {
  }

  lemma {:induction false} UnseenDistinct(ids: seq<string>, seen: set<string>)
    requires NoRepeats(ids)
    ensures NoRepeats(Unseen(ids, seen))
  {
    if ids != [] {
      UnseenDistinct(ids[..|ids| - 1], seen);
    }
  }

  lemma BatchDistinct(s: State, o: Options, forceOffset: nat, seen: set<string>, limit: nat)
    requires NoRepeats(s.created) && NoRepeats(s.updated)
    ensures NoRepeats(NextBatch(s, o, forceOffset, seen, limit))
  {
    hide NoRepeats, Owned, Take, Unseen;
    OwnedDistinct(s.created, s.memories, o.ownerId, false);
    OwnedDistinct(s.updated, s.memories, o.ownerId, true);
    TakeDistinct(Owned(s.created, s.memories, o.ownerId, false), forceOffset, limit);
    TakeDistinct(Unembedded(s, o.ownerId), 0, limit);
    UnseenDistinct(Take(Owned(s.created, s.memories, o.ownerId, false), forceOffset, limit), seen);
    UnseenDistinct(Take(Unembedded(s, o.ownerId), 0, limit), seen);
  }

  lemma {:induction false} NextInBatch(p: Progress, ids: seq<string>, k: nat, o: Options, answers: Answers)
    requires k < |ids| && forall id :: id in ids ==> id in p.state.memories
    ensures var front := ProcessAll(p, ids[..k], o, answers);
            && ids[k] in front.state.memories
            && ProcessAll(p, ids[..k + 1], o, answers) == ProcessNext(front, ids[k], o, answers)
  {
    assert ids[..k + 1][..k] == ids[..k];
    assert ids[k] in ids;
  }

  class EmbeddingJobRunner {
    const created: seq<string>
    const updated: seq<string>
    var memories: map<string, Memory>
    const store: D1EmbeddingStore

    ghost function Current(): State
      reads this, store
    {
      State(created, updated, memories, store.rows)
    }

    constructor (created: seq<string>, updated: seq<string>, memories: map<string, Memory>, store: D1EmbeddingStore)
      ensures this.created == created && this.updated == updated && this.memories == memories && this.store == store
    {
      this.created, this.updated, this.memories, this.store := created, updated, memories, store;
    }

    method ApplyEmbeddingBackfill(id: string, ownerId: string, embeddingId: string)
      modifies this`memories
      ensures memories == Linked(old(memories), id, ownerId, embeddingId)
    {
      if id in memories && memories[id].ownerId == ownerId {
        memories := memories[id := memories[id].(embeddingId := embeddingId)];
      }
    }

    /** False when the program throws. */
    method Embed(memory: Memory, o: Options, answer: Answer) returns (done: bool)
      requires store.Valid()
      modifies this`memories, store
      ensures store.Valid()
      ensures var r := EmbedMemory(old(Current()), memory, o, answer);
              Current() == r.state && done == r.outcome.Embedded? && (r.outcome.Embedded? || r.outcome.Failed?)
    {
      if answer.NoResult? {
        return false;
      }
      var input := UpsertInput(memory.id, o.ownerId, answer.modelId, answer.dimensions, answer.vector, memory.text);
      var embeddingId := store.UpsertEmbedding(input, UnusedId(store.rows));
      if embeddingId.None? {
        return false;
      }
      if answer.linkFails {
        return false;
      }
      ApplyEmbeddingBackfill(memory.id, o.ownerId, embeddingId.value);
      done := true;
    }

    method ProcessMemory(memory: Memory, o: Options, answer: Answer, report: Report) returns (next: Report)
      requires store.Valid()
      modifies this`memories, store
      ensures store.Valid()
      ensures var r := Process(old(Current()), memory, o, answer);
              Current() == r.state && next == Counted(report, r.outcome)
    {
      hide EmbedMemory;
      next := report.(scanned := report.scanned + 1);
      var existing := FindByMemoryId(store.rows, memory.id, o.ownerId, o.modelId);
      if existing.Some? && existing.value.contentHash == memory.text && !o.forceReembed {
        next := next.(skipped := next.skipped + 1);
        if !o.dryRun && memory.embeddingId == "" {
          ApplyEmbeddingBackfill(memory.id, o.ownerId, existing.value.id);
        }
        return;
      }
      if o.dryRun {
        next := next.(embedded := next.embedded + 1);
        return;
      }
      var done := Embed(memory, o, answer);
      next := if done then next.(embedded := next.embedded + 1) else next.(failed := next.failed + 1);
    }

    method ProcessBatch(ids: seq<string>, fetched: seq<Memory>, o: Options, answers: Answers, report: Report, ghost p: Progress)
      returns (next: Report)
      requires store.Valid() && NoRepeats(ids)
      requires p.state == Current() && p.report == report
      requires |fetched| == |ids|
      requires forall k :: 0 <= k < |ids| ==> ids[k] in memories && fetched[k] == memories[ids[k]] && fetched[k].id == ids[k]
      modifies this`memories, store
      ensures store.Valid()
      ensures forall id :: id in ids ==> id in p.state.memories
      ensures var q := ProcessAll(p, ids, o, answers); Current() == q.state && next == q.report
    {
      hide Process, ProcessAll;
      next := report;
      assert forall id :: id in ids ==> id in p.state.memories;
      NothingProcessed(p, ids, o, answers);
      for k := 0 to |ids|
        invariant store.Valid() && p.state.memories.Keys == memories.Keys
        invariant Current() == ProcessAll(p, ids[..k], o, answers).state && next == ProcessAll(p, ids[..k], o, answers).report
        invariant forall m :: k <= m < |ids| ==> ids[m] in memories && fetched[m] == memories[ids[m]]
      {
        NextInBatch(p, ids, k, o, answers);
        ProcessKeepsIds(Current(), fetched[k], o, AnswerAt(answers, next.scanned, o.modelId));
        next := ProcessMemory(fetched[k], o, AnswerAt(answers, next.scanned, o.modelId), next);
      }
      assert ids[..|ids|] == ids;
    }

    method Run(o: Options, answers: Answers) returns (report: Report)
      requires Valid(Current())
      modifies this`memories, store
      ensures var q := RunJob(old(Current()), o, answers); Current() == q.state && report == q.report
    {
      hide ProcessAll, Rounds, NextBatch, NoRepeats, OneRowEach;
      report := Report(0, 0, 0, 0);
      var seen: set<string> := {};
      var forceOffset := 0;
      ghost var p := Start(Current());
      while report.scanned < o.maxMemories
        invariant Current() == p.state && report == p.report && Valid(p.state)
        invariant forceOffset >= 0
        invariant Rounds(p, o, answers, forceOffset, seen) == RunJob(old(Current()), o, answers)
        decreases o.maxMemories - report.scanned
      {
        var remaining := o.maxMemories - report.scanned;
        var limit := if o.batchSize <= remaining then o.batchSize else remaining;
        RoundsStep(p, o, answers, forceOffset, seen);
        BatchDistinct(p.state, o, forceOffset, seen, limit);
        var ids := NextBatch(State(created, updated, memories, store.rows), o, forceOffset, seen, limit);
        if |ids| == 0 {
          return;
        }
        if o.forceReembed {
          forceOffset := forceOffset + |ids|;
        }
        var fetched := seq(|ids|, k requires 0 <= k < |ids| && ids[k] in memories reads this => memories[ids[k]]);
        ValidAfter(p, ids, o, answers);
        report := ProcessBatch(ids, fetched, o, answers, report, p);
        p := ProcessAll(p, ids, o, answers);
        if o.dryRun {
          seen := seen + SetOf(ids);
        }
      }
      RoundsEnd(p, o, answers, forceOffset, seen);
    }
  }

  lemma NothingProcessed(p: Progress, ids: seq<string>, o: Options, answers: Answers)
    ensures ProcessAll(p, ids[..0], o, answers) == p
  {
  }

  lemma RoundsEnd(p: Progress, o: Options, answers: Answers, forceOffset: nat, seen: set<string>)
    requires p.report.scanned >= o.maxMemories
    ensures Rounds(p, o, answers, forceOffset, seen) == p
  {
  }

  lemma RoundsStep(p: Progress, o: Options, answers: Answers, forceOffset: nat, seen: set<string>)
    requires p.report.scanned < o.maxMemories
    ensures var remaining := o.maxMemories - p.report.scanned;
            var ids := NextBatch(p.state, o, forceOffset, seen, if o.batchSize <= remaining then o.batchSize else remaining);
            && (forall id :: id in ids ==> id in p.state.memories)
            && Rounds(p, o, answers, forceOffset, seen) ==
                 if ids == [] then p
                 else Rounds(ProcessAll(p, ids, o, answers), o, answers, if o.forceReembed then forceOffset + |ids| else forceOffset,
                             if o.dryRun then seen + SetOf(ids) else seen)
  {
    hide NextBatch, ProcessAll, Process, Counted;
  }

  // ---------------------------------------------------------------- what every step keeps

  lemma ProcessKeepsValid(s: State, memory: Memory, o: Options, answer: Answer)
    requires Valid(s)
    ensures Valid(Process(s, memory, o, answer).state)
  {
    ProcessKeepsIds(s, memory, o, answer);
    hide OneRowEach, Upsert, NoRepeats;
    if answer.Result? {
      var input := UpsertInput(memory.id, o.ownerId, answer.modelId, answer.dimensions, answer.vector, memory.text);
      if Upsert(s.rows, input, UnusedId(s.rows)).Some? {
        UpsertMeaning(s.rows, input, UnusedId(s.rows));
      }
    }
  }

  lemma {:induction false} ValidAfter(p: Progress, ids: seq<string>, o: Options, answers: Answers)
    requires Valid(p.state) && forall id :: id in ids ==> id in p.state.memories
    ensures Valid(ProcessAll(p, ids, o, answers).state)
  {
    if ids != [] {
      hide Valid, Process;
      var n := |ids| - 1;
      ValidAfter(p, ids[..n], o, answers);
      var front := ProcessAll(p, ids[..n], o, answers);
      assert ids[n] in ids;
      ProcessKeepsValid(front.state, front.state.memories[ids[n]], o, AnswerAt(answers, front.report.scanned, o.modelId));
    }
  }
}
