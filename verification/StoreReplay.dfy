/** Replaying a batch on the snapshot it produced. */
module StoreReplay {
  import opened Outcomes
  import opened OrderedMap
  import opened Knowledge
  import opened Embedding
  import opened KnowledgeStore
  import opened StoreInvariant

  ghost predicate AllCompleted(events: Events) {
    forall k :: 0 <= k < |events| ==> events[k].value.status == CompletedEvent
  }

  ghost predicate SettledFor(e: Entry<VersionId, StoreRecord>, documents: seq<Document>) {
    ForSome(documents, e.value.documentId, e.value.version) ==> e.value.status == AvailableVersion && e.value.recoveryToken == None
  }

  /** The snapshot already holds the batch: its records are available, its embeddings stored, its events done. */
  ghost predicate Absorbed(documents: seq<Document>, batch: seq<EmbeddingRecord>, s: Snapshot) {
    && (forall d :: d in documents ==> Has(s.records, VersionIdFor(d)))
    && (forall r :: r in batch ==> Has(s.embeddings, r.embeddingId))
    && (forall i :: 0 <= i < |s.records| ==> SettledFor(s.records[i], documents))
    && AllCompleted(s.indexEvents)
  }

  // ---------------------------------------------------------------- a successful batch is absorbed

  lemma {:induction false} NoneOfThese(settled: Records, versions: map<DocumentId, Version>)
    requires IdsWith(settled, versions, false) == []
    ensures forall i :: 0 <= i < |settled| && Expected(settled[i].value, versions) ==> settled[i].value.status == AvailableVersion
  {
    if settled != [] {
      var n := |settled| - 1;
      NoneOfThese(settled[..n], versions);
      assert forall i :: 0 <= i < n ==> settled[..n][i] == settled[i];
    }
  }

  /** What a store stage that completed leaves: recovered first if it was partial and recovery is on. */
  function Stored(documents: seq<Document>, batch: seq<EmbeddingRecord>, previous: Snapshot, failBefore: bool): Snapshot {
    var p := Persist(documents, batch, previous, failBefore);
    if p.partialFailure then Recover(p.snapshot) else p.snapshot
  }

  lemma SameKeysHeld(a: Records, b: Records)
    requires |a| == |b| && forall i :: 0 <= i < |a| ==> a[i].key == b[i].key
    ensures forall k :: Has(a, k) ==> Has(b, k)
  {
    forall k | Has(a, k) ensures Has(b, k) {
      var i :| 0 <= i < |a| && a[i].key == k;
      assert b[i].key == k;
    }
  }

  lemma PersistHoldsBatch(documents: seq<Document>, batch: seq<EmbeddingRecord>, previous: Snapshot, failBefore: bool)
    requires Consistent(previous) && CompleteBatch(documents, batch)
    ensures var s := Persist(documents, batch, previous, failBefore).snapshot;
            && (forall d :: d in documents ==> Has(s.records, VersionIdFor(d)))
            && (forall r :: r in batch ==> Has(s.embeddings, r.embeddingId))
  {
    FromEntriesFixed(previous.records);
    FromEntriesFixed(previous.embeddings);
    var more := AddedEmbeddings(previous.embeddings, batch);
    AddedRecords(previous.records, documents);
    var all := AddMissing(previous.records, documents);
    var settled := SettleAll(all, VersionByDoc(documents), previous.embeddings + more, failBefore);
    hide Unique, AddMissing, CountFor, Counted, FromEntries, VersionByDoc, OldOrNew;
    SameKeysHeld(all, settled);
  }

  lemma StoredIsSettled(documents: seq<Document>, batch: seq<EmbeddingRecord>, previous: Snapshot, failBefore: bool)
    requires Consistent(previous) && CompleteBatch(documents, batch)
    ensures Consistent(Stored(documents, batch, previous, failBefore))
    ensures var s := Stored(documents, batch, previous, failBefore);
            && (forall d :: d in documents ==> Has(s.records, VersionIdFor(d)))
            && (forall r :: r in batch ==> Has(s.embeddings, r.embeddingId))
            && (forall i :: 0 <= i < |s.records| ==> SettledFor(s.records[i], documents))
  {
    PersistKeepsConsistent(documents, batch, previous, failBefore);
    PersistHoldsBatch(documents, batch, previous, failBefore);
    BatchIsOneVersionEach(documents, batch);
    hide Consistent, CompleteBatch, OneVersionEach, FromEntries, AddMissing, AddEmbeddings, RaiseEvents, CountFor, AddMissingEvents,
         VersionByDoc, ForSome, SettleAll, Settled, Expected, Has;
    var p := Persist(documents, batch, previous, failBefore);
    var records := p.snapshot.records;
    if p.partialFailure {
      RecoverKeepsConsistent(p.snapshot);
      SameKeysHeld(records, MakeAllAvailable(records));
    } else {
      NoneOfThese(records, VersionByDoc(documents));
    }
    PersistShapes(documents, batch, previous, failBefore);
    forall i | 0 <= i < |records| ensures SettledFor(Stored(documents, batch, previous, failBefore).records[i], documents) {
      ExpectedExactly(records[i].value, documents);
      assert PendingOrDone(records[i].value, VersionByDoc(documents));
    }
  }

  ghost predicate PendingOrDone(r: StoreRecord, versions: map<DocumentId, Version>) {
    Expected(r, versions) ==> r.status == PendingVersion || (r.status == AvailableVersion && r.recoveryToken == None)
  }

  lemma PersistShapes(documents: seq<Document>, batch: seq<EmbeddingRecord>, previous: Snapshot, failBefore: bool)
    ensures var records := Persist(documents, batch, previous, failBefore).snapshot.records;
            forall i :: 0 <= i < |records| ==> PendingOrDone(records[i].value, VersionByDoc(documents))
  {
    hide FromEntries, AddMissing, AddEmbeddings, RaiseEvents, IdsWith, CountFor, VersionByDoc;
    var records := Persist(documents, batch, previous, failBefore).snapshot.records;
    var before := AddMissing(FromEntries(previous.records), documents);
    forall i | 0 <= i < |records| ensures PendingOrDone(records[i].value, VersionByDoc(documents)) {
      SettledShape(before[i], VersionByDoc(documents), AddEmbeddings(FromEntries(previous.embeddings), batch).embeddings, failBefore);
    }
  }

  lemma SettledShape(e: Entry<VersionId, StoreRecord>, versions: map<DocumentId, Version>, embeddings: Embeddings, failBefore: bool)
    ensures var r := Settled(e, versions, embeddings, failBefore).value;
            && (Expected(r, versions) <==> Expected(e.value, versions))
            && PendingOrDone(r, versions)
  {
  }

  /** A batch whose store stage completed and whose index update left no failure is absorbed. */
  lemma SuccessIsAbsorbed(documents: seq<Document>, batch: seq<EmbeddingRecord>, previous: Snapshot, failBefore: bool, failVersionIds: set<VersionId>)
    requires Consistent(previous) && CompleteBatch(documents, batch)
    requires var after := ApplyIndexUpdate(Stored(documents, batch, previous, failBefore), failVersionIds);
             forall k :: 0 <= k < |after.indexEvents| ==> after.indexEvents[k].value.status != FailedEvent
    ensures var after := ApplyIndexUpdate(Stored(documents, batch, previous, failBefore), failVersionIds);
            Consistent(after) && Absorbed(documents, batch, after)
  {
    StoredIsSettled(documents, batch, previous, failBefore);
    hide Stored, Consistent, CompleteBatch;
    IndexKeepsConsistent(Stored(documents, batch, previous, failBefore), failVersionIds);
  }

  // ---------------------------------------------------------------- what is indexed

  /** A fresh event for a record of the batch that became available. */
  ghost predicate FreshEvent(x: Entry<EventId, IndexEvent>, settled: Records, versions: map<DocumentId, Version>) {
    exists i :: 0 <= i < |settled| && Raises(settled[i], versions)
      && x == Entry(EventId(settled[i].key),
                    IndexEvent(settled[i].key, settled[i].value.documentId, settled[i].value.organizationId, PendingEvent))
  }

  ghost predicate Raises(e: Entry<VersionId, StoreRecord>, versions: map<DocumentId, Version>) {
    Expected(e.value, versions) && e.value.status == AvailableVersion
  }

  ghost predicate RaisedKey(k: EventId, settled: Records, versions: map<DocumentId, Version>) {
    exists i :: 0 <= i < |settled| && Raises(settled[i], versions) && k == EventId(settled[i].key)
  }

  lemma FreshSplits(x: Entry<EventId, IndexEvent>, settled: Records, versions: map<DocumentId, Version>)
    requires settled != []
    ensures var n := |settled| - 1;
            var e := settled[n];
            && (FreshEvent(x, settled, versions) <==>
                  FreshEvent(x, settled[..n], versions)
                  || (Raises(e, versions) && x == Entry(EventId(e.key), IndexEvent(e.key, e.value.documentId, e.value.organizationId, PendingEvent))))
            && (RaisedKey(x.key, settled, versions) <==> RaisedKey(x.key, settled[..n], versions) || (Raises(e, versions) && x.key == EventId(e.key)))
  {
    hide Raises;
    var n := |settled| - 1;
    assert forall i :: 0 <= i < n ==> settled[..n][i] == settled[i];
    if FreshEvent(x, settled[..n], versions) {
      var i :| 0 <= i < n && Raises(settled[..n][i], versions)
        && x == Entry(EventId(settled[..n][i].key),
                      IndexEvent(settled[..n][i].key, settled[..n][i].value.documentId, settled[..n][i].value.organizationId, PendingEvent));
      assert Raises(settled[i], versions);
    }
    if RaisedKey(x.key, settled[..n], versions) {
      var i :| 0 <= i < n && Raises(settled[..n][i], versions) && x.key == EventId(settled[..n][i].key);
      assert Raises(settled[i], versions);
    }
  }

  lemma PutExactly(s: Events, k: EventId, v: IndexEvent)
    requires Unique(s)
    ensures Unique(Put(s, k, v)) && forall x :: x in Put(s, k, v) <==> x == Entry(k, v) || (x in s && x.key != k)
  {
    PutKeeps(s, k, v);
    var t := Put(s, k, v);
    var i :| 0 <= i < |t| && t[i].key == k;
    if Has(s, k) {
      var j :| 0 <= j < |s| && s[j].key == k;
      PutKnown(s, j, v);
    } else {
      PutNew(s, k, v);
      assert t[|s|] == Entry(k, v);
    }
  }

  lemma FreshIsRaised(x: Entry<EventId, IndexEvent>, settled: Records, versions: map<DocumentId, Version>)
    ensures FreshEvent(x, settled, versions) ==> RaisedKey(x.key, settled, versions)
  {
    hide Raises;
  }

  lemma LaterKeysDiffer(settled: Records, versions: map<DocumentId, Version>)
    requires settled != [] && Unique(settled)
    ensures Unique(settled[..|settled| - 1]) && !RaisedKey(EventId(settled[|settled| - 1].key), settled[..|settled| - 1], versions)
  {
  }

  /** The events afterwards: a fresh pending one for every available record of the batch, and the others as they were. */
  lemma {:induction false} RaisedExactly(events: Events, settled: Records, versions: map<DocumentId, Version>)
    requires Unique(events) && Unique(settled)
    ensures Unique(RaiseEvents(events, settled, versions))
    ensures forall x :: x in RaiseEvents(events, settled, versions) <==>
              FreshEvent(x, settled, versions) || (x in events && !RaisedKey(x.key, settled, versions))
  {
    if settled != [] {
      var n := |settled| - 1;
      var e := settled[n];
      LaterKeysDiffer(settled, versions);
      RaisedExactly(events, settled[..n], versions);
      RaiseUnfold(events, settled, versions);
      var front := RaiseEvents(events, settled[..n], versions);
      PutExactly(front, EventId(e.key), EventFor(e));
      hide Unique, RaiseEvents, FreshEvent, RaisedKey, Put;
      forall x ensures x in RaiseEvents(events, settled, versions) <==>
                         FreshEvent(x, settled, versions) || (x in events && !RaisedKey(x.key, settled, versions))
      {
        FreshSplits(x, settled, versions);
        FreshIsRaised(x, settled[..n], versions);
      }
    }
  }

  /** A pending event, the only one of its version, fails iff it is told to. */
  lemma PendingIsQueuedExactly(s: Snapshot, k: nat, failVersionIds: set<VersionId>)
    requires k < |s.indexEvents| && s.indexEvents[k].value.status == PendingEvent
    requires forall j :: 0 <= j < |s.indexEvents| && s.indexEvents[j].value.versionId == s.indexEvents[k].value.versionId ==> j == k
    ensures var v := s.indexEvents[k].value.versionId;
            v in BuildIndexRecoveryQueue(ApplyIndexUpdate(s, failVersionIds)) <==> v in failVersionIds
  {
    QueueAfterUpdate(s, failVersionIds);
    hide BuildIndexRecoveryQueue, ApplyIndexUpdate;
  }

  lemma OneEventEach(events: Events, records: Records, k: nat)
    requires Unique(events) && EventsBelong(events, records) && k < |events|
    ensures forall j :: 0 <= j < |events| && events[j].value.versionId == events[k].value.versionId ==> j == k
  {
    forall j | 0 <= j < |events| && events[j].value.versionId == events[k].value.versionId ensures j == k {
      assert EventOf(events[j], records) && EventOf(events[k], records);
    }
  }

  lemma SettledHasFreshEvent(previous: Events, settled: Records, versions: map<DocumentId, Version>, documents: seq<Document>, d: Document)
    returns (k: nat)
    requires Unique(previous) && Unique(settled) && BatchSettled(settled, versions, documents, false) && d in documents
    ensures var events := RaiseEvents(previous, settled, versions);
            && k < |events| && events[k].key == EventId(VersionIdFor(d))
            && events[k].value.versionId == VersionIdFor(d) && events[k].value.status == PendingEvent
  {
    RaisedExactly(previous, settled, versions);
    hide RaiseEvents, Expected, RaisedKey, Unique, IsVersionOf;
    assert ExpectedUnder(settled, versions, VersionIdFor(d));
    var i :| 0 <= i < |settled| && settled[i].key == VersionIdFor(d) && Expected(settled[i].value, versions);
    assert Raises(settled[i], versions);
    var x := Entry(EventId(settled[i].key), IndexEvent(settled[i].key, settled[i].value.documentId, settled[i].value.organizationId, PendingEvent));
    assert FreshEvent(x, settled, versions);
    var events := RaiseEvents(previous, settled, versions);
    k :| 0 <= k < |events| && events[k] == x;
  }

  /** After a complete batch every version of its documents has a pending event. */
  lemma BatchHasFreshEvent(documents: seq<Document>, batch: seq<EmbeddingRecord>, previous: Snapshot, d: Document) returns (k: nat)
    requires Consistent(previous) && CompleteBatch(documents, batch) && d in documents
    ensures var events := Persist(documents, batch, previous, false).snapshot.indexEvents;
            && k < |events| && events[k].key == EventId(VersionIdFor(d))
            && events[k].value.versionId == VersionIdFor(d) && events[k].value.status == PendingEvent
  {
    BatchIsSettled(documents, batch, previous, false);
    EventsUnfold(documents, batch, previous, false);
    PersistKeepsConsistent(documents, batch, previous, false);
    hide Persist, VersionByDoc, CompleteBatch, RaiseEvents, WellKeyed, AllCounted, AvailableAreIndexed, EventsBelong, BatchSettled, Unique;
    k := SettledHasFreshEvent(previous.indexEvents, Persist(documents, batch, previous, false).snapshot.records, VersionByDoc(documents), documents, d);
  }

  /** Every version of a complete batch is queued for recovery iff the index is told to fail it. */
  lemma BatchIsQueuedExactly(documents: seq<Document>, batch: seq<EmbeddingRecord>, previous: Snapshot, failVersionIds: set<VersionId>, d: Document)
    requires Consistent(previous) && CompleteBatch(documents, batch) && d in documents
    ensures var p := Persist(documents, batch, previous, false);
            && Has(p.snapshot.indexEvents, EventId(VersionIdFor(d)))
            && (VersionIdFor(d) in BuildIndexRecoveryQueue(ApplyIndexUpdate(p.snapshot, failVersionIds)) <==> VersionIdFor(d) in failVersionIds)
  {
    var k := BatchHasFreshEvent(documents, batch, previous, d);
    PersistKeepsConsistent(documents, batch, previous, false);
    hide Persist, CompleteBatch, WellKeyed, AllCounted, AvailableAreIndexed, Unique, EventsBelong, BuildIndexRecoveryQueue, ApplyIndexUpdate;
    var p := Persist(documents, batch, previous, false);
    OneEventEach(p.snapshot.indexEvents, p.snapshot.records, k);
    PendingIsQueuedExactly(p.snapshot, k, failVersionIds);
  }

  lemma EventsUnfold(documents: seq<Document>, batch: seq<EmbeddingRecord>, previous: Snapshot, failBefore: bool)
    requires Unique(previous.indexEvents)
    ensures var p := Persist(documents, batch, previous, failBefore);
            p.snapshot.indexEvents == RaiseEvents(previous.indexEvents, p.snapshot.records, VersionByDoc(documents))
  {
    FromEntriesFixed(previous.indexEvents);
  }

  ghost predicate NoneFailedYet(events: Events) {
    forall k :: 0 <= k < |events| ==> events[k].value.status != FailedEvent
  }

  lemma UpdateCompletesAll(s: Snapshot)
    requires NoneFailedYet(s.indexEvents)
    ensures AllCompleted(ApplyIndexUpdate(s, {}).indexEvents)
  {
    var after := ApplyIndexUpdate(s, {}).indexEvents;
    forall k | 0 <= k < |after| ensures after[k].value.status == CompletedEvent {
      assert after[k] == Indexed(s.indexEvents[k], {});
    }
  }

  lemma RaisingFailsNone(events: Events, settled: Records, versions: map<DocumentId, Version>)
    requires Unique(events) && Unique(settled) && NoneFailedYet(events)
    ensures NoneFailedYet(RaiseEvents(events, settled, versions))
  {
    RaisedExactly(events, settled, versions);
    hide RaiseEvents, RaisedKey, Raises, Unique;
    var after := RaiseEvents(events, settled, versions);
    forall k | 0 <= k < |after| ensures after[k].value.status != FailedEvent {
      assert after[k] in after;
    }
  }

  /** With nothing told to fail and no failure left from before, an index update completes every event. */
  lemma NothingFailsUnasked(documents: seq<Document>, batch: seq<EmbeddingRecord>, previous: Snapshot, failBefore: bool)
    requires Consistent(previous) && CompleteBatch(documents, batch) && NoneFailedYet(previous.indexEvents)
    ensures AllCompleted(ApplyIndexUpdate(Persist(documents, batch, previous, failBefore).snapshot, {}).indexEvents)
  {
    var p := Persist(documents, batch, previous, failBefore);
    PersistKeepsConsistent(documents, batch, previous, failBefore);
    EventsUnfold(documents, batch, previous, failBefore);
    hide Persist, VersionByDoc, CompleteBatch, WellKeyed, AllCounted, AvailableAreIndexed, EventsBelong, Unique, RaiseEvents;
    RaisingFailsNone(previous.indexEvents, p.snapshot.records, VersionByDoc(documents));
    UpdateCompletesAll(p.snapshot);
  }

  // ---------------------------------------------------------------- replay

  lemma {:induction false} NothingMissing(records: Records, documents: seq<Document>)
    requires forall d :: d in documents ==> Has(records, VersionIdFor(d))
    ensures AddMissing(records, documents) == records
  {
    if documents != [] {
      NothingMissing(records, documents[..|documents| - 1]);
    }
  }

  lemma {:induction false} AllDuplicates(embeddings: Embeddings, batch: seq<EmbeddingRecord>)
    requires forall r :: r in batch ==> Has(embeddings, r.embeddingId)
    ensures AddEmbeddings(embeddings, batch) == Added(embeddings, 0, |batch|)
  {
    if batch != [] {
      AllDuplicates(embeddings, batch[..|batch| - 1]);
    }
  }

  /** Settling again an expected record that is available with the right count changes nothing. */
  lemma {:induction false} SettledAgain(e: Entry<VersionId, StoreRecord>, documents: seq<Document>, embeddings: Embeddings)
    requires OneVersionEach(documents) && Counted(e, embeddings) && SettledFor(e, documents)
    ensures Settled(e, VersionByDoc(documents), embeddings, false) == e
  {
    ExpectedExactly(e.value, documents);
  }

  /** Same entries, except that some events have been put back to pending. */
  ghost predicate PutBack(a: Events, b: Events) {
    |a| == |b| && forall k :: 0 <= k < |a| ==> a[k] == b[k] || a[k] == Entry(b[k].key, b[k].value.(status := PendingEvent))
  }

  lemma EventForRecord(e: Entry<VersionId, StoreRecord>, records: Records, x: Entry<EventId, IndexEvent>)
    requires Unique(records) && e in records && EventOf(x, records) && x.key == EventId(e.key)
    ensures EventFor(e) == x.value.(status := PendingEvent)
  {
    var i :| 0 <= i < |records| && records[i].key == x.value.versionId
             && records[i].value.documentId == x.value.documentId && records[i].value.organizationId == x.value.organizationId;
    var j :| 0 <= j < |records| && records[j] == e;
    assert i == j;
  }

  lemma PutBackStep(front: Events, events: Events, records: Records, e: Entry<VersionId, StoreRecord>)
    requires Unique(records) && Unique(events) && EventsBelong(events, records)
    requires PutBack(front, events) && e in records && Has(events, EventId(e.key))
    ensures PutBack(Put(front, EventId(e.key), EventFor(e)), events)
  {
    var i :| 0 <= i < |events| && events[i].key == EventId(e.key);
    assert EventOf(events[i], records);
    EventForRecord(e, records, events[i]);
    forall k | 0 <= k < |front| ensures front[k].key == events[k].key {
    }
    SameKeysUnique(front, events);
    PutKnown(front, i, EventFor(e));
  }

  lemma SameKeysUnique(a: Events, b: Events)
    requires |a| == |b| && Unique(b) && forall k :: 0 <= k < |a| ==> a[k].key == b[k].key
    ensures Unique(a)
  {
  }

  lemma {:induction false} RaisingPutsBack(events: Events, settled: Records, records: Records, versions: map<DocumentId, Version>)
    requires Unique(records) && Unique(events) && EventsBelong(events, records) && AvailableAreIndexed(records, events)
    requires forall e :: e in settled ==> e in records
    ensures PutBack(RaiseEvents(events, settled, versions), events)
  {
    hide Unique, EventsBelong, EventFor;
    if settled != [] {
      var n := |settled| - 1;
      RaisingPutsBack(events, settled[..n], records, versions);
      var e := settled[n];
      if e.value.status == AvailableVersion {
        OldIsIndexed(records, events, e);
        PutBackStep(RaiseEvents(events, settled[..n], versions), events, records, e);
      }
    }
  }

  lemma IndexingCompletes(a: Events, b: Events)
    requires PutBack(a, b) && AllCompleted(b)
    ensures IndexAll(a, {}) == b
  {
    var r := IndexAll(a, {});
    forall k | 0 <= k < |r| ensures r[k] == b[k] {
      assert r[k] == Indexed(a[k], {});
    }
  }

  lemma {:induction false} NobodyPending(settled: Records, documents: seq<Document>)
    requires OneVersionEach(documents)
    requires forall i :: 0 <= i < |settled| ==> SettledFor(settled[i], documents)
    ensures IdsWith(settled, VersionByDoc(documents), false) == []
  {
    if settled != [] {
      var n := |settled| - 1;
      assert forall i :: 0 <= i < n ==> settled[..n][i] == settled[i];
      NobodyPending(settled[..n], documents);
      ExpectedExactly(settled[n].value, documents);
    }
  }

  /**
   * Replaying an absorbed batch with nothing injected: records and embeddings stay,
   * every embedding counts as a duplicate, events are put back and completed again.
   */
  lemma ReplayChangesNothing(documents: seq<Document>, batch: seq<EmbeddingRecord>, s: Snapshot)
    requires Consistent(s) && CompleteBatch(documents, batch) && Absorbed(documents, batch, s)
    ensures var p := Persist(documents, batch, s, false);
            && p.snapshot.records == s.records && p.snapshot.embeddings == s.embeddings
            && p.duplicateEmbeddingCount == |batch| && p.persistedEmbeddingCount == 0
            && !p.partialFailure
            && ApplyIndexUpdate(p.snapshot, {}) == s
  {
    BatchIsOneVersionEach(documents, batch);
    hide CompleteBatch, Unique, CountFor, FromEntries, EventsBelong, AllCompleted, EventFor, OneVersionEach, VersionByDoc,
         AddMissing, AddEmbeddings, RaiseEvents, IdsWith, Settled, ForSome, Has, WellKeyed;
    FromEntriesFixed(s.records);
    FromEntriesFixed(s.embeddings);
    FromEntriesFixed(s.indexEvents);
    NothingMissing(s.records, documents);
    AllDuplicates(s.embeddings, batch);
    var versions := VersionByDoc(documents);
    var settled := SettleAll(s.records, versions, s.embeddings, false);
    forall i | 0 <= i < |settled| ensures settled[i] == s.records[i] {
      assert Counted(s.records[i], s.embeddings);
      SettledAgain(s.records[i], documents, s.embeddings);
    }
    assert settled == s.records;
    RaisingPutsBack(s.indexEvents, settled, s.records, versions);
    IndexingCompletes(RaiseEvents(s.indexEvents, settled, versions), s.indexEvents);
    NobodyPending(settled, documents);
  }
}
