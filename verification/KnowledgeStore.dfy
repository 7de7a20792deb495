/**
 * scripts/lib/knowledge-store-boundary.ts: versioned records, embeddings and index
 * events, merged into a snapshot by batch.
 */
module KnowledgeStore {
  import opened Outcomes
  import opened OrderedMap
  import opened Knowledge

  datatype RecordStatus = PendingVersion | AvailableVersion | FailedVersion

  datatype StoreRecord = StoreRecord(
    documentId: DocumentId, organizationId: string, version: Version, status: RecordStatus,
    embeddingCount: nat, recoveryToken: Option<VersionId>)

  datatype EventStatus = PendingEvent | CompletedEvent | FailedEvent

  datatype IndexEvent = IndexEvent(
    versionId: VersionId, documentId: DocumentId, organizationId: string, status: EventStatus)

  type Records = seq<Entry<VersionId, StoreRecord>>
  type Embeddings = seq<Entry<EmbeddingId, EmbeddingRecord>>
  type Events = seq<Entry<EventId, IndexEvent>>

  /** Timestamps are not kept; entries stand under the id that the program gives them. */
  datatype Snapshot = Snapshot(records: Records, embeddings: Embeddings, indexEvents: Events)

  const EMPTY_SNAPSHOT := Snapshot([], [], [])

  function VersionIdFor(document: Document): VersionId {
    VersionId(document.documentId, document.version)
  }

  // ---------------------------------------------------------------- persisting a batch

  /** A pending record with no embeddings for every document version not seen before. */
  function AddMissing(records: Records, documents: seq<Document>): Records {
    if documents == [] then records
    else
      var front, d := AddMissing(records, documents[..|documents| - 1]), documents[|documents| - 1];
      if Has(front, VersionIdFor(d)) then front
      else front + [Entry(VersionIdFor(d), StoreRecord(d.documentId, d.organizationId, d.version, PendingVersion, 0, None))]
  }

  datatype Added = Added(embeddings: Embeddings, persisted: nat, duplicates: nat)

  function AddEmbeddings(embeddings: Embeddings, batch: seq<EmbeddingRecord>): Added {
    if batch == [] then Added(embeddings, 0, 0)
    else
      var front, e := AddEmbeddings(embeddings, batch[..|batch| - 1]), batch[|batch| - 1];
      if Has(front.embeddings, e.embeddingId) then front.(duplicates := front.duplicates + 1)
      else front.(embeddings := front.embeddings + [Entry(e.embeddingId, e)], persisted := front.persisted + 1)
  }

  /** The version that the batch expects of a document: of equal ids the last one counts. */
  function VersionByDoc(documents: seq<Document>): map<DocumentId, Version> {
    if documents == [] then map[]
    else VersionByDoc(documents[..|documents| - 1])[documents[|documents| - 1].documentId := documents[|documents| - 1].version]
  }

  function CountFor(embeddings: Embeddings, documentId: DocumentId, version: Version): nat {
    if embeddings == [] then 0
    else
      var e := embeddings[|embeddings| - 1].value;
      CountFor(embeddings[..|embeddings| - 1], documentId, version)
        + if e.documentId == documentId && e.version == version then 1 else 0
  }

  predicate Expected(r: StoreRecord, versions: map<DocumentId, Version>) {
    r.documentId in versions && versions[r.documentId] == r.version
  }

  /** The status pass over one record. */
  function Settled(e: Entry<VersionId, StoreRecord>, versions: map<DocumentId, Version>, embeddings: Embeddings, failBefore: bool):
    Entry<VersionId, StoreRecord>
  {
    var r := e.value;
    if !Expected(r, versions) then e
    else
      var count := CountFor(embeddings, r.documentId, r.version);
      if count > 0 && !failBefore
      then Entry(e.key, r.(status := AvailableVersion, embeddingCount := count, recoveryToken := None))
      else Entry(e.key, r.(status := PendingVersion, embeddingCount := count, recoveryToken := Some(e.key)))
  }

  function SettleAll(records: Records, versions: map<DocumentId, Version>, embeddings: Embeddings, failBefore: bool): (settled: Records)
    ensures |settled| == |records|
    ensures forall i :: 0 <= i < |records| ==> settled[i] == Settled(records[i], versions, embeddings, failBefore)
  {
    seq(|records|, i requires 0 <= i < |records| => Settled(records[i], versions, embeddings, failBefore))
  }

  function EventFor(e: Entry<VersionId, StoreRecord>): IndexEvent {
    IndexEvent(e.key, e.value.documentId, e.value.organizationId, PendingEvent)
  }

  /** Every expected record that became available gets a fresh pending event. */
  function RaiseEvents(events: Events, settled: Records, versions: map<DocumentId, Version>): Events {
    if settled == [] then events
    else
      var front, e := RaiseEvents(events, settled[..|settled| - 1], versions), settled[|settled| - 1];
      if Expected(e.value, versions) && e.value.status == AvailableVersion then Put(front, EventId(e.key), EventFor(e)) else front
  }

  /** Ids of the expected records with a given status. */
  function IdsWith(settled: Records, versions: map<DocumentId, Version>, available: bool): seq<VersionId> {
    if settled == [] then []
    else
      var front, e := IdsWith(settled[..|settled| - 1], versions, available), settled[|settled| - 1];
      if Expected(e.value, versions) && (e.value.status == AvailableVersion) == available then front + [e.key] else front
  }

  datatype PersistResult = PersistResult(
    snapshot: Snapshot, persistedEmbeddingCount: nat, duplicateEmbeddingCount: nat,
    pendingVersionIds: seq<VersionId>, availableVersionIds: seq<VersionId>, partialFailure: bool)

  function Persist(documents: seq<Document>, batch: seq<EmbeddingRecord>, previous: Snapshot, failBefore: bool): PersistResult {
    var records := AddMissing(FromEntries(previous.records), documents);
    var added := AddEmbeddings(FromEntries(previous.embeddings), batch);
    var versions := VersionByDoc(documents);
    var settled := SettleAll(records, versions, added.embeddings, failBefore);
    var events := RaiseEvents(FromEntries(previous.indexEvents), settled, versions);
    var pending := IdsWith(settled, versions, false);
    PersistResult(Snapshot(settled, added.embeddings, events), added.persisted, added.duplicates,
                  pending, IdsWith(settled, versions, true), pending != [])
  }

  // ---------------------------------------------------------------- the loops

  lemma AddMissingStep(records: Records, documents: seq<Document>, n: nat)
    requires n < |documents|
    ensures var front, d := AddMissing(records, documents[..n]), documents[n];
            AddMissing(records, documents[..n + 1]) ==
              if Has(front, VersionIdFor(d)) then front
              else front + [Entry(VersionIdFor(d), StoreRecord(d.documentId, d.organizationId, d.version, PendingVersion, 0, None))]
    ensures VersionByDoc(documents[..n + 1]) == VersionByDoc(documents[..n])[documents[n].documentId := documents[n].version]
  {
    assert documents[..n + 1][..n] == documents[..n];
  }

  lemma AddEmbeddingsStep(embeddings: Embeddings, batch: seq<EmbeddingRecord>, n: nat)
    requires n < |batch|
    ensures var front, e := AddEmbeddings(embeddings, batch[..n]), batch[n];
            AddEmbeddings(embeddings, batch[..n + 1]) ==
              if Has(front.embeddings, e.embeddingId) then front.(duplicates := front.duplicates + 1)
              else front.(embeddings := front.embeddings + [Entry(e.embeddingId, e)], persisted := front.persisted + 1)
  {
    assert batch[..n + 1][..n] == batch[..n];
  }

  lemma StatusStep(events: Events, settled: Records, versions: map<DocumentId, Version>, n: nat)
    requires n < |settled|
    ensures var e := settled[n];
            var live, available := Expected(e.value, versions), e.value.status == AvailableVersion;
            && RaiseEvents(events, settled[..n + 1], versions) ==
                 (var front := RaiseEvents(events, settled[..n], versions);
                  if live && available then Put(front, EventId(e.key), EventFor(e)) else front)
            && IdsWith(settled[..n + 1], versions, true) ==
                 IdsWith(settled[..n], versions, true) + (if live && available then [e.key] else [])
            && IdsWith(settled[..n + 1], versions, false) ==
                 IdsWith(settled[..n], versions, false) + (if live && !available then [e.key] else [])
  {
    assert settled[..n + 1][..n] == settled[..n];
  }

  lemma NothingAdded(records: Records, embeddings: Embeddings, events: Events, settled: Records, versions: map<DocumentId, Version>,
                     documents: seq<Document>, batch: seq<EmbeddingRecord>)
    ensures AddMissing(records, documents[..0]) == records && VersionByDoc(documents[..0]) == map[]
    ensures AddEmbeddings(embeddings, batch[..0]) == Added(embeddings, 0, 0)
    ensures RaiseEvents(events, settled[..0], versions) == events
    ensures IdsWith(settled[..0], versions, true) == [] && IdsWith(settled[..0], versions, false) == []
  {
  }

  method PersistKnowledgeArtifacts(documents: seq<Document>, batch: seq<EmbeddingRecord>, previous: Snapshot, failBefore: bool)
    returns (result: PersistResult)
    ensures result == Persist(documents, batch, previous, failBefore)
  {
    hide AddMissing, AddEmbeddings, VersionByDoc, RaiseEvents, IdsWith, FromEntries, Settled, Has, CountFor, EventFor;
    var recordMap := FromEntries(previous.records);
    var embeddingMap := FromEntries(previous.embeddings);
    var indexEventMap := FromEntries(previous.indexEvents);
    var versionByDoc: map<DocumentId, Version> := map[];
    NothingAdded(recordMap, embeddingMap, indexEventMap, [], versionByDoc, documents, batch);
    for n := 0 to |documents|
      invariant recordMap == AddMissing(FromEntries(previous.records), documents[..n])
      invariant versionByDoc == VersionByDoc(documents[..n])
    {
      var document := documents[n];
      AddMissingStep(FromEntries(previous.records), documents, n);
      if !Has(recordMap, VersionIdFor(document)) {
        recordMap := recordMap + [Entry(VersionIdFor(document),
                                        StoreRecord(document.documentId, document.organizationId, document.version, PendingVersion, 0, None))];
      }
      versionByDoc := versionByDoc[document.documentId := document.version];
    }
    assert documents[..|documents|] == documents;

    var persistedEmbeddingCount, duplicateEmbeddingCount := 0, 0;
    for n := 0 to |batch|
      invariant persistedEmbeddingCount >= 0 && duplicateEmbeddingCount >= 0
      invariant Added(embeddingMap, persistedEmbeddingCount, duplicateEmbeddingCount) == AddEmbeddings(FromEntries(previous.embeddings), batch[..n])
    {
      AddEmbeddingsStep(FromEntries(previous.embeddings), batch, n);
      if Has(embeddingMap, batch[n].embeddingId) {
        duplicateEmbeddingCount := duplicateEmbeddingCount + 1;
        continue;
      }
      embeddingMap := embeddingMap + [Entry(batch[n].embeddingId, batch[n])];
      persistedEmbeddingCount := persistedEmbeddingCount + 1;
    }
    assert batch[..|batch|] == batch;

    var settled := SettleAll(recordMap, versionByDoc, embeddingMap, failBefore);
    var pendingVersionIds: seq<VersionId> := [];
    var availableVersionIds: seq<VersionId> := [];
    NothingAdded(recordMap, embeddingMap, indexEventMap, settled, versionByDoc, documents, batch);
    for n := 0 to |settled|
      invariant indexEventMap == RaiseEvents(FromEntries(previous.indexEvents), settled[..n], versionByDoc)
      invariant availableVersionIds == IdsWith(settled[..n], versionByDoc, true)
      invariant pendingVersionIds == IdsWith(settled[..n], versionByDoc, false)
    {
      StatusStep(FromEntries(previous.indexEvents), settled, versionByDoc, n);
      var record := settled[n];
      if !Expected(record.value, versionByDoc) {
        continue;
      }
      if record.value.status == AvailableVersion {
        availableVersionIds := availableVersionIds + [record.key];
        indexEventMap := Put(indexEventMap, EventId(record.key), EventFor(record));
        continue;
      }
      pendingVersionIds := pendingVersionIds + [record.key];
    }
    assert settled[..|settled|] == settled;
    result := PersistResult(Snapshot(settled, embeddingMap, indexEventMap), persistedEmbeddingCount, duplicateEmbeddingCount,
                            pendingVersionIds, availableVersionIds, |pendingVersionIds| > 0);
  }

  // ---------------------------------------------------------------- recovery

  function MadeAvailable(e: Entry<VersionId, StoreRecord>): Entry<VersionId, StoreRecord> {
    if e.value.status == PendingVersion then Entry(e.key, e.value.(status := AvailableVersion, recoveryToken := None)) else e
  }

  function MakeAllAvailable(records: Records): (r: Records)
    ensures |r| == |records| && forall i :: 0 <= i < |r| ==> r[i] == MadeAvailable(records[i])
  {
    seq(|records|, i requires 0 <= i < |records| => MadeAvailable(records[i]))
  }

  function AddMissingEvents(events: Events, records: Records): Events {
    if records == [] then events
    else
      var front, e := AddMissingEvents(events, records[..|records| - 1]), records[|records| - 1];
      if e.value.status == AvailableVersion && !Has(front, EventId(e.key)) then front + [Entry(EventId(e.key), EventFor(e))] else front
  }

  function Recover(s: Snapshot): Snapshot {
    var records := MakeAllAvailable(s.records);
    Snapshot(records, s.embeddings, AddMissingEvents(s.indexEvents, records))
  }

  method RecoverPendingVersions(s: Snapshot) returns (recovered: Snapshot)
    ensures recovered == Recover(s)
  {
    var records := MakeAllAvailable(s.records);
    var indexEvents := s.indexEvents;
    assert records[..0] == [];
    for n := 0 to |records|
      invariant indexEvents == AddMissingEvents(s.indexEvents, records[..n])
    {
      assert records[..n + 1][..n] == records[..n];
      var record := records[n];
      if record.value.status != AvailableVersion {
        continue;
      }
      if Has(indexEvents, EventId(record.key)) {
        continue;
      }
      indexEvents := indexEvents + [Entry(EventId(record.key), EventFor(record))];
    }
    assert records[..|records|] == records;
    recovered := Snapshot(records, s.embeddings, indexEvents);
  }

  // ---------------------------------------------------------------- index update

  function Indexed(e: Entry<EventId, IndexEvent>, failVersionIds: set<VersionId>): Entry<EventId, IndexEvent> {
    if e.value.status == PendingEvent
    then Entry(e.key, e.value.(status := if e.value.versionId in failVersionIds then FailedEvent else CompletedEvent))
    else e
  }

  function IndexAll(events: Events, failVersionIds: set<VersionId>): (r: Events)
    ensures |r| == |events| && forall i :: 0 <= i < |r| ==> r[i] == Indexed(events[i], failVersionIds)
  {
    seq(|events|, i requires 0 <= i < |events| => Indexed(events[i], failVersionIds))
  }

  function ApplyIndexUpdate(s: Snapshot, failVersionIds: set<VersionId>): Snapshot {
    s.(indexEvents := IndexAll(s.indexEvents, failVersionIds))
  }

  function EventsWith(events: Events, status: EventStatus): seq<VersionId> {
    if events == [] then []
    else
      var front, e := EventsWith(events[..|events| - 1], status), events[|events| - 1].value;
      if e.status == status then front + [e.versionId] else front
  }

  /** The recovery queue names exactly the versions whose event failed. */
  function BuildIndexRecoveryQueue(s: Snapshot): seq<VersionId> {
    EventsWith(s.indexEvents, FailedEvent)
  }

  lemma {:induction false} EventsWithMeaning(events: Events, status: EventStatus)
    ensures forall v :: v in EventsWith(events, status) <==> exists i :: 0 <= i < |events| && events[i].value.status == status && events[i].value.versionId == v
  {
    if events != [] {
      var n := |events| - 1;
      EventsWithMeaning(events[..n], status);
      assert forall i :: 0 <= i < n ==> events[..n][i] == events[i];
    }
  }

  /** After an index update nothing is pending, and the queue names exactly the pending versions told to fail and earlier failures. */
  lemma QueueAfterUpdate(s: Snapshot, failVersionIds: set<VersionId>)
    ensures var after := ApplyIndexUpdate(s, failVersionIds);
            && (forall i :: 0 <= i < |after.indexEvents| ==> after.indexEvents[i].value.status != PendingEvent)
            && forall v :: v in BuildIndexRecoveryQueue(after) <==>
                 exists i :: 0 <= i < |s.indexEvents| && s.indexEvents[i].value.versionId == v
                   && (s.indexEvents[i].value.status == FailedEvent || (s.indexEvents[i].value.status == PendingEvent && v in failVersionIds))
  {
    var after := ApplyIndexUpdate(s, failVersionIds).indexEvents;
    EventsWithMeaning(after, FailedEvent);
    forall i | 0 <= i < |after| ensures after[i] == Indexed(s.indexEvents[i], failVersionIds) {
    }
    forall v | v in EventsWith(after, FailedEvent)
      ensures exists i :: 0 <= i < |s.indexEvents| && s.indexEvents[i].value.versionId == v
                && (s.indexEvents[i].value.status == FailedEvent || (s.indexEvents[i].value.status == PendingEvent && v in failVersionIds))
    {
      var i :| 0 <= i < |after| && after[i].value.status == FailedEvent && after[i].value.versionId == v;
      assert s.indexEvents[i].value.versionId == v;
    }
    forall i | 0 <= i < |s.indexEvents| && (s.indexEvents[i].value.status == FailedEvent
                                            || (s.indexEvents[i].value.status == PendingEvent && s.indexEvents[i].value.versionId in failVersionIds))
      ensures s.indexEvents[i].value.versionId in EventsWith(after, FailedEvent)
    {
      assert after[i].value.status == FailedEvent && after[i].value.versionId == s.indexEvents[i].value.versionId;
    }
  }
}
