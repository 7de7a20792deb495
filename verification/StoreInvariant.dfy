/**
 * What every snapshot of a run of batches satisfies, and why replaying a batch is
 * harmless.
 */
module StoreInvariant {
  import opened Outcomes
  import opened OrderedMap
  import opened Knowledge
  import opened Embedding
  import opened KnowledgeStore

  /** A record stands under the id of its own document version and counts its embeddings. */
  ghost predicate Counted(e: Entry<VersionId, StoreRecord>, embeddings: Embeddings) {
    && e.key == VersionId(e.value.documentId, e.value.version)
    && e.value.embeddingCount == CountFor(embeddings, e.value.documentId, e.value.version)
    && e.value.embeddingCount > 0
  }

  ghost predicate AllCounted(records: Records, embeddings: Embeddings) {
    forall i :: 0 <= i < |records| ==> Counted(records[i], embeddings)
  }

  ghost predicate AvailableAreIndexed(records: Records, events: Events) {
    forall i :: 0 <= i < |records| && records[i].value.status == AvailableVersion ==> Has(events, EventId(records[i].key))
  }

  /** An event names its own version, and agrees with that version's organization. */
  ghost predicate EventOf(x: Entry<EventId, IndexEvent>, records: Records) {
    && x.key == EventId(x.value.versionId)
    && exists i :: 0 <= i < |records| && records[i].key == x.value.versionId
         && records[i].value.documentId == x.value.documentId && records[i].value.organizationId == x.value.organizationId
  }

  ghost predicate EventsBelong(events: Events, records: Records) {
    forall k :: 0 <= k < |events| ==> EventOf(events[k], records)
  }

  ghost predicate WellKeyed(embeddings: Embeddings) {
    forall i :: 0 <= i < |embeddings| ==> embeddings[i].key == embeddings[i].value.embeddingId && WellFormedRecord(embeddings[i].value)
  }

  /** Unique ids, positive exact counts, an index event for everything available. */
  ghost predicate Consistent(s: Snapshot) {
    && Unique(s.records) && Unique(s.embeddings) && Unique(s.indexEvents)
    && WellKeyed(s.embeddings)
    && AllCounted(s.records, s.embeddings)
    && AvailableAreIndexed(s.records, s.indexEvents)
    && EventsBelong(s.indexEvents, s.records)
  }

  // ---------------------------------------------------------------- batches

  /** No document id appears with two versions: what distinct file paths guarantee. */
  ghost predicate OneVersionEach(documents: seq<Document>) {
    forall i, j :: 0 <= i < |documents| && 0 <= j < |documents| && documents[i].documentId == documents[j].documentId
      ==> documents[i].version == documents[j].version
  }

  ghost predicate ForSome(documents: seq<Document>, id: DocumentId, version: Version) {
    exists d :: d in documents && d.documentId == id && d.version == version
  }

  ghost predicate Covers(embeddings: seq<EmbeddingRecord>, d: Document) {
    exists r :: r in embeddings && r.documentId == d.documentId && r.version == d.version
  }

  /** Every record is for a document, every document has a record. */
  ghost predicate CoveringBatch(documents: seq<Document>, batch: seq<EmbeddingRecord>) {
    && (forall r :: r in batch ==> WellFormedRecord(r) && ForSome(documents, r.documentId, r.version))
    && (forall d :: d in documents ==> Covers(batch, d))
  }

  /** A batch of distinct file paths as the pipeline hands it over. */
  ghost predicate CompleteBatch(documents: seq<Document>, batch: seq<EmbeddingRecord>) {
    OneVersionEach(documents) && CoveringBatch(documents, batch)
  }

  /** The status pass expects this version of the document. */
  ghost predicate Wins(d: Document, documents: seq<Document>) {
    d.documentId in VersionByDoc(documents) && VersionByDoc(documents)[d.documentId] == d.version
  }

  /** Every embedding that the batch has for a version is stored already. */
  ghost predicate NothingNew(id: DocumentId, version: Version, batch: seq<EmbeddingRecord>, embeddings: Embeddings) {
    forall r :: r in batch && r.documentId == id && r.version == version ==> Has(embeddings, r.embeddingId)
  }

  /** A version that the status pass passes over has its record already, and the batch adds nothing to it. */
  ghost predicate LosersAreSettled(documents: seq<Document>, batch: seq<EmbeddingRecord>, s: Snapshot) {
    forall d :: d in documents ==>
      Wins(d, documents) || (Has(s.records, VersionIdFor(d)) && NothingNew(d.documentId, d.version, batch, s.embeddings))
  }

  /** Every document has an expected version, and that is the version of a document with its id. */
  lemma {:induction false} VersionsAreListed(documents: seq<Document>)
    ensures forall d :: d in documents ==> d.documentId in VersionByDoc(documents)
    ensures forall id :: id in VersionByDoc(documents) ==> ForSome(documents, id, VersionByDoc(documents)[id])
  {
    if documents != [] {
      hide ForSome;
      var n := |documents| - 1;
      SplitLast(documents);
      VersionsAreListed(documents[..n]);
      forall id | id in VersionByDoc(documents) ensures ForSome(documents, id, VersionByDoc(documents)[id]) {
        if id == documents[n].documentId {
          IsForSome(documents, n);
        } else {
          assert ForSome(documents[..n], id, VersionByDoc(documents[..n])[id]);
          StillForSome(documents, n, id, VersionByDoc(documents)[id]);
        }
      }
    }
  }

  /** Of several documents with one id the last one's version is expected. */
  lemma {:induction false} LastVersionWins(documents: seq<Document>, i: nat)
    requires i < |documents|
    requires forall j :: i < j < |documents| ==> documents[j].documentId != documents[i].documentId
    ensures documents[i].documentId in VersionByDoc(documents) && VersionByDoc(documents)[documents[i].documentId] == documents[i].version
  {
    var n := |documents| - 1;
    if i < n {
      LastVersionWins(documents[..n], i);
    }
  }

  lemma IsForSome(documents: seq<Document>, n: nat)
    requires n < |documents|
    ensures ForSome(documents, documents[n].documentId, documents[n].version)
  {
    assert documents[n] in documents;
  }

  lemma OnlyVersionWins(documents: seq<Document>)
    requires OneVersionEach(documents)
    ensures forall d :: d in documents ==> Wins(d, documents)
  {
    hide VersionByDoc;
    VersionsAreListed(documents);
    forall d | d in documents ensures Wins(d, documents) {
      var i :| 0 <= i < |documents| && documents[i] == d;
      var x :| x in documents && x.documentId == d.documentId && x.version == VersionByDoc(documents)[d.documentId];
      var j :| 0 <= j < |documents| && documents[j] == x;
    }
  }

  /** Distinct versions of a document cannot both win. */
  lemma OneVersionEachExactly(documents: seq<Document>)
    ensures OneVersionEach(documents) <==> forall d :: d in documents ==> Wins(d, documents)
  {
    hide VersionByDoc;
    if OneVersionEach(documents) {
      OnlyVersionWins(documents);
    }
    if forall d :: d in documents ==> Wins(d, documents) {
      forall i, j | 0 <= i < |documents| && 0 <= j < |documents| && documents[i].documentId == documents[j].documentId
        ensures documents[i].version == documents[j].version
      {
        assert Wins(documents[i], documents) && Wins(documents[j], documents);
      }
    }
  }

  lemma StillForSome(documents: seq<Document>, n: nat, id: DocumentId, version: Version)
    requires n <= |documents| && ForSome(documents[..n], id, version)
    ensures ForSome(documents, id, version)
  {
    var d :| d in documents[..n] && d.documentId == id && d.version == version;
    assert d in documents;
  }

  // ---------------------------------------------------------------- embeddings only grow

  lemma {:induction false} CountAppend(a: Embeddings, b: Embeddings, id: DocumentId, version: Version)
    ensures CountFor(a + b, id, version) == CountFor(a, id, version) + CountFor(b, id, version)
  {
    if b == [] {
      assert a + b == a;
    } else {
      assert (a + b)[..|a + b| - 1] == a + b[..|b| - 1];
      CountAppend(a, b[..|b| - 1], id, version);
    }
  }

  lemma {:induction false} CountZeroExactly(a: Embeddings, id: DocumentId, version: Version)
    ensures CountFor(a, id, version) == 0 <==> forall i :: 0 <= i < |a| ==> !(a[i].value.documentId == id && a[i].value.version == version)
  {
    if a != [] {
      var n := |a| - 1;
      CountZeroExactly(a[..n], id, version);
      assert forall i :: 0 <= i < n ==> a[..n][i] == a[i];
    }
  }

  lemma {:induction false} AddedEmbeddings(embeddings: Embeddings, batch: seq<EmbeddingRecord>) returns (more: Embeddings)
    requires Unique(embeddings) && WellKeyed(embeddings)
    requires forall r :: r in batch ==> WellFormedRecord(r)
    ensures AddEmbeddings(embeddings, batch).embeddings == embeddings + more
    ensures Unique(embeddings + more) && WellKeyed(embeddings + more)
    ensures forall i :: 0 <= i < |more| ==> more[i].value in batch
    ensures forall r :: r in batch ==> Has(embeddings + more, r.embeddingId)
    ensures AddEmbeddings(embeddings, batch).persisted == |more|
    ensures AddEmbeddings(embeddings, batch).persisted + AddEmbeddings(embeddings, batch).duplicates == |batch|
  {
    if batch == [] {
      more := [];
      assert embeddings + more == embeddings;
    } else {
      var n := |batch| - 1;
      SplitLast(batch);
      var before := AddedEmbeddings(embeddings, batch[..n]);
      var e := batch[n];
      if Has(embeddings + before, e.embeddingId) {
        more := before;
      } else {
        more := before + [Entry(e.embeddingId, e)];
        EmbeddingAppended(embeddings + before, e);
        assert embeddings + more == embeddings + before + [Entry(e.embeddingId, e)];
      }
    }
  }

  lemma EmbeddingAppended(a: Embeddings, e: EmbeddingRecord)
    requires Unique(a) && WellKeyed(a) && WellFormedRecord(e) && !Has(a, e.embeddingId)
    ensures var b := a + [Entry(e.embeddingId, e)];
            Unique(b) && WellKeyed(b) && Has(b, e.embeddingId) && forall k :: Has(a, k) ==> Has(b, k)
  {
    var b := a + [Entry(e.embeddingId, e)];
    assert b[|a|].key == e.embeddingId;
    forall k | Has(a, k) ensures Has(b, k) {
      var i :| 0 <= i < |a| && a[i].key == k;
      assert b[i].key == k;
    }
  }

  /** A stored embedding with a batch record's id is for the same document and version. */
  lemma SameIdSameVersion(a: EmbeddingRecord, b: EmbeddingRecord)
    requires WellFormedRecord(a) && WellFormedRecord(b) && a.embeddingId == b.embeddingId
    ensures a.documentId == b.documentId && a.version == b.version
  {
  }

  /** Every batched version has an embedding afterwards. */
  lemma BatchIsCounted(all: Embeddings, documents: seq<Document>, batch: seq<EmbeddingRecord>, id: DocumentId, version: Version)
    requires WellKeyed(all) && CoveringBatch(documents, batch) && ForSome(documents, id, version)
    requires forall r :: r in batch ==> Has(all, r.embeddingId)
    ensures CountFor(all, id, version) > 0
  {
    CountZeroExactly(all, id, version);
    var d :| d in documents && d.documentId == id && d.version == version;
    assert Covers(batch, d);
    var r :| r in batch && r.documentId == id && r.version == version;
    var i :| 0 <= i < |all| && all[i].key == r.embeddingId;
    SameIdSameVersion(all[i].value, r);
  }

  /** A version keeps its count exactly when the batch brings nothing new for it. */
  lemma CountStaysExactly(embeddings: Embeddings, more: Embeddings, batch: seq<EmbeddingRecord>, id: DocumentId, version: Version)
    requires Unique(embeddings + more) && WellKeyed(embeddings + more)
    requires forall r :: r in batch ==> WellFormedRecord(r) && Has(embeddings + more, r.embeddingId)
    requires forall i :: 0 <= i < |more| ==> more[i].value in batch
    ensures CountFor(embeddings + more, id, version) == CountFor(embeddings, id, version) <==> NothingNew(id, version, batch, embeddings)
  {
    var all := embeddings + more;
    CountAppend(embeddings, more, id, version);
    CountZeroExactly(more, id, version);
    hide Unique, CountFor;
    if NothingNew(id, version, batch, embeddings) {
      forall i | 0 <= i < |more| ensures !(more[i].value.documentId == id && more[i].value.version == version) {
        AddedIsNew(embeddings, more, i);
      }
    } else {
      var r :| r in batch && r.documentId == id && r.version == version && !Has(embeddings, r.embeddingId);
      var i :| 0 <= i < |all| && all[i].key == r.embeddingId;
      assert forall k :: 0 <= k < |embeddings| ==> all[k] == embeddings[k];
      SameIdSameVersion(all[i].value, r);
      assert more[i - |embeddings|] == all[i];
    }
  }

  lemma AddedIsNew(embeddings: Embeddings, more: Embeddings, i: nat)
    requires Unique(embeddings + more) && WellKeyed(embeddings + more) && i < |more|
    ensures !Has(embeddings, more[i].value.embeddingId)
  {
    var all := embeddings + more;
    assert all[|embeddings| + i] == more[i];
    forall k | 0 <= k < |embeddings| ensures embeddings[k].key != more[i].value.embeddingId {
      assert all[k] == embeddings[k];
    }
  }

  // ---------------------------------------------------------------- records

  /** A record is old, or it is a pending one for a document of the batch. */
  ghost predicate OldOrNew(e: Entry<VersionId, StoreRecord>, records: Records, documents: seq<Document>) {
    || e in records
    || (&& e.key == VersionId(e.value.documentId, e.value.version) && e.value.status == PendingVersion
        && e.value.embeddingCount == 0 && ForSome(documents, e.value.documentId, e.value.version))
  }

  lemma {:induction false} AddedRecords(records: Records, documents: seq<Document>)
    requires Unique(records)
    ensures var r := AddMissing(records, documents);
            && Unique(r) && |records| <= |r| && r[..|records|] == records
            && (forall i :: 0 <= i < |r| ==> OldOrNew(r[i], records, documents))
            && (forall d :: d in documents ==> Has(r, VersionIdFor(d)))
  {
    if documents != [] {
      var n := |documents| - 1;
      SplitLast(documents);
      AddedRecords(records, documents[..n]);
      var front, d := AddMissing(records, documents[..n]), documents[n];
      forall i | 0 <= i < |front| ensures OldOrNew(front[i], records, documents) {
        if front[i] !in records {
          var x :| x in documents[..n] && x.documentId == front[i].value.documentId && x.version == front[i].value.version;
          assert x in documents;
        }
      }
      if !Has(front, VersionIdFor(d)) {
        RecordAppended(records, front, documents, d);
      }
    }
  }

  lemma RecordAppended(records: Records, front: Records, documents: seq<Document>, d: Document)
    requires Unique(front) && |records| <= |front| && front[..|records|] == records
    requires forall i :: 0 <= i < |front| ==> OldOrNew(front[i], records, documents)
    requires d in documents && !Has(front, VersionIdFor(d))
    ensures var e := Entry(VersionIdFor(d), StoreRecord(d.documentId, d.organizationId, d.version, PendingVersion, 0, None));
            var r := front + [e];
            && Unique(r) && r[..|records|] == records
            && (forall i :: 0 <= i < |r| ==> OldOrNew(r[i], records, documents))
            && Has(r, VersionIdFor(d)) && forall k :: Has(front, k) ==> Has(r, k)
  {
    var e := Entry(VersionIdFor(d), StoreRecord(d.documentId, d.organizationId, d.version, PendingVersion, 0, None));
    var r := front + [e];
    assert ForSome(documents, e.value.documentId, e.value.version);
    assert r[|front|].key == VersionIdFor(d);
    forall k | Has(front, k) ensures Has(r, k) {
      var i :| 0 <= i < |front| && front[i].key == k;
      assert r[i].key == k;
    }
  }

  /** Expected means: the record's version is one of the batch's. */
  lemma {:induction false} ExpectedExactly(r: StoreRecord, documents: seq<Document>)
    requires OneVersionEach(documents)
    ensures Expected(r, VersionByDoc(documents)) <==> ForSome(documents, r.documentId, r.version)
  {
    hide VersionByDoc, OneVersionEach;
    VersionsAreListed(documents);
    OnlyVersionWins(documents);
  }

  /** An entry that is not expected must be an old one to which the batch adds nothing. */
  lemma {:induction false} SettledIsCounted(e: Entry<VersionId, StoreRecord>, records: Records, documents: seq<Document>, batch: seq<EmbeddingRecord>,
                         embeddings: Embeddings, more: Embeddings, failBefore: bool)
    requires AllCounted(records, embeddings) && OldOrNew(e, records, documents)
    requires Unique(embeddings + more) && WellKeyed(embeddings + more) && CoveringBatch(documents, batch)
    requires forall i :: 0 <= i < |more| ==> more[i].value in batch
    requires forall r :: r in batch ==> Has(embeddings + more, r.embeddingId)
    requires !Expected(e.value, VersionByDoc(documents)) ==> e in records && NothingNew(e.value.documentId, e.value.version, batch, embeddings)
    ensures Counted(Settled(e, VersionByDoc(documents), embeddings + more, failBefore), embeddings + more)
  {
    hide WellKeyed, Covers, NothingNew, Unique, VersionByDoc, CountFor;
    if Expected(e.value, VersionByDoc(documents)) {
      VersionsAreListed(documents);
      BatchIsCounted(embeddings + more, documents, batch, e.value.documentId, e.value.version);
    } else {
      CountStaysExactly(embeddings, more, batch, e.value.documentId, e.value.version);
    }
  }

  // ---------------------------------------------------------------- events

  ghost predicate OldOrRaised(x: Entry<EventId, IndexEvent>, events: Events, settled: Records) {
    x in events || exists i :: 0 <= i < |settled| && x == Entry(EventId(settled[i].key), EventFor(settled[i]))
  }

  lemma OldAtFirst(events: Events)
    ensures forall x :: x in events ==> OldOrRaised(x, events, [])
  {
  }

  lemma StillOldOrRaised(events: Events, settled: Records)
    requires settled != []
    ensures forall x :: OldOrRaised(x, events, settled[..|settled| - 1]) ==> OldOrRaised(x, events, settled)
    ensures var e := settled[|settled| - 1]; OldOrRaised(Entry(EventId(e.key), EventFor(e)), events, settled)
  {
    var n := |settled| - 1;
    forall x | OldOrRaised(x, events, settled[..n]) ensures OldOrRaised(x, events, settled) {
      if x !in events {
        var i :| 0 <= i < n && x == Entry(EventId(settled[..n][i].key), EventFor(settled[..n][i]));
        assert settled[i] == settled[..n][i];
      }
    }
  }

  lemma {:induction false} RaisedEvents(events: Events, settled: Records, versions: map<DocumentId, Version>)
    requires Unique(events)
    ensures var r := RaiseEvents(events, settled, versions);
            && Unique(r) && (forall k :: Has(events, k) ==> Has(r, k))
            && (forall x :: x in r ==> OldOrRaised(x, events, settled))
            && (forall i :: 0 <= i < |settled| && Expected(settled[i].value, versions) && settled[i].value.status == AvailableVersion ==>
                  Has(r, EventId(settled[i].key)))
  {
    hide Unique, Has, EventFor, OldOrRaised;
    OldAtFirst(events);
    if settled != [] {
      var n := |settled| - 1;
      RaisedEvents(events, settled[..n], versions);
      RaiseUnfold(events, settled, versions);
      hide RaiseEvents, Expected;
      assert forall i :: 0 <= i < n ==> settled[..n][i] == settled[i];
      StillOldOrRaised(events, settled);
      PutKeeps(RaiseEvents(events, settled[..n], versions), EventId(settled[n].key), EventFor(settled[n]));
    }
  }

  lemma RaiseUnfold(events: Events, settled: Records, versions: map<DocumentId, Version>)
    requires settled != []
    ensures var front, e := RaiseEvents(events, settled[..|settled| - 1], versions), settled[|settled| - 1];
            RaiseEvents(events, settled, versions) ==
              if Expected(e.value, versions) && e.value.status == AvailableVersion then Put(front, EventId(e.key), EventFor(e)) else front
  {
  }

  /** Same key, document and organization, position by position. */
  ghost predicate SameIdentities(a: Records, b: Records) {
    |a| <= |b| && forall i :: 0 <= i < |a| ==>
      a[i].key == b[i].key && a[i].value.documentId == b[i].value.documentId && a[i].value.organizationId == b[i].value.organizationId
  }

  lemma EventStillBelongs(x: Entry<EventId, IndexEvent>, a: Records, b: Records)
    requires EventOf(x, a) && SameIdentities(a, b)
    ensures EventOf(x, b)
  {
    var i :| 0 <= i < |a| && a[i].key == x.value.versionId
             && a[i].value.documentId == x.value.documentId && a[i].value.organizationId == x.value.organizationId;
    assert b[i].key == x.value.versionId;
  }

  lemma RaisedBelong(before: Records, events: Events, settled: Records, versions: map<DocumentId, Version>)
    requires Unique(events) && EventsBelong(events, before) && SameIdentities(before, settled)
    ensures EventsBelong(RaiseEvents(events, settled, versions), settled)
  {
    var r := RaiseEvents(events, settled, versions);
    RaisedEvents(events, settled, versions);
    forall k | 0 <= k < |r| ensures EventOf(r[k], settled) {
      assert OldOrRaised(r[k], events, settled);
      if r[k] in events {
        var j :| 0 <= j < |events| && events[j] == r[k];
        EventStillBelongs(r[k], before, settled);
      }
    }
  }

  // ---------------------------------------------------------------- every operation keeps the snapshot consistent

  /** What SettledIsCounted asks of an entry that is not expected. */
  lemma LoserIsOld(all: Records, i: nat, documents: seq<Document>, batch: seq<EmbeddingRecord>, s: Snapshot)
    requires Unique(all) && |s.records| <= |all| && all[..|s.records|] == s.records && i < |all|
    requires AllCounted(s.records, s.embeddings) && OldOrNew(all[i], s.records, documents)
    requires CoveringBatch(documents, batch) && LosersAreSettled(documents, batch, s)
    requires !Expected(all[i].value, VersionByDoc(documents))
    ensures all[i] in s.records && NothingNew(all[i].value.documentId, all[i].value.version, batch, s.embeddings)
  {
    hide VersionByDoc, CountFor, Covers;
    var e := all[i];
    if ForSome(documents, e.value.documentId, e.value.version) {
      var d :| d in documents && d.documentId == e.value.documentId && d.version == e.value.version;
      var k :| 0 <= k < |s.records| && s.records[k].key == VersionIdFor(d);
      assert all[..|s.records|][k] == all[k];
      if e in s.records {
        var m :| 0 <= m < |s.records| && s.records[m] == e;
        assert Counted(s.records[m], s.embeddings);
      }
      assert all[k].key == e.key;
    }
  }

  lemma {:induction false} SettledRecords(documents: seq<Document>, batch: seq<EmbeddingRecord>, s: Snapshot, more: Embeddings, failBefore: bool)
    requires Unique(s.records) && AllCounted(s.records, s.embeddings)
    requires Unique(s.embeddings + more) && WellKeyed(s.embeddings + more)
    requires CoveringBatch(documents, batch) && LosersAreSettled(documents, batch, s)
    requires forall i :: 0 <= i < |more| ==> more[i].value in batch
    requires forall r :: r in batch ==> Has(s.embeddings + more, r.embeddingId)
    ensures var settled := SettleAll(AddMissing(s.records, documents), VersionByDoc(documents), s.embeddings + more, failBefore);
            && Unique(settled) && AllCounted(settled, s.embeddings + more) && SameIdentities(s.records, settled)
            && forall i :: 0 <= i < |settled| && !Expected(settled[i].value, VersionByDoc(documents)) ==> settled[i] in s.records
  {
    hide WellKeyed, CoveringBatch, CountFor, Covers, LosersAreSettled, NothingNew, VersionByDoc, AddMissing, OldOrNew, Counted;
    AddedRecords(s.records, documents);
    var all := AddMissing(s.records, documents);
    var settled := SettleAll(all, VersionByDoc(documents), s.embeddings + more, failBefore);
    forall i | 0 <= i < |settled|
      ensures Counted(settled[i], s.embeddings + more) && settled[i].key == all[i].key
      ensures !Expected(settled[i].value, VersionByDoc(documents)) ==> settled[i] in s.records
    {
      if !Expected(all[i].value, VersionByDoc(documents)) {
        LoserIsOld(all, i, documents, batch, s);
      }
      SettledIsCounted(all[i], s.records, documents, batch, s.embeddings, more, failBefore);
    }
    forall i | 0 <= i < |s.records| ensures all[i] == s.records[i] {
      assert all[..|s.records|][i] == all[i];
    }
  }

  lemma BatchIsOneVersionEach(documents: seq<Document>, batch: seq<EmbeddingRecord>)
    requires CompleteBatch(documents, batch)
    ensures OneVersionEach(documents)
  {
  }

  lemma SettledLosersKeepConsistent(documents: seq<Document>, batch: seq<EmbeddingRecord>, previous: Snapshot, failBefore: bool)
    requires Consistent(previous) && CoveringBatch(documents, batch) && LosersAreSettled(documents, batch, previous)
    ensures Consistent(Persist(documents, batch, previous, failBefore).snapshot)
  {
    FromEntriesFixed(previous.records);
    FromEntriesFixed(previous.embeddings);
    FromEntriesFixed(previous.indexEvents);
    var more := AddedEmbeddings(previous.embeddings, batch);
    SettledRecords(documents, batch, previous, more, failBefore);
    var versions := VersionByDoc(documents);
    var settled := SettleAll(AddMissing(previous.records, documents), versions, previous.embeddings + more, failBefore);
    hide AddMissing, AddEmbeddings, VersionByDoc, RaiseEvents, IdsWith, FromEntries, Settled, CountFor, EventFor, Unique,
         AllCounted, WellKeyed, EventsBelong, SameIdentities, CoveringBatch, SettleAll, LosersAreSettled;
    RaisedBelong(previous.records, previous.indexEvents, settled, versions);
    RaisedEvents(previous.indexEvents, settled, versions);
    var events := RaiseEvents(previous.indexEvents, settled, versions);
    forall i | 0 <= i < |settled| && settled[i].value.status == AvailableVersion ensures Has(events, EventId(settled[i].key)) {
      if !Expected(settled[i].value, versions) {
        OldIsIndexed(previous.records, previous.indexEvents, settled[i]);
      }
    }
  }

  lemma PersistKeepsConsistent(documents: seq<Document>, batch: seq<EmbeddingRecord>, previous: Snapshot, failBefore: bool)
    requires Consistent(previous) && CompleteBatch(documents, batch)
    ensures Consistent(Persist(documents, batch, previous, failBefore).snapshot)
    ensures Persist(documents, batch, previous, failBefore).persistedEmbeddingCount
            + Persist(documents, batch, previous, failBefore).duplicateEmbeddingCount == |batch|
  {
    OnlyVersionWins(documents);
    SettledLosersKeepConsistent(documents, batch, previous, failBefore);
    hide Persist, FromEntries;
    BatchAddsUp(documents, batch, previous, failBefore);
  }

  lemma BatchAddsUp(documents: seq<Document>, batch: seq<EmbeddingRecord>, previous: Snapshot, failBefore: bool)
    requires Consistent(previous) && CoveringBatch(documents, batch)
    ensures Persist(documents, batch, previous, failBefore).persistedEmbeddingCount
            + Persist(documents, batch, previous, failBefore).duplicateEmbeddingCount == |batch|
  {
    hide AddMissing, AddEmbeddings, VersionByDoc, RaiseEvents, IdsWith, SettleAll, EventsBelong, AllCounted, AvailableAreIndexed;
    FromEntriesFixed(previous.embeddings);
    var more := AddedEmbeddings(previous.embeddings, batch);
  }

  // ---------------------------------------------------------------- when a batch has two versions of a document

  /** A passed-over version without a record before leaves one that counts nothing. */
  lemma MissingLoserBreaks(documents: seq<Document>, batch: seq<EmbeddingRecord>, previous: Snapshot, failBefore: bool, d: Document)
    requires Consistent(previous) && d in documents && !Wins(d, documents) && !Has(previous.records, VersionIdFor(d))
    ensures !AllCounted(Persist(documents, batch, previous, failBefore).snapshot.records,
                        Persist(documents, batch, previous, failBefore).snapshot.embeddings)
  {
    FromEntriesFixed(previous.records);
    hide FromEntries, AddMissing, AddEmbeddings, RaiseEvents, IdsWith, VersionByDoc, CountFor, Unique;
    AddedRecords(previous.records, documents);
    var all := AddMissing(previous.records, documents);
    var after := Persist(documents, batch, previous, failBefore).snapshot;
    var k :| 0 <= k < |all| && all[k].key == VersionIdFor(d);
    assert OldOrNew(all[k], previous.records, documents);
    assert all[k] !in previous.records;
    assert after.records[k] == all[k];
    assert !Counted(after.records[k], after.embeddings);
  }

  /** A passed-over version to which the batch adds an embedding keeps the old count. */
  lemma GrownLoserBreaks(documents: seq<Document>, batch: seq<EmbeddingRecord>, previous: Snapshot, failBefore: bool, d: Document)
    requires Consistent(previous) && CoveringBatch(documents, batch) && d in documents && !Wins(d, documents)
    requires Has(previous.records, VersionIdFor(d)) && !NothingNew(d.documentId, d.version, batch, previous.embeddings)
    ensures !AllCounted(Persist(documents, batch, previous, failBefore).snapshot.records,
                        Persist(documents, batch, previous, failBefore).snapshot.embeddings)
  {
    FromEntriesFixed(previous.records);
    FromEntriesFixed(previous.embeddings);
    var more := AddedEmbeddings(previous.embeddings, batch);
    AddedRecords(previous.records, documents);
    CountStaysExactly(previous.embeddings, more, batch, d.documentId, d.version);
    hide FromEntries, AddMissing, AddEmbeddings, RaiseEvents, IdsWith, VersionByDoc, CountFor, Unique, NothingNew, CoveringBatch,
         EventsBelong, AvailableAreIndexed, WellKeyed, OldOrNew;
    var k :| 0 <= k < |previous.records| && previous.records[k].key == VersionIdFor(d);
    var e := previous.records[k];
    assert Counted(e, previous.embeddings) && !Expected(e.value, VersionByDoc(documents));
    assert AddMissing(previous.records, documents)[..|previous.records|][k] == AddMissing(previous.records, documents)[k];
    var after := Persist(documents, batch, previous, failBefore).snapshot;
    LoserStays(AddMissing(previous.records, documents), k, VersionByDoc(documents), after.embeddings, failBefore);
    hide SettleAll, Settled, Expected;
    assert after.embeddings == previous.embeddings + more;
    assert after.records[k] == e;
    assert !Counted(e, after.embeddings);
  }

  lemma LoserStays(all: Records, k: nat, versions: map<DocumentId, Version>, embeddings: Embeddings, failBefore: bool)
    requires k < |all| && !Expected(all[k].value, versions)
    ensures SettleAll(all, versions, embeddings, failBefore)[k] == all[k]
  {
  }

  /**
   * The exact condition on any batch: every version that the status pass passes over has
   * its record already, and the batch brings no embedding for it that is not stored.
   */
  lemma PersistKeepsConsistentExactly(documents: seq<Document>, batch: seq<EmbeddingRecord>, previous: Snapshot, failBefore: bool)
    requires Consistent(previous) && CoveringBatch(documents, batch)
    ensures var after := Persist(documents, batch, previous, failBefore).snapshot;
            && (Consistent(after) <==> LosersAreSettled(documents, batch, previous))
            && (AllCounted(after.records, after.embeddings) <==> LosersAreSettled(documents, batch, previous))
  {
    if LosersAreSettled(documents, batch, previous) {
      SettledLosersKeepConsistent(documents, batch, previous, failBefore);
    } else {
      hide Persist, Wins, NothingNew, CoveringBatch;
      var d :| d in documents && !Wins(d, documents)
               && !(Has(previous.records, VersionIdFor(d)) && NothingNew(d.documentId, d.version, batch, previous.embeddings));
      if Has(previous.records, VersionIdFor(d)) {
        GrownLoserBreaks(documents, batch, previous, failBefore, d);
      } else {
        MissingLoserBreaks(documents, batch, previous, failBefore, d);
      }
    }
  }

  // ---------------------------------------------------------------- what becomes available

  /** An embedding of this document version is stored. */
  ghost predicate StoredFor(embeddings: Embeddings, id: DocumentId, version: Version) {
    exists i :: 0 <= i < |embeddings| && embeddings[i].value.documentId == id && embeddings[i].value.version == version
  }

  /** Available without a token when something is stored for it and nothing is injected, else pending with one. */
  ghost predicate StatusTells(e: Entry<VersionId, StoreRecord>, embeddings: Embeddings, failBefore: bool) {
    if StoredFor(embeddings, e.value.documentId, e.value.version) && !failBefore
    then e.value.status == AvailableVersion && e.value.recoveryToken == None
    else e.value.status == PendingVersion && e.value.recoveryToken == Some(e.key)
  }

  /** The records after a batch: an expected one has the status that the stored embeddings give it, any other is as it was, or new and pending. */
  lemma StatusesExactly(documents: seq<Document>, batch: seq<EmbeddingRecord>, previous: Snapshot, failBefore: bool)
    requires Unique(previous.records)
    ensures var after := Persist(documents, batch, previous, failBefore).snapshot;
            && |previous.records| <= |after.records|
            && forall i :: 0 <= i < |after.records| ==>
                 var e := after.records[i];
                 if Expected(e.value, VersionByDoc(documents)) then StatusTells(e, after.embeddings, failBefore)
                 else if i < |previous.records| then e == previous.records[i]
                 else e.value.status == PendingVersion && e.value.recoveryToken == None && e.value.embeddingCount == 0
  {
    FromEntriesFixed(previous.records);
    AddedRecords(previous.records, documents);
    var all := AddMissing(previous.records, documents);
    var p := Persist(documents, batch, previous, failBefore);
    var embeddings := p.snapshot.embeddings;
    FreshArePending(previous.records, documents);
    hide AddMissing, AddEmbeddings, RaiseEvents, IdsWith, VersionByDoc, FromEntries, Unique, OldOrNew, StatusTells, CountFor;
    forall i | 0 <= i < |all| && Expected(all[i].value, VersionByDoc(documents)) ensures StatusTells(p.snapshot.records[i], embeddings, failBefore) {
      SettledTells(all[i], VersionByDoc(documents), embeddings, failBefore);
    }
    forall i | 0 <= i < |previous.records| ensures all[i] == previous.records[i] {
      assert all[..|previous.records|][i] == all[i];
    }
  }

  lemma SettledTells(e: Entry<VersionId, StoreRecord>, versions: map<DocumentId, Version>, embeddings: Embeddings, failBefore: bool)
    requires Expected(e.value, versions)
    ensures StatusTells(Settled(e, versions, embeddings, failBefore), embeddings, failBefore)
  {
    CountZeroExactly(embeddings, e.value.documentId, e.value.version);
  }

  lemma {:induction false} FreshArePending(records: Records, documents: seq<Document>)
    ensures var all := AddMissing(records, documents);
            && |records| <= |all| && all[..|records|] == records
            && forall i :: |records| <= i < |all| ==>
                 all[i].value.status == PendingVersion && all[i].value.recoveryToken == None && all[i].value.embeddingCount == 0
  {
    if documents != [] {
      FreshArePending(records, documents[..|documents| - 1]);
    }
  }

  lemma {:induction false} IdsWithMeaning(settled: Records, versions: map<DocumentId, Version>, available: bool)
    ensures forall v :: v in IdsWith(settled, versions, available) <==>
              exists i :: 0 <= i < |settled| && settled[i].key == v && Expected(settled[i].value, versions)
                && (settled[i].value.status == AvailableVersion) == available
  {
    if settled != [] {
      hide Expected;
      var n := |settled| - 1;
      IdsWithMeaning(settled[..n], versions, available);
      assert forall i :: 0 <= i < n ==> settled[..n][i] == settled[i];
      forall v | v in IdsWith(settled[..n], versions, available)
        ensures exists i :: 0 <= i < |settled| && settled[i].key == v && Expected(settled[i].value, versions)
                  && (settled[i].value.status == AvailableVersion) == available
      {
        var i :| 0 <= i < n && settled[..n][i].key == v && Expected(settled[..n][i].value, versions)
                 && (settled[..n][i].value.status == AvailableVersion) == available;
        assert settled[i].key == v;
      }
    }
  }

  /** The ids that the documents of a batch have. */
  ghost predicate IsVersionOf(v: VersionId, documents: seq<Document>) {
    exists d :: d in documents && VersionIdFor(d) == v
  }

  /** In the records after a complete batch the expected ones are exactly the batch's own, each with something stored. */
  lemma ExpectedAreOwn(documents: seq<Document>, batch: seq<EmbeddingRecord>, previous: Snapshot, failBefore: bool)
    requires Consistent(previous) && CompleteBatch(documents, batch)
    ensures var after := Persist(documents, batch, previous, failBefore).snapshot;
            && (forall i :: 0 <= i < |after.records| && Expected(after.records[i].value, VersionByDoc(documents)) ==>
                  IsVersionOf(after.records[i].key, documents)
                  && StoredFor(after.embeddings, after.records[i].value.documentId, after.records[i].value.version))
            && (forall d :: d in documents ==>
                  exists i :: 0 <= i < |after.records| && after.records[i].key == VersionIdFor(d) && Expected(after.records[i].value, VersionByDoc(documents)))
  {
    PersistKeepsConsistent(documents, batch, previous, failBefore);
    var after := Persist(documents, batch, previous, failBefore).snapshot;
    FromEntriesFixed(previous.records);
    AddedRecords(previous.records, documents);
    var all := AddMissing(previous.records, documents);
    hide AddMissing, AddEmbeddings, RaiseEvents, IdsWith, VersionByDoc, FromEntries, Unique, OldOrNew, CountFor, CoveringBatch, OneVersionEach,
         WellKeyed, AvailableAreIndexed, EventsBelong, Expected, Settled;
    forall i | 0 <= i < |after.records| && Expected(after.records[i].value, VersionByDoc(documents))
      ensures IsVersionOf(after.records[i].key, documents) && StoredFor(after.embeddings, after.records[i].value.documentId, after.records[i].value.version)
    {
      assert Counted(after.records[i], after.embeddings);
      ExpectedExactly(after.records[i].value, documents);
      CountZeroExactly(after.embeddings, after.records[i].value.documentId, after.records[i].value.version);
    }
    forall d | d in documents
      ensures exists i :: 0 <= i < |after.records| && after.records[i].key == VersionIdFor(d) && Expected(after.records[i].value, VersionByDoc(documents))
    {
      var i :| 0 <= i < |all| && all[i].key == VersionIdFor(d);
      SettledKeepsKey(all[i], VersionByDoc(documents), after.embeddings, failBefore);
      assert after.records[i] == Settled(all[i], VersionByDoc(documents), after.embeddings, failBefore);
      assert Counted(after.records[i], after.embeddings);
      ExpectedExactly(after.records[i].value, documents);
    }
  }

  lemma SettledKeepsKey(e: Entry<VersionId, StoreRecord>, versions: map<DocumentId, Version>, embeddings: Embeddings, failBefore: bool)
    ensures Settled(e, versions, embeddings, failBefore).key == e.key
  {
  }

  /** The expected records are the batch's versions, all available, or all pending when a failure is injected. */
  ghost predicate BatchSettled(settled: Records, versions: map<DocumentId, Version>, documents: seq<Document>, failBefore: bool) {
    && (forall i :: 0 <= i < |settled| && Expected(settled[i].value, versions) ==>
          IsVersionOf(settled[i].key, documents) && (settled[i].value.status == AvailableVersion <==> !failBefore))
    && (forall d :: d in documents ==> ExpectedUnder(settled, versions, VersionIdFor(d)))
  }

  ghost predicate ExpectedUnder(settled: Records, versions: map<DocumentId, Version>, v: VersionId) {
    exists i :: 0 <= i < |settled| && settled[i].key == v && Expected(settled[i].value, versions)
  }

  lemma BatchIsSettled(documents: seq<Document>, batch: seq<EmbeddingRecord>, previous: Snapshot, failBefore: bool)
    requires Consistent(previous) && CompleteBatch(documents, batch)
    ensures BatchSettled(Persist(documents, batch, previous, failBefore).snapshot.records, VersionByDoc(documents), documents, failBefore)
  {
    StatusesExactly(documents, batch, previous, failBefore);
    ExpectedAreOwn(documents, batch, previous, failBefore);
    hide Persist, VersionByDoc, Expected, StoredFor, Consistent, CompleteBatch, IsVersionOf;
  }

  lemma ReportOf(settled: Records, versions: map<DocumentId, Version>, documents: seq<Document>, failBefore: bool, v: VersionId)
    requires BatchSettled(settled, versions, documents, failBefore)
    ensures v in IdsWith(settled, versions, true) <==> !failBefore && IsVersionOf(v, documents)
    ensures v in IdsWith(settled, versions, false) <==> failBefore && IsVersionOf(v, documents)
  {
    IdsWithMeaning(settled, versions, true);
    IdsWithMeaning(settled, versions, false);
    hide IdsWith, Expected;
    if IsVersionOf(v, documents) {
      var d :| d in documents && VersionIdFor(d) == v;
      assert ExpectedUnder(settled, versions, VersionIdFor(d));
    }
  }

  /**
   * What a complete batch reports: without an injected failure every version of its documents
   * as available, and nothing as pending; with one every version as pending, and nothing as
   * available. The failure is partial exactly when something is pending.
   */
  lemma CompleteBatchReports(documents: seq<Document>, batch: seq<EmbeddingRecord>, previous: Snapshot, failBefore: bool)
    requires Consistent(previous) && CompleteBatch(documents, batch)
    ensures var p := Persist(documents, batch, previous, failBefore);
            && (forall v :: v in p.availableVersionIds <==> !failBefore && IsVersionOf(v, documents))
            && (forall v :: v in p.pendingVersionIds <==> failBefore && IsVersionOf(v, documents))
            && (p.partialFailure <==> failBefore && documents != [])
  {
    var p := Persist(documents, batch, previous, failBefore);
    BatchIsSettled(documents, batch, previous, failBefore);
    ReportUnfold(documents, batch, previous, failBefore);
    hide Persist, IdsWith, VersionByDoc, Consistent, CompleteBatch, IsVersionOf, BatchSettled;
    forall v ensures v in p.availableVersionIds <==> !failBefore && IsVersionOf(v, documents)
      ensures v in p.pendingVersionIds <==> failBefore && IsVersionOf(v, documents)
    {
      ReportOf(p.snapshot.records, VersionByDoc(documents), documents, failBefore, v);
    }
    PendingExactly(p.pendingVersionIds, documents, failBefore);
  }

  lemma PendingExactly(pending: seq<VersionId>, documents: seq<Document>, failBefore: bool)
    requires forall v :: v in pending <==> failBefore && IsVersionOf(v, documents)
    ensures pending != [] <==> failBefore && documents != []
  {
    if pending != [] {
      assert pending[0] in pending;
    }
    if documents != [] {
      assert documents[0] in documents;
      assert IsVersionOf(VersionIdFor(documents[0]), documents);
    }
  }

  lemma ReportUnfold(documents: seq<Document>, batch: seq<EmbeddingRecord>, previous: Snapshot, failBefore: bool)
    ensures var p := Persist(documents, batch, previous, failBefore);
            && p.availableVersionIds == IdsWith(p.snapshot.records, VersionByDoc(documents), true)
            && p.pendingVersionIds == IdsWith(p.snapshot.records, VersionByDoc(documents), false)
            && p.partialFailure == (p.pendingVersionIds != [])
  {
  }

  lemma OldIsIndexed(records: Records, events: Events, e: Entry<VersionId, StoreRecord>)
    requires AvailableAreIndexed(records, events) && e in records && e.value.status == AvailableVersion
    ensures Has(events, EventId(e.key))
  {
  }

  lemma MissingEventStep(events: Events, records: Records)
    requires records != []
    ensures var front, e := AddMissingEvents(events, records[..|records| - 1]), records[|records| - 1];
            AddMissingEvents(events, records) ==
              if e.value.status == AvailableVersion && !Has(front, EventId(e.key)) then Put(front, EventId(e.key), EventFor(e)) else front
  {
    var front, e := AddMissingEvents(events, records[..|records| - 1]), records[|records| - 1];
    if !Has(front, EventId(e.key)) {
      PutNew(front, EventId(e.key), EventFor(e));
    }
  }

  lemma {:induction false} MissingEventsAdded(events: Events, records: Records)
    requires Unique(events)
    ensures var r := AddMissingEvents(events, records);
            && Unique(r) && (forall k :: Has(events, k) ==> Has(r, k))
            && (forall x :: x in r ==> OldOrRaised(x, events, records))
            && (forall i :: 0 <= i < |records| && records[i].value.status == AvailableVersion ==> Has(r, EventId(records[i].key)))
  {
    hide Unique, Has, EventFor, OldOrRaised, Put;
    OldAtFirst(events);
    if records != [] {
      var n := |records| - 1;
      MissingEventStep(events, records);
      MissingEventsAdded(events, records[..n]);
      var front, e := AddMissingEvents(events, records[..n]), records[n];
      assert forall i :: 0 <= i < n ==> records[..n][i] == records[i];
      StillOldOrRaised(events, records);
      PutKeeps(front, EventId(e.key), EventFor(e));
    }
  }

  /** Recovery makes everything available; it stays consistent because no record lacks embeddings. */
  lemma RecoverKeepsConsistent(s: Snapshot)
    requires Consistent(s)
    ensures Consistent(Recover(s))
    ensures forall i :: 0 <= i < |Recover(s).records| ==> Recover(s).records[i].value.status != PendingVersion
  {
    hide Has, EventFor, CountFor, WellKeyed;
    var records := MakeAllAvailable(s.records);
    MissingEventsAdded(s.indexEvents, records);
    var r := AddMissingEvents(s.indexEvents, records);
    forall i | 0 <= i < |records| ensures Counted(records[i], s.embeddings) {
      assert Counted(s.records[i], s.embeddings);
    }
    assert SameIdentities(s.records, records);
    forall k | 0 <= k < |r| ensures EventOf(r[k], records) {
      assert OldOrRaised(r[k], s.indexEvents, records);
      if r[k] in s.indexEvents {
        var j :| 0 <= j < |s.indexEvents| && s.indexEvents[j] == r[k];
        EventStillBelongs(r[k], s.records, records);
      } else {
        RaisedIsOwn(r[k], records);
      }
    }
  }

  /** Recovery makes exactly the pending records available, without a token, and touches no other record and no embedding. */
  lemma RecoveredExactly(s: Snapshot)
    ensures var r := Recover(s);
            && r.embeddings == s.embeddings && |r.records| == |s.records|
            && (forall i :: 0 <= i < |s.records| ==>
                  if s.records[i].value.status != PendingVersion then r.records[i] == s.records[i]
                  else
                    && r.records[i].key == s.records[i].key && r.records[i].value.status == AvailableVersion
                    && r.records[i].value.recoveryToken == None && r.records[i].value.embeddingCount == s.records[i].value.embeddingCount
                    && r.records[i].value.documentId == s.records[i].value.documentId && r.records[i].value.version == s.records[i].value.version
                    && r.records[i].value.organizationId == s.records[i].value.organizationId)
            && |s.indexEvents| <= |r.indexEvents| && r.indexEvents[..|s.indexEvents|] == s.indexEvents
            && forall k :: |s.indexEvents| <= k < |r.indexEvents| ==> r.indexEvents[k].value.status == PendingEvent
  {
    EventsOnlyAdded(s.indexEvents, MakeAllAvailable(s.records));
  }

  lemma {:induction false} EventsOnlyAdded(events: Events, records: Records)
    ensures var r := AddMissingEvents(events, records);
            && |events| <= |r| && r[..|events|] == events
            && forall k :: |events| <= k < |r| ==> r[k].value.status == PendingEvent
  {
    if records != [] {
      EventsOnlyAdded(events, records[..|records| - 1]);
    }
  }

  lemma RaisedIsOwn(x: Entry<EventId, IndexEvent>, records: Records)
    requires exists i :: 0 <= i < |records| && x == Entry(EventId(records[i].key), EventFor(records[i]))
    ensures EventOf(x, records)
  {
  }

  lemma IndexKeepsConsistent(s: Snapshot, failVersionIds: set<VersionId>)
    requires Consistent(s)
    ensures Consistent(ApplyIndexUpdate(s, failVersionIds))
  {
    var after := IndexAll(s.indexEvents, failVersionIds);
    IndexKeepsKeys(s.indexEvents, failVersionIds);
    hide CountFor, WellKeyed, AllCounted, IndexAll, Unique, Has;
    forall k | 0 <= k < |after| ensures EventOf(after[k], s.records) {
      assert EventOf(s.indexEvents[k], s.records);
    }
  }

  lemma IndexKeepsKeys(events: Events, failVersionIds: set<VersionId>)
    requires Unique(events)
    ensures var after := IndexAll(events, failVersionIds);
            && Unique(after) && |after| == |events|
            && (forall k :: Has(events, k) ==> Has(after, k))
            && forall i :: 0 <= i < |after| ==> after[i].key == events[i].key && after[i].value == events[i].value.(status := after[i].value.status)
  {
    var after := IndexAll(events, failVersionIds);
    forall k | Has(events, k) ensures Has(after, k) {
      var i :| 0 <= i < |events| && events[i].key == k;
      assert after[i].key == k;
    }
  }
}
