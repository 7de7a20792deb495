/**
 * No fault in storage or database loses a body, at any step of an offload run, exactly
 * when object keys do not collide; and what a second run finds.
 */
module OffloadSafety {
  import opened Outcomes
  import opened ContentOffload

  // ---------------------------------------------------------------- which rows are visited

  ghost predicate Selected(row: MemoryRow, o: Options) {
    && !row.archived && (o.sinceUpdatedAt.Some? ==> row.updatedAt > o.sinceUpdatedAt.value)
    && (if o.ownerId.Some? && o.ownerId.value != "" then row.ownerId == o.ownerId.value else row.ownerId != "")
  }

  ghost predicate NoRepeats<T>(s: seq<T>) {
    forall a, b :: 0 <= a < b < |s| ==> s[a] != s[b]
  }

  lemma {:induction false} OwnersAreDistinct(rows: seq<MemoryRow>, n: nat)
    requires n <= |rows|
    ensures NoRepeats(DistinctOwners(rows, n))
    ensures forall owner :: owner in DistinctOwners(rows, n) <==>
              exists k :: 0 <= k < n && rows[k].ownerId == owner != "" && !rows[k].archived
  {
    if n > 0 {
      OwnersAreDistinct(rows, n - 1);
      var front, row := DistinctOwners(rows, n - 1), rows[n - 1];
      assert DistinctOwners(rows, n) == front || DistinctOwners(rows, n) == front + [row.ownerId];
      hide NoRepeats, DistinctOwners;
      if row.ownerId !in front {
        OneMoreDistinct(front, row.ownerId);
      }
    }
  }

  lemma OneMoreDistinct<T>(s: seq<T>, x: T)
    requires NoRepeats(s) && x !in s
    ensures NoRepeats(s + [x])
  {
  }

  lemma {:induction false} VisitsOfOwners(rows: seq<MemoryRow>, owners: seq<string>, o: Options)
    requires o.batchSize > 0 && NoRepeats(owners)
    ensures NoRepeats(VisitsOf(rows, owners, o))
    ensures forall k :: k in VisitsOf(rows, owners, o) <==>
              0 <= k < |rows| && rows[k].ownerId in owners && Matches(rows[k], rows[k].ownerId, o.sinceUpdatedAt)
  {
    if owners != [] {
      var n := |owners| - 1;
      SplitLast(owners);
      VisitsOfOwners(rows, owners[..n], o);
      hide Selection, NoRepeats;
      SelectionIncreases(rows, owners[n], o.sinceUpdatedAt, |rows|);
      LastIsNew(owners);
      ConcatenationNoRepeats(VisitsOf(rows, owners[..n], o), OwnerVisits(rows, owners[n], o));
    }
  }

  lemma LastIsNew(owners: seq<string>)
    requires owners != [] && NoRepeats(owners)
    ensures NoRepeats(owners[..|owners| - 1]) && owners[|owners| - 1] !in owners[..|owners| - 1]
  {
  }

  lemma ConcatenationNoRepeats(a: seq<nat>, b: seq<nat>)
    requires NoRepeats(a) && (forall i, j :: 0 <= i < j < |b| ==> b[i] < b[j]) && forall x :: x in a ==> x !in b
    ensures NoRepeats(a + b)
  {
    forall i, j | 0 <= i < j < |a + b| ensures (a + b)[i] != (a + b)[j] {
      if i < |a| <= j {
        assert a[i] in a;
      }
    }
  }

  /** A run visits every selected row once, and no other row. */
  lemma EachSelectedRowOnce(rows: seq<MemoryRow>, o: Options)
    requires o.batchSize > 0
    ensures NoRepeats(Visits(rows, o))
    ensures forall k :: k in Visits(rows, o) <==> 0 <= k < |rows| && Selected(rows[k], o)
  {
    OwnersAreDistinct(rows, |rows|);
    assert NoRepeats(Owners(rows, o));
    VisitsOfOwners(rows, Owners(rows, o), o);
  }

  lemma VisitsNoRepeats(rows: seq<MemoryRow>, o: Options)
    ensures NoRepeats(Visits(rows, o))
  {
    if o.batchSize > 0 {
      EachSelectedRowOnce(rows, o);
    } else {
      NothingFetched(rows, Owners(rows, o), o);
    }
  }

  lemma {:induction false} NothingFetched(rows: seq<MemoryRow>, owners: seq<string>, o: Options)
    requires o.batchSize == 0
    ensures VisitsOf(rows, owners, o) == []
  {
    if owners != [] {
      NothingFetched(rows, owners[..|owners| - 1], o);
    }
  }

  /** Every visited row is counted once: offloaded, skipped or failed. */
  lemma {:induction false} TallyAddsUp(w: World, visits: seq<nat>, o: Options, faults: Faults)
    requires Indices(visits, w)
    ensures var t := RunOver(w, visits, o, faults).tally;
            t.scanned == |visits| == t.offloaded + t.skipped + t.failed
  {
    if visits != [] {
      hide Visit;
      TallyAddsUp(w, visits[..|visits| - 1], o, faults);
    }
  }

  // ---------------------------------------------------------------- safety

  /** A read that is wrong does not make up the very body that was sent. */
  ghost predicate Honest(f: Fault, row: MemoryRow) {
    f.got.GetGarbled? ==> f.got.body != row.content
  }

  ghost predicate HonestRun(w: World, visits: seq<nat>, faults: Faults)
    requires Indices(visits, w)
  {
    forall n :: 0 <= n < |visits| ==> Honest(FaultAt(faults, n), w.rows[visits[n]])
  }

  /** The body is still inline, or the row's key names an object equal to it; objects of rows already moved stay. */
  ghost predicate Preserved(before: MemoryRow, objects: map<string, string>, row: MemoryRow, now: map<string, string>) {
    if Keyed(before) then
      row == before && (before.objectKey.value in objects ==> HeldAt(now, before.objectKey.value, objects[before.objectKey.value]))
    else row.content == before.content || (Keyed(row) && HeldAt(now, row.objectKey.value, before.content))
  }

  ghost predicate HeldAt(objects: map<string, string>, key: string, body: string) {
    key in objects && objects[key] == body
  }

  ghost predicate Safe(w0: World, w: World) {
    |w.rows| == |w0.rows| && forall k :: 0 <= k < |w.rows| ==> Preserved(w0.rows[k], w0.objects, w.rows[k], w.objects)
  }

  ghost predicate AllSafe(w0: World, trace: seq<World>) {
    forall t :: 0 <= t < |trace| ==> Safe(w0, trace[t])
  }

  // ---------------------------------------------------------------- collisions of keys

  /** Writing the object of row i would overwrite the object that row j depends on. */
  ghost predicate TakesFromMoved(w: World, i: nat, j: nat)
    requires i < |w.rows|
  {
    j < |w.rows| && Keyed(w.rows[j]) && w.rows[j].objectKey.value in w.objects
    && w.rows[j].objectKey.value == BuildObjectKey(w.rows[i])
  }

  /** Row j will have been moved, and cleared, under the key of row i before row i is visited. */
  ghost predicate TakesFromCleared(w: World, o: Options, i: nat, j: nat)
    requires i < |w.rows|
  {
    j < |w.rows| && o.clearInline && Eligible(w.rows[j], o) && w.rows[j].content != ""
    && BuildObjectKey(w.rows[j]) == BuildObjectKey(w.rows[i])
  }

  ghost predicate CollidesAt(w: World, o: Options, visits: seq<nat>, m: nat)
    requires Indices(visits, w) && m < |visits|
  {
    Eligible(w.rows[visits[m]], o)
    && (|| (exists j: nat :: TakesFromMoved(w, visits[m], j))
        || (exists n: nat :: n < m && TakesFromCleared(w, o, visits[m], visits[n])))
  }

  ghost predicate Collision(w: World, o: Options, visits: seq<nat>)
    requires Indices(visits, w)
  {
    exists m :: 0 <= m < |visits| && CollidesAt(w, o, visits, m)
  }

  // ---------------------------------------------------------------- how a row is counted

  /** A memory without a workspace has the key of one in the workspace "default". */
  lemma NoWorkspaceIsDefault(row: MemoryRow)
    requires row.workspaceId == None
    ensures BuildObjectKey(row) == BuildObjectKey(row.(workspaceId := Some("default")))
    ensures BuildObjectKey(row) == row.ownerId + "/default/" + row.id + "/content"
  {
    assert "/" + "default" + "/" == "/default/";
    assert row.ownerId + "/" + "default" + "/" + row.id == row.ownerId + "/default/" + row.id;
  }

  /** The read after the put gives back the body that was sent, and it is not empty. */
  ghost predicate GivesBack(objects: map<string, string>, key: string, body: string, f: Fault) {
    && body != ""
    && match f.got
       case GetThrows => false
       case GetMissing => false
       case GetGarbled(told) => told == body
       case GetFaithful =>
         match f.put
         case Stores => true
         case StoresOther(other) => other == body
         case KeepsOld => HeldAt(objects, key, body)
         case Removes => false
  }

  /** What a real visit of an eligible row leaves of it. */
  ghost predicate RowLeft(before: MemoryRow, after: MemoryRow, key: string, linked: bool, cleared: bool) {
    after == before.(objectKey := if linked then Some(key) else before.objectKey, content := if cleared then "" else before.content)
  }

  /**
   * Under every fault, with clearInline and without: a row that is moved is counted as
   * offloaded iff the put did not throw, the read gave back the body, the row was linked and,
   * if asked, cleared; else as failed. It has its key iff the update took effect, and lost its
   * inline body iff that was asked, and took effect, after a link that was reported done.
   */
  lemma OffloadedExactly(w: World, i: nat, o: Options, f: Fault)
    requires i < |w.rows| && Eligible(w.rows[i], o) && !o.dryRun
    ensures var row := w.rows[i];
            var key, v := BuildObjectKey(row), Visit(w, i, o, f);
            var sound := !f.putThrows && GivesBack(w.objects, key, row.content, f);
            var after := Last(v.trace);
            && (v.outcome == Offloaded <==> sound && f.link.Done? && (o.clearInline ==> f.clear.Done?))
            && (v.outcome != Offloaded ==> v.outcome == Failed)
            && |after.rows| == |w.rows|
            && RowLeft(row, after.rows[i], key, sound && !f.link.ThrowsBefore?,
                       sound && f.link.Done? && o.clearInline && !f.clear.ThrowsBefore?)
  {
    hide ByteLength, BuildObjectKey;
  }

  /**
   * What the visit leaves in the storage: what the put did, but for an object that was read
   * back with another body, which is removed when the delete works.
   */
  lemma ObjectsLeftExactly(w: World, i: nat, o: Options, f: Fault)
    requires i < |w.rows| && Eligible(w.rows[i], o) && !o.dryRun
    ensures var row := w.rows[i];
            var key, after := BuildObjectKey(row), Last(Visit(w, i, o, f).trace);
            var put := AfterPut(w.objects, key, row.content, f.put);
            var seen := ReadBack(put, key, f.got);
            var mismatch := !f.putThrows && seen.Some? && seen.value != "" && seen.value != row.content;
            && (mismatch && f.deleteWorks ==> key !in after.objects)
            && (!mismatch || !f.deleteWorks ==> after.objects == put)
  {
    hide ByteLength, BuildObjectKey;
  }

  /** Any other row is left alone: skipped when it has a key or is small, counted as offloaded by a dry run. */
  lemma NotMovedExactly(w: World, i: nat, o: Options, f: Fault)
    requires i < |w.rows| && (!Eligible(w.rows[i], o) || o.dryRun)
    ensures var v := Visit(w, i, o, f);
            v.trace == [w] && v.outcome == if Eligible(w.rows[i], o) then Offloaded else Skipped
  {
    hide ByteLength;
  }

  /** An offloaded row has its key, its body is inline unless it was to be cleared, and an honest storage holds it. */
  lemma OffloadedRowIsMoved(w: World, i: nat, o: Options, f: Fault)
    requires i < |w.rows| && Eligible(w.rows[i], o) && !o.dryRun && Visit(w, i, o, f).outcome == Offloaded
    ensures var row, after := w.rows[i], Last(Visit(w, i, o, f).trace);
            && |after.rows| == |w.rows| && after.rows[i].objectKey == Some(BuildObjectKey(row)) && row.content != ""
            && after.rows[i].content == (if o.clearInline then "" else row.content)
            && (Honest(f, row) ==> HeldAt(after.objects, BuildObjectKey(row), row.content))
  {
    hide ByteLength, BuildObjectKey;
  }

  // ---------------------------------------------------------------- one visit

  /** Every step of a visit changes at most its own row and its own object. */
  lemma VisitTouches(w: World, i: nat, o: Options, f: Fault)
    requires i < |w.rows|
    ensures forall t :: t in Visit(w, i, o, f).trace ==>
              && |t.rows| == |w.rows|
              && (forall k :: 0 <= k < |w.rows| && k != i ==> t.rows[k] == w.rows[k])
              && (forall key :: key != BuildObjectKey(w.rows[i]) ==>
                    (key in t.objects <==> key in w.objects) && (key in w.objects ==> t.objects[key] == w.objects[key]))
    ensures !Eligible(w.rows[i], o) || o.dryRun ==> Visit(w, i, o, f).trace == [w]
  {
    hide ByteLength, BuildObjectKey;
  }

  /** The visited row itself is linked only to a verified copy, and cleared only once linked. */
  lemma VisitedRow(w: World, i: nat, o: Options, f: Fault)
    requires i < |w.rows| && Honest(f, w.rows[i]) && Eligible(w.rows[i], o)
    ensures forall t :: t in Visit(w, i, o, f).trace ==>
              Preserved(w.rows[i], w.objects, t.rows[i], t.objects)
    ensures var row := Last(Visit(w, i, o, f).trace).rows[i];
            row.content != w.rows[i].content ==>
              o.clearInline && row.objectKey == Some(BuildObjectKey(w.rows[i])) && w.rows[i].content != ""
  {
    hide ByteLength, BuildObjectKey;
    KeyIsNotEmpty(w.rows[i]);
  }

  lemma KeyIsNotEmpty(row: MemoryRow)
    ensures BuildObjectKey(row) != ""
  {
  }

  /** A row that lost its inline body was moved by an earlier visit, under its own key. */
  ghost predicate MovedProperly(w0: World, w: World, o: Options, visits: seq<nat>, j: nat)
    requires j < |w0.rows| == |w.rows|
  {
    w.rows[j].content != w0.rows[j].content ==>
      && o.clearInline && j in visits && Eligible(w0.rows[j], o) && w0.rows[j].content != ""
      && w.rows[j].objectKey == Some(BuildObjectKey(w0.rows[j]))
  }

  ghost predicate AllMovedProperly(w0: World, w: World, o: Options, visits: seq<nat>) {
    |w.rows| == |w0.rows| && forall j :: 0 <= j < |w.rows| ==> MovedProperly(w0, w, o, visits, j)
  }

  lemma OthersPreserved(w0: World, w: World, t: World, o: Options, visits: seq<nat>, i: nat, j: nat)
    requires Safe(w0, w) && AllMovedProperly(w0, w, o, visits)
    requires i < |w0.rows| && j < |w0.rows| == |t.rows| && w.rows[i] == w0.rows[i]
    requires t.rows[j] == w.rows[j]
    requires forall key :: key != BuildObjectKey(w.rows[i]) ==>
               (key in t.objects <==> key in w.objects) && (key in w.objects ==> t.objects[key] == w.objects[key])
    requires !TakesFromMoved(w0, i, j) && (j in visits ==> !TakesFromCleared(w0, o, i, j))
    ensures Preserved(w0.rows[j], w0.objects, t.rows[j], t.objects)
  {
    hide BuildObjectKey, ByteLength;
    assert Preserved(w0.rows[j], w0.objects, w.rows[j], w.objects);
    assert MovedProperly(w0, w, o, visits, j);
  }

  lemma VisitKeepsSafe(w0: World, w: World, o: Options, f: Fault, visits: seq<nat>, i: nat)
    requires i < |w0.rows| == |w.rows| && w.rows[i] == w0.rows[i] && Honest(f, w0.rows[i])
    requires Safe(w0, w) && AllMovedProperly(w0, w, o, visits)
    requires Eligible(w0.rows[i], o) ==>
               (forall j: nat :: !TakesFromMoved(w0, i, j)) && forall j: nat :: j in visits ==> !TakesFromCleared(w0, o, i, j)
    ensures AllSafe(w0, Visit(w, i, o, f).trace)
    ensures AllMovedProperly(w0, Last(Visit(w, i, o, f).trace), o, visits + [i])
  {
    hide Visit, BuildObjectKey, TakesFromMoved, TakesFromCleared, Preserved, ByteLength;
    var trace := Visit(w, i, o, f).trace;
    VisitTouches(w, i, o, f);
    if Eligible(w.rows[i], o) && !o.dryRun {
      VisitedRow(w, i, o, f);
      SameRowPreserved(w0, w, o, f, i);
      forall t: nat, j: nat | t < |trace| && j < |w0.rows|
        ensures Preserved(w0.rows[j], w0.objects, trace[t].rows[j], trace[t].objects)
      {
        assert trace[t] in trace;
        if j != i {
          OthersPreserved(w0, w, trace[t], o, visits, i, j);
        }
      }
      forall j | 0 <= j < |w0.rows| ensures MovedProperly(w0, Last(trace), o, visits + [i], j) {
        assert Last(trace) in trace;
        assert MovedProperly(w0, w, o, visits, j);
      }
    } else {
      forall j | 0 <= j < |w0.rows| ensures MovedProperly(w0, Last(trace), o, visits + [i], j) {
        assert MovedProperly(w0, w, o, visits, j);
      }
    }
  }

  lemma SameRowPreserved(w0: World, w: World, o: Options, f: Fault, i: nat)
    requires i < |w0.rows| == |w.rows| && w.rows[i] == w0.rows[i] && Eligible(w0.rows[i], o) && Honest(f, w0.rows[i])
    ensures forall t :: t in Visit(w, i, o, f).trace ==> Preserved(w0.rows[i], w0.objects, t.rows[i], t.objects)
  {
    VisitedRow(w, i, o, f);
    hide Visit, BuildObjectKey, ByteLength;
  }

  // ---------------------------------------------------------------- whole runs

  lemma PrefixVisits(w: World, o: Options, visits: seq<nat>, faults: Faults)
    requires visits != [] && Indices(visits, w) && NoRepeats(visits) && HonestRun(w, visits, faults) && !Collision(w, o, visits)
    ensures var n := |visits| - 1;
            && NoRepeats(visits[..n]) && visits[n] !in visits[..n]
            && HonestRun(w, visits[..n], faults) && !Collision(w, o, visits[..n])
            && (Eligible(w.rows[visits[n]], o) ==>
                  && (forall j: nat :: !TakesFromMoved(w, visits[n], j))
                  && (forall j: nat :: j in visits[..n] ==> !TakesFromCleared(w, o, visits[n], j)))
  {
    hide Eligible, BuildObjectKey, TakesFromMoved, TakesFromCleared, Honest, FaultAt;
    var n := |visits| - 1;
    forall m | 0 <= m < n ensures !CollidesAt(w, o, visits[..n], m) {
      assert !CollidesAt(w, o, visits, m);
      assert forall k: nat :: k < m ==> visits[..n][k] == visits[k];
    }
    assert !CollidesAt(w, o, visits, n);
    forall j: nat | Eligible(w.rows[visits[n]], o) && j in visits[..n] ensures !TakesFromCleared(w, o, visits[n], j) {
      var k :| 0 <= k < n && visits[..n][k] == j;
      assert visits[k] == j;
    }
  }

  /** Whatever faults occur, every step of the run is safe as long as no keys collide. */
  lemma {:induction false} RunIsSafe(w: World, o: Options, visits: seq<nat>, faults: Faults)
    requires Indices(visits, w) && NoRepeats(visits) && HonestRun(w, visits, faults) && !Collision(w, o, visits)
    ensures AllSafe(w, RunOver(w, visits, o, faults).trace)
    ensures AllMovedProperly(w, Last(RunOver(w, visits, o, faults).trace), o, visits)
  {
    hide Visit, Collision, Honest, TakesFromMoved, TakesFromCleared, Eligible, MovedProperly, Preserved;
    if visits == [] {
      StartIsSafe(w, o);
    } else {
      var n := |visits| - 1;
      SplitLast(visits);
      PrefixVisits(w, o, visits, faults);
      RunIsSafe(w, o, visits[..n], faults);
      RunFrame(w, visits[..n], o, faults);
      var before := RunOver(w, visits[..n], o, faults);
      assert Last(before.trace) in before.trace;
      VisitKeepsSafe(w, Last(before.trace), o, FaultAt(faults, n), visits[..n], visits[n]);
    }
  }

  lemma StartIsSafe(w: World, o: Options)
    ensures Safe(w, w) && AllMovedProperly(w, w, o, [])
  {
  }

  // ---------------------------------------------------------------- a collision can lose a body

  lemma LastVisit(w: World, o: Options, visits: seq<nat>, faults: Faults) returns (before: World, v: Visited)
    requires Indices(visits, w) && visits != []
    ensures var n := |visits| - 1;
            && before == Last(RunOver(w, visits[..n], o, faults).trace) && |before.rows| == |w.rows|
            && v == Visit(before, visits[n], o, FaultAt(faults, n))
            && RunOver(w, visits, o, faults).trace == RunOver(w, visits[..n], o, faults).trace + v.trace[1..]
            && Last(RunOver(w, visits, o, faults).trace) == Last(v.trace)
            && (forall k :: 0 <= k < |w.rows| && k != visits[n] ==> Last(v.trace).rows[k] == before.rows[k])
  {
    hide Visit, SameFrame;
    var n := |visits| - 1;
    before := Last(RunOver(w, visits[..n], o, faults).trace);
    v := Visit(before, visits[n], o, FaultAt(faults, n));
    VisitFrame(before, visits[n], o, FaultAt(faults, n));
  }

  /** What a later part of the run does not visit stays as it is. */
  lemma {:induction false} LaterVisitsElsewhere(w: World, o: Options, visits: seq<nat>, faults: Faults, n: nat, i: nat)
    requires Indices(visits, w) && n <= |visits| && i < |w.rows|
    requires forall m :: n <= m < |visits| ==> visits[m] != i
    ensures Last(RunOver(w, visits, o, faults).trace).rows[i] == Last(RunOver(w, visits[..n], o, faults).trace).rows[i]
  {
    hide RunOver, Visit;
    if n == |visits| {
      assert visits[..n] == visits;
    } else {
      var last := |visits| - 1;
      assert visits[..last][..n] == visits[..n];
      LaterVisitsElsewhere(w, o, visits[..last], faults, n, i);
      var before, v := LastVisit(w, o, visits, faults);
    }
  }

  /** The step after the put is part of the run. */
  lemma {:induction false} PutIsReached(w: World, o: Options, visits: seq<nat>, faults: Faults, m: nat) returns (t: nat)
    requires Indices(visits, w) && m < |visits| && !o.dryRun && Eligible(w.rows[visits[m]], o) && NoRepeats(visits)
    ensures t < |RunOver(w, visits, o, faults).trace|
    ensures var before := Last(RunOver(w, visits[..m], o, faults).trace);
            && before.rows[visits[m]] == w.rows[visits[m]]
            && RunOver(w, visits, o, faults).trace[t] == PutStep(before, w.rows[visits[m]], FaultAt(faults, m))
  {
    hide RunOver, Visit, BuildObjectKey, ByteLength, FaultAt, SameFrame, PutStep;
    var last := |visits| - 1;
    var before, v := LastVisit(w, o, visits, faults);
    if m < last {
      assert visits[..last][..m] == visits[..m];
      t := PutIsReached(w, o, visits[..last], faults, m);
    } else {
      RunFrame(w, visits[..m], o, faults);
      PutComesNext(before, visits[m], o, FaultAt(faults, m));
      t := |RunOver(w, visits[..last], o, faults).trace|;
    }
  }

  ghost function PutStep(w: World, row: MemoryRow, f: Fault): World {
    w.(objects := AfterPut(w.objects, BuildObjectKey(row), row.content, f.put))
  }

  lemma PutComesNext(w: World, i: nat, o: Options, f: Fault)
    requires i < |w.rows| && Eligible(w.rows[i], o) && !o.dryRun
    ensures |Visit(w, i, o, f).trace| > 1 && Visit(w, i, o, f).trace[1] == PutStep(w, w.rows[i], f)
  {
    hide BuildObjectKey, ByteLength;
  }

  /** Without faults an eligible row ends linked, and cleared when asked. */
  lemma SmoothVisit(w: World, i: nat, o: Options)
    requires i < |w.rows| && Eligible(w.rows[i], o) && !o.dryRun && w.rows[i].content != "" && o.clearInline
    ensures var row := Last(Visit(w, i, o, FaultAt([], 0)).trace).rows[i];
            row.content == "" && row.objectKey == Some(BuildObjectKey(w.rows[i]))
  {
    hide BuildObjectKey, ByteLength;
  }

  /** No fault before the m-th visit, whose put removes the object under its key. */
  ghost function LosingFaults(m: nat): Faults {
    seq(m, _ => FaultAt([], 0)) + [Fault(Removes, true, GetThrows, false, ThrowsBefore, ThrowsBefore)]
  }

  lemma CollisionCanLose(w: World, o: Options, visits: seq<nat>) returns (faults: Faults)
    requires Indices(visits, w) && NoRepeats(visits) && !o.dryRun && Collision(w, o, visits)
    ensures HonestRun(w, visits, faults) && !AllSafe(w, RunOver(w, visits, o, faults).trace)
  {
    hide BuildObjectKey, ByteLength, Visit, RunOver;
    var m :| 0 <= m < |visits| && CollidesAt(w, o, visits, m);
    faults := LosingFaults(m);
    var t := PutIsReached(w, o, visits, faults, m);
    var trace := RunOver(w, visits, o, faults).trace;
    if j: nat :| TakesFromMoved(w, visits[m], j) {
      assert !Preserved(w.rows[j], w.objects, trace[t].rows[j], trace[t].objects);
    } else {
      var n: nat :| n < m && TakesFromCleared(w, o, visits[m], visits[n]);
      ClearedBefore(w, o, visits, faults, n, m);
      assert !Preserved(w.rows[visits[n]], w.objects, trace[t].rows[visits[n]], trace[t].objects);
    }
  }

  lemma ClearedBefore(w: World, o: Options, visits: seq<nat>, faults: Faults, n: nat, m: nat)
    requires Indices(visits, w) && NoRepeats(visits) && n < m < |visits| && faults == LosingFaults(m)
    requires !o.dryRun && o.clearInline && Eligible(w.rows[visits[n]], o) && w.rows[visits[n]].content != ""
    ensures var row := Last(RunOver(w, visits[..m], o, faults).trace).rows[visits[n]];
            row.content == "" && row.objectKey == Some(BuildObjectKey(w.rows[visits[n]]))
  {
    hide BuildObjectKey, ByteLength, Visit, RunOver, SameFrame;
    var upTo := visits[..m];
    assert upTo[..n + 1][..n] == visits[..n] && upTo[..n] == visits[..n];
    RunFrame(w, visits[..n], o, faults);
    var before := Last(RunOver(w, visits[..n], o, faults).trace);
    assert FaultAt(faults, n) == FaultAt([], 0);
    SmoothVisit(before, visits[n], o);
    var b, v := LastVisit(w, o, upTo[..n + 1], faults);
    KeyOfFrame(w.rows[visits[n]], before.rows[visits[n]]);
    forall k | n + 1 <= k < m ensures upTo[k] != visits[n] {
    }
    LaterVisitsElsewhere(w, o, upTo, faults, n + 1, visits[n]);
  }

  lemma KeyOfFrame(a: MemoryRow, b: MemoryRow)
    requires a == b
    ensures BuildObjectKey(a) == BuildObjectKey(b)
  {
  }

  /**
   * The exact condition: a real run keeps every body safe at every step under all honest
   * faults iff no row to be moved has the object key of a row that depends on its object.
   */
  lemma SafeExactlyWithoutCollision(w: World, o: Options)
    requires !o.dryRun
    ensures (forall faults :: HonestRun(w, Visits(w.rows, o), faults) ==> AllSafe(w, RunAll(w, o, faults).trace))
            <==> !Collision(w, o, Visits(w.rows, o))
  {
    hide HonestRun, Collision, RunOver, AllSafe;
    VisitsNoRepeats(w.rows, o);
    if Collision(w, o, Visits(w.rows, o)) {
      var faults := CollisionCanLose(w, o, Visits(w.rows, o));
      assert HonestRun(w, Visits(w.rows, o), faults) && !AllSafe(w, RunAll(w, o, faults).trace);
    } else {
      forall faults | HonestRun(w, Visits(w.rows, o), faults) ensures AllSafe(w, RunAll(w, o, faults).trace) {
        RunIsSafe(w, o, Visits(w.rows, o), faults);
      }
    }
  }

  /** A dry run changes nothing at all. */
  lemma {:induction false} DryRunWritesNothing(w: World, visits: seq<nat>, o: Options, faults: Faults)
    requires Indices(visits, w) && o.dryRun
    ensures RunOver(w, visits, o, faults).trace == [w]
  {
    if visits != [] {
      DryRunWritesNothing(w, visits[..|visits| - 1], o, faults);
    }
  }

  // ---------------------------------------------------------------- why ids prevent collisions

  ghost predicate Plain(id: string) {
    '/' !in id
  }

  /** The id is the last but one segment of the key. */
  lemma KeyNamesId(a: MemoryRow, b: MemoryRow)
    requires Plain(a.id) && Plain(b.id) && BuildObjectKey(a) == BuildObjectKey(b)
    ensures a.id == b.id
  {
    var k := BuildObjectKey(a);
    var headA := a.ownerId + "/" + (if a.workspaceId.Some? then a.workspaceId.value else "default");
    var headB := b.ownerId + "/" + (if b.workspaceId.Some? then b.workspaceId.value else "default");
    assert k == headA + "/" + a.id + "/content" && k == headB + "/" + b.id + "/content";
    TailAgrees(headA, a.id, headB, b.id);
  }

  lemma TailAgrees(headA: string, a: string, headB: string, b: string)
    requires Plain(a) && Plain(b) && headA + "/" + a + "/content" == headB + "/" + b + "/content"
    ensures a == b
  {
    var k, l := headA + "/" + a + "/content", headB + "/" + b + "/content";
    LongerIdDiffers(headA, a, headB, b);
    LongerIdDiffers(headB, b, headA, a);
    assert a == k[|headA| + 1..|headA| + 1 + |a|] && b == l[|headB| + 1..|headB| + 1 + |b|];
  }

  lemma LongerIdDiffers(headA: string, a: string, headB: string, b: string)
    requires Plain(b)
    ensures |a| < |b| ==> headA + "/" + a + "/content" != headB + "/" + b + "/content"
  {
    var k, l := headA + "/" + a + "/content", headB + "/" + b + "/content";
    if |a| < |b| && |k| == |l| {
      assert k[|headA|] == '/' && l[|headA|] == b[|headA| - |headB| - 1];
    }
  }

  /** Distinct ids without a slash, and keys that this job wrote itself, rule every collision out. */
  lemma PlainIdsNeverCollide(w: World, o: Options, visits: seq<nat>)
    requires Indices(visits, w) && NoRepeats(visits) && UniqueIds(w.rows)
    requires forall k :: 0 <= k < |w.rows| ==> Plain(w.rows[k].id)
    requires forall k :: 0 <= k < |w.rows| && Keyed(w.rows[k]) ==> w.rows[k].objectKey.value == BuildObjectKey(w.rows[k])
    ensures !Collision(w, o, visits)
  {
    hide BuildObjectKey, ByteLength;
    forall m | 0 <= m < |visits| ensures !CollidesAt(w, o, visits, m) {
      var i := visits[m];
      forall j: nat ensures Eligible(w.rows[i], o) ==> !TakesFromMoved(w, i, j) {
        if j < |w.rows| && BuildObjectKey(w.rows[j]) == BuildObjectKey(w.rows[i]) {
          KeyNamesId(w.rows[j], w.rows[i]);
        }
      }
      forall n: nat | n < m ensures !TakesFromCleared(w, o, i, visits[n]) {
        if BuildObjectKey(w.rows[visits[n]]) == BuildObjectKey(w.rows[i]) {
          KeyNamesId(w.rows[visits[n]], w.rows[i]);
        }
      }
    }
  }

  /** Two rows of one owner that have a body and none of them a key yet. */
  ghost predicate BothToMove(a: MemoryRow, b: MemoryRow) {
    && a.ownerId == b.ownerId != "" && !a.archived && !b.archived && !Keyed(a) && !Keyed(b) && a.content != "" && b.content != ""
  }

  const MOVE_ALL := Options(0, None, 100, false, true, None)

  lemma TwoRowsVisited(a: MemoryRow, b: MemoryRow)
    requires BothToMove(a, b)
    ensures Visits([a, b], MOVE_ALL) == [0, 1]
  {
    var rows, owner, o := [a, b], a.ownerId, MOVE_ALL;
    SelectionUnfold(rows, owner, None, 1);
    SelectionUnfold(rows, owner, None, 2);
    OneOwnerVisited(rows, owner, o);
    hide Keyed, Selection, DistinctOwners;
    TwoRowsOwner(rows, owner);
  }

  lemma TwoRowsOwner(rows: seq<MemoryRow>, owner: string)
    requires |rows| == 2 && owner != "" && forall k :: 0 <= k < 2 ==> rows[k].ownerId == owner && !rows[k].archived
    ensures DistinctOwners(rows, |rows|) == [owner]
  {
    assert DistinctOwners(rows, 1) == [owner];
  }

  lemma OneOwnerVisited(rows: seq<MemoryRow>, owner: string, o: Options)
    ensures VisitsOf(rows, [owner], o) == OwnerVisits(rows, owner, o)
  {
    assert [owner][..0] == [] && VisitsOf(rows, [owner][..0], o) == [];
  }

  /** A visit that nothing disturbs moves the body and clears it. */
  lemma VisitWithoutFault(w: World, i: nat) returns (after: World)
    requires i < |w.rows| && !Keyed(w.rows[i]) && w.rows[i].content != ""
    ensures var v, key := Visit(w, i, MOVE_ALL, FaultAt([], i)), BuildObjectKey(w.rows[i]);
            && v.outcome == Offloaded && after == Last(v.trace)
            && after == World(w.rows[i := w.rows[i].(objectKey := Some(key), content := "")], w.objects[key := w.rows[i].content])
  {
    hide BuildObjectKey, ByteLength;
    after := Last(Visit(w, i, MOVE_ALL, FaultAt([], i)).trace);
  }

  /** When their keys meet, a run without any fault takes both bodies out of the table, and the first one is gone. */
  lemma MeetingKeysLose(a: MemoryRow, b: MemoryRow, objects: map<string, string>)
    requires BothToMove(a, b) && BuildObjectKey(a) == BuildObjectKey(b)
    ensures var w := World([a, b], objects);
            var end := Last(RunAll(w, MOVE_ALL, []).trace);
            && RunAll(w, MOVE_ALL, []).tally == Tally(2, 2, 0, 0)
            && |end.rows| == 2 && end.rows[0].content == "" && end.rows[0].objectKey == Some(BuildObjectKey(a))
            && end.objects == objects[BuildObjectKey(a) := b.content]
            && Collision(w, MOVE_ALL, Visits(w.rows, MOVE_ALL))
  {
    TwoRowsVisited(a, b);
    MeetingKeysCollide(World([a, b], objects));
    hide Visits, Collision, RunOver;
    TwoVisits(World([a, b], objects));
  }

  lemma MeetingKeysCollide(w: World)
    requires |w.rows| == 2 && BothToMove(w.rows[0], w.rows[1]) && BuildObjectKey(w.rows[0]) == BuildObjectKey(w.rows[1])
    ensures Collision(w, MOVE_ALL, [0, 1])
  {
    hide BuildObjectKey, ByteLength;
    assert TakesFromCleared(w, MOVE_ALL, 1, [0, 1][0]);
    assert CollidesAt(w, MOVE_ALL, [0, 1], 1);
  }

  lemma TwoVisits(w: World)
    requires |w.rows| == 2 && BothToMove(w.rows[0], w.rows[1]) && BuildObjectKey(w.rows[0]) == BuildObjectKey(w.rows[1])
    ensures var run := RunOver(w, [0, 1], MOVE_ALL, []);
            var end := Last(run.trace);
            && run.tally == Tally(2, 2, 0, 0) && |end.rows| == 2
            && end.rows[0].content == "" && end.rows[0].objectKey == Some(BuildObjectKey(w.rows[0]))
            && end.objects == w.objects[BuildObjectKey(w.rows[0]) := w.rows[1].content]
  {
    hide Visit, BuildObjectKey, RunOver, FaultAt;
    var first := VisitWithoutFault(w, 0);
    var second := VisitWithoutFault(first, 1);
    NextVisit(w, [], 0, MOVE_ALL, []);
    NextVisit(w, [0], 1, MOVE_ALL, []);
    NoVisitYet(w);
    assert [] + [0] == [0] && [0] + [1] == [0, 1];
  }

  lemma NoVisitYet(w: World)
    ensures RunOver(w, [], MOVE_ALL, []) == Run([w], Tally(0, 0, 0, 0))
  {
  }

  /** A slash in the one's id stands in the other's workspace id, so that their keys meet. */
  lemma CollisionExample(objects: map<string, string>)
    ensures var w := World([MemoryRow("a/b", "owner", Some("w"), "one", None, 1, false),
                            MemoryRow("b", "owner", Some("w/a"), "two", None, 2, false)], objects);
            var end := Last(RunAll(w, MOVE_ALL, []).trace);
            && RunAll(w, MOVE_ALL, []).tally == Tally(2, 2, 0, 0)
            && |end.rows| == 2 && end.rows[0].content == "" && end.rows[0].objectKey == Some("owner/w/a/b/content")
            && end.objects == objects["owner/w/a/b/content" := "two"]
            && Collision(w, MOVE_ALL, Visits(w.rows, MOVE_ALL))
  {
    var a := MemoryRow("a/b", "owner", Some("w"), "one", None, 1, false);
    var b := MemoryRow("b", "owner", Some("w/a"), "two", None, 2, false);
    assert BuildObjectKey(a) == "owner/w/a/b/content" == BuildObjectKey(b);
    hide RunAll, BuildObjectKey, Collision, Visits;
    MeetingKeysLose(a, b, objects);
  }

  // ---------------------------------------------------------------- a second run

  /** How the n-th visit of a run is counted. */
  function OutcomeOf(w: World, visits: seq<nat>, o: Options, faults: Faults, n: nat): Outcome
    requires Indices(visits, w) && n < |visits|
  {
    Visit(Last(RunOver(w, visits[..n], o, faults).trace), visits[n], o, FaultAt(faults, n)).outcome
  }

  lemma OffloadedIsKeyed(w: World, i: nat, o: Options, f: Fault)
    requires i < |w.rows| && !o.dryRun && Visit(w, i, o, f).outcome == Offloaded
    ensures Keyed(Last(Visit(w, i, o, f).trace).rows[i])
  {
    hide ByteLength, BuildObjectKey;
    KeyIsNotEmpty(w.rows[i]);
  }

  lemma KeyedIsSkipped(w: World, i: nat, o: Options, f: Fault)
    requires i < |w.rows| && Keyed(w.rows[i])
    ensures Visit(w, i, o, f) == Visited([w], Skipped)
  {
  }

  /** No later visit takes a key away. */
  lemma {:induction false} KeysStay(w: World, visits: seq<nat>, o: Options, faults: Faults, i: nat)
    requires Indices(visits, w) && i < |w.rows| && Keyed(w.rows[i])
    ensures Last(RunOver(w, visits, o, faults).trace).rows[i] == w.rows[i]
  {
    if visits != [] {
      hide Visit;
      var n := |visits| - 1;
      KeysStay(w, visits[..n], o, faults, i);
      var before, v := LastVisit(w, o, visits, faults);
      if visits[n] == i {
        KeyedIsSkipped(before, i, o, FaultAt(faults, n));
      }
    }
  }

  /**
   * A row that a real run counted as offloaded is keyed when the run ends; any second run,
   * under any options and faults, counts it as skipped and leaves it as it is.
   */
  lemma SecondRunSkipsMoved(w: World, o: Options, faults: Faults, n: nat, o2: Options, faults2: Faults, m: nat)
    requires !o.dryRun && n < |Visits(w.rows, o)|
    requires OutcomeOf(w, Visits(w.rows, o), o, faults, n) == Offloaded
    ensures var w2 := Last(RunAll(w, o, faults).trace);
            var i := Visits(w.rows, o)[n];
            && |w2.rows| == |w.rows| && Keyed(w2.rows[i])
            && Last(RunAll(w2, o2, faults2).trace).rows[i] == w2.rows[i]
            && (m < |Visits(w2.rows, o2)| && Visits(w2.rows, o2)[m] == i ==>
                  OutcomeOf(w2, Visits(w2.rows, o2), o2, faults2, m) == Skipped)
  {
    var visits := Visits(w.rows, o);
    var w2 := Last(RunAll(w, o, faults).trace);
    VisitsNoRepeats(w.rows, o);
    OffloadedStaysKeyed(w, visits, o, faults, n);
    KeyedRunSkips(w2, Visits(w2.rows, o2), o2, faults2, visits[n], m);
  }

  lemma {:induction false} OffloadedStaysKeyed(w: World, visits: seq<nat>, o: Options, faults: Faults, n: nat)
    requires !o.dryRun && Indices(visits, w) && NoRepeats(visits) && n < |visits| && OutcomeOf(w, visits, o, faults, n) == Offloaded
    ensures Keyed(Last(RunOver(w, visits, o, faults).trace).rows[visits[n]])
  {
    hide RunOver, Visit;
    var upTo := visits[..n + 1];
    assert upTo[..n] == visits[..n];
    var before, v := LastVisit(w, o, upTo, faults);
    OffloadedIsKeyed(before, visits[n], o, FaultAt(faults, n));
    LaterVisitsElsewhere(w, o, visits, faults, n + 1, visits[n]);
  }

  lemma {:induction false} KeyedRunSkips(w: World, visits: seq<nat>, o: Options, faults: Faults, i: nat, m: nat)
    requires Indices(visits, w) && i < |w.rows| && Keyed(w.rows[i])
    ensures Last(RunOver(w, visits, o, faults).trace).rows[i] == w.rows[i]
    ensures m < |visits| && visits[m] == i ==> OutcomeOf(w, visits, o, faults, m) == Skipped
  {
    hide RunOver, Visit;
    KeysStay(w, visits, o, faults, i);
    if m < |visits| && visits[m] == i {
      KeysStay(w, visits[..m], o, faults, i);
      KeyedIsSkipped(Last(RunOver(w, visits[..m], o, faults).trace), i, o, FaultAt(faults, m));
    }
  }
}
