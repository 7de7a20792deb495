/**
 * src/backfill/content-offload-backfill.ts: memory bodies are moved to object storage
 * and read back before the row is pointed at them.
 */
module ContentOffload {
  import opened Outcomes

  datatype MemoryRow = MemoryRow(
    id: string, ownerId: string, workspaceId: Option<string>, content: string, objectKey: Option<string>,
    updatedAt: int, archived: bool)

  /** The table, listed in the order of the query (updated_at, then id), and the object storage. */
  datatype World = World(rows: seq<MemoryRow>, objects: map<string, string>)

  datatype Options = Options(
    minBytes: int, ownerId: Option<string>, batchSize: nat, dryRun: bool, clearInline: bool, sinceUpdatedAt: Option<int>)

  // ---------------------------------------------------------------- faults

  /** What a put leaves under its own key, whether or not it throws. */
  datatype PutEffect = KeepsOld | Removes | Stores | StoresOther(body: string)

  /** A read throws, finds nothing, tells what is stored, or tells something else. */
  datatype GetAnswer = GetThrows | GetMissing | GetFaithful | GetGarbled(body: string)

  datatype UpdateEffect = ThrowsBefore | ThrowsAfter | Done

  /** How storage and database treat one row. */
  datatype Fault = Fault(
    put: PutEffect, putThrows: bool, got: GetAnswer, deleteWorks: bool, link: UpdateEffect, clear: UpdateEffect)

  /** The n-th row visited meets the n-th fault; after the last one all goes well. */
  type Faults = seq<Fault>

  function FaultAt(faults: Faults, n: nat): Fault {
    if n < |faults| then faults[n] else Fault(Stores, false, GetFaithful, true, Done, Done)
  }

  // ---------------------------------------------------------------- one row

  function CharBytes(c: char): nat {
    var u := c as int;
    if u < 0x80 then 1 else if u < 0x800 then 2 else if u < 0x10000 then 3 else 4
  }

  /** Length in UTF-8. */
  function ByteLength(s: string): nat {
    if s == "" then 0 else ByteLength(s[..|s| - 1]) + CharBytes(s[|s| - 1])
  }

  /** The length counts the bytes of each character: 1, 2, 3 or 4 by its code point. */
  lemma {:induction false} ByteLengthMeaning(a: string, b: string)
    ensures ByteLength(a + b) == ByteLength(a) + ByteLength(b)
    ensures (forall i :: 0 <= i < |a| ==> a[i] as int < 0x80) ==> ByteLength(a) == |a|
    ensures |a| <= ByteLength(a) <= 4 * |a|
    decreases |a| + |b|
  {
    if b != [] {
      assert (a + b)[..|a + b| - 1] == a + b[..|b| - 1];
      ByteLengthMeaning(a, b[..|b| - 1]);
    } else {
      assert a + b == a;
      if a != [] {
        ByteLengthMeaning(a[..|a| - 1], []);
      }
    }
  }

  /** One character takes as many bytes as its code point needs bits: 7, 11, 16 or more. */
  lemma OneCharacterBytes(c: char)
    ensures ByteLength([c]) == if c as int < 0x80 then 1 else if c as int < 0x800 then 2 else if c as int < 0x10000 then 3 else 4
  {
    assert [c][..0] == [];
  }

  function BuildObjectKey(row: MemoryRow): string {
    row.ownerId + "/" + (if row.workspaceId.Some? then row.workspaceId.value else "default") + "/" + row.id + "/content"
  }

  predicate Keyed(row: MemoryRow) {
    row.objectKey.Some? && row.objectKey.value != ""
  }

  predicate Eligible(row: MemoryRow, o: Options) {
    !Keyed(row) && ByteLength(row.content) >= o.minBytes
  }

  datatype Outcome = Offloaded | Skipped | Failed

  /** The worlds from before the visit to after it, one per effect, and how the row is counted. */
  datatype Visited = Visited(trace: seq<World>, outcome: Outcome)

  function AfterPut(objects: map<string, string>, key: string, sent: string, effect: PutEffect): map<string, string> {
    match effect
    case KeepsOld => objects
    case Removes => objects - {key}
    case Stores => objects[key := sent]
    case StoresOther(body) => objects[key := body]
  }

  /** What the read after the put returns; None when it throws or finds nothing. */
  function ReadBack(objects: map<string, string>, key: string, got: GetAnswer): Option<string> {
    match got
    case GetThrows => None
    case GetMissing => None
    case GetFaithful => if key in objects then Some(objects[key]) else None
    case GetGarbled(body) => Some(body)
  }

  function Linked(w: World, i: nat, key: string): World
    requires i < |w.rows|
  {
    w.(rows := w.rows[i := w.rows[i].(objectKey := Some(key))])
  }

  function Cleared(w: World, i: nat): World
    requires i < |w.rows|
  {
    w.(rows := w.rows[i := w.rows[i].(content := "")])
  }

  function Visit(w: World, i: nat, o: Options, f: Fault): (v: Visited)
    requires i < |w.rows|
    ensures |v.trace| > 0 && v.trace[0] == w
  {
    var row := w.rows[i];
    var key := BuildObjectKey(row);
    if Keyed(row) || ByteLength(row.content) < o.minBytes then Visited([w], Skipped)
    else if o.dryRun then Visited([w], Offloaded)
    else
      var put := w.(objects := AfterPut(w.objects, key, row.content, f.put));
      var stored := ReadBack(put.objects, key, f.got);
      if f.putThrows || stored.None? || |stored.value| == 0 then Visited([w, put], Failed)
      else if stored.value != row.content then
        Visited([w, put, if f.deleteWorks then put.(objects := put.objects - {key}) else put], Failed)
      else
        var linked := if f.link.ThrowsBefore? then put else Linked(put, i, key);
        if !f.link.Done? then Visited([w, put, linked], Failed)
        else if !o.clearInline then Visited([w, put, linked], Offloaded)
        else
          var cleared := if f.clear.ThrowsBefore? then linked else Cleared(linked, i);
          Visited([w, put, linked, cleared], if f.clear.Done? then Offloaded else Failed)
  }

  function Last(trace: seq<World>): World
    requires |trace| > 0
  {
    trace[|trace| - 1]
  }

  // ---------------------------------------------------------------- a run

  datatype Tally = Tally(scanned: nat, offloaded: nat, skipped: nat, failed: nat)

  function Counted(t: Tally, outcome: Outcome): Tally {
    Tally(t.scanned + 1, t.offloaded + (if outcome.Offloaded? then 1 else 0), t.skipped + (if outcome.Skipped? then 1 else 0),
          t.failed + if outcome.Failed? then 1 else 0)
  }

  datatype Run = Run(trace: seq<World>, tally: Tally)

  predicate Indices(visits: seq<nat>, w: World) {
    forall k :: 0 <= k < |visits| ==> visits[k] < |w.rows|
  }

  /** Nothing but object_key and content changes, row by row. */
  ghost predicate SameFrame(a: seq<MemoryRow>, b: seq<MemoryRow>) {
    |a| == |b| && forall k :: 0 <= k < |a| ==> b[k] == a[k].(objectKey := b[k].objectKey, content := b[k].content)
  }

  lemma VisitFrame(w: World, i: nat, o: Options, f: Fault)
    requires i < |w.rows|
    ensures var after := Last(Visit(w, i, o, f).trace);
            SameFrame(w.rows, after.rows) && forall k :: 0 <= k < |w.rows| && k != i ==> after.rows[k] == w.rows[k]
  {
    hide ByteLength, BuildObjectKey;
  }

  function RunOver(w: World, visits: seq<nat>, o: Options, faults: Faults): (r: Run)
    requires Indices(visits, w)
    ensures |r.trace| > 0 && r.trace[0] == w && |Last(r.trace).rows| == |w.rows| && r.tally.scanned == |visits|
  {
    if visits == [] then Run([w], Tally(0, 0, 0, 0))
    else
      var n := |visits| - 1;
      var before := RunOver(w, visits[..n], o, faults);
      var v := Visit(Last(before.trace), visits[n], o, FaultAt(faults, n));
      VisitFrame(Last(before.trace), visits[n], o, FaultAt(faults, n));
      Run(before.trace + v.trace[1..], Counted(before.tally, v.outcome))
  }

  lemma NextVisit(w: World, visits: seq<nat>, i: nat, o: Options, faults: Faults)
    requires Indices(visits, w) && i < |w.rows|
    ensures Indices(visits + [i], w)
    ensures var before := RunOver(w, visits, o, faults);
            var v := Visit(Last(before.trace), i, o, FaultAt(faults, |visits|));
            && RunOver(w, visits + [i], o, faults) == Run(before.trace + v.trace[1..], Counted(before.tally, v.outcome))
            && Last(RunOver(w, visits + [i], o, faults).trace) == Last(v.trace)
  {
    assert (visits + [i])[..|visits|] == visits;
  }

  // ---------------------------------------------------------------- which rows, in which order

  predicate Matches(row: MemoryRow, ownerId: string, since: Option<int>) {
    row.ownerId == ownerId && !row.archived && (since.Some? ==> row.updatedAt > since.value)
  }

  /** Positions of the matching rows among the first n. */
  function Selection(rows: seq<MemoryRow>, ownerId: string, since: Option<int>, n: nat): (s: seq<nat>)
    requires n <= |rows|
    ensures forall k :: 0 <= k < |s| ==> s[k] < n && Matches(rows[s[k]], ownerId, since)
  {
    if n == 0 then []
    else
      var front := Selection(rows, ownerId, since, n - 1);
      if Matches(rows[n - 1], ownerId, since) then front + [n - 1] else front
  }

  /** SELECT DISTINCT owner_id */
  function DistinctOwners(rows: seq<MemoryRow>, n: nat): (owners: seq<string>)
    requires n <= |rows|
  {
    if n == 0 then []
    else
      var front, row := DistinctOwners(rows, n - 1), rows[n - 1];
      if row.ownerId != "" && !row.archived && row.ownerId !in front then front + [row.ownerId] else front
  }

  function Owners(rows: seq<MemoryRow>, o: Options): seq<string> {
    if o.ownerId.Some? && o.ownerId.value != "" then [o.ownerId.value] else DistinctOwners(rows, |rows|)
  }

  /** One owner's visits; a batch size of zero fetches nothing. */
  function OwnerVisits(rows: seq<MemoryRow>, ownerId: string, o: Options): (visits: seq<nat>)
    ensures forall k :: 0 <= k < |visits| ==> visits[k] < |rows|
  {
    if o.batchSize == 0 then [] else Selection(rows, ownerId, o.sinceUpdatedAt, |rows|)
  }

  function VisitsOf(rows: seq<MemoryRow>, owners: seq<string>, o: Options): (visits: seq<nat>)
    ensures forall k :: 0 <= k < |visits| ==> visits[k] < |rows|
  {
    if owners == [] then []
    else VisitsOf(rows, owners[..|owners| - 1], o) + OwnerVisits(rows, owners[|owners| - 1], o)
  }

  /** The whole run's visits. */
  function Visits(rows: seq<MemoryRow>, o: Options): (visits: seq<nat>)
    ensures forall k :: 0 <= k < |visits| ==> visits[k] < |rows|
  {
    VisitsOf(rows, Owners(rows, o), o)
  }

  function RunAll(w: World, o: Options, faults: Faults): Run {
    RunOver(w, Visits(w.rows, o), o, faults)
  }

  lemma {:induction false} SelectionFrame(a: seq<MemoryRow>, b: seq<MemoryRow>, ownerId: string, since: Option<int>, n: nat)
    requires SameFrame(a, b) && n <= |a|
    ensures Selection(a, ownerId, since, n) == Selection(b, ownerId, since, n)
  {
    if n > 0 {
      SelectionFrame(a, b, ownerId, since, n - 1);
    }
  }

  lemma {:induction false} RunFrame(w: World, visits: seq<nat>, o: Options, faults: Faults)
    requires Indices(visits, w)
    ensures var after := Last(RunOver(w, visits, o, faults).trace);
            SameFrame(w.rows, after.rows) && forall k :: 0 <= k < |w.rows| && k !in visits ==> after.rows[k] == w.rows[k]
  {
    if visits != [] {
      hide Visit;
      var n := |visits| - 1;
      RunFrame(w, visits[..n], o, faults);
      var before := RunOver(w, visits[..n], o, faults);
      VisitFrame(Last(before.trace), visits[n], o, FaultAt(faults, n));
    }
  }

  lemma SelectionUnfold(rows: seq<MemoryRow>, ownerId: string, since: Option<int>, n: nat)
    requires 0 < n <= |rows|
    ensures Selection(rows, ownerId, since, n) ==
              Selection(rows, ownerId, since, n - 1) + if Matches(rows[n - 1], ownerId, since) then [n - 1] else []
  {
  }

  ghost predicate Increasing(s: seq<nat>) {
    forall a, b :: 0 <= a < b < |s| ==> s[a] < s[b]
  }

  lemma OneMoreIncreases(s: seq<nat>, x: nat)
    requires Increasing(s) && forall k :: k in s ==> k < x
    ensures Increasing(s + [x])
    ensures forall k :: k in s + [x] <==> k in s || k == x
  {
    forall a | 0 <= a < |s| ensures s[a] < x {
      assert s[a] in s;
    }
  }

  lemma {:induction false} SelectionIncreases(rows: seq<MemoryRow>, ownerId: string, since: Option<int>, n: nat)
    requires n <= |rows|
    ensures var s := Selection(rows, ownerId, since, n);
            Increasing(s) && forall k :: k in s <==> 0 <= k < n && Matches(rows[k], ownerId, since)
  {
    if n > 0 {
      SelectionIncreases(rows, ownerId, since, n - 1);
      SelectionUnfold(rows, ownerId, since, n);
      hide Selection, Matches, Increasing;
      if Matches(rows[n - 1], ownerId, since) {
        OneMoreIncreases(Selection(rows, ownerId, since, n - 1), n - 1);
      } else {
        assert Selection(rows, ownerId, since, n) == Selection(rows, ownerId, since, n - 1);
      }
    }
  }

  // ---------------------------------------------------------------- the program

  ghost predicate UniqueIds(rows: seq<MemoryRow>) {
    forall i, j :: 0 <= i < j < |rows| ==> rows[i].id != rows[j].id
  }

  function Min(a: nat, b: nat): nat {
    if a <= b then a else b
  }

  /** The run over `visits` has brought the stores, the history and the tally to where they are. */
  ghost predicate Reached(start: World, earlier: seq<World>, visits: seq<nat>, o: Options, faults: Faults,
                          tally: Tally, now: World, history: seq<World>)
  {
    Indices(visits, start)
    && var run := RunOver(start, visits, o, faults);
       tally == run.tally && now == Last(run.trace) && history == earlier + run.trace[1..]
  }

  lemma ReachedStart(start: World, earlier: seq<World>, o: Options, faults: Faults)
    ensures Reached(start, earlier, [], o, faults, Tally(0, 0, 0, 0), start, earlier)
  {
  }

  lemma TracesJoin(earlier: seq<World>, a: seq<World>, b: seq<World>)
    requires |a| > 0 && |b| > 0
    ensures earlier + a[1..] + b[1..] == earlier + (a + b[1..])[1..]
  {
  }

  lemma ReachedNext(start: World, earlier: seq<World>, visits: seq<nat>, o: Options, faults: Faults, tally: Tally,
                    now: World, history: seq<World>, i: nat)
    requires Reached(start, earlier, visits, o, faults, tally, now, history) && i < |start.rows| == |now.rows|
    ensures tally.scanned == |visits|
    ensures var v := Visit(now, i, o, FaultAt(faults, |visits|));
            Reached(start, earlier, visits + [i], o, faults, Counted(tally, v.outcome), Last(v.trace), history + v.trace[1..])
  {
    hide Visit, RunOver, Counted, Last;
    NextVisit(start, visits, i, o, faults);
    TracesJoin(earlier, RunOver(start, visits, o, faults).trace, Visit(now, i, o, FaultAt(faults, |visits|)).trace);
  }

  lemma ReachedFrame(start: World, earlier: seq<World>, visits: seq<nat>, o: Options, faults: Faults, tally: Tally,
                     now: World, history: seq<World>)
    requires Reached(start, earlier, visits, o, faults, tally, now, history)
    ensures SameFrame(start.rows, now.rows)
    ensures UniqueIds(start.rows) ==> UniqueIds(now.rows)
  {
    RunFrame(start, visits, o, faults);
  }

  /** What an owner's query ranges over does not change during a run. */
  lemma SelectionStays(start: World, earlier: seq<World>, visits: seq<nat>, o: Options, faults: Faults, tally: Tally,
                       now: World, history: seq<World>, ownerId: string)
    requires Reached(start, earlier, visits, o, faults, tally, now, history)
    ensures |now.rows| == |start.rows|
    ensures Selection(now.rows, ownerId, o.sinceUpdatedAt, |now.rows|) == Selection(start.rows, ownerId, o.sinceUpdatedAt, |start.rows|)
  {
    ReachedFrame(start, earlier, visits, o, faults, tally, now, history);
    SelectionFrame(start.rows, now.rows, ownerId, o.sinceUpdatedAt, |start.rows|);
  }

  lemma ReachedEnd(start: World, earlier: seq<World>, visits: seq<nat>, o: Options, faults: Faults, tally: Tally,
                   now: World, history: seq<World>)
    requires Reached(start, earlier, visits, o, faults, tally, now, history) && visits == Visits(start.rows, o)
    ensures var run := RunAll(start, o, faults);
            tally == run.tally && now == Last(run.trace) && history == earlier + run.trace[1..]
  {
  }

  lemma OwnerDone(visits: seq<nat>, rows: seq<MemoryRow>, ownerId: string, o: Options, offset: nat)
    requires if o.batchSize == 0 then offset == 0 else offset == |Selection(rows, ownerId, o.sinceUpdatedAt, |rows|)|
    ensures var all := Selection(rows, ownerId, o.sinceUpdatedAt, |rows|);
            offset <= |all| && visits + all[..offset] == visits + OwnerVisits(rows, ownerId, o)
  {
    hide Selection;
  }

  /** LIMIT size OFFSET offset */
  function PageOf(all: seq<nat>, offset: nat, size: nat): seq<nat> {
    if offset <= |all| then all[offset..Min(offset + size, |all|)] else []
  }

  lemma OwnersDone(rows: seq<MemoryRow>, owners: seq<string>, o: Options, a: nat)
    requires a <= |owners|
    ensures VisitsOf(rows, owners[..0], o) == []
    ensures a < |owners| ==> VisitsOf(rows, owners[..a + 1], o) == VisitsOf(rows, owners[..a], o) + OwnerVisits(rows, owners[a], o)
  {
    if a < |owners| {
      assert owners[..a + 1][..a] == owners[..a];
    }
  }

  lemma PageJoins(visits: seq<nat>, all: seq<nat>, offset: nat, size: nat)
    requires offset <= |all|
    ensures var page := PageOf(all, offset, size);
            && offset + |page| <= |all| && visits + all[..offset] + page == visits + all[..offset + |page|]
            && (|page| == 0 || |page| < size ==> size == 0 || offset + |page| == |all|) && (size == 0 ==> |page| == 0)
  {
  }

  lemma PageIncreases(all: seq<nat>, offset: nat, size: nat, bound: nat)
    requires Increasing(all) && forall k :: 0 <= k < |all| ==> all[k] < bound
    ensures var page := PageOf(all, offset, size);
            Increasing(page) && forall k :: 0 <= k < |page| ==> page[k] < bound
  {
  }

  predicate IsRow(row: MemoryRow, id: string, ownerId: string) {
    row.id == id && row.ownerId == ownerId
  }

  function WithKey(rows: seq<MemoryRow>, key: string, id: string, ownerId: string): (r: seq<MemoryRow>)
    ensures |r| == |rows|
    ensures forall k :: 0 <= k < |r| ==> r[k] == if IsRow(rows[k], id, ownerId) then rows[k].(objectKey := Some(key)) else rows[k]
  {
    seq(|rows|, k requires 0 <= k < |rows| => if IsRow(rows[k], id, ownerId) then rows[k].(objectKey := Some(key)) else rows[k])
  }

  function WithoutContent(rows: seq<MemoryRow>, id: string, ownerId: string): (r: seq<MemoryRow>)
    ensures |r| == |rows|
    ensures forall k :: 0 <= k < |r| ==> r[k] == if IsRow(rows[k], id, ownerId) then rows[k].(content := "") else rows[k]
  {
    seq(|rows|, k requires 0 <= k < |rows| => if IsRow(rows[k], id, ownerId) then rows[k].(content := "") else rows[k])
  }

  /** With unique ids the two updates reach the row that was fetched, and no other. */
  lemma OneRowUpdated(rows: seq<MemoryRow>, i: nat, key: string)
    requires UniqueIds(rows) && i < |rows|
    ensures var row := rows[i];
            var linked := rows[i := row.(objectKey := Some(key))];
            && WithKey(rows, key, row.id, row.ownerId) == linked
            && WithoutContent(linked, row.id, row.ownerId) == rows[i := row.(objectKey := Some(key), content := "")]
  {
  }

  class OffloadStores {
    var rows: seq<MemoryRow>
    var objects: map<string, string>
    ghost var history: seq<World>

    ghost function Current(): World
      reads this
    {
      World(rows, objects)
    }

    /** UPDATE memories SET object_key = ? WHERE id = ? AND owner_id = ? */
    method SetObjectKey(key: string, id: string, ownerId: string)
      modifies `rows
      ensures rows == WithKey(old(rows), key, id, ownerId)
    {
      rows := WithKey(rows, key, id, ownerId);
    }

    /** UPDATE memories SET content = '' WHERE id = ? AND owner_id = ? */
    method ClearContent(id: string, ownerId: string)
      modifies `rows
      ensures rows == WithoutContent(old(rows), id, ownerId)
    {
      rows := WithoutContent(rows, id, ownerId);
    }

    /** The try block for one row. */
    method OffloadRow(i: nat, row: MemoryRow, o: Options, f: Fault) returns (outcome: Outcome)
      requires i < |rows| && rows[i] == row && UniqueIds(rows) && Eligible(row, o) && !o.dryRun
      modifies this
      ensures var v := Visit(old(Current()), i, o, f);
              outcome == v.outcome && Current() == Last(v.trace) && history == old(history) + v.trace[1..]
    {
      hide ByteLength, BuildObjectKey, UniqueIds, WithKey, WithoutContent;
      var key := BuildObjectKey(row);
      OneRowUpdated(rows, i, key);
      objects := AfterPut(objects, key, row.content, f.put);
      history := history + [Current()];
      if f.putThrows {
        return Failed;
      }
      var stored := ReadBack(objects, key, f.got);
      if stored.None? || |stored.value| == 0 {
        return Failed;
      }
      if stored.value != row.content {
        if f.deleteWorks {
          objects := objects - {key};
        }
        history := history + [Current()];
        return Failed;
      }
      if !f.link.ThrowsBefore? {
        SetObjectKey(key, row.id, row.ownerId);
      }
      history := history + [Current()];
      if !f.link.Done? {
        return Failed;
      }
      if o.clearInline {
        if !f.clear.ThrowsBefore? {
          ClearContent(row.id, row.ownerId);
        }
        history := history + [Current()];
        if !f.clear.Done? {
          return Failed;
        }
      }
      return Offloaded;
    }

    /** One row of the page, which is still as it was fetched. */
    method VisitRow(i: nat, row: MemoryRow, o: Options, tally: Tally, f: Fault) returns (next: Tally)
      requires i < |rows| && rows[i] == row && UniqueIds(rows)
      modifies this
      ensures var v := Visit(old(Current()), i, o, f);
              next == Counted(tally, v.outcome) && Current() == Last(v.trace) && history == old(history) + v.trace[1..]
    {
      hide ByteLength;
      next := tally.(scanned := tally.scanned + 1);
      if Keyed(row) {
        return next.(skipped := next.skipped + 1);
      }
      if ByteLength(row.content) < o.minBytes {
        return next.(skipped := next.skipped + 1);
      }
      if o.dryRun {
        return next.(offloaded := next.offloaded + 1);
      }
      var outcome := OffloadRow(i, row, o, f);
      next := if outcome.Offloaded? then next.(offloaded := next.offloaded + 1) else next.(failed := next.failed + 1);
    }

    method FetchMemoryBatch(ownerId: string, o: Options, offset: nat) returns (page: seq<nat>, fetched: seq<MemoryRow>)
      ensures var all := Selection(rows, ownerId, o.sinceUpdatedAt, |rows|);
              && page == PageOf(all, offset, o.batchSize) && Increasing(page)
              && |fetched| == |page| && forall k :: 0 <= k < |page| ==> page[k] < |rows| && fetched[k] == rows[page[k]]
    {
      var all := Selection(rows, ownerId, o.sinceUpdatedAt, |rows|);
      SelectionIncreases(rows, ownerId, o.sinceUpdatedAt, |rows|);
      PageIncreases(all, offset, o.batchSize, |rows|);
      hide Selection, PageOf, Increasing;
      page := PageOf(all, offset, o.batchSize);
      fetched := seq(|page|, k requires 0 <= k < |page| && page[k] < |rows| reads this => rows[page[k]]);
    }

    method VisitPage(page: seq<nat>, fetched: seq<MemoryRow>, o: Options, faults: Faults, tally: Tally, ghost start: World,
                     ghost earlier: seq<World>, ghost visits: seq<nat>)
      returns (next: Tally)
      requires Reached(start, earlier, visits, o, faults, tally, Current(), history) && UniqueIds(start.rows)
      requires |fetched| == |page| && forall k :: 0 <= k < |page| ==> page[k] < |rows| && fetched[k] == rows[page[k]]
      requires Increasing(page)
      modifies this
      ensures Reached(start, earlier, visits + page, o, faults, next, Current(), history)
    {
      hide Visit, RunOver, Reached, UniqueIds, Counted;
      next := tally;
      assert visits + page[..0] == visits;
      ReachedFrame(start, earlier, visits, o, faults, next, Current(), history);
      for k := 0 to |page|
        invariant |rows| == |start.rows|
        invariant Reached(start, earlier, visits + page[..k], o, faults, next, Current(), history)
        invariant forall m :: k <= m < |page| ==> page[m] < |rows| && fetched[m] == rows[page[m]]
      {
        ReachedFrame(start, earlier, visits + page[..k], o, faults, next, Current(), history);
        ReachedNext(start, earlier, visits + page[..k], o, faults, next, Current(), history, page[k]);
        assert visits + page[..k] + [page[k]] == visits + page[..k + 1];
        VisitFrame(Current(), page[k], o, FaultAt(faults, next.scanned));
        next := VisitRow(page[k], fetched[k], o, next, FaultAt(faults, next.scanned));
      }
      assert page[..|page|] == page;
    }

    /** The pages of one owner: each of its matching rows once, in order. */
    method BackfillOwner(ownerId: string, o: Options, faults: Faults, tally: Tally, ghost start: World,
                         ghost earlier: seq<World>, ghost visits: seq<nat>)
      returns (next: Tally)
      requires Reached(start, earlier, visits, o, faults, tally, Current(), history) && UniqueIds(start.rows)
      modifies this
      ensures Reached(start, earlier, visits + OwnerVisits(start.rows, ownerId, o), o, faults, next, Current(), history)
    {
      hide Visit, RunOver, Reached, UniqueIds, Selection, Matches, SameFrame, FaultAt, Last, PageOf, Increasing;
      ghost var all := Selection(start.rows, ownerId, o.sinceUpdatedAt, |start.rows|);
      next := tally;
      var offset := 0;
      assert visits + all[..0] == visits;
      while true
        invariant offset <= |all| && (o.batchSize == 0 ==> offset == 0)
        invariant Reached(start, earlier, visits + all[..offset], o, faults, next, Current(), history)
        decreases |all| - offset
      {
        SelectionStays(start, earlier, visits + all[..offset], o, faults, next, Current(), history, ownerId);
        var page, fetched := FetchMemoryBatch(ownerId, o, offset);
        PageJoins(visits, all, offset, o.batchSize);
        if |page| == 0 {
          break;
        }
        next := VisitPage(page, fetched, o, faults, next, start, earlier, visits + all[..offset]);
        offset := offset + |page|;
        if |page| < o.batchSize {
          break;
        }
      }
      OwnerDone(visits, start.rows, ownerId, o, offset);
    }

    method BackfillContentOffload(o: Options, faults: Faults) returns (tally: Tally)
      requires UniqueIds(rows)
      modifies this
      ensures var run := RunAll(old(Current()), o, faults);
              tally == run.tally && Current() == Last(run.trace) && history == old(history) + run.trace[1..]
    {
      hide Visit, RunOver, RunAll, Reached, UniqueIds, Selection, Owners, Matches, VisitsOf, OwnerVisits, Last;
      ghost var start := Current();
      ghost var visits: seq<nat> := [];
      var owners := Owners(rows, o);
      OwnersDone(start.rows, owners, o, 0);
      tally := Tally(0, 0, 0, 0);
      ReachedStart(start, history, o, faults);
      for a := 0 to |owners|
        invariant Reached(start, old(history), visits, o, faults, tally, Current(), history)
        invariant visits == VisitsOf(start.rows, owners[..a], o)
      {
        OwnersDone(start.rows, owners, o, a);
        tally := BackfillOwner(owners[a], o, faults, tally, start, old(history), visits);
        visits := visits + OwnerVisits(start.rows, owners[a], o);
      }
      assert owners[..|owners|] == owners;
      ReachedEnd(start, old(history), visits, o, faults, tally, Current(), history);
    }
  }
}
