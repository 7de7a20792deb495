/**
 * Incremental pull of src/client-sync/client-sync.service.ts: pages of changed memories
 * behind a stored watermark. Timestamps are numbers; an absent watermark stands for ''.
 */
module ClientSync {
  import opened Outcomes
  import opened JsStrings

  datatype Memory = Memory(id: string, ownerId: string, workspaceId: Option<string>, updatedAt: int, archived: bool)

  datatype Scope = Scope(ownerId: string, workspaceId: Option<string>)

  datatype CursorKey = CursorKey(ownerId: string, workspaceId: Option<string>, platformId: string)

  /** The stored watermark of a key; None inside is the empty string. */
  type Cursors = map<CursorKey, Option<int>>

  /** The cursor argument of a call: not given, or given and possibly empty. */
  datatype CursorArgument = Absent | Given(since: Option<int>)

  datatype PullResult = PullResult(memories: seq<Memory>, nextCursor: int, hasMore: bool)

  const DEFAULT_SYNC_PULL_LIMIT: nat := 100

  // ---------------------------------------------------------------- the query

  /** An id that is blank after trimming means no workspace. */
  function WorkspaceIdFromScope(scope: Scope): Option<string> {
    if scope.workspaceId.Some? && Trim(scope.workspaceId.value) != "" then Some(Trim(scope.workspaceId.value)) else None
  }

  predicate InScope(m: Memory, ownerId: string, workspaceId: Option<string>) {
    m.ownerId == ownerId && !m.archived && (workspaceId.Some? ==> m.workspaceId == workspaceId)
  }

  predicate After(m: Memory, since: Option<int>) {
    since.Some? ==> m.updatedAt > since.value
  }

  /** What the query without LIMIT returns: the table is listed in its order. */
  function UpdatedSince(table: seq<Memory>, ownerId: string, workspaceId: Option<string>, since: Option<int>): (r: seq<Memory>)
    ensures forall m :: m in r <==> m in table && InScope(m, ownerId, workspaceId) && After(m, since)
  {
    if table == [] then []
    else
      var rest := UpdatedSince(table[1..], ownerId, workspaceId, since);
      assert table == [table[0]] + table[1..];
      if InScope(table[0], ownerId, workspaceId) && After(table[0], since) then [table[0]] + rest else rest
  }

  function FindUpdatedSince(table: seq<Memory>, ownerId: string, workspaceId: Option<string>, since: Option<int>, limit: nat): seq<Memory> {
    var all := UpdatedSince(table, ownerId, workspaceId, since);
    if |all| <= limit then all else all[..limit]
  }

  ghost predicate Ascending(s: seq<Memory>) {
    forall i, j :: 0 <= i < j < |s| ==> s[i].updatedAt <= s[j].updatedAt
  }

  // ---------------------------------------------------------------- one pull

  /** The key that is looked up: the workspace id as it was given. */
  function LookupKey(scope: Scope, platformId: string): CursorKey {
    CursorKey(scope.ownerId, scope.workspaceId, Lower(platformId))
  }

  /** The key that is written: the trimmed workspace id. */
  function StoreKey(scope: Scope, platformId: string): CursorKey {
    CursorKey(scope.ownerId, WorkspaceIdFromScope(scope), Lower(platformId))
  }

  function Since(cursors: Cursors, scope: Scope, platformId: string, cursor: CursorArgument): Option<int> {
    match cursor
    case Given(since) => since
    case Absent =>
      if LookupKey(scope, platformId) in cursors then cursors[LookupKey(scope, platformId)] else None
  }

  function Page(all: seq<Memory>): seq<Memory> {
    if |all| > DEFAULT_SYNC_PULL_LIMIT then all[..DEFAULT_SYNC_PULL_LIMIT] else all
  }

  function NextCursor(page: seq<Memory>, since: Option<int>, now: int): int {
    if |page| > 0 then page[|page| - 1].updatedAt else if since.Some? then since.value else now
  }

  /** The answer to a pull from `since` when the rows behind it are `all`. */
  function Answer(all: seq<Memory>, since: Option<int>, now: int): PullResult {
    PullResult(Page(all), NextCursor(Page(all), since, now), |all| > DEFAULT_SYNC_PULL_LIMIT)
  }

  datatype Server = Server(table: seq<Memory>, cursors: Cursors)

  datatype Pulled = Pulled(server: Server, result: PullResult)

  function Pull(s: Server, scope: Scope, platformId: string, cursor: CursorArgument, now: int): Pulled {
    var since := Since(s.cursors, scope, platformId, cursor);
    var answer := Answer(UpdatedSince(s.table, scope.ownerId, WorkspaceIdFromScope(scope), since), since, now);
    Pulled(s.(cursors := s.cursors[StoreKey(scope, platformId) := Some(answer.nextCursor)]), answer)
  }

  /** One row more than a page is fetched to know whether another page follows. */
  lemma PageFromQuery(table: seq<Memory>, ownerId: string, workspaceId: Option<string>, since: Option<int>)
    ensures var all := UpdatedSince(table, ownerId, workspaceId, since);
            var memories := FindUpdatedSince(table, ownerId, workspaceId, since, DEFAULT_SYNC_PULL_LIMIT + 1);
            && (|memories| > DEFAULT_SYNC_PULL_LIMIT <==> |all| > DEFAULT_SYNC_PULL_LIMIT)
            && Page(all) == if |memories| > DEFAULT_SYNC_PULL_LIMIT then memories[..DEFAULT_SYNC_PULL_LIMIT] else memories
  {
    hide UpdatedSince;
  }

  class ClientSyncService {
    const knownPlatforms: set<string>
    var table: seq<Memory>
    var cursors: Cursors

    constructor (knownPlatforms: set<string>, table: seq<Memory>, cursors: Cursors)
      ensures this.knownPlatforms == knownPlatforms && this.table == table && this.cursors == cursors
    {
      this.knownPlatforms, this.table, this.cursors := knownPlatforms, table, cursors;
    }

    /** None when the platform is not known. */
    method PullChanges(scope: Scope, platformId: string, cursor: CursorArgument, now: int) returns (result: Option<PullResult>)
      modifies this`cursors
      ensures Lower(Trim(platformId)) !in knownPlatforms ==> result == None && cursors == old(cursors)
      ensures Lower(Trim(platformId)) in knownPlatforms ==>
                var p := Pull(Server(table, old(cursors)), scope, platformId, cursor, now);
                result == Some(p.result) && cursors == p.server.cursors
    {
      hide Lower, Trim, UpdatedSince, WorkspaceIdFromScope, LookupKey;
      if Lower(Trim(platformId)) !in knownPlatforms {
        return None;
      }
      var workspaceId := WorkspaceIdFromScope(scope);
      var since := Since(cursors, scope, platformId, cursor);
      var memories := FindUpdatedSince(table, scope.ownerId, workspaceId, since, DEFAULT_SYNC_PULL_LIMIT + 1);
      var hasMore := |memories| > DEFAULT_SYNC_PULL_LIMIT;
      var page := if hasMore then memories[..DEFAULT_SYNC_PULL_LIMIT] else memories;
      var nextCursor := if |page| > 0 then page[|page| - 1].updatedAt else if since.Some? then since.value else now;
      cursors := cursors[StoreKey(scope, platformId) := Some(nextCursor)];
      PageFromQuery(table, scope.ownerId, workspaceId, since);
      result := Some(PullResult(page, nextCursor, hasMore));
    }
  }

  /** Where a pull starts: at the cursor that is given, even an empty one; else at the one that was stored, if any. */
  lemma PullStartsAt(s: Server, scope: Scope, platformId: string, given: Option<int>)
    ensures Since(s.cursors, scope, platformId, Given(given)) == given
    ensures LookupKey(scope, platformId) in s.cursors ==>
              Since(s.cursors, scope, platformId, Absent) == s.cursors[LookupKey(scope, platformId)]
    ensures LookupKey(scope, platformId) !in s.cursors ==> Since(s.cursors, scope, platformId, Absent) == None
  {
  }

  /**
   * What one pull answers and stores: at most 100 of the scope's memories behind the start, the
   * first ones; whether there are more; and the time of the last one as the cursor, or the start,
   * or now when there is neither. No other cursor changes.
   */
  lemma PulledExactly(s: Server, scope: Scope, platformId: string, cursor: CursorArgument, now: int)
    ensures var p := Pull(s, scope, platformId, cursor, now);
            var since := Since(s.cursors, scope, platformId, cursor);
            var all := UpdatedSince(s.table, scope.ownerId, WorkspaceIdFromScope(scope), since);
            && p.server.table == s.table
            && p.result.memories <= all && |p.result.memories| <= 100
            && (p.result.hasMore <==> |all| > 100) && (|p.result.memories| == 100 || p.result.memories == all)
            && (p.result.memories != [] ==> p.result.nextCursor == p.result.memories[|p.result.memories| - 1].updatedAt)
            && (p.result.memories == [] ==> p.result.nextCursor == OrNow(since, now))
            && StoreKey(scope, platformId) in p.server.cursors
            && p.server.cursors[StoreKey(scope, platformId)] == Some(p.result.nextCursor)
            && forall k :: k != StoreKey(scope, platformId) ==>
                 (k in p.server.cursors <==> k in s.cursors) && (k in s.cursors ==> p.server.cursors[k] == s.cursors[k])
  {
    hide UpdatedSince, Lower, WorkspaceIdFromScope, Since;
  }

  function OrNow(since: Option<int>, now: int): int {
    match since
    case Some(time) => time
    case None => now
  }

  // ---------------------------------------------------------------- pulling until nothing is left

  lemma {:induction false} UpdatedAscending(table: seq<Memory>, ownerId: string, workspaceId: Option<string>, since: Option<int>)
    requires Ascending(table)
    ensures Ascending(UpdatedSince(table, ownerId, workspaceId, since))
  {
    if table != [] {
      var rest := UpdatedSince(table[1..], ownerId, workspaceId, since);
      assert forall i :: 0 <= i < |table| - 1 ==> table[1..][i] == table[i + 1];
      UpdatedAscending(table[1..], ownerId, workspaceId, since);
      forall i | 0 <= i < |rest| ensures table[0].updatedAt <= rest[i].updatedAt {
        assert rest[i] in table[1..];
        var j :| 0 <= j < |table| - 1 && table[1..][j] == rest[i];
        assert table[0].updatedAt <= table[j + 1].updatedAt;
      }
    }
  }

  /** The part of an ascending list behind a watermark. */
  function Behind(all: seq<Memory>, watermark: int): (r: seq<Memory>)
    ensures |r| <= |all|
  {
    if all == [] then [] else if all[0].updatedAt > watermark then [all[0]] + Behind(all[1..], watermark) else Behind(all[1..], watermark)
  }

  /** Moving the watermark of the query forward is cutting its list. */
  lemma {:induction false} QueryCuts(table: seq<Memory>, ownerId: string, workspaceId: Option<string>, since: Option<int>, watermark: int)
    requires since.Some? ==> since.value <= watermark
    ensures UpdatedSince(table, ownerId, workspaceId, Some(watermark)) == Behind(UpdatedSince(table, ownerId, workspaceId, since), watermark)
  {
    if table != [] {
      QueryCuts(table[1..], ownerId, workspaceId, since, watermark);
    }
  }

  lemma {:induction false} BehindAll(all: seq<Memory>, watermark: int)
    requires forall i :: 0 <= i < |all| ==> all[i].updatedAt > watermark
    ensures Behind(all, watermark) == all
  {
    if all != [] {
      BehindAll(all[1..], watermark);
    }
  }

  /** Behind the k-th entry of an ascending list is a tail of what follows it. */
  lemma {:induction false} BehindIsTail(all: seq<Memory>, k: nat)
    requires Ascending(all) && 0 < k <= |all|
    ensures var rest := Behind(all, all[k - 1].updatedAt);
            && |rest| <= |all| - k && rest == all[|all| - |rest|..]
            && (|rest| == |all| - k <==> k == |all| || all[k - 1].updatedAt < all[k].updatedAt)
  {
    TailBehind(all, all[k - 1].updatedAt, 0);
    var rest := Behind(all, all[k - 1].updatedAt);
    assert all[0..] == all;
  }

  lemma {:induction false} TailBehind(all: seq<Memory>, watermark: int, from: nat)
    requires Ascending(all) && from <= |all|
    ensures var rest := Behind(all[from..], watermark);
            && |rest| <= |all| - from && rest == all[|all| - |rest|..]
            && (forall i :: |all| - |rest| <= i < |all| ==> all[i].updatedAt > watermark)
            && (forall i :: from <= i < |all| - |rest| ==> all[i].updatedAt <= watermark)
    decreases |all| - from
  {
    if from < |all| {
      assert all[from..][1..] == all[from + 1..];
      TailBehind(all, watermark, from + 1);
      if all[from].updatedAt > watermark {
        BehindAll(all[from..], watermark);
      }
    }
  }

  /** The answers of pulling until hasMore is false, the next cursor passed on each time. */
  function Drain(all: seq<Memory>, since: Option<int>, now: int): (answers: seq<PullResult>)
    ensures |answers| > 0
    decreases |all|
  {
    var answer := Answer(all, since, now);
    if !answer.hasMore then [answer]
    else
      var rest := Behind(all, answer.nextCursor);
      if |rest| >= |all| then [answer] else [answer] + Drain(rest, Some(answer.nextCursor), now)
  }

  function Delivered(answers: seq<PullResult>): seq<Memory> {
    if answers == [] then [] else answers[0].memories + Delivered(answers[1..])
  }

  /** The last answer: where the stored cursor ends up. */
  function FinalCursor(answers: seq<PullResult>): int
    requires |answers| > 0
  {
    answers[|answers| - 1].nextCursor
  }

  /** No two memories of equal time lie on both sides of a page edge. */
  ghost predicate NoTieAtEdge(all: seq<Memory>) {
    forall k: nat :: 0 < k && 100 * k < |all| ==> EdgeIsClean(all, k)
  }

  ghost predicate EdgeIsClean(all: seq<Memory>, k: nat)
    requires 0 < k && 100 * k < |all|
  {
    all[100 * k - 1].updatedAt < all[100 * k].updatedAt
  }

  /** ceil(n / 100), at least 1. */
  function Calls(n: nat): nat {
    if n <= 100 then 1 else 1 + Calls(n - 100)
  }

  lemma {:induction false} CallsMeaning(n: nat)
    ensures Calls(n) >= 1 && n <= 100 * Calls(n) && (n > 0 ==> 100 * (Calls(n) - 1) < n)
  {
    if n > 100 {
      CallsMeaning(n - 100);
    }
  }

  /** A full page followed by the rest behind its last entry. */
  lemma DrainStep(all: seq<Memory>, since: Option<int>, now: int)
    requires Ascending(all) && |all| > 100
    ensures var w := all[99].updatedAt;
            && |Behind(all, w)| <= |all| - 100 && Behind(all, w) == all[|all| - |Behind(all, w)|..]
            && (|Behind(all, w)| == |all| - 100 <==> all[99].updatedAt < all[100].updatedAt)
            && Drain(all, since, now) == [PullResult(all[..100], w, true)] + Drain(Behind(all, w), Some(w), now)
            && Delivered(Drain(all, since, now)) == all[..100] + Delivered(Drain(Behind(all, w), Some(w), now))
            && FinalCursor(Drain(all, since, now)) == FinalCursor(Drain(Behind(all, w), Some(w), now))
  {
    BehindIsTail(all, 100);
    var w := all[99].updatedAt;
    assert Page(all) == all[..100] && Page(all)[99] == all[99];
    var rest := Drain(Behind(all, w), Some(w), now);
    assert ([PullResult(all[..100], w, true)] + rest)[1..] == rest;
  }

  lemma DrainEnd(all: seq<Memory>, since: Option<int>, now: int)
    requires |all| <= 100
    ensures Drain(all, since, now) == [Answer(all, since, now)]
    ensures Delivered(Drain(all, since, now)) == all
  {
    var answers := Drain(all, since, now);
    assert Delivered(answers) == answers[0].memories + Delivered(answers[1..]) == all + [];
  }

  /** Every answer delivers new entries, in order and at most once, whatever the ties. */
  lemma {:induction false} DrainIsSubsequence(all: seq<Memory>, since: Option<int>, now: int) returns (positions: seq<nat>)
    requires Ascending(all)
    ensures |positions| == |Delivered(Drain(all, since, now))|
    ensures forall i :: 0 <= i < |positions| ==> positions[i] < |all| && Delivered(Drain(all, since, now))[i] == all[positions[i]]
    ensures forall i, j :: 0 <= i < j < |positions| ==> positions[i] < positions[j]
    decreases |all|
  {
    hide Drain, Behind;
    if |all| <= 100 {
      DrainEnd(all, since, now);
      positions := seq(|all|, i => i);
    } else {
      DrainStep(all, since, now);
      var w := all[99].updatedAt;
      var rest := Behind(all, w);
      TailAscending(all, |all| - |rest|);
      var later := DrainIsSubsequence(rest, Some(w), now);
      var shift := |all| - |rest|;
      positions := seq(100, i => i) + seq(|later|, i requires 0 <= i < |later| => later[i] + shift);
    }
  }

  lemma TailAscending(all: seq<Memory>, from: nat)
    requires Ascending(all) && from <= |all|
    ensures Ascending(all[from..])
  {
  }

  lemma {:induction false} DeliveredAtMost(all: seq<Memory>, since: Option<int>, now: int)
    requires Ascending(all)
    ensures |Delivered(Drain(all, since, now))| <= |all|
    decreases |all|
  {
    hide Drain, Behind;
    if |all| <= 100 {
      DrainEnd(all, since, now);
    } else {
      DrainStep(all, since, now);
      TailAscending(all, |all| - |Behind(all, all[99].updatedAt)|);
      DeliveredAtMost(Behind(all, all[99].updatedAt), Some(all[99].updatedAt), now);
    }
  }

  lemma EdgesShift(all: seq<Memory>)
    requires |all| > 100
    ensures NoTieAtEdge(all) <==> all[99].updatedAt < all[100].updatedAt && NoTieAtEdge(all[100..])
  {
    var rest := all[100..];
    if NoTieAtEdge(all) {
      assert EdgeIsClean(all, 1);
      forall k: nat | 0 < k && 100 * k < |rest| ensures EdgeIsClean(rest, k) {
        assert EdgeIsClean(all, k + 1);
      }
    }
    if all[99].updatedAt < all[100].updatedAt && NoTieAtEdge(rest) {
      forall k: nat | 0 < k && 100 * k < |all| ensures EdgeIsClean(all, k) {
        if k > 1 {
          assert EdgeIsClean(rest, k - 1);
        }
      }
    }
  }

  /**
   * The exact condition: everything is delivered, once and in order, iff no tie lies
   * across a page edge; then the number of calls is the number of pages, at least one.
   */
  lemma {:induction false} DrainDeliversExactly(all: seq<Memory>, since: Option<int>, now: int)
    requires Ascending(all)
    ensures Delivered(Drain(all, since, now)) == all <==> NoTieAtEdge(all)
    ensures NoTieAtEdge(all) ==> |Drain(all, since, now)| == Calls(|all|)
    decreases |all|
  {
    hide Drain, Behind, Delivered;
    if |all| <= 100 {
      DrainEnd(all, since, now);
    } else {
      DrainStep(all, since, now);
      EdgesShift(all);
      var w := all[99].updatedAt;
      var rest := Behind(all, w);
      TailAscending(all, |all| - |rest|);
      assert all == all[..100] + all[100..];
      if all[99].updatedAt < all[100].updatedAt {
        DrainDeliversExactly(rest, Some(w), now);
        assert Delivered(Drain(all, since, now))[100..] == Delivered(Drain(rest, Some(w), now));
      } else {
        DeliveredAtMost(rest, Some(w), now);
      }
    }
  }

  /** The cursor that remains is behind every row of the list: the next pull is empty. */
  lemma {:induction false} NothingBehindFinal(all: seq<Memory>, since: Option<int>, now: int)
    requires Ascending(all)
    ensures |all| > 0 ==> Behind(all, FinalCursor(Drain(all, since, now))) == []
    ensures |all| == 0 && since.Some? ==> FinalCursor(Drain(all, since, now)) == since.value
    ensures |all| > 0 ==> FinalCursor(Drain(all, since, now)) >= all[|all| - 1].updatedAt
    decreases |all|
  {
    if |all| <= 100 {
      if |all| > 0 {
        BehindIsTail(all, |all|);
      }
    } else {
      hide Drain;
      DrainStep(all, since, now);
      var w := all[99].updatedAt;
      var rest := Behind(all, w);
      TailAscending(all, |all| - |rest|);
      NothingBehindFinal(rest, Some(w), now);
      var final := FinalCursor(Drain(all, since, now));
      TailBehind(all, w, 0);
      assert all[0..] == all;
      TailBehind(all, final, 0);
    }
  }

  // ---------------------------------------------------------------- sessions against the server

  /** The workspace id that was given is the one that is stored. */
  predicate CleanWorkspace(scope: Scope) {
    scope.workspaceId == WorkspaceIdFromScope(scope)
  }

  /** Clean exactly when it is absent, or has no outer white space and is not empty. */
  lemma CleanExactly(scope: Scope)
    ensures CleanWorkspace(scope) <==>
              scope.workspaceId.None? || (scope.workspaceId.value != "" && !IsSpace(scope.workspaceId.value[0])
                                          && !IsSpace(scope.workspaceId.value[|scope.workspaceId.value| - 1]))
  {
    if scope.workspaceId.Some? {
      var w := scope.workspaceId.value;
      if w != "" && !IsSpace(w[0]) && !IsSpace(w[|w| - 1]) {
        TrimFixed(w);
      }
      if w != "" && Trim(w) == w {
        var from, to := TrimIsStretch(w);
        assert from == 0 && to == |w|;
      }
    }
  }

  /** What a pull stores is what the next one without a cursor starts from, exactly in a clean workspace; otherwise that lookup is as before. */
  lemma StoredCursorIsFound(s: Server, scope: Scope, platformId: string, cursor: CursorArgument, now: int)
    ensures var p := Pull(s, scope, platformId, cursor, now);
            Since(p.server.cursors, scope, platformId, Absent) ==
              if CleanWorkspace(scope) then Some(p.result.nextCursor) else Since(s.cursors, scope, platformId, Absent)
  {
  }

  /**
   * A pull moves the start of a later one without a cursor only for its own owner and platform,
   * the letter case of the platform apart, and for the workspace id that equals its trimmed one.
   */
  lemma OtherCursorsStay(s: Server, scope: Scope, platformId: string, cursor: CursorArgument, now: int, other: Scope, otherPlatform: string)
    ensures var p := Pull(s, scope, platformId, cursor, now);
            Since(p.server.cursors, other, otherPlatform, Absent) ==
              if other.ownerId == scope.ownerId && Lower(otherPlatform) == Lower(platformId) && other.workspaceId == WorkspaceIdFromScope(scope)
              then Some(p.result.nextCursor) else Since(s.cursors, other, otherPlatform, Absent)
  {
    hide Lower, WorkspaceIdFromScope, UpdatedSince;
  }

  /** In any other workspace, pulling without a cursor gives the same answer again and again. */
  lemma UncleanWorkspaceRepeats(s: Server, scope: Scope, platformId: string, now: int)
    requires !CleanWorkspace(scope)
    ensures var first := Pull(s, scope, platformId, Absent, now);
            Pull(first.server, scope, platformId, Absent, now).result == first.result
  {
    StoredCursorIsFound(s, scope, platformId, Absent, now);
  }

  /** Each later call passes the last answer's cursor on, or none at all. */
  datatype Session = Session(server: Server, answers: seq<PullResult>)

  function Resumed(byStore: bool, nextCursor: int): CursorArgument {
    if byStore then Absent else Given(Some(nextCursor))
  }

  /** `budget` calls at most; a session that stops because hasMore is false used fewer or as many. */
  function PullUntilDone(s: Server, scope: Scope, platformId: string, cursor: CursorArgument, byStore: bool, now: int, budget: nat): Session
    decreases budget
  {
    if budget == 0 then Session(s, [])
    else
      var p := Pull(s, scope, platformId, cursor, now);
      if !p.result.hasMore then Session(p.server, [p.result])
      else
        var rest := PullUntilDone(p.server, scope, platformId, Resumed(byStore, p.result.nextCursor), byStore, now, budget - 1);
        Session(rest.server, [p.result] + rest.answers)
  }

  function RowsFor(s: Server, scope: Scope, since: Option<int>): seq<Memory> {
    UpdatedSince(s.table, scope.ownerId, WorkspaceIdFromScope(scope), since)
  }

  /** Whose memories a pull is about: the owner's that are not archived, of the trimmed workspace unless it is blank, changed after the start. */
  lemma RowsMeaning(s: Server, scope: Scope, since: Option<int>, m: Memory)
    ensures m in RowsFor(s, scope, since) <==>
              && m in s.table && m.ownerId == scope.ownerId && !m.archived
              && (since.Some? ==> m.updatedAt > since.value)
              && (scope.workspaceId.Some? && Trim(scope.workspaceId.value) != "" ==> m.workspaceId == Some(Trim(scope.workspaceId.value)))
  {
    hide Trim;
  }

  /** With enough calls a session is the drain of the rows behind its start, and its last cursor is stored. */
  lemma {:induction false} SessionIsDrain(s: Server, scope: Scope, platformId: string, cursor: CursorArgument, byStore: bool, now: int, budget: nat)
    requires Ascending(s.table) && (byStore ==> CleanWorkspace(scope))
    requires budget >= |Drain(RowsFor(s, scope, Since(s.cursors, scope, platformId, cursor)), Since(s.cursors, scope, platformId, cursor), now)|
    ensures var since := Since(s.cursors, scope, platformId, cursor);
            var session := PullUntilDone(s, scope, platformId, cursor, byStore, now, budget);
            && session.answers == Drain(RowsFor(s, scope, since), since, now)
            && session.server.table == s.table
            && StoreKey(scope, platformId) in session.server.cursors
            && session.server.cursors[StoreKey(scope, platformId)] == Some(FinalCursor(session.answers))
    decreases budget
  {
    hide UpdatedSince, Ascending, Lower, Pull, CleanWorkspace, StoreKey, WorkspaceIdFromScope, Since, Drain, Behind, PullUntilDone;
    var since := Since(s.cursors, scope, platformId, cursor);
    var all := RowsFor(s, scope, since);
    var p := Pull(s, scope, platformId, cursor, now);
    PullAnswers(s, scope, platformId, cursor, now);
    UpdatedAscending(s.table, scope.ownerId, WorkspaceIdFromScope(scope), since);
    SessionUnfold(s, scope, platformId, cursor, byStore, now, budget);
    if |all| <= 100 {
      DrainEnd(all, since, now);
    } else {
      DrainStep(all, since, now);
      var w := all[99].updatedAt;
      assert Page(all)[99] == all[99];
      NextSince(s, scope, platformId, cursor, byStore, now);
      FirstIsLater(s, scope, since, w);
      QueryCuts(s.table, scope.ownerId, WorkspaceIdFromScope(scope), since, w);
      SessionIsDrain(p.server, scope, platformId, Resumed(byStore, w), byStore, now, budget - 1);
    }
  }

  lemma SessionUnfold(s: Server, scope: Scope, platformId: string, cursor: CursorArgument, byStore: bool, now: int, budget: nat)
    requires budget > 0
    ensures var p := Pull(s, scope, platformId, cursor, now);
            PullUntilDone(s, scope, platformId, cursor, byStore, now, budget) ==
              if !p.result.hasMore then Session(p.server, [p.result])
              else
                var rest := PullUntilDone(p.server, scope, platformId, Resumed(byStore, p.result.nextCursor), byStore, now, budget - 1);
                Session(rest.server, [p.result] + rest.answers)
  {
    hide Pull;
  }

  /** The next call of a session starts where the last answer ended. */
  lemma NextSince(s: Server, scope: Scope, platformId: string, cursor: CursorArgument, byStore: bool, now: int)
    requires byStore ==> CleanWorkspace(scope)
    ensures var p := Pull(s, scope, platformId, cursor, now);
            Since(p.server.cursors, scope, platformId, Resumed(byStore, p.result.nextCursor)) == Some(p.result.nextCursor)
  {
    StoredCursorIsFound(s, scope, platformId, cursor, now);
    hide Pull, CleanWorkspace;
  }

  lemma PullAnswers(s: Server, scope: Scope, platformId: string, cursor: CursorArgument, now: int)
    ensures var p := Pull(s, scope, platformId, cursor, now);
            var since := Since(s.cursors, scope, platformId, cursor);
            && p.result == Answer(RowsFor(s, scope, since), since, now) && p.server.table == s.table
            && StoreKey(scope, platformId) in p.server.cursors
            && p.server.cursors[StoreKey(scope, platformId)] == Some(p.result.nextCursor)
  {
  }

  lemma FirstIsLater(s: Server, scope: Scope, since: Option<int>, w: int)
    requires |RowsFor(s, scope, since)| > 100 && w == RowsFor(s, scope, since)[99].updatedAt
    ensures since.Some? ==> since.value <= w
  {
    assert RowsFor(s, scope, since)[99] in RowsFor(s, scope, since);
  }

  /**
   * Pulling from any starting cursor until hasMore is false, with the cursor passed on or,
   * in a clean workspace, left to the server: every memory newer than the start is delivered
   * once and in order iff no tie lies across a page edge, in as many calls as there are
   * pages; the next pull finds nothing, as long as nothing changes.
   */
  lemma {:induction false} PullDeliversEverything(s: Server, scope: Scope, platformId: string, cursor: CursorArgument, byStore: bool, now: int)
    requires Ascending(s.table) && (byStore ==> CleanWorkspace(scope))
    ensures var since := Since(s.cursors, scope, platformId, cursor);
            var all := RowsFor(s, scope, since);
            var session := PullUntilDone(s, scope, platformId, cursor, byStore, now, |Drain(all, since, now)|);
            && |session.answers| > 0 && !session.answers[|session.answers| - 1].hasMore
            && (Delivered(session.answers) == all <==> NoTieAtEdge(all))
            && (NoTieAtEdge(all) ==> |session.answers| == Calls(|all|))
            && RowsFor(session.server, scope, Some(FinalCursor(session.answers))) == []
            && (CleanWorkspace(scope) ==>
                  Since(session.server.cursors, scope, platformId, Absent) == Some(FinalCursor(session.answers)))
  {
    var since := Since(s.cursors, scope, platformId, cursor);
    var all := RowsFor(s, scope, since);
    hide UpdatedSince, PullUntilDone, Drain, Lower, NoTieAtEdge, Delivered, Behind, Since, CleanWorkspace;
    SessionIsDrain(s, scope, platformId, cursor, byStore, now, |Drain(all, since, now)|);
    UpdatedAscending(s.table, scope.ownerId, WorkspaceIdFromScope(scope), since);
    DrainDeliversExactly(all, since, now);
    LastHasNoMore(all, since, now);
    NothingBehindFinal(all, since, now);
    var final := FinalCursor(Drain(all, since, now));
    if |all| > 0 {
      LastIsLater(s, scope, since, all, final);
    }
    QueryCuts(s.table, scope.ownerId, WorkspaceIdFromScope(scope), since, final);
    if CleanWorkspace(scope) {
      StoredSince(PullUntilDone(s, scope, platformId, cursor, byStore, now, |Drain(all, since, now)|).server, scope, platformId, final);
    }
  }

  lemma StoredSince(after: Server, scope: Scope, platformId: string, final: int)
    requires CleanWorkspace(scope) && StoreKey(scope, platformId) in after.cursors && after.cursors[StoreKey(scope, platformId)] == Some(final)
    ensures Since(after.cursors, scope, platformId, Absent) == Some(final)
  {
  }

  lemma LastIsLater(s: Server, scope: Scope, since: Option<int>, all: seq<Memory>, final: int)
    requires all == RowsFor(s, scope, since) && |all| > 0 && final >= all[|all| - 1].updatedAt
    ensures since.Some? ==> since.value <= final
  {
    assert all[|all| - 1] in all;
  }

  lemma {:induction false} LastHasNoMore(all: seq<Memory>, since: Option<int>, now: int)
    requires Ascending(all)
    ensures var answers := Drain(all, since, now); !answers[|answers| - 1].hasMore
    decreases |all|
  {
    if |all| > 100 {
      hide Drain, Behind;
      DrainStep(all, since, now);
      TailAscending(all, |all| - |Behind(all, all[99].updatedAt)|);
      LastHasNoMore(Behind(all, all[99].updatedAt), Some(all[99].updatedAt), now);
    }
  }

  /** Distinct timestamps leave no tie anywhere. */
  lemma DistinctTimesSuffice(all: seq<Memory>)
    requires Ascending(all) && forall i, j :: 0 <= i < j < |all| ==> all[i].updatedAt != all[j].updatedAt
    ensures NoTieAtEdge(all)
  {
  }

  /** In particular a session delivers everything when no two of the scope's memories have the same time. */
  lemma DistinctTimesDeliverEverything(s: Server, scope: Scope, platformId: string, cursor: CursorArgument, byStore: bool, now: int)
    requires Ascending(s.table) && (byStore ==> CleanWorkspace(scope))
    requires var all := RowsFor(s, scope, Since(s.cursors, scope, platformId, cursor));
             forall i, j :: 0 <= i < j < |all| ==> all[i].updatedAt != all[j].updatedAt
    ensures var all := RowsFor(s, scope, Since(s.cursors, scope, platformId, cursor));
            exists budget: nat ::
              var session := PullUntilDone(s, scope, platformId, cursor, byStore, now, budget);
              Delivered(session.answers) == all && |session.answers| == Calls(|all|)
  {
    hide UpdatedSince, PullUntilDone, Drain, Delivered, NoTieAtEdge;
    var since := Since(s.cursors, scope, platformId, cursor);
    var all := RowsFor(s, scope, since);
    UpdatedAscending(s.table, scope.ownerId, WorkspaceIdFromScope(scope), since);
    DistinctTimesSuffice(all);
    PullDeliversEverything(s, scope, platformId, cursor, byStore, now);
    assert var session := PullUntilDone(s, scope, platformId, cursor, byStore, now, |Drain(all, since, now)|);
           Delivered(session.answers) == all && |session.answers| == Calls(|all|);
  }

  // ---------------------------------------------------------------- a tie across an edge

  /** Memories of one owner, all updated at the same moment, as a bulk update leaves them. */
  function UpdatedTogether(n: nat): (table: seq<Memory>)
    ensures |table| == n && forall i :: 0 <= i < n ==> table[i] == Memory(NatText(i), "owner", None, 7, false)
  {
    seq(n, i requires 0 <= i < n => Memory(NatText(i), "owner", None, 7, false))
  }

  lemma {:induction false} AllInScope(table: seq<Memory>, ownerId: string, workspaceId: Option<string>, since: Option<int>)
    requires forall i :: 0 <= i < |table| ==> InScope(table[i], ownerId, workspaceId) && After(table[i], since)
    ensures UpdatedSince(table, ownerId, workspaceId, since) == table
  {
    if table != [] {
      AllInScope(table[1..], ownerId, workspaceId, since);
    }
  }

  /** Of 101 memories of equal time a client that pulls from the beginning gets 100, in two calls, and never the last one. */
  lemma TieAtEdgeExample(platformId: string, now: int)
    ensures var s, scope := Server(UpdatedTogether(101), map[]), Scope("owner", None);
            var session := PullUntilDone(s, scope, platformId, Absent, true, now, 2);
            && Delivered(session.answers) == UpdatedTogether(101)[..100] && |session.answers| == 2
            && !session.answers[1].hasMore && RowsFor(session.server, scope, Some(FinalCursor(session.answers))) == []
  {
    var all, scope := UpdatedTogether(101), Scope("owner", None);
    hide UpdatedTogether, NatText, PullUntilDone, Delivered, Drain;
    AllInScope(all, "owner", None, None);
    hide InScope, UpdatedSince, Lower;
    TiedSession(Server(all, map[]), scope, platformId, now);
  }

  lemma TiedSession(s: Server, scope: Scope, platformId: string, now: int)
    requires s.cursors == map[] && CleanWorkspace(scope) && |s.table| == 101
    requires (forall i :: 0 <= i < 101 ==> s.table[i].updatedAt == 7) && RowsFor(s, scope, None) == s.table
    ensures var session := PullUntilDone(s, scope, platformId, Absent, true, now, 2);
            && Delivered(session.answers) == s.table[..100] && |session.answers| == 2
            && !session.answers[1].hasMore && RowsFor(session.server, scope, Some(FinalCursor(session.answers))) == []
  {
    assert Since(s.cursors, scope, platformId, Absent) == None;
    hide UpdatedSince, Drain, Delivered, PullUntilDone, Lower, NoTieAtEdge, Since, CleanWorkspace, RowsFor;
    TiedDrain(s.table, now);
    SessionIsDrain(s, scope, platformId, Absent, true, now, 2);
    PullDeliversEverything(s, scope, platformId, Absent, true, now);
  }

  lemma TiedDrain(all: seq<Memory>, now: int)
    requires |all| == 101 && forall i :: 0 <= i < |all| ==> all[i].updatedAt == 7
    ensures Drain(all, None, now) == [PullResult(all[..100], 7, true), PullResult([], 7, false)]
    ensures Delivered(Drain(all, None, now)) == all[..100]
  {
    hide Drain, Delivered, Behind;
    DrainStep(all, None, now);
    assert Behind(all, 7) == [];
    DrainEnd([], Some(7), now);
    assert all[..100] + [] == all[..100];
    assert [PullResult(all[..100], 7, true)] + [PullResult([], 7, false)] == [PullResult(all[..100], 7, true), PullResult([], 7, false)];
  }
}
