/** src/embedding/d1-embedding.store.ts: one row per memory and model, and a brute-force search. */
module EmbeddingStore {
  import opened Outcomes
  import opened Similarity

  datatype EmbeddingRow = EmbeddingRow(
    id: string, memoryId: string, ownerId: string, modelId: string, dimensions: nat, vector: Vector, contentHash: string)

  datatype UpsertInput = UpsertInput(
    memoryId: string, ownerId: string, modelId: string, dimensions: nat, vector: Vector, contentHash: string)

  // ---------------------------------------------------------------- upsert

  /** The unique index on (memory_id, model_id), and the primary key. */
  ghost predicate OneRowEach(rows: seq<EmbeddingRow>) {
    forall i, j :: 0 <= i < j < |rows| ==>
      rows[i].id != rows[j].id && !(rows[i].memoryId == rows[j].memoryId && rows[i].modelId == rows[j].modelId)
  }

  predicate Keys(row: EmbeddingRow, memoryId: string, ownerId: string, modelId: string) {
    row.memoryId == memoryId && row.ownerId == ownerId && row.modelId == modelId
  }

  function FindByMemoryId(rows: seq<EmbeddingRow>, memoryId: string, ownerId: string, modelId: string): (found: Option<EmbeddingRow>)
    ensures found.None? ==> forall row :: row in rows ==> !Keys(row, memoryId, ownerId, modelId)
    ensures found.Some? ==> found.value in rows && Keys(found.value, memoryId, ownerId, modelId)
  {
    if rows == [] then None
    else if Keys(rows[0], memoryId, ownerId, modelId) then Some(rows[0])
    else FindByMemoryId(rows[1..], memoryId, ownerId, modelId)
  }

  function Stored(id: string, input: UpsertInput): EmbeddingRow {
    EmbeddingRow(id, input.memoryId, input.ownerId, input.modelId, input.dimensions, input.vector, input.contentHash)
  }

  /** UPDATE ... WHERE id = ? AND owner_id = ? */
  function Rewritten(rows: seq<EmbeddingRow>, id: string, input: UpsertInput): (r: seq<EmbeddingRow>)
    ensures |r| == |rows|
  {
    seq(|rows|, i requires 0 <= i < |rows| =>
      if rows[i].id == id && rows[i].ownerId == input.ownerId
      then rows[i].(dimensions := input.dimensions, vector := input.vector, contentHash := input.contentHash) else rows[i])
  }

  /** Does the unique index refuse an insert for this memory and model? */
  predicate Taken(rows: seq<EmbeddingRow>, memoryId: string, modelId: string) {
    exists i :: 0 <= i < |rows| && rows[i].memoryId == memoryId && rows[i].modelId == modelId
  }

  datatype Upserted = Upserted(rows: seq<EmbeddingRow>, id: string)

  /** None when the call throws: a vector of the wrong length, or another owner's row for the same memory and model. */
  function Upsert(rows: seq<EmbeddingRow>, input: UpsertInput, freshId: string): Option<Upserted> {
    if |input.vector| != input.dimensions then None
    else
      var existing := FindByMemoryId(rows, input.memoryId, input.ownerId, input.modelId);
      if existing.Some? then Some(Upserted(Rewritten(rows, existing.value.id, input), existing.value.id))
      else if Taken(rows, input.memoryId, input.modelId) then None
      else Some(Upserted(rows + [Stored(freshId, input)], freshId))
  }

  /** An accepted upsert leaves one row for its memory and model, with that content, and no other row changes. */
  lemma UpsertMeaning(rows: seq<EmbeddingRow>, input: UpsertInput, freshId: string)
    requires OneRowEach(rows) && forall row :: row in rows ==> row.id != freshId
    requires Upsert(rows, input, freshId).Some?
    ensures var u := Upsert(rows, input, freshId).value;
            && OneRowEach(u.rows)
            && Stored(u.id, input) in u.rows
            && (forall row :: row in rows && !Keys(row, input.memoryId, input.ownerId, input.modelId) ==> row in u.rows)
            && (forall row :: row in u.rows ==> row in rows || row == Stored(u.id, input))
            && (u.id == freshId || exists row :: row in rows && row.id == u.id && Keys(row, input.memoryId, input.ownerId, input.modelId))
  {
    var u := Upsert(rows, input, freshId).value;
    var existing := FindByMemoryId(rows, input.memoryId, input.ownerId, input.modelId);
    if existing.Some? {
      var i :| 0 <= i < |rows| && rows[i] == existing.value;
      assert u.rows == rows[i := Stored(u.id, input)];
      assert u.rows[i] == Stored(u.id, input);
      forall row | row in rows && !Keys(row, input.memoryId, input.ownerId, input.modelId) ensures row in u.rows {
        var j :| 0 <= j < |rows| && rows[j] == row;
        assert u.rows[j] == row;
      }
    } else {
      assert u.rows[|rows|] == Stored(freshId, input);
    }
  }

  /**
   * An upsert is accepted iff the vector has the length it claims and no other owner's row
   * stands for the memory and model. It takes the row that is there, or adds one under the
   * fresh id.
   */
  lemma UpsertAcceptedExactly(rows: seq<EmbeddingRow>, input: UpsertInput, freshId: string)
    requires OneRowEach(rows)
    ensures Upsert(rows, input, freshId).Some?
            <==> |input.vector| == input.dimensions
                 && forall row :: row in rows && row.memoryId == input.memoryId && row.modelId == input.modelId ==> row.ownerId == input.ownerId
    ensures Upsert(rows, input, freshId).Some? ==>
              var u := Upsert(rows, input, freshId).value;
              if exists row :: row in rows && Keys(row, input.memoryId, input.ownerId, input.modelId)
              then |u.rows| == |rows| && exists row :: row in rows && row.id == u.id && Keys(row, input.memoryId, input.ownerId, input.modelId)
              else u.id == freshId && u.rows == rows + [Stored(freshId, input)]
  {
    var existing := FindByMemoryId(rows, input.memoryId, input.ownerId, input.modelId);
    if existing.Some? {
      var i :| 0 <= i < |rows| && rows[i] == existing.value;
      forall row | row in rows && row.memoryId == input.memoryId && row.modelId == input.modelId ensures row.ownerId == input.ownerId {
        var j :| 0 <= j < |rows| && rows[j] == row;
      }
    }
    if Taken(rows, input.memoryId, input.modelId) {
      var i :| 0 <= i < |rows| && rows[i].memoryId == input.memoryId && rows[i].modelId == input.modelId;
      assert rows[i] in rows;
    }
  }

  /** Reading back what was stored. */
  lemma FindAfterUpsert(rows: seq<EmbeddingRow>, input: UpsertInput, freshId: string)
    requires OneRowEach(rows) && forall row :: row in rows ==> row.id != freshId
    requires Upsert(rows, input, freshId).Some?
    ensures var u := Upsert(rows, input, freshId).value;
            FindByMemoryId(u.rows, input.memoryId, input.ownerId, input.modelId) == Some(Stored(u.id, input))
  {
    UpsertMeaning(rows, input, freshId);
    var u := Upsert(rows, input, freshId).value;
    hide Upsert;
    var found := FindByMemoryId(u.rows, input.memoryId, input.ownerId, input.modelId);
    var i :| 0 <= i < |u.rows| && u.rows[i] == found.value;
    var j :| 0 <= j < |u.rows| && u.rows[j] == Stored(u.id, input);
    assert i == j;
  }

  // ---------------------------------------------------------------- sorting by score

  datatype Match = Match(memoryId: string, embeddingId: string, score: real)

  ghost predicate Descending(s: seq<Match>) {
    forall i, j :: 0 <= i < j < |s| ==> s[i].score >= s[j].score
  }

  /** After everything that scores at least as much. */
  function Insert(s: seq<Match>, m: Match): seq<Match> {
    if s == [] || s[|s| - 1].score >= m.score then s + [m]
    else Insert(s[..|s| - 1], m) + [s[|s| - 1]]
  }

  /** matches.sort((a, b) => b.score - a.score), which is stable. */
  function SortByScore(matches: seq<Match>): seq<Match> {
    if matches == [] then [] else Insert(SortByScore(matches[..|matches| - 1]), matches[|matches| - 1])
  }

  lemma {:induction false} InsertMeaning(s: seq<Match>, m: Match)
    requires Descending(s)
    ensures multiset(Insert(s, m)) == multiset(s) + multiset{m}
    ensures Descending(Insert(s, m))
    ensures forall x :: x in Insert(s, m) ==> x == m || x in s
  {
    if s != [] && s[|s| - 1].score < m.score {
      var n := |s| - 1;
      SplitLast(s);
      assert multiset(s) == multiset(s[..n]) + multiset{s[n]} by {
        assert s == s[..n] + [s[n]];
      }
      InsertMeaning(s[..n], m);
      forall x | x in Insert(s[..n], m) ensures x.score >= s[n].score {
      }
    }
  }

  lemma {:induction false} SortMeaning(matches: seq<Match>)
    ensures multiset(SortByScore(matches)) == multiset(matches)
    ensures Descending(SortByScore(matches))
  {
    if matches != [] {
      SplitLast(matches);
      SortMeaning(matches[..|matches| - 1]);
      InsertMeaning(SortByScore(matches[..|matches| - 1]), matches[|matches| - 1]);
    }
  }

  /** The matches with one score, in order. */
  ghost function WithScore(s: seq<Match>, score: real): seq<Match> {
    if s == [] then []
    else WithScore(s[..|s| - 1], score) + if s[|s| - 1].score == score then [s[|s| - 1]] else []
  }

  lemma WithScoreAppend(s: seq<Match>, m: Match, score: real)
    ensures WithScore(s + [m], score) == WithScore(s, score) + if m.score == score then [m] else []
  {
    assert (s + [m])[..|s|] == s;
  }

  lemma {:induction false} InsertIsStable(s: seq<Match>, m: Match, score: real)
    requires Descending(s)
    ensures WithScore(Insert(s, m), score) == WithScore(s, score) + if m.score == score then [m] else []
  {
    hide WithScore;
    WithScoreAppend(s, m, score);
    if s != [] && s[|s| - 1].score < m.score {
      var n := |s| - 1;
      SplitLast(s);
      InsertIsStable(s[..n], m, score);
      WithScoreAppend(s[..n], s[n], score);
      WithScoreAppend(Insert(s[..n], m), s[n], score);
    }
  }

  /** Rows of equal score keep the order in which the query listed them. */
  lemma {:induction false} SortIsStable(matches: seq<Match>, score: real)
    ensures WithScore(SortByScore(matches), score) == WithScore(matches, score)
  {
    if matches != [] {
      SortIsStable(matches[..|matches| - 1], score);
      SortMeaning(matches[..|matches| - 1]);
      InsertIsStable(SortByScore(matches[..|matches| - 1]), matches[|matches| - 1], score);
    }
  }

  // ---------------------------------------------------------------- search

  predicate Comparable(row: EmbeddingRow, query: Vector, ownerId: string) {
    row.ownerId == ownerId && |row.vector| == |query|
  }

  /** The owner's rows of the query's dimension, in order. */
  function Candidates(rows: seq<EmbeddingRow>, query: Vector, ownerId: string): (r: seq<EmbeddingRow>)
    ensures forall row :: row in r <==> row in rows && Comparable(row, query, ownerId)
  {
    if rows == [] then []
    else
      var front, row := Candidates(rows[..|rows| - 1], query, ownerId), rows[|rows| - 1];
      assert rows == rows[..|rows| - 1] + [row];
      if Comparable(row, query, ownerId) then front + [row] else front
  }

  /** One match per candidate, with its score. */
  ghost predicate MatchesOf(matches: seq<Match>, candidates: seq<EmbeddingRow>, query: Vector) {
    && |matches| == |candidates|
    && forall i :: 0 <= i < |matches| ==>
         && matches[i].memoryId == candidates[i].memoryId && matches[i].embeddingId == candidates[i].id
         && |candidates[i].vector| == |query| && Scores(query, candidates[i].vector, matches[i].score)
  }

  /** The best `count` of the matches, best first; nothing left out scores above anything returned. */
  ghost predicate BestOf(result: seq<Match>, matches: seq<Match>, count: nat) {
    && |result| == (if count <= |matches| then count else |matches|)
    && Descending(result)
    && exists rest: seq<Match> :: LeftOut(rest, result, matches)
  }

  /** `rest` is what remains of the matches, and nothing in it scores above a result. */
  ghost predicate LeftOut(rest: seq<Match>, result: seq<Match>, matches: seq<Match>) {
    && multiset(result) + multiset(rest) == multiset(matches)
    && forall i, j :: 0 <= i < |result| && 0 <= j < |rest| ==> result[i].score >= rest[j].score
  }

  lemma CutInTwo(s: seq<Match>, k: nat)
    requires k <= |s|
    ensures multiset(s[..k]) + multiset(s[k..]) == multiset(s)
    ensures Descending(s) ==> Descending(s[..k]) && forall i, j :: 0 <= i < k && 0 <= j < |s| - k ==> s[..k][i].score >= s[k..][j].score
  {
    assert s == s[..k] + s[k..];
  }

  lemma SamePopulation(a: seq<Match>, b: seq<Match>)
    requires multiset(a) == multiset(b)
    ensures |a| == |b|
  {
    assert |multiset(a)| == |multiset(b)|;
  }

  lemma {:induction false} PrefixIsBest(matches: seq<Match>, count: nat)
    ensures var sorted := SortByScore(matches);
            BestOf(sorted[..if count <= |sorted| then count else |sorted|], matches, count)
  {
    SortMeaning(matches);
    var sorted := SortByScore(matches);
    hide SortByScore, Descending;
    SamePopulation(sorted, matches);
    var k := if count <= |sorted| then count else |sorted|;
    CutInTwo(sorted, k);
    assert LeftOut(sorted[k..], sorted[..k], matches);
  }

  lemma CandidatesStep(rows: seq<EmbeddingRow>, n: nat, query: Vector, ownerId: string)
    requires n < |rows|
    ensures Candidates(rows[..n + 1], query, ownerId) ==
              Candidates(rows[..n], query, ownerId) + if Comparable(rows[n], query, ownerId) then [rows[n]] else []
  {
    assert rows[..n + 1][..n] == rows[..n];
  }

  class D1EmbeddingStore {
    var rows: seq<EmbeddingRow>

    ghost predicate Valid()
      reads this
    {
      OneRowEach(rows)
    }

    constructor ()
      ensures Valid() && rows == []
    {
      rows := [];
    }

    method UpsertEmbedding(input: UpsertInput, freshId: string) returns (id: Option<string>)
      requires Valid() && forall row :: row in rows ==> row.id != freshId
      modifies this
      ensures Valid()
      ensures match Upsert(old(rows), input, freshId)
              case None => id == None && rows == old(rows)
              case Some(u) => id == Some(u.id) && rows == u.rows
    {
      if |input.vector| != input.dimensions {
        return None;
      }
      if Upsert(rows, input, freshId).Some? {
        UpsertMeaning(rows, input, freshId);
      }
      var existing := FindByMemoryId(rows, input.memoryId, input.ownerId, input.modelId);
      if existing.Some? {
        rows := Rewritten(rows, existing.value.id, input);
        return Some(existing.value.id);
      }
      if Taken(rows, input.memoryId, input.modelId) {
        return None;
      }
      rows := rows + [Stored(freshId, input)];
      id := Some(freshId);
    }

    /** At most `limit` of the owner's rows, best first, and none left out that scores higher. */
    method SearchSimilar(query: Vector, ownerId: string, limit: int, root: real -> real)
      returns (result: seq<Match>, ghost matches: seq<Match>)
      requires SquareRoot(root)
      ensures limit <= 0 ==> result == []
      ensures limit > 0 ==> MatchesOf(matches, Candidates(rows, query, ownerId), query) && BestOf(result, matches, limit)
    {
      hide SquareRoot, Scores, Candidates, BestOf, SortByScore;
      if limit <= 0 {
        return [], [];
      }
      var found: seq<Match> := [];
      NoCandidateYet(rows, query, ownerId);
      for n := 0 to |rows|
        invariant MatchesOf(found, Candidates(rows[..n], query, ownerId), query)
      {
        CandidatesStep(rows, n, query, ownerId);
        if rows[n].ownerId != ownerId || |rows[n].vector| != |query| {
          continue;
        }
        var score := CosineSimilarity(query, rows[n].vector, root);
        found := found + [Match(rows[n].memoryId, rows[n].id, score.value)];
      }
      assert rows[..|rows|] == rows;
      matches := found;
      PrefixIsBest(found, limit);
      var sorted := SortByScore(found);
      result := sorted[..if limit <= |sorted| then limit else |sorted|];
    }
  }

  /** A match that is found is of a row of the owner whose vector has the query's dimension; with room, every such row is found. */
  lemma FoundExactly(rows: seq<EmbeddingRow>, query: Vector, ownerId: string, count: nat, result: seq<Match>, matches: seq<Match>)
    requires MatchesOf(matches, Candidates(rows, query, ownerId), query) && BestOf(result, matches, count)
    ensures forall m :: m in result ==> MatchedRow(rows, query, ownerId, m)
    ensures count >= |matches| ==>
              forall row :: row in rows && row.ownerId == ownerId && |row.vector| == |query| ==>
                exists m :: m in result && m.memoryId == row.memoryId && m.embeddingId == row.id
  {
    hide Candidates, Scores, Descending;
    var candidates := Candidates(rows, query, ownerId);
    var rest :| LeftOut(rest, result, matches);
    forall m | m in result ensures MatchedRow(rows, query, ownerId, m) {
      assert m in multiset(result) + multiset(rest);
      var i :| 0 <= i < |matches| && matches[i] == m;
      assert candidates[i] in candidates;
    }
    if count >= |matches| {
      assert |multiset(result)| + |multiset(rest)| == |multiset(matches)|;
      forall row | row in rows && row.ownerId == ownerId && |row.vector| == |query|
        ensures exists m :: m in result && m.memoryId == row.memoryId && m.embeddingId == row.id
      {
        assert row in candidates;
        var i :| 0 <= i < |candidates| && candidates[i] == row;
        assert matches[i] in multiset(result) + multiset(rest);
      }
    }
  }

  ghost predicate MatchedRow(rows: seq<EmbeddingRow>, query: Vector, ownerId: string, m: Match) {
    exists row :: row in rows && row.ownerId == ownerId && |row.vector| == |query|
                  && m.memoryId == row.memoryId && m.embeddingId == row.id && Scores(query, row.vector, m.score)
  }

  lemma NoCandidateYet(rows: seq<EmbeddingRow>, query: Vector, ownerId: string)
    ensures Candidates(rows[..0], query, ownerId) == []
  {
  }
}
