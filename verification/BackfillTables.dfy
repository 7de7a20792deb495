/**
 * The whole backfill: every other table, all tables in order, the relation graph
 * that comes out, and a second run.
 */
module BackfillTables {
  import opened Outcomes
  import opened Relational
  import opened BackfillModel
  import opened BackfillMemories

  // ---------------------------------------------------------------- one table

  ghost predicate DistinctKeys(spec: TableSpec, rows: seq<Row>) {
    && (forall i :: 0 <= i < |rows| ==> Col(rows[i], spec.primaryKey).Text?)
    && (forall i, j :: 0 <= i < j < |rows| ==> KeyOf(spec, rows[i]) != KeyOf(spec, rows[j]))
  }

  /** The key of a table is never one of the columns that are rewritten. */
  ghost predicate KeyIsNotForeign(spec: TableSpec) {
    && (spec.table == MemoryEmbeddings ==> spec.primaryKey != MemoryId)
    && (spec.table == MemoryRelations ==> spec.primaryKey != SourceMemoryId && spec.primaryKey != TargetMemoryId)
  }

  lemma RemapKeepsKey(row: Row, idMap: map<string, string>, spec: TableSpec)
    requires KeyIsNotForeign(spec)
    ensures Col(RemapMemoryForeignKeys(row, idMap, spec), spec.primaryKey) == Col(row, spec.primaryKey)
  {
  }

  ghost predicate TableCarried(t0: Table, t: Table, spec: TableSpec, rows: seq<Row>, idMap: map<string, string>) {
    OnlyKeysOf(t0, t, spec, rows) && AllCarried(t, spec, rows, idMap)
  }

  ghost predicate OnlyKeysOf(t0: Table, t: Table, spec: TableSpec, rows: seq<Row>) {
    && t.Keys == t0.Keys + Ids(spec, rows)
    && (forall k :: k in t0 && k !in Ids(spec, rows) ==> t[k] == t0[k])
  }

  ghost predicate AllCarried(t: Table, spec: TableSpec, rows: seq<Row>, idMap: map<string, string>) {
    forall i :: 0 <= i < |rows| ==> Carried(t, spec, rows[i], idMap)
  }

  /** The row is in the table under its own key, with its foreign keys renamed. */
  ghost predicate Carried(t: Table, spec: TableSpec, row: Row, idMap: map<string, string>) {
    var k := KeyOf(spec, row);
    k in t && Synced(t[k], spec, RemapMemoryForeignKeys(row, idMap, spec))
  }

  lemma LastUpsert(schema: Schema, db: Database, spec: TableSpec, rows: seq<Row>, idMap: map<string, string>) returns (before: Database)
    requires db in schema.accepted && KeyIsNotForeign(spec)
    requires rows != [] && MigrateTable(schema, db, spec, rows, idMap).Some?
    ensures MigrateTable(schema, db, spec, rows[..|rows| - 1], idMap) == Some(before)
    ensures var after := MigrateTable(schema, db, spec, rows, idMap).value;
            var row := rows[|rows| - 1];
            && OneWrite(spec, TableOf(before, spec.table), KeyOf(spec, row), RemapMemoryForeignKeys(row, idMap, spec), TableOf(after, spec.table))
            && (forall name :: name != spec.table ==> TableOf(after, name) == TableOf(before, name))
  {
    var row := rows[|rows| - 1];
    before := MigrateTable(schema, db, spec, rows[..|rows| - 1], idMap).value;
    RemapKeepsKey(row, idMap, spec);
    WriteIsOneWrite(schema, before, spec, KeyOf(spec, row), RemapMemoryForeignKeys(row, idMap, spec));
  }

  lemma IdsGrow(spec: TableSpec, earlier: seq<Row>, row: Row)
    ensures Ids(spec, earlier + [row]) == Ids(spec, earlier) + {KeyOf(spec, row)}
  {
  }

  lemma CarryStep(t0: Table, t: Table, t': Table, spec: TableSpec, earlier: seq<Row>, row: Row, idMap: map<string, string>)
    requires TableCarried(t0, t, spec, earlier, idMap)
    requires forall i :: 0 <= i < |earlier| ==> KeyOf(spec, earlier[i]) != KeyOf(spec, row)
    requires OneWrite(spec, t, KeyOf(spec, row), RemapMemoryForeignKeys(row, idMap, spec), t')
    ensures TableCarried(t0, t', spec, earlier + [row], idMap)
  {
    FrameStep(t0, t, t', spec, earlier, row);
    CarriedStep(t, t', spec, earlier, row, idMap);
  }

  lemma FrameStep(t0: Table, t: Table, t': Table, spec: TableSpec, earlier: seq<Row>, row: Row)
    requires OnlyKeysOf(t0, t, spec, earlier)
    requires t'.Keys == t.Keys + {KeyOf(spec, row)}
    requires forall j :: j in t && j != KeyOf(spec, row) ==> t'[j] == t[j]
    ensures OnlyKeysOf(t0, t', spec, earlier + [row])
  {
    IdsGrow(spec, earlier, row);
  }

  lemma CarriedStep(t: Table, t': Table, spec: TableSpec, earlier: seq<Row>, row: Row, idMap: map<string, string>)
    requires AllCarried(t, spec, earlier, idMap)
    requires forall i :: 0 <= i < |earlier| ==> KeyOf(spec, earlier[i]) != KeyOf(spec, row)
    requires OneWrite(spec, t, KeyOf(spec, row), RemapMemoryForeignKeys(row, idMap, spec), t')
    ensures AllCarried(t', spec, earlier + [row], idMap)
  {
    forall i | 0 <= i < |earlier| ensures Carried(t', spec, earlier[i], idMap) {
      assert Carried(t, spec, earlier[i], idMap);
    }
    assert Carried(t', spec, row, idMap);
  }

  /** A completed pass over a table carries every scanned row, renamed, and touches nothing else. */
  lemma {:induction false} TableIsCarried(schema: Schema, db: Database, spec: TableSpec, rows: seq<Row>, idMap: map<string, string>)
    requires db in schema.accepted && KeyIsNotForeign(spec) && DistinctKeys(spec, rows)
    requires MigrateTable(schema, db, spec, rows, idMap).Some?
    ensures var after := MigrateTable(schema, db, spec, rows, idMap).value;
            && TableCarried(TableOf(db, spec.table), TableOf(after, spec.table), spec, rows, idMap)
            && (forall name :: name != spec.table ==> TableOf(after, name) == TableOf(db, name))
  {
    if rows != [] {
      var n := |rows| - 1;
      SplitLast(rows);
      var before := LastUpsert(schema, db, spec, rows, idMap);
      KeysApart(spec, rows);
      TableIsCarried(schema, db, spec, rows[..n], idMap);
      CarryStep(TableOf(db, spec.table), TableOf(before, spec.table),
                TableOf(MigrateTable(schema, db, spec, rows, idMap).value, spec.table), spec, rows[..n], rows[n], idMap);
    }
  }

  lemma KeysApart(spec: TableSpec, rows: seq<Row>)
    requires rows != [] && DistinctKeys(spec, rows)
    ensures var n := |rows| - 1;
            && DistinctKeys(spec, rows[..n])
            && forall i :: 0 <= i < n ==> KeyOf(spec, rows[..n][i]) != KeyOf(spec, rows[n])
  {
  }

  /** Rows that the target already carries are written again without a change. */
  lemma {:induction false} TableRerun(schema: Schema, db: Database, spec: TableSpec, rows: seq<Row>, idMap: map<string, string>)
    requires db in schema.accepted && KeyIsNotForeign(spec)
    requires forall i :: 0 <= i < |rows| ==> Col(rows[i], spec.primaryKey).Text?
    requires forall i :: 0 <= i < |rows| ==> Carried(TableOf(db, spec.table), spec, rows[i], idMap)
    ensures MigrateTable(schema, db, spec, rows, idMap) == Some(db)
  {
    if rows != [] {
      var n := |rows| - 1;
      assert forall i :: 0 <= i < n ==> rows[..n][i] == rows[i];
      TableRerun(schema, db, spec, rows[..n], idMap);
      assert Carried(TableOf(db, spec.table), spec, rows[n], idMap);
      RemapKeepsKey(rows[n], idMap, spec);
      WriteAgain(schema, db, spec, KeyOf(spec, rows[n]), RemapMemoryForeignKeys(rows[n], idMap, spec));
    }
  }

  // ---------------------------------------------------------------- all tables

  /** Distinct tables, with memories before the two tables whose foreign keys are rewritten. */
  ghost predicate WellOrdered(specs: seq<TableSpec>) {
    && KnownMemoryTable(specs)
    && (forall i, j :: 0 <= i < j < |specs| ==> specs[i].table != specs[j].table)
    && (forall i :: 0 <= i < |specs| ==> KeyIsNotForeign(specs[i]))
    && (forall i, j :: 0 <= i < j < |specs| && specs[j].table == Memories ==>
          specs[i].table != MemoryEmbeddings && specs[i].table != MemoryRelations)
  }

  ghost predicate ValidSource(source: Source, owner: string, specs: seq<TableSpec>) {
    forall i :: 0 <= i < |specs| ==>
      var rows := ScopedRows(source, specs[i], owner);
      if specs[i].table == Memories then ValidMemories(specs[i], rows) else DistinctKeys(specs[i], rows)
  }

  /** No clash in memories, read off the target before the run. */
  ghost predicate NoClash(source: Source, owner: string, db: Database, specs: seq<TableSpec>) {
    forall i :: 0 <= i < |specs| && specs[i].table == Memories ==>
      !Clash(TableOf(db, Memories), specs[i], ScopedRows(source, specs[i], owner))
  }

  /** One table of the target after the run, told in terms of the table before it. */
  ghost predicate Arrived(source: Source, owner: string, db: Database, after: Database, spec: TableSpec, idMap: map<string, string>) {
    var rows, t0, t := ScopedRows(source, spec, owner), TableOf(db, spec.table), TableOf(after, spec.table);
    if spec.table == Memories then Faithful(t0, t, spec, rows, idMap) && idMap.Keys == Ids(spec, rows)
    else TableCarried(t0, t, spec, rows, idMap)
  }

  ghost predicate AllArrived(source: Source, owner: string, db: Database, run: MemoryRun, specs: seq<TableSpec>) {
    && (forall i :: 0 <= i < |specs| ==> Arrived(source, owner, db, run.db, specs[i], run.idMap))
    && (forall name :: (forall i :: 0 <= i < |specs| ==> specs[i].table != name) ==> TableOf(run.db, name) == TableOf(db, name))
    && ((forall i :: 0 <= i < |specs| ==> specs[i].table != Memories) ==> run.idMap == map[])
  }

  /** A table whose foreign keys are not rewritten does not depend on the map. */
  lemma MapIrrelevant(t0: Table, t: Table, spec: TableSpec, rows: seq<Row>, before: map<string, string>, after: map<string, string>)
    requires spec.table != MemoryEmbeddings && spec.table != MemoryRelations
    requires TableCarried(t0, t, spec, rows, before)
    ensures TableCarried(t0, t, spec, rows, after)
  {
    forall i | 0 <= i < |rows| ensures RemapMemoryForeignKeys(rows[i], before, spec) == RemapMemoryForeignKeys(rows[i], after, spec) {
    }
  }

  /** The last table of a completed run, apart from the tables before it. */
  lemma LastTable(schema: Schema, source: Source, owner: string, db: Database, specs: seq<TableSpec>) returns (before: MemoryRun)
    requires EnforcesMemoryKeys(schema) && db in schema.accepted && KnownMemoryTable(specs)
    requires specs != [] && MigrateAll(schema, source, owner, db, specs).Some?
    ensures KnownMemoryTable(specs[..|specs| - 1])
    ensures MigrateAll(schema, source, owner, db, specs[..|specs| - 1]) == Some(before) && before.db in schema.accepted
    ensures var run := MigrateAll(schema, source, owner, db, specs).value;
            var spec := specs[|specs| - 1];
            var rows := ScopedRows(source, spec, owner);
            if spec.table == Memories then MemoryTable(spec) && MigrateMemories(schema, before.db, spec, rows) == Some(run)
            else MigrateTable(schema, before.db, spec, rows, before.idMap) == Some(run.db) && run.idMap == before.idMap
  {
    before := MigrateAll(schema, source, owner, db, specs[..|specs| - 1]).value;
  }

  /**
   * A completed run without a clash: memories renamed one-to-one, every other table
   * carried with its foreign keys renamed by the same map, other tables untouched.
   */
  lemma {:induction false} CompletedRunArrives(schema: Schema, source: Source, owner: string, db: Database, specs: seq<TableSpec>)
    requires EnforcesMemoryKeys(schema) && db in schema.accepted
    requires WellOrdered(specs) && ValidSource(source, owner, specs) && NoClash(source, owner, db, specs)
    requires MigrateAll(schema, source, owner, db, specs).Some?
    ensures AllArrived(source, owner, db, MigrateAll(schema, source, owner, db, specs).value, specs)
  {
    if specs != [] {
      var n := |specs| - 1;
      var before := LastTable(schema, source, owner, db, specs);
      PrefixOrdered(source, owner, db, specs);
      CompletedRunArrives(schema, source, owner, db, specs[..n]);
      TableArrives(schema, source, owner, db, before, MigrateAll(schema, source, owner, db, specs).value, specs);
      ExtendArrived(source, owner, db, before, MigrateAll(schema, source, owner, db, specs).value, specs);
    }
  }

  lemma {:induction false} TableArrives(schema: Schema, source: Source, owner: string, db: Database, before: MemoryRun, run: MemoryRun, specs: seq<TableSpec>)
    requires EnforcesMemoryKeys(schema) && before.db in schema.accepted
    requires specs != [] && WellOrdered(specs) && ValidSource(source, owner, specs) && NoClash(source, owner, db, specs)
    requires AllArrived(source, owner, db, before, specs[..|specs| - 1])
    requires var spec := specs[|specs| - 1];
             var rows := ScopedRows(source, spec, owner);
             if spec.table == Memories then MemoryTable(spec) && MigrateMemories(schema, before.db, spec, rows) == Some(run)
             else MigrateTable(schema, before.db, spec, rows, before.idMap) == Some(run.db) && run.idMap == before.idMap
    ensures var spec := specs[|specs| - 1];
            && Arrived(source, owner, db, run.db, spec, run.idMap)
            && (forall name :: name != spec.table ==> TableOf(run.db, name) == TableOf(before.db, name))
  {
    var n := |specs| - 1;
    var spec := specs[n];
    var rows := ScopedRows(source, spec, owner);
    assert forall i :: 0 <= i < n ==> specs[..n][i] == specs[i] && specs[i].table != spec.table;
    assert TableOf(before.db, spec.table) == TableOf(db, spec.table);
    if spec.table == Memories {
      WithoutClashFaithful(schema, before.db, spec, rows);
      MapCoversRows(schema, before.db, spec, rows);
    } else {
      TableIsCarried(schema, before.db, spec, rows, before.idMap);
    }
  }

  lemma PrefixOrdered(source: Source, owner: string, db: Database, specs: seq<TableSpec>)
    requires specs != [] && WellOrdered(specs) && ValidSource(source, owner, specs) && NoClash(source, owner, db, specs)
    ensures var n := |specs| - 1;
            && WellOrdered(specs[..n]) && ValidSource(source, owner, specs[..n]) && NoClash(source, owner, db, specs[..n])
            && (forall i :: 0 <= i < n ==> specs[..n][i] == specs[i] && specs[i].table != specs[n].table)
  {
  }

  /** A table that has arrived is not disturbed by a later one. */
  lemma EarlierStaysArrived(source: Source, owner: string, db: Database, before: MemoryRun, run: MemoryRun, specs: seq<TableSpec>, i: nat)
    requires i < |specs| - 1 && WellOrdered(specs)
    requires Arrived(source, owner, db, before.db, specs[i], before.idMap)
    requires var spec := specs[|specs| - 1];
             && (forall name :: name != spec.table ==> TableOf(run.db, name) == TableOf(before.db, name))
             && (spec.table != Memories ==> run.idMap == before.idMap)
    ensures Arrived(source, owner, db, run.db, specs[i], run.idMap)
  {
    hide Faithful, TableCarried, ScopedRows, KnownMemoryTable;
    var n := |specs| - 1;
    assert specs[i].table != specs[n].table;
    if specs[n].table == Memories {
      MapIrrelevant(TableOf(db, specs[i].table), TableOf(before.db, specs[i].table), specs[i],
                    ScopedRows(source, specs[i], owner), before.idMap, run.idMap);
    }
  }

  lemma ExtendArrived(source: Source, owner: string, db: Database, before: MemoryRun, run: MemoryRun, specs: seq<TableSpec>)
    requires specs != [] && WellOrdered(specs)
    requires AllArrived(source, owner, db, before, specs[..|specs| - 1])
    requires var spec := specs[|specs| - 1];
             && Arrived(source, owner, db, run.db, spec, run.idMap)
             && (forall name :: name != spec.table ==> TableOf(run.db, name) == TableOf(before.db, name))
             && (spec.table != Memories ==> run.idMap == before.idMap)
    ensures AllArrived(source, owner, db, run, specs)
  {
    hide Arrived, WellOrdered, TableOf;
    var n := |specs| - 1;
    forall i | 0 <= i < n ensures Arrived(source, owner, db, run.db, specs[i], run.idMap) {
      assert specs[..n][i] == specs[i];
      EarlierStaysArrived(source, owner, db, before, run, specs, i);
    }
    forall name | forall i :: 0 <= i < |specs| ==> specs[i].table != name
      ensures TableOf(run.db, name) == TableOf(db, name)
    {
      assert specs[n].table != name;
      assert forall i :: 0 <= i < n ==> specs[..n][i] == specs[i] && specs[i].table != name;
    }
    if forall i :: 0 <= i < |specs| ==> specs[i].table != Memories {
      assert specs[n].table != Memories;
      assert forall i :: 0 <= i < n ==> specs[..n][i] == specs[i];
    }
  }

  // ---------------------------------------------------------------- the pass over memories inside a run

  /** Every run contains one pass over memories, and nothing before or after it touches that table. */
  lemma {:induction false} MemoriesPass(schema: Schema, source: Source, owner: string, db: Database, specs: seq<TableSpec>, m: nat)
    returns (before: Database)
    requires EnforcesMemoryKeys(schema) && db in schema.accepted
    requires WellOrdered(specs) && ValidSource(source, owner, specs)
    requires m < |specs| && specs[m].table == Memories
    requires MigrateAll(schema, source, owner, db, specs).Some?
    ensures before in schema.accepted && TableOf(before, Memories) == TableOf(db, Memories)
    ensures MemoryTable(specs[m])
    ensures var pass := MigrateMemories(schema, before, specs[m], ScopedRows(source, specs[m], owner));
            var run := MigrateAll(schema, source, owner, db, specs).value;
            && pass.Some? && pass.value.idMap == run.idMap
            && TableOf(pass.value.db, Memories) == TableOf(run.db, Memories)
  {
    hide MigrateMemories, MigrateTable, EnforcesMemoryKeys, ScopedRows;
    var n := |specs| - 1;
    var prefix := LastTable(schema, source, owner, db, specs);
    PrefixOfSpecs(source, owner, specs);
    if m == n {
      before := prefix.db;
      OthersLeaveMemories(schema, source, owner, db, specs[..n]);
    } else {
      before := MemoriesPass(schema, source, owner, db, specs[..n], m);
      TableIsCarried(schema, prefix.db, specs[n], ScopedRows(source, specs[n], owner), prefix.idMap);
    }
  }

  lemma PrefixOfSpecs(source: Source, owner: string, specs: seq<TableSpec>)
    requires specs != [] && WellOrdered(specs) && ValidSource(source, owner, specs)
    ensures var n := |specs| - 1;
            && WellOrdered(specs[..n]) && ValidSource(source, owner, specs[..n])
            && (forall i :: 0 <= i < n ==> specs[..n][i] == specs[i] && specs[i].table != specs[n].table)
  {
  }

  lemma {:induction false} OthersLeaveMemories(schema: Schema, source: Source, owner: string, db: Database, specs: seq<TableSpec>)
    requires EnforcesMemoryKeys(schema) && db in schema.accepted
    requires WellOrdered(specs) && ValidSource(source, owner, specs)
    requires forall i :: 0 <= i < |specs| ==> specs[i].table != Memories
    requires MigrateAll(schema, source, owner, db, specs).Some?
    ensures TableOf(MigrateAll(schema, source, owner, db, specs).value.db, Memories) == TableOf(db, Memories)
  {
    if specs != [] {
      var n := |specs| - 1;
      var prefix := LastTable(schema, source, owner, db, specs);
      PrefixOfSpecs(source, owner, specs);
      OthersLeaveMemories(schema, source, owner, db, specs[..n]);
      assert specs[n].table != Memories;
      TableIsCarried(schema, prefix.db, specs[n], ScopedRows(source, specs[n], owner), prefix.idMap);
    }
  }

  /** For a whole run: the id map is one-to-one on the scanned memories iff there is no clash. */
  lemma RunIsOneToOneExactlyWithoutClash(schema: Schema, source: Source, owner: string, db: Database, specs: seq<TableSpec>, m: nat)
    requires EnforcesMemoryKeys(schema) && db in schema.accepted
    requires WellOrdered(specs) && ValidSource(source, owner, specs)
    requires m < |specs| && specs[m].table == Memories
    requires MigrateAll(schema, source, owner, db, specs).Some?
    ensures OneToOne(specs[m], ScopedRows(source, specs[m], owner), MigrateAll(schema, source, owner, db, specs).value.idMap)
            <==> NoClash(source, owner, db, specs)
  {
    var before := MemoriesPass(schema, source, owner, db, specs, m);
    OneToOneExactlyWithoutClash(schema, before, specs[m], ScopedRows(source, specs[m], owner));
    OneMemoryTable(source, owner, db, specs, m);
  }

  lemma OneMemoryTable(source: Source, owner: string, db: Database, specs: seq<TableSpec>, m: nat)
    requires WellOrdered(specs) && m < |specs| && specs[m].table == Memories
    ensures NoClash(source, owner, db, specs)
            <==> !Clash(TableOf(db, Memories), specs[m], ScopedRows(source, specs[m], owner))
  {
    forall i | 0 <= i < |specs| && specs[i].table == Memories ensures i == m {
    }
  }

  // ---------------------------------------------------------------- a second run

  lemma NoTableYet(schema: Schema, source: Source, owner: string, db: Database, specs: seq<TableSpec>)
    requires EnforcesMemoryKeys(schema) && db in schema.accepted && KnownMemoryTable(specs)
    ensures MigrateAll(schema, source, owner, db, specs[..0]) == Some(MemoryRun(db, map[]))
  {
  }

  lemma NextTable(schema: Schema, source: Source, owner: string, db: Database, specs: seq<TableSpec>, n: nat)
    requires EnforcesMemoryKeys(schema) && db in schema.accepted && KnownMemoryTable(specs) && n < |specs|
    requires MigrateAll(schema, source, owner, db, specs[..n]).Some?
    ensures var before := MigrateAll(schema, source, owner, db, specs[..n]).value;
            var rows := ScopedRows(source, specs[n], owner);
            MigrateAll(schema, source, owner, db, specs[..n + 1]) ==
              if specs[n].table == Memories then MigrateMemories(schema, before.db, specs[n], rows)
              else match MigrateTable(schema, before.db, specs[n], rows, before.idMap)
                case None => None
                case Some(after) => Some(MemoryRun(after, before.idMap))
  {
    assert specs[..n + 1][..n] == specs[..n] && specs[..n + 1][n] == specs[n];
  }

  ghost function MapAt(specs: seq<TableSpec>, idMap: map<string, string>): map<string, string> {
    if exists i :: 0 <= i < |specs| && specs[i].table == Memories then idMap else map[]
  }

  /** Every table that has arrived is written again without a change, table after table. */
  lemma {:induction false} RerunPrefix(schema: Schema, source: Source, owner: string, db: Database, run: MemoryRun, specs: seq<TableSpec>, n: nat)
    requires EnforcesMemoryKeys(schema) && run.db in schema.accepted
    requires WellOrdered(specs) && ValidSource(source, owner, specs)
    requires AllArrived(source, owner, db, run, specs) && n <= |specs|
    ensures KnownMemoryTable(specs[..n])
    ensures MigrateAll(schema, source, owner, run.db, specs[..n]) == Some(MemoryRun(run.db, MapAt(specs[..n], run.idMap)))
  {
    hide MigrateAll, MigrateMemories, MigrateTable, EnforcesMemoryKeys, ScopedRows, MapAt;
    if n == 0 {
      NoTableYet(schema, source, owner, run.db, specs);
      NoMapYet(specs, run.idMap);
    } else {
      RerunPrefix(schema, source, owner, db, run, specs, n - 1);
      NextTable(schema, source, owner, run.db, specs, n - 1);
      MapAtStep(specs, n, run.idMap);
      if specs[n - 1].table == Memories {
        MemoriesAgain(schema, source, owner, db, run, specs[n - 1]);
      } else {
        TableAgain(schema, source, owner, db, run, specs, n - 1);
      }
    }
  }

  lemma NoMapYet(specs: seq<TableSpec>, idMap: map<string, string>)
    ensures MapAt(specs[..0], idMap) == map[]
  {
  }

  lemma MapAtStep(specs: seq<TableSpec>, n: nat, idMap: map<string, string>)
    requires 0 < n <= |specs| && WellOrdered(specs)
    ensures MapAt(specs[..n], idMap) == if specs[n - 1].table == Memories then idMap else MapAt(specs[..n - 1], idMap)
    ensures MapAt(specs[..n - 1], idMap) == idMap || (specs[n - 1].table != MemoryEmbeddings && specs[n - 1].table != MemoryRelations)
            || forall i :: 0 <= i < |specs| ==> specs[i].table != Memories
  {
    var before, upTo := specs[..n - 1], specs[..n];
    assert upTo[n - 1] == specs[n - 1];
    assert forall i :: 0 <= i < n - 1 ==> before[i] == specs[i] && upTo[i] == specs[i];
    if m :| 0 <= m < |specs| && specs[m].table == Memories {
      if m < n - 1 {
        assert before[m].table == Memories;
      }
    }
  }

  lemma MemoriesAgain(schema: Schema, source: Source, owner: string, db: Database, run: MemoryRun, spec: TableSpec)
    requires EnforcesMemoryKeys(schema) && run.db in schema.accepted && MemoryTable(spec)
    requires ValidMemories(spec, ScopedRows(source, spec, owner))
    requires Arrived(source, owner, db, run.db, spec, run.idMap)
    ensures MigrateMemories(schema, run.db, spec, ScopedRows(source, spec, owner)) == Some(run)
  {
    var rows, t0, t := ScopedRows(source, spec, owner), TableOf(db, spec.table), TableOf(run.db, spec.table);
    FaithfulAgrees(t0, t, spec, rows, run.idMap);
    RerunStays(schema, run.db, spec, rows, t0, run.idMap);
  }

  lemma TableAgain(schema: Schema, source: Source, owner: string, db: Database, run: MemoryRun, specs: seq<TableSpec>, n: nat)
    requires run.db in schema.accepted && WellOrdered(specs) && ValidSource(source, owner, specs)
    requires AllArrived(source, owner, db, run, specs)
    requires n < |specs| && specs[n].table != Memories
    ensures MigrateTable(schema, run.db, specs[n], ScopedRows(source, specs[n], owner), MapAt(specs[..n], run.idMap)) == Some(run.db)
  {
    var spec := specs[n];
    var rows, t := ScopedRows(source, spec, owner), TableOf(run.db, spec.table);
    var idMap := MapAt(specs[..n], run.idMap);
    MapAtStep(specs, n + 1, run.idMap);
    assert Arrived(source, owner, db, run.db, spec, run.idMap);
    if idMap != run.idMap {
      MapIrrelevant(TableOf(db, spec.table), t, spec, rows, run.idMap, idMap);
    }
    TableRerun(schema, run.db, spec, rows, idMap);
  }

  /** A completed run, repeated, completes with the same target and the same id map iff it had no clash. */
  lemma {:induction false} RepeatedRunChangesNothing(schema: Schema, source: Source, owner: string, db: Database, specs: seq<TableSpec>)
    requires EnforcesMemoryKeys(schema) && db in schema.accepted
    requires WellOrdered(specs) && ValidSource(source, owner, specs)
    requires MigrateAll(schema, source, owner, db, specs).Some?
    ensures var run := MigrateAll(schema, source, owner, db, specs).value;
            var again := MigrateAll(schema, source, owner, run.db, specs);
            && (NoClash(source, owner, db, specs) ==> again == Some(run))
            && (again.Some? && again.value.db == run.db <==> NoClash(source, owner, db, specs))
  {
    var run := MigrateAll(schema, source, owner, db, specs).value;
    if NoClash(source, owner, db, specs) {
      CompletedRunArrives(schema, source, owner, db, specs);
      RerunPrefix(schema, source, owner, db, run, specs, |specs|);
      assert specs[..|specs|] == specs;
      if forall i :: 0 <= i < |specs| ==> specs[i].table != Memories {
        assert MapAt(specs, run.idMap) == run.idMap;
      }
    } else if MigrateAll(schema, source, owner, run.db, specs).Some? {
      var m :| 0 <= m < |specs| && specs[m].table == Memories && Clash(TableOf(db, Memories), specs[m], ScopedRows(source, specs[m], owner));
      var first := MemoriesPass(schema, source, owner, db, specs, m);
      var second := MemoriesPass(schema, source, owner, run.db, specs, m);
      RerunUnchangedExactlyWithoutClash(schema, first, specs[m], ScopedRows(source, specs[m], owner), second);
    }
  }
}
