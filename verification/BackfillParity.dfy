/**
 * scripts/lib/postgres-parity.ts: row counts on both sides, and why they agree after
 * a completed backfill into an empty target.
 */
module BackfillParity {
  import opened Outcomes
  import opened Relational
  import opened BackfillModel
  import opened BackfillMemories
  import opened BackfillTables
  import opened BackfillRun

  function SourceCount(source: Source, spec: TableSpec, owner: string): nat {
    |ScopedRows(source, spec, owner)|
  }

  /** The membership subquery on the target: keys of the owner's organizations. */
  function TargetOrganizations(db: Database, owner: string): set<Cell> {
    var t := TableOf(db, Organizations);
    set k | k in t && Col(t[k], OwnerId) == Text(owner) :: Text(k)
  }

  function CountedKeys(db: Database, spec: TableSpec, owner: string): set<string> {
    var t := TableOf(db, spec.table);
    set k | k in t && InScope(t[k], spec.scope, owner, TargetOrganizations(db, owner))
  }

  function TargetCount(db: Database, spec: TableSpec, owner: string): nat {
    |CountedKeys(db, spec, owner)|
  }

  datatype TableParity = TableParity(table: TableName, sourceCount: nat, targetCount: nat, matched: bool)

  /** Both counts of a table, and whether they agree. */
  ghost predicate Reports(p: TableParity, source: Source, db: Database, spec: TableSpec, owner: string) {
    && p.table == spec.table && p.sourceCount == SourceCount(source, spec, owner) && p.targetCount == TargetCount(db, spec, owner)
    && (p.matched <==> p.sourceCount == p.targetCount)
  }

  /** One report a table, in order; ok is exactly agreement of every pair of counts. */
  method VerifyPostgresParity(source: Source, db: Database, owner: string, specs: seq<TableSpec>)
    returns (ok: bool, tables: seq<TableParity>)
    ensures |tables| == |specs| && forall i :: 0 <= i < |specs| ==> Reports(tables[i], source, db, specs[i], owner)
    ensures ok <==> forall i :: 0 <= i < |specs| ==> SourceCount(source, specs[i], owner) == TargetCount(db, specs[i], owner)
  {
    hide SourceCount, TargetCount;
    tables := [];
    ok := true;
    for i := 0 to |specs|
      invariant |tables| == i && forall j :: 0 <= j < i ==> Reports(tables[j], source, db, specs[j], owner)
      invariant ok <==> forall j :: 0 <= j < i ==> SourceCount(source, specs[j], owner) == TargetCount(db, specs[j], owner)
    {
      var sourceCount, targetCount := SourceCount(source, specs[i], owner), TargetCount(db, specs[i], owner);
      tables := tables + [TableParity(specs[i].table, sourceCount, targetCount, sourceCount == targetCount)];
      ok := ok && sourceCount == targetCount;
    }
  }

  /** The scope column of a table is one of its copied columns. */
  ghost predicate ScopeIsCopied(spec: TableSpec) {
    && (spec.scope == ByOwnerColumn ==> OwnerId in spec.columns && spec.primaryKey != OwnerId)
    && (spec.scope == ByOrganization ==> OrganizationId in spec.columns && spec.primaryKey != OrganizationId)
  }

  /** Organizations, which the membership scope refers to, are among the tables and scoped by owner. */
  ghost predicate HasOrganizations(specs: seq<TableSpec>) {
    exists o :: 0 <= o < |specs| && IsOrganizations(specs[o])
  }

  ghost predicate IsOrganizations(spec: TableSpec) {
    spec.table == Organizations && spec.scope == ByOwnerColumn && spec.primaryKey == Id
  }

  /** Every scanned row stands in the target under its own key, with its scope column, and nothing else is there. */
  ghost predicate CopiedInto(t: Table, spec: TableSpec, rows: seq<Row>) {
    && t.Keys == Ids(spec, rows)
    && forall row :: row in rows ==>
         && (spec.scope == ByOwnerColumn ==> Col(t[KeyOf(spec, row)], OwnerId) == Col(row, OwnerId))
         && (spec.scope == ByOrganization ==> Col(t[KeyOf(spec, row)], OrganizationId) == Col(row, OrganizationId))
  }

  lemma RemapKeepsScope(row: Row, idMap: map<string, string>, spec: TableSpec)
    ensures Col(RemapMemoryForeignKeys(row, idMap, spec), OwnerId) == Col(row, OwnerId)
    ensures Col(RemapMemoryForeignKeys(row, idMap, spec), OrganizationId) == Col(row, OrganizationId)
  {
  }

  lemma CarriedIntoEmpty(t: Table, spec: TableSpec, rows: seq<Row>, idMap: map<string, string>)
    requires TableCarried(map[], t, spec, rows, idMap) && ScopeIsCopied(spec)
    ensures CopiedInto(t, spec, rows)
  {
    hide RemapMemoryForeignKeys;
    assert t.Keys == Ids(spec, rows);
    forall row | row in rows
      ensures KeyOf(spec, row) in t
      ensures spec.scope == ByOwnerColumn ==> Col(t[KeyOf(spec, row)], OwnerId) == Col(row, OwnerId)
      ensures spec.scope == ByOrganization ==> Col(t[KeyOf(spec, row)], OrganizationId) == Col(row, OrganizationId)
    {
      var i :| 0 <= i < |rows| && rows[i] == row;
      assert Carried(t, spec, rows[i], idMap);
      RemapKeepsScope(row, idMap, spec);
    }
  }

  lemma MemoriesIntoEmpty(t: Table, spec: TableSpec, rows: seq<Row>, idMap: map<string, string>)
    requires Faithful(map[], t, spec, rows, idMap) && idMap.Keys == Ids(spec, rows) && ScopeIsCopied(spec)
    ensures CopiedInto(t, spec, rows)
  {
    forall row | row in rows
      ensures KeyOf(spec, row) in t && KeyOf(spec, row) in idMap && idMap[KeyOf(spec, row)] == KeyOf(spec, row)
      ensures Synced(t[KeyOf(spec, row)], spec, row)
    {
      var i :| 0 <= i < |rows| && rows[i] == row;
      assert LandsProperly(map[], spec, rows[i], idMap[KeyOf(spec, rows[i])]);
    }
    forall k ensures k in idMap.Values <==> k in Ids(spec, rows) {
      if k in idMap.Values {
        var j :| j in idMap && idMap[j] == k;
        var row :| row in rows && KeyOf(spec, row) == j;
      }
      if k in Ids(spec, rows) {
        assert k in idMap && idMap[k] == k;
      }
    }
  }

  lemma OwnedOrganizations(source: Source, spec: TableSpec, owner: string)
    requires owner != "" && IsOrganizations(spec)
    ensures forall row :: row in ScopedRows(source, spec, owner) <==> row in RowsOf(source, Organizations) && Col(row, OwnerId) == Text(owner)
  {
  }

  /** The owner's organizations are the same set of ids on both sides. */
  lemma SameOrganizations(source: Source, db: Database, spec: TableSpec, owner: string)
    requires owner != "" && IsOrganizations(spec)
    requires DistinctKeys(spec, ScopedRows(source, spec, owner))
    requires CopiedInto(TableOf(db, Organizations), spec, ScopedRows(source, spec, owner))
    ensures TargetOrganizations(db, owner) == OrganizationsOf(RowsOf(source, Organizations), owner)
  {
    var rows, t := ScopedRows(source, spec, owner), TableOf(db, Organizations);
    OwnedOrganizations(source, spec, owner);
    hide ScopedRows, TableOf;
    OrganizationsGoBack(source, t, spec, owner);
    forall c | c in OrganizationsOf(RowsOf(source, Organizations), owner) ensures c in TargetOrganizations(db, owner) {
      var row :| row in RowsOf(source, Organizations) && Col(row, OwnerId) == Text(owner) && Col(row, Id) == c;
      assert row in rows;
      assert KeyOf(spec, row) in Ids(spec, rows);
    }
  }

  lemma OrganizationsGoBack(source: Source, t: Table, spec: TableSpec, owner: string)
    requires owner != "" && IsOrganizations(spec)
    requires DistinctKeys(spec, ScopedRows(source, spec, owner))
    requires CopiedInto(t, spec, ScopedRows(source, spec, owner))
    ensures forall k :: k in t && Col(t[k], OwnerId) == Text(owner) ==> Text(k) in OrganizationsOf(RowsOf(source, Organizations), owner)
  {
    var rows := ScopedRows(source, spec, owner);
    OwnedOrganizations(source, spec, owner);
    hide ScopedRows;
    forall k | k in t && Col(t[k], OwnerId) == Text(owner) ensures Text(k) in OrganizationsOf(RowsOf(source, Organizations), owner) {
      var row :| row in rows && KeyOf(spec, row) == k;
      var i :| 0 <= i < |rows| && rows[i] == row;
      assert Col(row, Id) == Text(k);
    }
  }

  lemma {:induction false} DistinctIdsCount(spec: TableSpec, rows: seq<Row>)
    requires DistinctKeys(spec, rows)
    ensures |Ids(spec, rows)| == |rows|
  {
    if rows != [] {
      var n := |rows| - 1;
      SplitLast(rows);
      KeysApart(spec, rows);
      DistinctIdsCount(spec, rows[..n]);
      IdsGrow(spec, rows[..n], rows[n]);
      assert KeyOf(spec, rows[n]) !in Ids(spec, rows[..n]);
    }
  }

  lemma CountsAgree(source: Source, db: Database, spec: TableSpec, owner: string)
    requires DistinctKeys(spec, ScopedRows(source, spec, owner))
    requires CopiedInto(TableOf(db, spec.table), spec, ScopedRows(source, spec, owner))
    requires owner != "" && spec.scope == ByOrganization ==>
               TargetOrganizations(db, owner) == OrganizationsOf(RowsOf(source, Organizations), owner)
    ensures SourceCount(source, spec, owner) == TargetCount(db, spec, owner)
  {
    var rows, t := ScopedRows(source, spec, owner), TableOf(db, spec.table);
    DistinctIdsCount(spec, rows);
    forall k | k in t ensures InScope(t[k], spec.scope, owner, TargetOrganizations(db, owner)) {
      var row :| row in rows && KeyOf(spec, row) == k;
    }
    assert CountedKeys(db, spec, owner) == t.Keys;
  }

  /** Where the counts agree, they no longer do when one counted row of the target is missing, or one more is there. */
  lemma ParityNoticesOneRow(source: Source, db: Database, spec: TableSpec, owner: string, k: string, row: Row)
    requires spec.table != Organizations && SourceCount(source, spec, owner) == TargetCount(db, spec, owner)
    ensures k in CountedKeys(db, spec, owner) ==>
              SourceCount(source, spec, owner) != TargetCount(db[spec.table := TableOf(db, spec.table) - {k}], spec, owner)
    ensures k !in TableOf(db, spec.table) && InScope(row, spec.scope, owner, TargetOrganizations(db, owner)) ==>
              SourceCount(source, spec, owner) != TargetCount(db[spec.table := TableOf(db, spec.table)[k := row]], spec, owner)
  {
    var t := TableOf(db, spec.table);
    hide InScope, ScopedRows;
    if k in CountedKeys(db, spec, owner) {
      var less := db[spec.table := t - {k}];
      assert TableOf(less, Organizations) == TableOf(db, Organizations);
      assert CountedKeys(less, spec, owner) == CountedKeys(db, spec, owner) - {k};
    }
    if k !in t && InScope(row, spec.scope, owner, TargetOrganizations(db, owner)) {
      var more := db[spec.table := t[k := row]];
      assert TableOf(more, Organizations) == TableOf(db, Organizations);
      assert CountedKeys(more, spec, owner) == CountedKeys(db, spec, owner) + {k};
    }
  }

  /** Without an owner the source's count is that of all rows of the table. */
  lemma SourceCountExactly(source: Source, spec: TableSpec, owner: string)
    ensures owner == "" || spec.scope == Everything ==> SourceCount(source, spec, owner) == |RowsOf(source, spec.table)|
  {
    ScopeMeaning(source, spec, owner);
  }

  /** A completed run into an empty target passes the parity check on every table. */
  lemma EmptyTargetReachesParity(schema: Schema, source: Source, owner: string, db: Database, specs: seq<TableSpec>)
    requires EnforcesMemoryKeys(schema) && db in schema.accepted
    requires WellOrdered(specs) && ValidSource(source, owner, specs) && HasOrganizations(specs)
    requires forall i :: 0 <= i < |specs| ==> ScopeIsCopied(specs[i]) && TableOf(db, specs[i].table) == map[]
    requires MigrateAll(schema, source, owner, db, specs).Some?
    ensures var run := MigrateAll(schema, source, owner, db, specs).value;
            forall i :: 0 <= i < |specs| ==> SourceCount(source, specs[i], owner) == TargetCount(run.db, specs[i], owner)
  {
    hide SourceCount, TargetCount, TargetOrganizations, OrganizationsOf;
    var run := MigrateAll(schema, source, owner, db, specs).value;
    assert NoClash(source, owner, db, specs) by {
      forall i | 0 <= i < |specs| && specs[i].table == Memories
        ensures !Clash(TableOf(db, Memories), specs[i], ScopedRows(source, specs[i], owner))
      {
        assert TableOf(db, specs[i].table) == map[];
      }
    }
    CompletedRunArrives(schema, source, owner, db, specs);
    forall i | 0 <= i < |specs|
      ensures DistinctKeys(specs[i], ScopedRows(source, specs[i], owner))
      ensures CopiedInto(TableOf(run.db, specs[i].table), specs[i], ScopedRows(source, specs[i], owner))
    {
      TableIsCopied(source, owner, db, run, specs, i);
    }
    var o :| 0 <= o < |specs| && IsOrganizations(specs[o]);
    if owner != "" {
      SameOrganizations(source, run.db, specs[o], owner);
    }
    forall i | 0 <= i < |specs| ensures SourceCount(source, specs[i], owner) == TargetCount(run.db, specs[i], owner) {
      CountsAgree(source, run.db, specs[i], owner);
    }
  }

  lemma TableIsCopied(source: Source, owner: string, db: Database, run: MemoryRun, specs: seq<TableSpec>, i: nat)
    requires i < |specs| && WellOrdered(specs) && ValidSource(source, owner, specs) && AllArrived(source, owner, db, run, specs)
    requires ScopeIsCopied(specs[i]) && TableOf(db, specs[i].table) == map[]
    ensures DistinctKeys(specs[i], ScopedRows(source, specs[i], owner))
    ensures CopiedInto(TableOf(run.db, specs[i].table), specs[i], ScopedRows(source, specs[i], owner))
  {
    var spec, rows := specs[i], ScopedRows(source, specs[i], owner);
    assert Arrived(source, owner, db, run.db, spec, run.idMap);
    if spec.table == Memories {
      assert ValidMemories(spec, rows);
      forall j, k | 0 <= j < k < |rows| ensures KeyOf(spec, rows[j]) != KeyOf(spec, rows[k]) {
        assert Apart(spec, rows[j], rows[k]);
      }
      MemoriesIntoEmpty(TableOf(run.db, spec.table), spec, rows, run.idMap);
    } else {
      CarriedIntoEmpty(TableOf(run.db, spec.table), spec, rows, run.idMap);
    }
  }

  /** The shipped table list meets what the parity theorem asks of it. */
  lemma TableListSupportsParity()
    ensures HasOrganizations(METADATA_BACKFILL_TABLES)
    ensures forall i :: 0 <= i < |METADATA_BACKFILL_TABLES| ==> ScopeIsCopied(METADATA_BACKFILL_TABLES[i])
  {
    hide ColumnsOf;
    TableListIsWellOrdered();
    TablesAreDistinct();
    assert IsOrganizations(METADATA_BACKFILL_TABLES[0]);
    ScopesAreCopied();
  }

  lemma ScopesAreCopied()
    ensures forall t: TableName :: ScopeIsCopied(SpecOf(t))
  {
  }
}
