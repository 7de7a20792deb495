/**
 * The paging loops of scripts/lib/d1-to-postgres-backfill.ts against a mutable target,
 * and the table list they run over.
 */
module BackfillRun {
  import opened Outcomes
  import opened Relational
  import opened BackfillModel
  import opened BackfillMemories
  import opened BackfillTables
  import opened BackfillGraph

  function ColumnsOf(table: TableName): set<Column> {
    match table
    case Organizations => {Id, OwnerId, Plain("name"), Slug, Plain("created_at")}
    case Workspaces => {Id, OwnerId, Plain("name"), Slug, Plain("created_at"), OrganizationId}
    case Clients =>
      {Id, Plain("name"), Plain("type"), Plain("description"), Plain("metadata"), OwnerId,
       Plain("created_at"), Plain("active")}
    case Identities =>
      {Id, Plain("type"), Plain("name"), Plain("secret_hash"), OwnerId, Plain("description"),
       Plain("metadata"), Plain("client_id"), Plain("created_by"), Plain("created_at"),
       Plain("last_used_at"), Plain("expires_at"), Plain("revoked_at"), Plain("active")}
    case AuthAccounts =>
      {Id, Plain("email"), Plain("password_hash"), Plain("display_name"), OwnerId, Plain("identity_id"),
       Plain("created_at"), Plain("last_login_at"), Plain("active")}
    case AuthLoginAttempts =>
      {Plain("email"), Plain("failed_count"), Plain("locked_until"), Plain("last_attempt_at"),
       Plain("last_ip")}
    case Agents =>
      {Id, Plain("workspace_id"), OwnerId, Plain("name"), Plain("client_id"), Plain("agent_type"),
       Plain("metadata"), Plain("created_at"), Plain("active")}
    case Memories =>
      {Id, Plain("title"), Plain("project"), Plain("content"), Plain("summary"), Plain("tags"),
       Plain("favorite"), Plain("archived"), OwnerId, Codename, Slug, Plain("keywords"), Plain("category"),
       Plain("memory_type"), Plain("importance"), Plain("language"), Plain("notes"), Plain("project_id"),
       Plain("level"), Plain("last_accessed"), Plain("access_count"), Plain("embedding_id"),
       Plain("object_key"), Plain("semantic_hash"), Plain("workspace_id"),
       Plain("last_modified_by_agent_id"), Plain("created_at"), Plain("updated_at")}
    case MemoryEmbeddings =>
      {Id, MemoryId, OwnerId, Plain("model_id"), Plain("dimensions"), Plain("vector_json"),
       Plain("content_hash"), Plain("created_at"), Plain("updated_at")}
    case MemoryRelations =>
      {Id, SourceMemoryId, TargetMemoryId, Plain("relation"), OwnerId, Plain("weight"),
       Plain("confidence"), Plain("created_by"), Plain("source_type"), Plain("metadata"),
       Plain("created_at")}
    case WorkspaceMemberships =>
      {Id, OrganizationId, Plain("workspace_id"), Plain("identity_id"), Plain("role"),
       Plain("created_at")}
    case AuditLogs =>
      {Id, Plain("event"), Plain("identity_id"), OwnerId, Plain("client_id"), Plain("resource"),
       Plain("resource_id"), Plain("request_id"), Plain("ip_address"), Plain("user_agent"),
       Plain("metadata"), Plain("created_at")}
    case Settings => {Plain("key"), Plain("value")}
  }

  function PrimaryKeyOf(table: TableName): Column {
    match table
    case AuthLoginAttempts => Plain("email")
    case Settings => Plain("key")
    case _ => Id
  }

  function ScopeOf(table: TableName): OwnerScope {
    match table
    case AuthLoginAttempts => Everything
    case Settings => Everything
    case WorkspaceMemberships => ByOrganization
    case _ => ByOwnerColumn
  }

  function SpecOf(table: TableName): TableSpec {
    TableSpec(table, PrimaryKeyOf(table), ColumnsOf(table), ScopeOf(table))
  }

  /** The order of METADATA_BACKFILL_TABLES. */
  const TABLE_ORDER: seq<TableName> := [
    Organizations, Workspaces, Clients, Identities, AuthAccounts, AuthLoginAttempts, Agents,
    Memories, MemoryEmbeddings, MemoryRelations, WorkspaceMemberships, AuditLogs, Settings
  ]

  function SpecsOf(tables: seq<TableName>): (specs: seq<TableSpec>)
    ensures |specs| == |tables|
    ensures forall i :: 0 <= i < |specs| ==> specs[i] == SpecOf(tables[i])
  {
    seq(|tables|, i requires 0 <= i < |tables| => SpecOf(tables[i]))
  }

  const METADATA_BACKFILL_TABLES: seq<TableSpec> := SpecsOf(TABLE_ORDER)

  /** Memories carry both arbiter keys, and the two dependent tables carry their foreign keys. */
  lemma SpecsAreComplete()
    ensures MemoryTable(SpecOf(Memories))
    ensures MemoryId in SpecOf(MemoryEmbeddings).columns
    ensures SourceMemoryId in SpecOf(MemoryRelations).columns && TargetMemoryId in SpecOf(MemoryRelations).columns
    ensures forall t: TableName :: KeyIsNotForeign(SpecOf(t))
  {
  }

  lemma TablesAreDistinct()
    ensures forall i, j :: 0 <= i < j < |TABLE_ORDER| ==> TABLE_ORDER[i] != TABLE_ORDER[j]
    ensures TABLE_ORDER[7] == Memories && TABLE_ORDER[8] == MemoryEmbeddings && TABLE_ORDER[9] == MemoryRelations
    ensures |TABLE_ORDER| == 13 && TABLE_ORDER[0] == Organizations
  {
  }

  /** The order in the source is safe: memories come before the tables that point at them. */
  lemma TableListIsWellOrdered()
    ensures WellOrdered(METADATA_BACKFILL_TABLES)
    ensures forall i :: 0 <= i < |METADATA_BACKFILL_TABLES| ==> METADATA_BACKFILL_TABLES[i] == SpecOf(TABLE_ORDER[i])
    ensures METADATA_BACKFILL_TABLES[7] == SpecOf(Memories)
    ensures METADATA_BACKFILL_TABLES[8] == SpecOf(MemoryEmbeddings)
    ensures METADATA_BACKFILL_TABLES[9] == SpecOf(MemoryRelations)
  {
    hide ColumnsOf, ScopeOf, PrimaryKeyOf, KeyIsNotForeign, MemoryTable;
    SpecsAreComplete();
    TablesAreDistinct();
    OrderedBecause(TABLE_ORDER, METADATA_BACKFILL_TABLES, 7);
  }

  lemma OrderedBecause(tables: seq<TableName>, specs: seq<TableSpec>, m: nat)
    requires |specs| == |tables| && forall i :: 0 <= i < |specs| ==> specs[i] == SpecOf(tables[i])
    requires forall i, j :: 0 <= i < j < |tables| ==> tables[i] != tables[j]
    requires m + 2 < |tables| && tables[m] == Memories && tables[m + 1] == MemoryEmbeddings && tables[m + 2] == MemoryRelations
    requires MemoryTable(SpecOf(Memories)) && forall t: TableName :: KeyIsNotForeign(SpecOf(t))
    ensures WellOrdered(specs)
  {
    hide ColumnsOf, ScopeOf, PrimaryKeyOf, KeyIsNotForeign, MemoryTable;
    forall i | 0 <= i < |specs| ensures specs[i].table == tables[i] && KeyIsNotForeign(specs[i]) {
    }
  }

  datatype TableBackfillStats = TableBackfillStats(table: TableName, scanned: nat, upserted: nat)

  datatype MemoriesResult = MemoriesResult(stats: TableBackfillStats, idMap: map<string, string>)

  /** The target database: its tables, changed in place by accepted writes only. */
  class Target {
    const schema: Schema
    var db: Database

    ghost predicate Valid()
      reads this
    {
      EnforcesMemoryKeys(schema) && db in schema.accepted
    }

    constructor (schema: Schema, db: Database)
      requires EnforcesMemoryKeys(schema) && db in schema.accepted
      ensures Valid() && this.schema == schema && this.db == db
    {
      this.schema := schema;
      this.db := db;
    }

    method ExecuteMemoryUpsert(spec: TableSpec, row: Row) returns (id: Option<string>)
      requires Valid() && MemoryTable(spec)
      modifies this`db
      ensures Valid()
      ensures id.None? ==> db == old(db)
      ensures id.Some? ==>
                var t, t' := TableOf(old(db), spec.table), TableOf(db, spec.table);
                && Step(spec, t, row, id.value, t') && KeepsOwnKey(spec, t, row, id.value, t')
                && forall name :: name != spec.table ==> TableOf(db, name) == TableOf(old(db), name)
      ensures match UpsertMemory(schema, old(db), spec, row)
              case None => id == None
              case Some(write) => id == Some(write.id) && db == write.db
    {
      hide Step, KeepsOwnKey, UpsertMemory, EnforcesMemoryKeys, TableOf;
      EnforcedHere(schema, db, spec);
      if UpsertMemory(schema, db, spec, row).Some? {
        UpsertMemoryStep(schema, db, spec, row);
        UpsertKeepsOwnKey(schema, db, spec, row);
      }
      var outcome := UpsertMemory(schema, db, spec, row);
      match outcome {
        case None => id := None;
        case Some(write) =>
          db := write.db;
          id := Some(write.id);
      }
    }

    method ExecuteUpsert(spec: TableSpec, row: Row) returns (done: bool)
      requires Valid()
      modifies this`db
      ensures Valid()
      ensures done == UpsertRow(schema, old(db), spec, row).Some?
      ensures db == if done then UpsertRow(schema, old(db), spec, row).value else old(db)
    {
      var outcome := UpsertRow(schema, db, spec, row);
      done := outcome.Some?;
      if done {
        db := outcome.value;
      }
    }
  }

  lemma {:induction false} FailureIsFinal(schema: Schema, db: Database, spec: TableSpec, rows: seq<Row>, n: nat)
    requires EnforcesMemoryKeys(schema) && db in schema.accepted && MemoryTable(spec) && n <= |rows|
    requires MigrateMemories(schema, db, spec, rows[..n]).None?
    ensures MigrateMemories(schema, db, spec, rows).None?
  {
    if n == |rows| {
      assert rows[..n] == rows;
    } else {
      assert rows[..|rows| - 1][..n] == rows[..n];
      FailureIsFinal(schema, db, spec, rows[..|rows| - 1], n);
    }
  }

  lemma {:induction false} TableFailureIsFinal(schema: Schema, db: Database, spec: TableSpec, rows: seq<Row>, idMap: map<string, string>, n: nat)
    requires db in schema.accepted && n <= |rows|
    requires MigrateTable(schema, db, spec, rows[..n], idMap).None?
    ensures MigrateTable(schema, db, spec, rows, idMap).None?
  {
    if n == |rows| {
      assert rows[..n] == rows;
    } else {
      assert rows[..|rows| - 1][..n] == rows[..n];
      TableFailureIsFinal(schema, db, spec, rows[..|rows| - 1], idMap, n);
    }
  }

  lemma NothingYet(schema: Schema, db: Database, spec: TableSpec, rows: seq<Row>, idMap: map<string, string>)
    requires db in schema.accepted
    ensures MigrateTable(schema, db, spec, rows[..0], idMap) == Some(db)
    ensures EnforcesMemoryKeys(schema) && MemoryTable(spec) ==>
              MigrateMemories(schema, db, spec, rows[..0]) == Some(MemoryRun(db, map[]))
  {
  }

  lemma NextMemory(schema: Schema, db: Database, spec: TableSpec, rows: seq<Row>, n: nat)
    requires EnforcesMemoryKeys(schema) && db in schema.accepted && MemoryTable(spec) && n < |rows|
    requires MigrateMemories(schema, db, spec, rows[..n]).Some?
    ensures var before := MigrateMemories(schema, db, spec, rows[..n]).value;
            MigrateMemories(schema, db, spec, rows[..n + 1]) ==
              match UpsertMemory(schema, before.db, spec, rows[n])
              case None => None
              case Some(write) => Some(MemoryRun(write.db, before.idMap[KeyOf(spec, rows[n]) := write.id]))
  {
    assert rows[..n + 1][..n] == rows[..n];
  }

  lemma NextRow(schema: Schema, db: Database, spec: TableSpec, rows: seq<Row>, idMap: map<string, string>, n: nat)
    requires db in schema.accepted && n < |rows|
    requires MigrateTable(schema, db, spec, rows[..n], idMap).Some?
    ensures MigrateTable(schema, db, spec, rows[..n + 1], idMap) ==
              UpsertRow(schema, MigrateTable(schema, db, spec, rows[..n], idMap).value, spec,
                        RemapMemoryForeignKeys(rows[n], idMap, spec))
  {
    assert rows[..n + 1][..n] == rows[..n];
  }

  /** A page is the next stretch of rows: full, or the last one. */
  lemma PageIsNext(rows: seq<Row>, batchSize: nat, offset: nat)
    requires offset <= |rows|
    ensures var page := Fetch(rows, batchSize, offset);
            && offset + |page| <= |rows|
            && (forall k :: 0 <= k < |page| ==> page[k] == rows[offset + k])
            && (batchSize > 0 && |page| < batchSize ==> offset + |page| == |rows|)
            && (batchSize == 0 && offset == 0 ==> |page| == 0)
  {
  }

  lemma Exhausted(rows: seq<Row>, batchSize: nat, offset: nat)
    requires offset <= |rows| && (if batchSize == 0 then offset == 0 else offset == |rows|)
    ensures rows[..offset] == Visible(rows, batchSize)
  {
  }

  lemma IdentityOfNothing(spec: TableSpec, rows: seq<Row>)
    ensures IdentityOn(spec, rows[..0]) == map[]
  {
  }

  lemma IdentityGrows(spec: TableSpec, rows: seq<Row>, n: nat)
    requires n < |rows|
    ensures IdentityOn(spec, rows[..n + 1]) == IdentityOn(spec, rows[..n])[KeyOf(spec, rows[n]) := KeyOf(spec, rows[n])]
  {
    assert rows[..n + 1] == rows[..n] + [rows[n]];
    IdsGrow(spec, rows[..n], rows[n]);
  }

  ghost function IdentityOn(spec: TableSpec, rows: seq<Row>): map<string, string> {
    map k | k in Ids(spec, rows) :: k
  }

  /** What a loop over pages gets to see: every row, or nothing when LIMIT is 0. */
  ghost function Visible(rows: seq<Row>, batchSize: nat): seq<Row> {
    if batchSize == 0 then [] else rows
  }

  /**
   * The memories loop: whatever the page size, each scoped row is read once and in
   * order, so the pass is the fold over all of them; a dry run leaves the target alone.
   */
  method BackfillMemoriesTable(rows: seq<Row>, target: Target, spec: TableSpec, batchSize: nat, dryRun: bool)
    returns (result: Option<MemoriesResult>)
    requires target.Valid() && MemoryTable(spec)
    modifies target`db
    ensures target.Valid()
    ensures dryRun ==>
              var all := Visible(rows, batchSize);
              && target.db == old(target.db)
              && result == Some(MemoriesResult(TableBackfillStats(Memories, |all|, 0), IdentityOn(spec, all)))
    ensures !dryRun ==>
              var all := Visible(rows, batchSize);
              match MigrateMemories(target.schema, old(target.db), spec, all)
              case None => result == None
              case Some(run) =>
                target.db == run.db && result == Some(MemoriesResult(TableBackfillStats(Memories, |all|, |all|), run.idMap))
  {
    hide UpsertMemory, MigrateMemories, IdentityOn, EnforcesMemoryKeys, KeyOf, Fetch;
    NothingYet(target.schema, target.db, spec, rows, map[]);
    IdentityOfNothing(spec, rows);
    var scanned, upserted := 0, 0;
    var idMap: map<string, string> := map[];
    var offset := 0;
    while true
      invariant target.Valid() && offset <= |rows| && scanned == offset
      invariant upserted == if dryRun then 0 else offset
      invariant dryRun ==> target.db == old(target.db) && idMap == IdentityOn(spec, rows[..offset])
      invariant !dryRun ==> MigrateMemories(target.schema, old(target.db), spec, rows[..offset]) == Some(MemoryRun(target.db, idMap))
      invariant batchSize == 0 ==> offset == 0
      decreases |rows| - offset
    {
      PageIsNext(rows, batchSize, offset);
      var page := Fetch(rows, batchSize, offset);
      if |page| == 0 {
        break;
      }
      for k := 0 to |page|
        invariant target.Valid() && scanned == offset + k
        invariant upserted == if dryRun then 0 else offset + k
        invariant dryRun ==> target.db == old(target.db) && idMap == IdentityOn(spec, rows[..offset + k])
        invariant !dryRun ==> MigrateMemories(target.schema, old(target.db), spec, rows[..offset + k]) == Some(MemoryRun(target.db, idMap))
      {
        scanned := scanned + 1;
        var sourceId := KeyOf(spec, page[k]);
        if dryRun {
          IdentityGrows(spec, rows, offset + k);
          idMap := idMap[sourceId := sourceId];
          continue;
        }
        NextMemory(target.schema, old(target.db), spec, rows, offset + k);
        var targetId := target.ExecuteMemoryUpsert(spec, page[k]);
        if targetId.None? {
          FailureIsFinal(target.schema, old(target.db), spec, rows, offset + k + 1);
          return None;
        }
        idMap := idMap[sourceId := targetId.value];
        upserted := upserted + 1;
      }
      offset := offset + |page|;
      if |page| < batchSize {
        break;
      }
    }
    Exhausted(rows, batchSize, offset);
    result := Some(MemoriesResult(TableBackfillStats(Memories, scanned, upserted), idMap));
  }

  /** The loop of every other table, with the same paging. */
  method BackfillTable(rows: seq<Row>, target: Target, spec: TableSpec, batchSize: nat, dryRun: bool, idMap: map<string, string>)
    returns (result: Option<TableBackfillStats>)
    requires target.Valid()
    modifies target`db
    ensures target.Valid()
    ensures dryRun ==>
              && target.db == old(target.db)
              && result == Some(TableBackfillStats(spec.table, |Visible(rows, batchSize)|, 0))
    ensures !dryRun ==>
              var all := Visible(rows, batchSize);
              match MigrateTable(target.schema, old(target.db), spec, all, idMap)
              case None => result == None
              case Some(after) => target.db == after && result == Some(TableBackfillStats(spec.table, |all|, |all|))
  {
    hide UpsertRow, MigrateTable, EnforcesMemoryKeys, RemapMemoryForeignKeys, Fetch;
    NothingYet(target.schema, target.db, spec, rows, idMap);
    var scanned, upserted := 0, 0;
    var offset := 0;
    while true
      invariant target.Valid() && offset <= |rows| && scanned == offset
      invariant upserted == if dryRun then 0 else offset
      invariant dryRun ==> target.db == old(target.db)
      invariant !dryRun ==> MigrateTable(target.schema, old(target.db), spec, rows[..offset], idMap) == Some(target.db)
      invariant batchSize == 0 ==> offset == 0
      decreases |rows| - offset
    {
      PageIsNext(rows, batchSize, offset);
      var page := Fetch(rows, batchSize, offset);
      if |page| == 0 {
        break;
      }
      for k := 0 to |page|
        invariant target.Valid() && scanned == offset + k
        invariant upserted == if dryRun then 0 else offset + k
        invariant dryRun ==> target.db == old(target.db)
        invariant !dryRun ==> MigrateTable(target.schema, old(target.db), spec, rows[..offset + k], idMap) == Some(target.db)
      {
        scanned := scanned + 1;
        if dryRun {
          continue;
        }
        NextRow(target.schema, old(target.db), spec, rows, idMap, offset + k);
        var done := target.ExecuteUpsert(spec, RemapMemoryForeignKeys(page[k], idMap, spec));
        if !done {
          TableFailureIsFinal(target.schema, old(target.db), spec, rows, idMap, offset + k + 1);
          return None;
        }
        upserted := upserted + 1;
      }
      offset := offset + |page|;
      if |page| < batchSize {
        break;
      }
    }
    Exhausted(rows, batchSize, offset);
    result := Some(TableBackfillStats(spec.table, scanned, upserted));
  }

  lemma {:induction false} RunFailureIsFinal(schema: Schema, source: Source, owner: string, db: Database, specs: seq<TableSpec>, n: nat)
    requires EnforcesMemoryKeys(schema) && db in schema.accepted && KnownMemoryTable(specs) && n <= |specs|
    requires MigrateAll(schema, source, owner, db, specs[..n]).None?
    ensures MigrateAll(schema, source, owner, db, specs).None?
  {
    if n == |specs| {
      assert specs[..n] == specs;
    } else {
      assert specs[..|specs| - 1][..n] == specs[..n];
      RunFailureIsFinal(schema, source, owner, db, specs[..|specs| - 1], n);
    }
  }

  ghost predicate CountsEveryRow(source: Source, owner: string, specs: seq<TableSpec>, tables: seq<TableBackfillStats>, dryRun: bool) {
    && |tables| == |specs|
    && forall i :: 0 <= i < |specs| ==>
         var n := |ScopedRows(source, specs[i], owner)|;
         tables[i] == TableBackfillStats(specs[i].table, n, if dryRun then 0 else n)
  }

  /** The whole backfill: a fold over the tables, statistics that count each row once, no write when dry. */
  method BackfillD1ToPostgres(source: Source, target: Target, owner: string, batchSize: nat, dryRun: bool, specs: seq<TableSpec>)
    returns (result: Option<seq<TableBackfillStats>>)
    requires target.Valid() && KnownMemoryTable(specs) && batchSize > 0
    modifies target`db
    ensures target.Valid()
    ensures result.Some? ==> CountsEveryRow(source, owner, specs, result.value, dryRun)
    ensures dryRun ==> result.Some? && target.db == old(target.db)
    ensures !dryRun ==>
              match MigrateAll(target.schema, source, owner, old(target.db), specs)
              case None => result == None
              case Some(run) => result.Some? && target.db == run.db
  {
    hide MigrateAll, MigrateMemories, MigrateTable, ScopedRows, EnforcesMemoryKeys;
    NoTableYet(target.schema, source, owner, target.db, specs);
    var tables: seq<TableBackfillStats> := [];
    var memoryIdMap: map<string, string> := map[];
    for n := 0 to |specs|
      invariant target.Valid()
      invariant CountsEveryRow(source, owner, specs[..n], tables, dryRun)
      invariant dryRun ==> target.db == old(target.db)
      invariant !dryRun ==> MigrateAll(target.schema, source, owner, old(target.db), specs[..n]) == Some(MemoryRun(target.db, memoryIdMap))
    {
      if !dryRun {
        NextTable(target.schema, source, owner, old(target.db), specs, n);
      }
      if specs[n].table == Memories {
        var pass := BackfillMemoriesTable(ScopedRows(source, specs[n], owner), target, specs[n], batchSize, dryRun);
        if pass.None? {
          RunFailureIsFinal(target.schema, source, owner, old(target.db), specs, n + 1);
          return None;
        }
        memoryIdMap := pass.value.idMap;
        tables := tables + [pass.value.stats];
      } else {
        var stats := BackfillTable(ScopedRows(source, specs[n], owner), target, specs[n], batchSize, dryRun, memoryIdMap);
        if stats.None? {
          RunFailureIsFinal(target.schema, source, owner, old(target.db), specs, n + 1);
          return None;
        }
        tables := tables + [stats.value];
      }
    }
    assert specs[..|specs|] == specs;
    result := Some(tables);
  }

  // ---------------------------------------------------------------- a merge, concretely

  const EXAMPLE_SPEC := TableSpec(Memories, Id, {Id, OwnerId, Codename, Slug}, ByOwnerColumn)
  const HELD := Row(map[Id := Text("b"), OwnerId := Text("o"), Codename := Text("NOTE-1"), Slug := Null])
  const NAMED := Row(map[Id := Text("a"), OwnerId := Text("o"), Codename := Text("NOTE-1"), Slug := Null])
  const NAMELESS := Row(map[Id := Text("b"), OwnerId := Text("o"), Codename := Null, Slug := Null])
  const EXAMPLE_TARGET: Database := map[Memories := map["b" := HELD]]
  ghost const EXAMPLE_SCHEMA := Schema(map[], iset db: Database | UniqueMemoryKeys(TableOf(db, Memories)))

  lemma ExampleClashes()
    ensures MemoryTable(EXAMPLE_SPEC) && ValidMemories(EXAMPLE_SPEC, [NAMED, NAMELESS])
    ensures Clash(TableOf(EXAMPLE_TARGET, Memories), EXAMPLE_SPEC, [NAMED, NAMELESS])
    ensures EnforcesMemoryKeys(EXAMPLE_SCHEMA) && EXAMPLE_TARGET in EXAMPLE_SCHEMA.accepted
  {
    var rows := [NAMED, NAMELESS];
    assert Shadows(TableOf(EXAMPLE_TARGET, Memories), EXAMPLE_SPEC, rows[0], rows[1]);
    assert ClashAt(TableOf(EXAMPLE_TARGET, Memories), EXAMPLE_SPEC, rows, 0, 1);
  }

  lemma ExampleCompletes()
    requires EnforcesMemoryKeys(EXAMPLE_SCHEMA) && EXAMPLE_TARGET in EXAMPLE_SCHEMA.accepted && MemoryTable(EXAMPLE_SPEC)
    ensures MigrateMemories(EXAMPLE_SCHEMA, EXAMPLE_TARGET, EXAMPLE_SPEC, [NAMED, NAMELESS]).Some?
  {
    var first := LandsOnOnlyRow(EXAMPLE_SCHEMA, EXAMPLE_TARGET, EXAMPLE_SPEC, NAMED, "b");
    var second := LandsOnOnlyRow(EXAMPLE_SCHEMA, first, EXAMPLE_SPEC, NAMELESS, "b");
    var rows := [NAMED, NAMELESS];
    hide UpsertMemory, MigrateMemories, EnforcesMemoryKeys, UniqueMemoryKeys, MemoryTable, KeyOf;
    NothingYet(EXAMPLE_SCHEMA, EXAMPLE_TARGET, EXAMPLE_SPEC, rows, map[]);
    NextMemory(EXAMPLE_SCHEMA, EXAMPLE_TARGET, EXAMPLE_SPEC, rows, 0);
    NextMemory(EXAMPLE_SCHEMA, EXAMPLE_TARGET, EXAMPLE_SPEC, rows, 1);
    assert rows[..2] == rows;
  }

  /**
   * Two source memories become one: a named row, then a nameless row whose id the target
   * gave to that name. The run completes, and maps both to the same target row.
   */
  lemma MergeExample()
    ensures MemoryTable(EXAMPLE_SPEC) && ValidMemories(EXAMPLE_SPEC, [NAMED, NAMELESS])
    ensures EnforcesMemoryKeys(EXAMPLE_SCHEMA) && EXAMPLE_TARGET in EXAMPLE_SCHEMA.accepted
    ensures var run := MigrateMemories(EXAMPLE_SCHEMA, EXAMPLE_TARGET, EXAMPLE_SPEC, [NAMED, NAMELESS]);
            run.Some? && !OneToOne(EXAMPLE_SPEC, [NAMED, NAMELESS], run.value.idMap)
  {
    ExampleClashes();
    hide MigrateMemories, EnforcesMemoryKeys, ValidMemories, Clash, OneToOne, UniqueMemoryKeys, MemoryTable;
    ExampleCompletes();
    ClashMerges(EXAMPLE_SCHEMA, EXAMPLE_TARGET, EXAMPLE_SPEC, [NAMED, NAMELESS]);
  }

  // ---------------------------------------------------------------- an end that is taken for another memory, concretely

  const LINK_SPEC := TableSpec(MemoryRelations, Id, {Id, OwnerId, SourceMemoryId, TargetMemoryId}, ByOwnerColumn)
  const ELSEWHERE := Row(map[Id := Text("b"), OwnerId := Text("p"), Codename := Null, Slug := Null])
  const LINK := Row(map[Id := Text("r"), OwnerId := Text("o"), SourceMemoryId := Text("a"), TargetMemoryId := Text("b")])
  const LINK_SOURCE: Source := map[Memories := [NAMED, ELSEWHERE], MemoryRelations := [LINK]]

  lemma LinkScope()
    ensures ScopedRows(LINK_SOURCE, EXAMPLE_SPEC, "o") == [NAMED] && ScopedRows(LINK_SOURCE, LINK_SPEC, "o") == [LINK]
  {
    assert [NAMED, ELSEWHERE][1..] == [ELSEWHERE] && [ELSEWHERE][1..] == [] && [LINK][1..] == [];
    assert Scoped([ELSEWHERE], ByOwnerColumn, "o", OrganizationsOf(RowsOf(LINK_SOURCE, Organizations), "o")) == [];
  }

  lemma LinkMemories() returns (after: Database)
    requires EnforcesMemoryKeys(EXAMPLE_SCHEMA) && EXAMPLE_TARGET in EXAMPLE_SCHEMA.accepted && MemoryTable(EXAMPLE_SPEC)
    ensures after in EXAMPLE_SCHEMA.accepted
    ensures MigrateMemories(EXAMPLE_SCHEMA, EXAMPLE_TARGET, EXAMPLE_SPEC, [NAMED]) == Some(MemoryRun(after, map["a" := "b"]))
  {
    after := LandsOnOnlyRow(EXAMPLE_SCHEMA, EXAMPLE_TARGET, EXAMPLE_SPEC, NAMED, "b");
    hide UpsertMemory, MigrateMemories, EnforcesMemoryKeys, UniqueMemoryKeys, MemoryTable;
    NothingYet(EXAMPLE_SCHEMA, EXAMPLE_TARGET, EXAMPLE_SPEC, [NAMED], map[]);
    NextMemory(EXAMPLE_SCHEMA, EXAMPLE_TARGET, EXAMPLE_SPEC, [NAMED], 0);
    assert [NAMED][..1] == [NAMED];
  }

  /** The example's target takes any row of another table. */
  lemma TakesOtherRows(db: Database, spec: TableSpec, row: Row)
    requires db in EXAMPLE_SCHEMA.accepted && spec.table != Memories && Col(row, spec.primaryKey).Text?
    ensures UpsertRow(EXAMPLE_SCHEMA, db, spec, row).Some?
    ensures var t := TableOf(UpsertRow(EXAMPLE_SCHEMA, db, spec, row).value, spec.table);
            KeyOf(spec, row) in t && Synced(t[KeyOf(spec, row)], spec, row)
  {
    hide UniqueMemoryKeys, Overwritten, Inserted, Synced;
    var t := TableOf(db, spec.table);
    var written := if KeyOf(spec, row) in t then Overwritten(t[KeyOf(spec, row)], spec, row) else Inserted(EXAMPLE_SCHEMA, spec, row);
    assert TableOf(db[spec.table := t[KeyOf(spec, row) := written]], Memories) == TableOf(db, Memories);
    WriteIsOneWrite(EXAMPLE_SCHEMA, db, spec, KeyOf(spec, row), row);
  }

  lemma LinkRemapped(idMap: map<string, string>)
    requires idMap == map["a" := "b"]
    ensures var row := RemapMemoryForeignKeys(LINK, idMap, LINK_SPEC); Edge(row, "b", "b") && Col(row, Id) == Text("r")
    ensures KeyOf(LINK_SPEC, RemapMemoryForeignKeys(LINK, idMap, LINK_SPEC)) == "r"
  {
    RemapEnds(LINK, idMap, LINK_SPEC);
  }

  lemma SyncedLink(held: Row, row: Row)
    requires Synced(held, LINK_SPEC, row) && Edge(row, "b", "b")
    ensures Edge(held, "b", "b")
  {
    assert SourceMemoryId in LINK_SPEC.columns && TargetMemoryId in LINK_SPEC.columns;
  }

  lemma LinkLands(db: Database, idMap: map<string, string>) returns (last: Database)
    requires db in EXAMPLE_SCHEMA.accepted && idMap == map["a" := "b"]
    ensures MigrateTable(EXAMPLE_SCHEMA, db, LINK_SPEC, [LINK], idMap) == Some(last)
    ensures "r" in TableOf(last, MemoryRelations) && Edge(TableOf(last, MemoryRelations)["r"], "b", "b")
  {
    LinkRemapped(idMap);
    var row := RemapMemoryForeignKeys(LINK, idMap, LINK_SPEC);
    TakesOtherRows(db, LINK_SPEC, row);
    hide UpsertRow, MigrateTable, RemapMemoryForeignKeys, Synced, Edge, KeyOf, UniqueMemoryKeys, TableOf;
    NothingYet(EXAMPLE_SCHEMA, db, LINK_SPEC, [LINK], idMap);
    NextRow(EXAMPLE_SCHEMA, db, LINK_SPEC, [LINK], idMap, 0);
    assert [LINK][..1] == [LINK];
    last := UpsertRow(EXAMPLE_SCHEMA, db, LINK_SPEC, row).value;
    SyncedLink(TableOf(last, MemoryRelations)["r"], row);
  }

  lemma LinkCompletes() returns (run: MemoryRun)
    requires EnforcesMemoryKeys(EXAMPLE_SCHEMA) && EXAMPLE_TARGET in EXAMPLE_SCHEMA.accepted && KnownMemoryTable([EXAMPLE_SPEC, LINK_SPEC])
    ensures MigrateAll(EXAMPLE_SCHEMA, LINK_SOURCE, "o", EXAMPLE_TARGET, [EXAMPLE_SPEC, LINK_SPEC]) == Some(run)
    ensures "r" in TableOf(run.db, MemoryRelations) && Edge(TableOf(run.db, MemoryRelations)["r"], "b", "b")
  {
    assert MemoryTable([EXAMPLE_SPEC, LINK_SPEC][0]);
    LinkScope();
    hide MigrateMemories, MigrateTable, MigrateAll, ScopedRows, EnforcesMemoryKeys, Edge, MemoryTable, UniqueMemoryKeys, TableOf;
    var after := LinkMemories();
    var idMap := map["a" := "b"];
    var last := LinkLands(after, idMap);
    run := MemoryRun(last, idMap);
    TwoTables(EXAMPLE_SCHEMA, LINK_SOURCE, "o", EXAMPLE_TARGET, [EXAMPLE_SPEC, LINK_SPEC], after, last, idMap);
  }

  lemma TwoTables(schema: Schema, source: Source, owner: string, db: Database, specs: seq<TableSpec>, after: Database, last: Database,
                  idMap: map<string, string>)
    requires EnforcesMemoryKeys(schema) && db in schema.accepted && after in schema.accepted && KnownMemoryTable(specs)
    requires |specs| == 2 && specs[0].table == Memories && specs[1].table != Memories && MemoryTable(specs[0])
    requires MigrateMemories(schema, db, specs[0], ScopedRows(source, specs[0], owner)) == Some(MemoryRun(after, idMap))
    requires MigrateTable(schema, after, specs[1], ScopedRows(source, specs[1], owner), idMap) == Some(last)
    ensures MigrateAll(schema, source, owner, db, specs) == Some(MemoryRun(last, idMap))
  {
    hide MigrateMemories, MigrateTable, MigrateAll, ScopedRows, EnforcesMemoryKeys, MemoryTable;
    NoTableYet(schema, source, owner, db, specs);
    NextTable(schema, source, owner, db, specs, 0);
    NextTable(schema, source, owner, db, specs, 1);
    assert specs[..2] == specs;
  }

  lemma LinkIsMistaken()
    ensures !NoneMistaken(LINK_SOURCE, "o", EXAMPLE_TARGET, EXAMPLE_SPEC, LINK_SPEC)
  {
    LinkScope();
    EdgeEnds([LINK], 0, "a", "b");
    hide ScopedRows, Ends;
    assert Ids(EXAMPLE_SPEC, [NAMED]) == {"a"};
    assert Matches([NAMED][0], HELD);
    assert Mistaken(TableOf(EXAMPLE_TARGET, Memories), EXAMPLE_SPEC, [NAMED], "b");
  }

  lemma LinkIsValid()
    ensures WellOrdered([EXAMPLE_SPEC, LINK_SPEC]) && ValidSource(LINK_SOURCE, "o", [EXAMPLE_SPEC, LINK_SPEC])
    ensures EnforcesMemoryKeys(EXAMPLE_SCHEMA) && EXAMPLE_TARGET in EXAMPLE_SCHEMA.accepted
  {
    LinkScope();
    hide ScopedRows;
  }

  /**
   * Run for one owner, whose memory is linked to another owner's memory "b": the target
   * holds the owner's memory under the id "b", so the link from one to the other becomes
   * a link of that memory to itself.
   */
  lemma MistakenEndExample()
    ensures EnforcesMemoryKeys(EXAMPLE_SCHEMA) && EXAMPLE_TARGET in EXAMPLE_SCHEMA.accepted && KnownMemoryTable([EXAMPLE_SPEC, LINK_SPEC])
    ensures var run := MigrateAll(EXAMPLE_SCHEMA, LINK_SOURCE, "o", EXAMPLE_TARGET, [EXAMPLE_SPEC, LINK_SPEC]);
            && run.Some? && "r" in TableOf(run.value.db, MemoryRelations)
            && Edge(TableOf(run.value.db, MemoryRelations)["r"], "b", "b")
            && !MigratedGraph(LINK_SOURCE, "o", run.value.db, EXAMPLE_SPEC, LINK_SPEC, run.value.idMap)
  {
    LinkIsMistaken();
    LinkIsValid();
    hide MigrateAll, ValidSource, EnforcesMemoryKeys, NoneMistaken, MigratedGraph, UniqueMemoryKeys, Edge;
    var run := LinkCompletes();
    RelationGraphRenamed(EXAMPLE_SCHEMA, LINK_SOURCE, "o", EXAMPLE_TARGET, [EXAMPLE_SPEC, LINK_SPEC], 0, 1);
  }

  /** With one target row, a row that matches it by name, or by id alone, lands on it. */
  lemma LandsOnOnlyRow(schema: Schema, db: Database, spec: TableSpec, row: Row, id: string) returns (after: Database)
    requires schema.accepted == iset d: Database | UniqueMemoryKeys(TableOf(d, Memories))
    requires db in schema.accepted && MemoryTable(spec)
    requires TableOf(db, Memories).Keys == {id} && Col(row, Id).Text?
    requires if Keyed(row) then Matches(row, TableOf(db, Memories)[id]) else KeyOf(spec, row) == id
    ensures UpsertMemory(schema, db, spec, row) == Some(MemoryWrite(after, id))
    ensures after in schema.accepted && TableOf(after, Memories).Keys == {id}
  {
    var t := TableOf(db, Memories);
    after := db[Memories := t[id := Overwritten(t[id], spec, row)]];
    assert UniqueMemoryKeys(TableOf(after, Memories));
    if Keyed(row) {
      AtMostOneHit(t, row, ArbiterHit(t, row).value, id);
    }
  }
}
