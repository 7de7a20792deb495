/**
 * scripts/lib/d1-to-postgres-backfill.ts as functions on values: the table list, the
 * owner scope, the two upserts, the foreign-key rewrite and the run over all tables.
 */
module BackfillModel {
  import opened Outcomes
  import opened Relational

  datatype OwnerScope = Everything | ByOwnerColumn | ByOrganization

  datatype TableSpec = TableSpec(table: TableName, primaryKey: Column, columns: set<Column>, scope: OwnerScope)

  /** Source tables; rows are listed in primary-key order, as ORDER BY returns them. */
  type Source = map<TableName, seq<Row>>

  // ---------------------------------------------------------------- reading the source

  function RowsOf(source: Source, name: TableName): seq<Row> {
    if name in source then source[name] else []
  }

  /** The subquery of the membership scope: ids of the owner's organizations. */
  function OrganizationsOf(rows: seq<Row>, owner: string): (ids: set<Cell>) {
    set r | r in rows && Col(r, OwnerId) == Text(owner) && Col(r, Id).Text? :: Col(r, Id)
  }

  predicate InScope(row: Row, scope: OwnerScope, owner: string, organizations: set<Cell>) {
    owner == "" || match scope
      case Everything => true
      case ByOwnerColumn => Col(row, OwnerId) == Text(owner)
      case ByOrganization => Col(row, OrganizationId) in organizations
  }

  function Scoped(rows: seq<Row>, scope: OwnerScope, owner: string, organizations: set<Cell>): (r: seq<Row>)
    ensures |r| <= |rows|
    ensures forall row :: row in r <==> row in rows && InScope(row, scope, owner, organizations)
  {
    if rows == [] then []
    else
      var rest := Scoped(rows[1..], scope, owner, organizations);
      if InScope(rows[0], scope, owner, organizations) then [rows[0]] + rest else rest
  }

  /** What the SELECT of one table ranges over; an absent or empty owner means no filter. */
  function ScopedRows(source: Source, spec: TableSpec, owner: string): (rows: seq<Row>) {
    Scoped(RowsOf(source, spec.table), spec.scope, owner,
           OrganizationsOf(RowsOf(source, Organizations), owner))
  }

  /** Without an owner every row is read; with one, exactly the rows of its scope. */
  lemma ScopeMeaning(source: Source, spec: TableSpec, owner: string)
    ensures owner == "" || spec.scope == Everything ==> ScopedRows(source, spec, owner) == RowsOf(source, spec.table)
    ensures owner != "" && spec.scope == ByOwnerColumn ==>
              forall row :: row in ScopedRows(source, spec, owner) <==> row in RowsOf(source, spec.table) && Col(row, OwnerId) == Text(owner)
    ensures owner != "" && spec.scope == ByOrganization ==>
              forall row :: row in ScopedRows(source, spec, owner) <==>
                row in RowsOf(source, spec.table)
                && exists r :: r in RowsOf(source, Organizations) && Col(r, OwnerId) == Text(owner)
                     && Col(r, Id).Text? && Col(row, OrganizationId) == Col(r, Id)
  {
    var rows, organizations := RowsOf(source, spec.table), OrganizationsOf(RowsOf(source, Organizations), owner);
    if owner == "" || spec.scope == Everything {
      AllScoped(rows, spec.scope, owner, organizations);
    }
  }

  lemma {:induction false} AllScoped(rows: seq<Row>, scope: OwnerScope, owner: string, organizations: set<Cell>)
    requires owner == "" || scope == Everything
    ensures Scoped(rows, scope, owner, organizations) == rows
  {
    if rows != [] {
      AllScoped(rows[1..], scope, owner, organizations);
    }
  }

  /** LIMIT batchSize OFFSET offset. */
  function Fetch(rows: seq<Row>, batchSize: nat, offset: nat): (page: seq<Row>) {
    if offset >= |rows| then []
    else if offset + batchSize >= |rows| then rows[offset..]
    else rows[offset..offset + batchSize]
  }

  // ---------------------------------------------------------------- writing one row

  function Projected(spec: TableSpec, row: Row): map<Column, Cell> {
    map c | c in spec.columns :: Col(row, c)
  }

  /** DO UPDATE SET: every listed column except the primary key. */
  function Overwritten(held: Row, spec: TableSpec, row: Row): Row {
    Row(held.cells + (Projected(spec, row) - {spec.primaryKey}))
  }

  function Inserted(schema: Schema, spec: TableSpec, row: Row): Row {
    Row(DefaultsOf(schema, spec.table).cells + Projected(spec, row))
  }

  /** The target row carries the source row in every listed column but the key. */
  predicate Synced(target: Row, spec: TableSpec, row: Row) {
    forall c :: c in spec.columns && c != spec.primaryKey ==> c in target.cells && target.cells[c] == Col(row, c)
  }

  function Write(schema: Schema, db: Database, spec: TableSpec, key: string, row: Row): Option<Database> {
    var t := TableOf(db, spec.table);
    var written := if key in t then Overwritten(t[key], spec, row) else Inserted(schema, spec, row);
    var after := db[spec.table := t[key := written]];
    if after in schema.accepted then Some(after) else None
  }

  function KeyOf(spec: TableSpec, row: Row): string {
    match Col(row, spec.primaryKey)
    case Null => "null"
    case Text(s) => s
  }

  /** ON CONFLICT (primary key) DO UPDATE; a NULL key is refused by the target. */
  function UpsertRow(schema: Schema, db: Database, spec: TableSpec, row: Row): Option<Database> {
    if Col(row, spec.primaryKey).Null? then None
    else Write(schema, db, spec, KeyOf(spec, row), row)
  }

  // ---------------------------------------------------------------- memories

  predicate NonEmpty(cell: Cell) {
    cell.Text? && cell.text != ""
  }

  /** Rows that are matched by codename or slug rather than by id. */
  predicate Keyed(row: Row) {
    NonEmpty(Col(row, Codename)) || NonEmpty(Col(row, Slug))
  }

  /** Does the arbiter index of `row` find `candidate`? */
  predicate Matches(row: Row, candidate: Row) {
    if NonEmpty(Col(row, Codename)) then SameKey(row, candidate, OwnerId, Codename)
    else NonEmpty(Col(row, Slug)) && SameKey(row, candidate, OwnerId, Slug)
  }

  /**
   * A codename decides before a slug: a row that has one is matched by owner and codename,
   * whatever its slug; without one by owner and slug; without an owner or either by nothing.
   */
  lemma MatchMeaning(row: Row, candidate: Row, owner: string, name: string)
    requires name != "" && Col(row, OwnerId) == Text(owner)
    ensures Col(row, Codename) == Text(name) ==>
              (Matches(row, candidate) <==> Col(candidate, OwnerId) == Text(owner) && Col(candidate, Codename) == Text(name))
    ensures Col(row, Codename) in {Null, Text("")} && Col(row, Slug) == Text(name) ==>
              (Matches(row, candidate) <==> Col(candidate, OwnerId) == Text(owner) && Col(candidate, Slug) == Text(name))
  {
  }

  lemma UnmatchedRow(row: Row, candidate: Row)
    requires Col(row, OwnerId) == Null || (Col(row, Codename) in {Null, Text("")} && Col(row, Slug) in {Null, Text("")})
    ensures !Matches(row, candidate)
  {
  }

  /** The unique indexes leave at most one row for an arbiter to find. */
  lemma AtMostOneHit(t: Table, row: Row, j: string, k: string)
    requires UniqueMemoryKeys(t)
    requires j in t && k in t && Matches(row, t[j]) && Matches(row, t[k])
    ensures j == k
  {
    assert SameKey(t[j], t[k], OwnerId, Codename) || SameKey(t[j], t[k], OwnerId, Slug);
  }

  function ArbiterHit(t: Table, row: Row): (hit: Option<string>)
    requires UniqueMemoryKeys(t)
    ensures hit.Some? ==> hit.value in t && Matches(row, t[hit.value])
    ensures hit.None? ==> forall k :: k in t ==> !Matches(row, t[k])
  {
    if exists k :: k in t && Matches(row, t[k]) then
      assert forall j, k :: j in t && k in t && Matches(row, t[j]) && Matches(row, t[k]) ==> j == k by {
        forall j, k | j in t && k in t && Matches(row, t[j]) && Matches(row, t[k]) ensures j == k {
          AtMostOneHit(t, row, j, k);
        }
      }
      var k :| k in t && Matches(row, t[k]);
      Some(k)
    else None
  }

  datatype MemoryWrite = MemoryWrite(db: Database, id: string)

  /**
   * upsertMemoryRow: conflict target (owner, codename), else (owner, slug), else id.
   * An arbiter hit keeps the target row's own id; with no hit, an id that is already
   * taken is a primary-key violation. A NULL id is refused before conflicts are looked for.
   */
  function UpsertMemory(schema: Schema, db: Database, spec: TableSpec, row: Row): Option<MemoryWrite>
    requires UniqueMemoryKeys(TableOf(db, spec.table))
  {
    var t := TableOf(db, spec.table);
    var hit := if Keyed(row) then ArbiterHit(t, row) else None;
    var id := if hit.Some? then hit.value else KeyOf(spec, row);
    if Col(row, spec.primaryKey).Null? || (hit.None? && Keyed(row) && id in t) then None
    else
      var after :- Write(schema, db, spec, id, row);
      Some(MemoryWrite(after, id))
  }

  datatype MemoryRun = MemoryRun(db: Database, idMap: map<string, string>)

  ghost predicate MemoryTable(spec: TableSpec) {
    && spec.table == Memories && spec.primaryKey == Id
    && OwnerId in spec.columns && Codename in spec.columns && Slug in spec.columns
  }

  /** The rows of memories, one after the other; None when some write is refused. */
  ghost function MigrateMemories(schema: Schema, db: Database, spec: TableSpec, rows: seq<Row>): (run: Option<MemoryRun>)
    requires EnforcesMemoryKeys(schema) && db in schema.accepted && MemoryTable(spec)
    ensures run.Some? ==> run.value.db in schema.accepted
  {
    if rows == [] then Some(MemoryRun(db, map[]))
    else
      var row := rows[|rows| - 1];
      var before :- MigrateMemories(schema, db, spec, rows[..|rows| - 1]);
      var write :- UpsertMemory(schema, before.db, spec, row);
      Some(MemoryRun(write.db, before.idMap[KeyOf(spec, row) := write.id]))
  }

  // ---------------------------------------------------------------- every other table

  /** A mapped id replaces the raw one unless it is empty (an empty string is falsy). */
  function Renamed(cell: Cell, idMap: map<string, string>): Cell {
    match cell
    case Null => Null
    case Text(id) => if id in idMap && idMap[id] != "" then Text(idMap[id]) else cell
  }

  function RemapColumn(row: Row, column: Column, idMap: map<string, string>): Row {
    if Col(row, column).Null? then row else Row(row.cells[column := Renamed(Col(row, column), idMap)])
  }

  function RemapMemoryForeignKeys(row: Row, idMap: map<string, string>, spec: TableSpec): Row {
    if |idMap| == 0 then row
    else if spec.table == MemoryEmbeddings then RemapColumn(row, MemoryId, idMap)
    else if spec.table == MemoryRelations then
      RemapColumn(RemapColumn(row, SourceMemoryId, idMap), TargetMemoryId, idMap)
    else row
  }

  ghost function MigrateTable(schema: Schema, db: Database, spec: TableSpec, rows: seq<Row>, idMap: map<string, string>):
    (after: Option<Database>)
    requires db in schema.accepted
    ensures after.Some? ==> after.value in schema.accepted
  {
    if rows == [] then Some(db)
    else
      var before :- MigrateTable(schema, db, spec, rows[..|rows| - 1], idMap);
      UpsertRow(schema, before, spec, RemapMemoryForeignKeys(rows[|rows| - 1], idMap, spec))
  }

  // ---------------------------------------------------------------- all tables in order

  ghost predicate KnownMemoryTable(specs: seq<TableSpec>) {
    forall i :: 0 <= i < |specs| && specs[i].table == Memories ==> MemoryTable(specs[i])
  }

  ghost function MigrateAll(schema: Schema, source: Source, owner: string, db: Database, specs: seq<TableSpec>): (run: Option<MemoryRun>)
    requires EnforcesMemoryKeys(schema) && db in schema.accepted && KnownMemoryTable(specs)
    ensures run.Some? ==> run.value.db in schema.accepted
  {
    if specs == [] then Some(MemoryRun(db, map[]))
    else
      var spec := specs[|specs| - 1];
      var before :- MigrateAll(schema, source, owner, db, specs[..|specs| - 1]);
      var rows := ScopedRows(source, spec, owner);
      if spec.table == Memories then MigrateMemories(schema, before.db, spec, rows)
      else
        var after :- MigrateTable(schema, before.db, spec, rows, before.idMap);
        Some(MemoryRun(after, before.idMap))
  }
}
