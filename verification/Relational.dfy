/**
 * The relational vocabulary of the metadata backfill: cells, rows, tables keyed by
 * primary key, and what a target database enforces on every write.
 */
module Relational {

  datatype Cell = Null | Text(text: string)

  /** Column names: those the backfill singles out, and all others under their own name. */
  datatype Column =
    | Id | OwnerId | Codename | Slug | MemoryId | SourceMemoryId | TargetMemoryId | OrganizationId
    | Plain(name: string)

  /** A row as the driver returns it; a column that is not there reads as Null. */
  datatype Row = Row(cells: map<Column, Cell>)

  /** A target table: primary key to row. */
  type Table = map<string, Row>

  /** The tables of the metadata backfill. */
  datatype TableName =
    | Organizations | Workspaces | Clients | Identities | AuthAccounts | AuthLoginAttempts | Agents
    | Memories | MemoryEmbeddings | MemoryRelations | WorkspaceMemberships | AuditLogs | Settings

  type Database = map<TableName, Table>

  function Col(row: Row, column: Column): Cell {
    if column in row.cells then row.cells[column] else Null
  }

  function TableOf(db: Database, name: TableName): Table {
    if name in db then db[name] else map[]
  }

  /** SQL equality on two columns: NULL equals nothing. */
  predicate SameKey(a: Row, b: Row, first: Column, second: Column) {
    && Col(a, first).Text? && Col(a, second).Text?
    && Col(a, first) == Col(b, first)
    && Col(a, second) == Col(b, second)
  }

  predicate UniqueOn(t: Table, first: Column, second: Column) {
    forall j, k {:trigger SameKey(t[j], t[k], first, second)} :: j in t && k in t && j != k ==> !SameKey(t[j], t[k], first, second)
  }

  /** The two unique indexes on memories that serve as upsert arbiters. */
  predicate UniqueMemoryKeys(t: Table) {
    UniqueOn(t, OwnerId, Codename) && UniqueOn(t, OwnerId, Slug)
  }

  /**
   * What the target brings to a write: values of columns that an insert does not
   * list, and every constraint of its schema (unique indexes, foreign keys, NOT
   * NULL, checks) as one test of the state that the write would leave.
   */
  datatype Schema = Schema(defaults: map<TableName, Row>, accepted: iset<Database>)

  ghost predicate EnforcesMemoryKeys(schema: Schema) {
    forall db :: db in schema.accepted ==> UniqueMemoryKeys(TableOf(db, Memories))
  }

  function DefaultsOf(schema: Schema, name: TableName): Row {
    if name in schema.defaults then schema.defaults[name] else Row(map[])
  }
}
