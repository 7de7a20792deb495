/**
 * Which writes of the metadata backfill a target takes, and that a run into an empty
 * target completes when the target asks for nothing but unique names.
 */
module BackfillAcceptance {
  import opened Outcomes
  import opened Relational
  import opened BackfillModel
  import opened BackfillMemories
  import opened BackfillTables

  // ---------------------------------------------------------------- one write

  /** The row that an upsert leaves: every copied column but the key from the source row, all else as it was or by default. */
  ghost predicate LeftBy(schema: Schema, spec: TableSpec, t: Table, id: string, row: Row, left: Row) {
    && Synced(left, spec, row)
    && if id in t then
         && left.cells.Keys == t[id].cells.Keys + (spec.columns - {spec.primaryKey})
         && forall c :: c in t[id].cells && (c !in spec.columns || c == spec.primaryKey) ==> left.cells[c] == t[id].cells[c]
       else
         && left.cells.Keys == DefaultsOf(schema, spec.table).cells.Keys + spec.columns
         && (spec.primaryKey in spec.columns ==> left.cells[spec.primaryKey] == Col(row, spec.primaryKey))
         && forall c :: c in left.cells && c !in spec.columns ==> left.cells[c] == DefaultsOf(schema, spec.table).cells[c]
  }

  /** `after` is `db` with that one row changed or added. */
  ghost predicate OneRowChanged(schema: Schema, spec: TableSpec, db: Database, id: string, row: Row, after: Database) {
    var t, t' := TableOf(db, spec.table), TableOf(after, spec.table);
    && after.Keys == db.Keys + {spec.table} && (forall name :: name in db && name != spec.table ==> after[name] == db[name])
    && t'.Keys == t.Keys + {id} && (forall k :: k in t && k != id ==> t'[k] == t[k])
    && LeftBy(schema, spec, t, id, row, t'[id])
  }

  /** The row lands on a target row of its name, or under its own id, which is free or the row has no name. */
  ghost predicate LandsAt(spec: TableSpec, t: Table, row: Row, id: string) {
    || (id in t && Matches(row, t[id]))
    || (id == KeyOf(spec, row) && (forall k :: k in t ==> !Matches(row, t[k])) && (Keyed(row) ==> id !in t))
  }

  lemma ChangeIsUnique(schema: Schema, spec: TableSpec, db: Database, id: string, row: Row, a: Database, b: Database)
    requires OneRowChanged(schema, spec, db, id, row, a) && OneRowChanged(schema, spec, db, id, row, b)
    ensures a == b
  {
    var x, y := TableOf(a, spec.table)[id], TableOf(b, spec.table)[id];
    forall c | c in x.cells ensures c in y.cells && x.cells[c] == y.cells[c] {
    }
    assert x.cells == y.cells;
    assert TableOf(a, spec.table) == TableOf(b, spec.table);
  }

  /** Some state has that one row changed: the one that a write asks the target to accept. */
  lemma SomeChange(schema: Schema, spec: TableSpec, db: Database, id: string, row: Row) returns (after: Database)
    ensures OneRowChanged(schema, spec, db, id, row, after)
    ensures Write(schema, db, spec, id, row) == if after in schema.accepted then Some(after) else None
  {
    var t := TableOf(db, spec.table);
    var left := if id in t then Overwritten(t[id], spec, row) else Inserted(schema, spec, row);
    after := db[spec.table := t[id := left]];
    LeftByWrite(schema, spec, t, id, row);
    hide LeftBy, Overwritten, Inserted;
  }

  lemma LeftByWrite(schema: Schema, spec: TableSpec, t: Table, id: string, row: Row)
    ensures LeftBy(schema, spec, t, id, row, if id in t then Overwritten(t[id], spec, row) else Inserted(schema, spec, row))
  {
  }

  /** A write is taken exactly when the target accepts the state with that one row changed. */
  lemma WriteAcceptedExactly(schema: Schema, spec: TableSpec, db: Database, id: string, row: Row)
    ensures Write(schema, db, spec, id, row).Some? <==> exists after :: OneRowChanged(schema, spec, db, id, row, after) && after in schema.accepted
    ensures Write(schema, db, spec, id, row).Some? ==>
              var after := Write(schema, db, spec, id, row).value;
              OneRowChanged(schema, spec, db, id, row, after) && after in schema.accepted
  {
    hide OneRowChanged, Overwritten, Inserted, TableOf;
    var t := TableOf(db, spec.table);
    var changed := SomeChange(schema, spec, db, id, row);
    if after :| OneRowChanged(schema, spec, db, id, row, after) && after in schema.accepted {
      ChangeIsUnique(schema, spec, db, id, row, after, changed);
    }
  }

  lemma LandingIsUnique(spec: TableSpec, t: Table, row: Row, a: string, b: string)
    requires UniqueMemoryKeys(t) && LandsAt(spec, t, row, a) && LandsAt(spec, t, row, b)
    ensures a == b
  {
    hide UniqueMemoryKeys, Matches;
    if a in t && Matches(row, t[a]) && b in t && Matches(row, t[b]) {
      AtMostOneHit(t, row, a, b);
    }
  }

  /** Where upsertMemoryRow writes: None when the id is missing, or is taken although no row has the name. */
  lemma UpsertIsOneWrite(schema: Schema, db: Database, spec: TableSpec, row: Row, id: string)
    requires UniqueMemoryKeys(TableOf(db, spec.table)) && Col(row, spec.primaryKey).Text? && LandsAt(spec, TableOf(db, spec.table), row, id)
    ensures UpsertMemory(schema, db, spec, row) ==
              match Write(schema, db, spec, id, row)
              case None => None
              case Some(after) => Some(MemoryWrite(after, id))
  {
    var t := TableOf(db, spec.table);
    hide UniqueMemoryKeys, Write, SameKey;
    if Keyed(row) {
      var hit := ArbiterHit(t, row);
      if hit.Some? {
        assert LandsAt(spec, t, row, hit.value);
        LandingIsUnique(spec, t, row, id, hit.value);
      }
    }
  }

  lemma NowhereToLand(schema: Schema, db: Database, spec: TableSpec, row: Row)
    requires UniqueMemoryKeys(TableOf(db, spec.table))
    requires Col(row, spec.primaryKey).Null? || forall id :: !LandsAt(spec, TableOf(db, spec.table), row, id)
    ensures UpsertMemory(schema, db, spec, row) == None
  {
    hide UniqueMemoryKeys, Write, Matches;
    var t := TableOf(db, spec.table);
    if Col(row, spec.primaryKey).Text? {
      assert !LandsAt(spec, t, row, KeyOf(spec, row));
      if Keyed(row) {
        var hit := ArbiterHit(t, row);
        assert hit.Some? ==> LandsAt(spec, t, row, hit.value);
      } else {
        NamelessMatchesNothing(row, t);
      }
    }
  }

  lemma NamelessMatchesNothing(row: Row, t: Table)
    requires !Keyed(row)
    ensures forall k :: k in t ==> !Matches(row, t[k])
  {
  }

  /**
   * An upsert is accepted exactly when the row has an id, it has somewhere to land, and the
   * target accepts the state with the one row there changed; that is then the new state.
   */
  lemma UpsertAcceptedExactly(schema: Schema, db: Database, spec: TableSpec, row: Row)
    requires UniqueMemoryKeys(TableOf(db, spec.table))
    ensures UpsertMemory(schema, db, spec, row).Some?
            <==> Col(row, spec.primaryKey).Text?
                 && exists id, after :: LandsAt(spec, TableOf(db, spec.table), row, id)
                                        && OneRowChanged(schema, spec, db, id, row, after) && after in schema.accepted
    ensures UpsertMemory(schema, db, spec, row).Some? ==>
              var w := UpsertMemory(schema, db, spec, row).value;
              && LandsAt(spec, TableOf(db, spec.table), row, w.id)
              && OneRowChanged(schema, spec, db, w.id, row, w.db) && w.db in schema.accepted
  {
    hide UniqueMemoryKeys, LandsAt, OneRowChanged, Write, UpsertMemory;
    var t := TableOf(db, spec.table);
    if Col(row, spec.primaryKey).Text? && exists id :: LandsAt(spec, t, row, id) {
      var id :| LandsAt(spec, t, row, id);
      UpsertIsOneWrite(schema, db, spec, row, id);
      WriteAcceptedExactly(schema, spec, db, id, row);
      forall other, after | LandsAt(spec, t, row, other) && OneRowChanged(schema, spec, db, other, row, after) && after in schema.accepted
        ensures other == id
      {
        LandingIsUnique(spec, t, row, other, id);
      }
    } else {
      NowhereToLand(schema, db, spec, row);
    }
  }

  /** The same for every other table, where a row lands under its own key. */
  lemma RowAcceptedExactly(schema: Schema, db: Database, spec: TableSpec, row: Row)
    ensures UpsertRow(schema, db, spec, row).Some?
            <==> Col(row, spec.primaryKey).Text?
                 && exists after :: OneRowChanged(schema, spec, db, KeyOf(spec, row), row, after) && after in schema.accepted
    ensures UpsertRow(schema, db, spec, row).Some? ==>
              var after := UpsertRow(schema, db, spec, row).value;
              OneRowChanged(schema, spec, db, KeyOf(spec, row), row, after) && after in schema.accepted
  {
    hide OneRowChanged, Write;
    WriteAcceptedExactly(schema, spec, db, KeyOf(spec, row), row);
  }

  // ---------------------------------------------------------------- a target that only asks for unique names

  ghost predicate OnlyUniqueNames(schema: Schema) {
    forall db :: db in schema.accepted <==> UniqueMemoryKeys(TableOf(db, Memories))
  }

  /** A target row has the owner and names of the source row that it carries. */
  lemma SyncedSharesNames(spec: TableSpec, a: Row, b: Row, ta: Row, tb: Row)
    requires MemoryTable(spec) && Synced(ta, spec, a) && Synced(tb, spec, b)
    ensures SameKey(ta, tb, OwnerId, Codename) <==> SameKey(a, b, OwnerId, Codename)
    ensures SameKey(ta, tb, OwnerId, Slug) <==> SameKey(a, b, OwnerId, Slug)
  {
  }

  /** Every row of the table carries one of the source rows. */
  ghost predicate AllFrom(t: Table, spec: TableSpec, rows: seq<Row>) {
    t.Keys == Ids(spec, rows) && forall i :: 0 <= i < |rows| ==> KeyOf(spec, rows[i]) in t && Synced(t[KeyOf(spec, rows[i])], spec, rows[i])
  }

  lemma AllFromIsUnique(t: Table, spec: TableSpec, rows: seq<Row>)
    requires MemoryTable(spec) && ValidMemories(spec, rows) && AllFrom(t, spec, rows)
    ensures UniqueMemoryKeys(t)
  {
    forall j, k | j in t && k in t && j != k ensures !SameKey(t[j], t[k], OwnerId, Codename) && !SameKey(t[j], t[k], OwnerId, Slug) {
      var a := RowOfKey(spec, rows, j);
      var b := RowOfKey(spec, rows, k);
      SyncedSharesNames(spec, rows[a], rows[b], t[j], t[k]);
      hide SameKey, Synced;
      assert if a < b then Apart(spec, rows[a], rows[b]) else Apart(spec, rows[b], rows[a]);
      SameKeyIsSymmetric(rows[a], rows[b]);
    }
  }

  lemma SameKeyIsSymmetric(a: Row, b: Row)
    ensures SameKey(a, b, OwnerId, Codename) <==> SameKey(b, a, OwnerId, Codename)
    ensures SameKey(a, b, OwnerId, Slug) <==> SameKey(b, a, OwnerId, Slug)
  {
  }

  lemma RowOfKey(spec: TableSpec, rows: seq<Row>, k: string) returns (i: nat)
    requires k in Ids(spec, rows)
    ensures i < |rows| && KeyOf(spec, rows[i]) == k
  {
    var row :| row in rows && KeyOf(spec, row) == k;
    i :| 0 <= i < |rows| && rows[i] == row;
  }

  /** Among rows of other memories, a memory lands under its own id. */
  lemma LandsUnderOwnId(t: Table, spec: TableSpec, rows: seq<Row>, row: Row)
    requires MemoryTable(spec) && ValidMemories(spec, rows + [row]) && AllFrom(t, spec, rows)
    ensures KeyOf(spec, row) !in t && LandsAt(spec, t, row, KeyOf(spec, row))
  {
    forall i | 0 <= i < |rows| ensures Apart(spec, rows[i], row) {
      assert (rows + [row])[i] == rows[i] && (rows + [row])[|rows|] == row;
    }
    forall k | k in t ensures k != KeyOf(spec, row) && !Matches(row, t[k]) {
      var i := RowOfKey(spec, rows, k);
      if Matches(row, t[k]) {
        SharedName(spec, rows[i], row, t[k]);
      }
    }
  }

  lemma ValidParts(spec: TableSpec, rows: seq<Row>, row: Row)
    requires ValidMemories(spec, rows + [row])
    ensures ValidMemories(spec, rows) && Col(row, spec.primaryKey).Text?
  {
    hide Apart;
    forall i | 0 <= i < |rows| ensures (rows + [row])[i] == rows[i] {
    }
    assert (rows + [row])[|rows|] == row;
    forall i, j | 0 <= i < j < |rows| ensures Apart(spec, rows[i], rows[j]) {
      assert Apart(spec, (rows + [row])[i], (rows + [row])[j]);
    }
  }

  lemma AllFromGrows(schema: Schema, db: Database, after: Database, spec: TableSpec, rows: seq<Row>, row: Row)
    requires AllFrom(TableOf(db, spec.table), spec, rows) && KeyOf(spec, row) !in TableOf(db, spec.table)
    requires OneRowChanged(schema, spec, db, KeyOf(spec, row), row, after)
    ensures AllFrom(TableOf(after, spec.table), spec, rows + [row])
  {
    hide Synced;
    var t, t', k := TableOf(db, spec.table), TableOf(after, spec.table), KeyOf(spec, row);
    assert t'.Keys == t.Keys + {k};
    forall i | 0 <= i < |rows + [row]| ensures KeyOf(spec, (rows + [row])[i]) in t' && Synced(t'[KeyOf(spec, (rows + [row])[i])], spec, (rows + [row])[i]) {
      if i < |rows| {
        assert (rows + [row])[i] == rows[i];
      }
    }
    IdsStep(spec, rows + [row]);
    assert (rows + [row])[..|rows|] == rows;
  }

  /** Into an empty table, whose target only asks for unique names, every valid memory goes under its own id. */
  lemma {:induction false} MemoriesComplete(schema: Schema, db: Database, spec: TableSpec, rows: seq<Row>)
    requires OnlyUniqueNames(schema) && EnforcesMemoryKeys(schema) && db in schema.accepted
    requires MemoryTable(spec) && ValidMemories(spec, rows) && TableOf(db, Memories) == map[]
    ensures MigrateMemories(schema, db, spec, rows).Some?
    ensures AllFrom(TableOf(MigrateMemories(schema, db, spec, rows).value.db, Memories), spec, rows)
    ensures MigrateMemories(schema, db, spec, rows).value.idMap == map k | k in Ids(spec, rows) :: k
  {
    hide EnforcesMemoryKeys, OnlyUniqueNames, UpsertMemory, UniqueMemoryKeys, OneRowChanged, LandsAt, AllFrom, ValidMemories;
    if rows == [] {
      NothingFrom(spec);
    } else {
      var front, row := rows[..|rows| - 1], rows[|rows| - 1];
      SplitLast(rows);
      ValidParts(spec, front, row);
      MemoriesComplete(schema, db, spec, front);
      var before := MigrateMemories(schema, db, spec, front).value.db;
      EnforcedHere(schema, before, spec);
      NextMemoryLands(schema, before, spec, front, row);
      IdsStep(spec, rows);
    }
  }

  lemma NothingFrom(spec: TableSpec)
    ensures AllFrom(map[], spec, [])
  {
  }

  lemma NextMemoryLands(schema: Schema, before: Database, spec: TableSpec, rows: seq<Row>, row: Row)
    requires OnlyUniqueNames(schema) && EnforcesMemoryKeys(schema) && before in schema.accepted && UniqueMemoryKeys(TableOf(before, spec.table))
    requires MemoryTable(spec) && ValidMemories(spec, rows + [row]) && AllFrom(TableOf(before, spec.table), spec, rows)
    ensures UpsertMemory(schema, before, spec, row).Some? && UpsertMemory(schema, before, spec, row).value.id == KeyOf(spec, row)
    ensures AllFrom(TableOf(UpsertMemory(schema, before, spec, row).value.db, spec.table), spec, rows + [row])
  {
    hide EnforcesMemoryKeys, UpsertMemory, UniqueMemoryKeys, OneRowChanged, LandsAt, AllFrom, ValidMemories;
    ValidParts(spec, rows, row);
    LandsUnderOwnId(TableOf(before, spec.table), spec, rows, row);
    var after := SomeChange(schema, spec, before, KeyOf(spec, row), row);
    AllFromGrows(schema, before, after, spec, rows, row);
    AllFromIsUnique(TableOf(after, spec.table), spec, rows + [row]);
    UpsertAcceptedExactly(schema, before, spec, row);
    var w := UpsertMemory(schema, before, spec, row).value;
    LandingIsUnique(spec, TableOf(before, spec.table), row, w.id, KeyOf(spec, row));
    AllFromGrows(schema, before, w.db, spec, rows, row);
  }

  // ---------------------------------------------------------------- a whole run

  /** Rows of another table change nothing that such a target asks about. */
  lemma {:induction false} TableCompletes(schema: Schema, db: Database, spec: TableSpec, rows: seq<Row>, idMap: map<string, string>)
    requires OnlyUniqueNames(schema) && db in schema.accepted && spec.table != Memories && KeyIsNotForeign(spec)
    requires forall row :: row in rows ==> Col(row, spec.primaryKey).Text?
    ensures MigrateTable(schema, db, spec, rows, idMap).Some?
    ensures TableOf(MigrateTable(schema, db, spec, rows, idMap).value, Memories) == TableOf(db, Memories)
  {
    hide OnlyUniqueNames, OneRowChanged, UpsertRow, RemapMemoryForeignKeys, KeyIsNotForeign;
    if rows != [] {
      var front, row := rows[..|rows| - 1], rows[|rows| - 1];
      SplitLast(rows);
      TableCompletes(schema, db, spec, front, idMap);
      var before := MigrateTable(schema, db, spec, front, idMap).value;
      KeyStaysText(spec, row, idMap);
      OtherRowLands(schema, before, spec, RemapMemoryForeignKeys(row, idMap, spec));
    }
  }

  lemma KeyStaysText(spec: TableSpec, row: Row, idMap: map<string, string>)
    requires KeyIsNotForeign(spec) && Col(row, spec.primaryKey).Text?
    ensures Col(RemapMemoryForeignKeys(row, idMap, spec), spec.primaryKey).Text?
  {
  }

  lemma OtherRowLands(schema: Schema, db: Database, spec: TableSpec, row: Row)
    requires OnlyUniqueNames(schema) && db in schema.accepted && spec.table != Memories && Col(row, spec.primaryKey).Text?
    ensures UpsertRow(schema, db, spec, row).Some?
    ensures TableOf(UpsertRow(schema, db, spec, row).value, Memories) == TableOf(db, Memories)
  {
    hide UniqueMemoryKeys, LeftBy, UpsertRow;
    var after := SomeChange(schema, spec, db, KeyOf(spec, row), row);
    assert TableOf(after, Memories) == TableOf(db, Memories);
    RowAcceptedExactly(schema, db, spec, row);
  }

  ghost predicate KeysAreText(source: Source, owner: string, specs: seq<TableSpec>) {
    forall i :: 0 <= i < |specs| ==> forall row :: row in ScopedRows(source, specs[i], owner) ==> Col(row, specs[i].primaryKey).Text?
  }

  /** A whole run into a target without memories, which only asks for unique names, completes. */
  lemma {:induction false} RunCompletes(schema: Schema, source: Source, owner: string, db: Database, specs: seq<TableSpec>)
    requires OnlyUniqueNames(schema) && EnforcesMemoryKeys(schema) && db in schema.accepted && TableOf(db, Memories) == map[]
    requires WellOrdered(specs) && ValidSource(source, owner, specs) && KeysAreText(source, owner, specs)
    ensures MigrateAll(schema, source, owner, db, specs).Some?
    ensures (forall i :: 0 <= i < |specs| ==> specs[i].table != Memories) ==>
              TableOf(MigrateAll(schema, source, owner, db, specs).value.db, Memories) == map[]
  {
    hide OnlyUniqueNames, EnforcesMemoryKeys, ScopedRows, ValidMemories, KeyIsNotForeign, AllFrom;
    if specs != [] {
      var n := |specs| - 1;
      forall i | 0 <= i < n ensures specs[..n][i] == specs[i] {
      }
      EarlierSpecs(source, owner, specs);
      RunCompletes(schema, source, owner, db, specs[..n]);
      var before := MigrateAll(schema, source, owner, db, specs[..n]).value;
      var rows := ScopedRows(source, specs[n], owner);
      if specs[n].table == Memories {
        forall i | 0 <= i < n ensures specs[..n][i].table != Memories {
          assert specs[i].table != specs[n].table;
        }
        MemoriesComplete(schema, before.db, specs[n], rows);
      } else {
        TableCompletes(schema, before.db, specs[n], rows, before.idMap);
      }
    }
  }

  lemma EarlierSpecs(source: Source, owner: string, specs: seq<TableSpec>)
    requires specs != [] && WellOrdered(specs) && ValidSource(source, owner, specs) && KeysAreText(source, owner, specs)
    ensures var front := specs[..|specs| - 1]; WellOrdered(front) && ValidSource(source, owner, front) && KeysAreText(source, owner, front)
  {
    hide ScopedRows, ValidMemories, KeyIsNotForeign, MemoryTable;
    var n := |specs| - 1;
    assert forall i :: 0 <= i < n ==> specs[..n][i] == specs[i];
  }
}
