/**
 * What a completed pass over the memories table means: when it renames memories
 * one-to-one, when it merges two of them, and when running it again is harmless.
 */
module BackfillMemories {
  import opened Outcomes
  import opened Relational
  import opened BackfillModel

  /** Two source memories differ in id, in (owner, codename) and in (owner, slug). */
  ghost predicate Apart(spec: TableSpec, a: Row, b: Row) {
    && KeyOf(spec, a) != KeyOf(spec, b)
    && !SameKey(a, b, OwnerId, Codename)
    && !SameKey(a, b, OwnerId, Slug)
  }

  /** The source's own guarantees: non-null ids and owners, and its three unique indexes. */
  ghost predicate ValidMemories(spec: TableSpec, rows: seq<Row>) {
    && (forall i :: 0 <= i < |rows| ==> Col(rows[i], spec.primaryKey).Text? && Col(rows[i], OwnerId).Text?)
    && (forall i, j :: 0 <= i < j < |rows| ==> Apart(spec, rows[i], rows[j]))
  }

  /** `later`, matched by id alone, would land on a target row that `earlier` matches by name. */
  ghost predicate Shadows(t0: Table, spec: TableSpec, earlier: Row, later: Row) {
    && !Keyed(later)
    && KeyOf(spec, later) in t0
    && Matches(earlier, t0[KeyOf(spec, later)])
  }

  ghost predicate ClashAt(t0: Table, spec: TableSpec, rows: seq<Row>, earlier: nat, later: nat) {
    earlier < later < |rows| && Shadows(t0, spec, rows[earlier], rows[later])
  }

  ghost predicate Clash(t0: Table, spec: TableSpec, rows: seq<Row>) {
    exists i: nat, j: nat :: ClashAt(t0, spec, rows, i, j)
  }

  /** The condition in plainer, stronger form: an id shared with the target means the same memory. */
  ghost predicate IdsAgree(t0: Table, spec: TableSpec, rows: seq<Row>) {
    forall i :: 0 <= i < |rows| && KeyOf(spec, rows[i]) in t0 ==>
      var t := t0[KeyOf(spec, rows[i])];
      && Col(t, OwnerId) == Col(rows[i], OwnerId)
      && Col(t, Codename) == Col(rows[i], Codename)
      && Col(t, Slug) == Col(rows[i], Slug)
  }

  ghost predicate OneToOne(spec: TableSpec, rows: seq<Row>, idMap: map<string, string>) {
    && (forall i :: 0 <= i < |rows| ==> KeyOf(spec, rows[i]) in idMap)
    && (forall i, j :: 0 <= i < j < |rows| ==> idMap[KeyOf(spec, rows[i])] != idMap[KeyOf(spec, rows[j])])
  }

  /** Where a row may land: under its own id, or on a target row that carries its name. */
  ghost predicate LandsProperly(t0: Table, spec: TableSpec, row: Row, id: string) {
    id == KeyOf(spec, row) || (id in t0 && Matches(row, t0[id]))
  }

  /** Target rows hit by the map; the rest of the target is as it was. */
  ghost predicate TouchesOnly(t0: Table, t: Table, idMap: map<string, string>) {
    && t.Keys == t0.Keys + idMap.Values
    && forall k :: k in t0 && k !in idMap.Values ==> t[k] == t0[k]
  }

  ghost predicate CarriesAll(t: Table, spec: TableSpec, rows: seq<Row>, idMap: map<string, string>)
    requires forall i :: 0 <= i < |rows| ==> KeyOf(spec, rows[i]) in idMap
  {
    forall i :: 0 <= i < |rows| ==>
      idMap[KeyOf(spec, rows[i])] in t && Synced(t[idMap[KeyOf(spec, rows[i])]], spec, rows[i])
  }

  ghost predicate Faithful(t0: Table, t: Table, spec: TableSpec, rows: seq<Row>, idMap: map<string, string>) {
    && OneToOne(spec, rows, idMap)
    && CarriesAll(t, spec, rows, idMap)
    && TouchesOnly(t0, t, idMap)
    && forall i :: 0 <= i < |rows| ==> LandsProperly(t0, spec, rows[i], idMap[KeyOf(spec, rows[i])])
  }

  // ---------------------------------------------------------------- one write

  /** One write: the row under its key is replaced or added, nothing else moves. */
  ghost predicate OneWrite(spec: TableSpec, t: Table, key: string, row: Row, t': Table) {
    && t'.Keys == t.Keys + {key}
    && (forall j :: j in t && j != key ==> t'[j] == t[j])
    && Synced(t'[key], spec, row)
  }

  lemma WriteIsOneWrite(schema: Schema, db: Database, spec: TableSpec, key: string, row: Row)
    requires Write(schema, db, spec, key, row).Some?
    ensures var after := Write(schema, db, spec, key, row).value;
            && OneWrite(spec, TableOf(db, spec.table), key, row, TableOf(after, spec.table))
            && (forall name :: name != spec.table ==> TableOf(after, name) == TableOf(db, name))
  {
  }

  /** What one accepted upsert does to the table: one row changes, and it carries the source row. */
  ghost predicate Step(spec: TableSpec, t: Table, row: Row, id: string, t': Table) {
    && OneWrite(spec, t, id, row, t')
    && (|| (id in t && Matches(row, t[id]))
        || (id == KeyOf(spec, row) && (Keyed(row) ==> id !in t && forall k :: k in t ==> !Matches(row, t[k]))))
  }

  lemma UpsertMemoryStep(schema: Schema, db: Database, spec: TableSpec, row: Row)
    requires EnforcesMemoryKeys(schema) && db in schema.accepted && MemoryTable(spec)
    requires UpsertMemory(schema, db, spec, row).Some?
    ensures var w := UpsertMemory(schema, db, spec, row).value;
            && w.db in schema.accepted
            && Step(spec, TableOf(db, spec.table), row, w.id, TableOf(w.db, spec.table))
            && (forall name :: name != spec.table ==> TableOf(w.db, name) == TableOf(db, name))
  {
    WriteIsOneWrite(schema, db, spec, UpsertMemory(schema, db, spec, row).value.id, row);
  }

  /** The row that was there keeps its own key and the columns that are not copied; a new row comes under the source's key. */
  ghost predicate KeepsOwnKey(spec: TableSpec, t: Table, row: Row, id: string, t': Table) {
    && id in t'
    && (id in t ==> forall c :: c !in spec.columns || c == spec.primaryKey ==> Col(t'[id], c) == Col(t[id], c))
    && (id !in t && spec.primaryKey in spec.columns ==> Col(t'[id], spec.primaryKey) == Text(id))
  }

  lemma UpsertKeepsOwnKey(schema: Schema, db: Database, spec: TableSpec, row: Row)
    requires EnforcesMemoryKeys(schema) && db in schema.accepted && MemoryTable(spec)
    requires UpsertMemory(schema, db, spec, row).Some?
    ensures var w := UpsertMemory(schema, db, spec, row).value;
            KeepsOwnKey(spec, TableOf(db, spec.table), row, w.id, TableOf(w.db, spec.table))
  {
    hide UniqueMemoryKeys, Matches;
  }

  lemma EnforcedHere(schema: Schema, db: Database, spec: TableSpec)
    requires EnforcesMemoryKeys(schema) && db in schema.accepted && MemoryTable(spec)
    ensures UniqueMemoryKeys(TableOf(db, spec.table))
  {
  }

  /** The last write of a completed pass, apart from the pass before it. */
  lemma LastWrite(schema: Schema, db: Database, spec: TableSpec, rows: seq<Row>) returns (before: MemoryRun, id: string)
    requires EnforcesMemoryKeys(schema) && db in schema.accepted && MemoryTable(spec)
    requires rows != [] && MigrateMemories(schema, db, spec, rows).Some?
    ensures MigrateMemories(schema, db, spec, rows[..|rows| - 1]) == Some(before) && before.db in schema.accepted
    ensures var run := MigrateMemories(schema, db, spec, rows).value;
            var row := rows[|rows| - 1];
            && run.idMap == before.idMap[KeyOf(spec, row) := id]
            && Step(spec, TableOf(before.db, spec.table), row, id, TableOf(run.db, spec.table))
            && (forall name :: name != spec.table ==> TableOf(run.db, name) == TableOf(before.db, name))
  {
    hide UpsertMemory, Step, EnforcesMemoryKeys;
    var row := rows[|rows| - 1];
    before := MigrateMemories(schema, db, spec, rows[..|rows| - 1]).value;
    EnforcedHere(schema, before.db, spec);
    id := UpsertMemory(schema, before.db, spec, row).value.id;
    UpsertMemoryStep(schema, before.db, spec, row);
  }

  /** A target row that carries a named source row is found by that name. */
  lemma CarriedIsMatched(spec: TableSpec, row: Row, target: Row)
    requires MemoryTable(spec) && Synced(target, spec, row) && Keyed(row) && Col(row, OwnerId).Text?
    ensures Matches(row, target)
  {
  }

  /** Two source rows that can both claim one target row share a unique key of the source. */
  lemma SharedName(spec: TableSpec, a: Row, b: Row, target: Row)
    requires MemoryTable(spec) && Synced(target, spec, a) && Matches(b, target)
    ensures SameKey(a, b, OwnerId, Codename) || SameKey(a, b, OwnerId, Slug)
  {
  }

  ghost function Ids(spec: TableSpec, rows: seq<Row>): set<string> {
    set row | row in rows :: KeyOf(spec, row)
  }

  lemma {:induction false} MapCoversRows(schema: Schema, db: Database, spec: TableSpec, rows: seq<Row>)
    requires EnforcesMemoryKeys(schema) && db in schema.accepted && MemoryTable(spec)
    requires MigrateMemories(schema, db, spec, rows).Some?
    ensures var run := MigrateMemories(schema, db, spec, rows).value;
            && run.idMap.Keys == Ids(spec, rows)
            && (forall name :: name != spec.table ==> TableOf(run.db, name) == TableOf(db, name))
  {
    if rows != [] {
      hide UpsertMemory, EnforcesMemoryKeys, Synced, Matches, Ids, KeyOf;
      var n := |rows| - 1;
      var before, id := LastWrite(schema, db, spec, rows);
      MapCoversRows(schema, db, spec, rows[..n]);
      IdsStep(spec, rows);
    }
  }

  lemma IdsStep(spec: TableSpec, rows: seq<Row>)
    requires rows != []
    ensures Ids(spec, rows) == Ids(spec, rows[..|rows| - 1]) + {KeyOf(spec, rows[|rows| - 1])}
  {
    SplitLast(rows);
  }

  // ---------------------------------------------------------------- no clash: a faithful renaming

  /** Without a clash a completed pass renames the memories one-to-one and carries every row. */
  lemma {:induction false} WithoutClashFaithful(schema: Schema, db: Database, spec: TableSpec, rows: seq<Row>)
    requires EnforcesMemoryKeys(schema) && db in schema.accepted && MemoryTable(spec)
    requires ValidMemories(spec, rows)
    requires !Clash(TableOf(db, spec.table), spec, rows)
    requires MigrateMemories(schema, db, spec, rows).Some?
    ensures var run := MigrateMemories(schema, db, spec, rows).value;
            Faithful(TableOf(db, spec.table), TableOf(run.db, spec.table), spec, rows, run.idMap)
  {
    if rows != [] {
      var n := |rows| - 1;
      var t0 := TableOf(db, spec.table);
      SplitLast(rows);
      PrefixWithoutClash(t0, spec, rows);
      WithoutClashFaithful(schema, db, spec, rows[..n]);
      MapCoversRows(schema, db, spec, rows[..n]);
      var before, id := LastWrite(schema, db, spec, rows);
      var run := MigrateMemories(schema, db, spec, rows).value;
      var t, t' := TableOf(before.db, spec.table), TableOf(run.db, spec.table);
      FaithfulStep(t0, t, t', spec, rows[..n], rows[n], before.idMap, id);
    }
  }

  lemma PrefixWithoutClash(t0: Table, spec: TableSpec, rows: seq<Row>)
    requires rows != [] && ValidMemories(spec, rows) && !Clash(t0, spec, rows)
    ensures var n := |rows| - 1;
            && ValidMemories(spec, rows[..n]) && !Clash(t0, spec, rows[..n])
            && forall i :: 0 <= i < n ==> Apart(spec, rows[..n][i], rows[n]) && !Shadows(t0, spec, rows[..n][i], rows[n])
  {
    var n := |rows| - 1;
    forall i: nat, j: nat ensures !ClashAt(t0, spec, rows[..n], i, j) {
      assert !ClashAt(t0, spec, rows, i, j);
    }
    forall i | 0 <= i < n ensures Apart(spec, rows[..n][i], rows[n]) && !Shadows(t0, spec, rows[..n][i], rows[n]) {
      assert !ClashAt(t0, spec, rows, i, n);
    }
  }

  lemma FaithfulStep(t0: Table, t: Table, t': Table, spec: TableSpec, earlier: seq<Row>, row: Row, before: map<string, string>, id: string)
    requires MemoryTable(spec)
    requires forall i :: 0 <= i < |earlier| ==> Apart(spec, earlier[i], row) && !Shadows(t0, spec, earlier[i], row)
    requires Faithful(t0, t, spec, earlier, before) && before.Keys == Ids(spec, earlier)
    requires Step(spec, t, row, id, t')
    ensures Faithful(t0, t', spec, earlier + [row], before[KeyOf(spec, row) := id])
  {
    var key := KeyOf(spec, row);
    forall i | 0 <= i < |earlier| ensures StaysInPlace(t0, t', spec, earlier[i], before, key, id) {
      LandsApart(t0, t, spec, earlier[i], before[KeyOf(spec, earlier[i])], row, id);
    }
    NewPlace(t0, t, t', spec, earlier, row, before, id);
    Reassemble(t0, t', spec, earlier, row, before, id);
  }

  /** After the next write, an earlier row is still where the map says and still complete. */
  ghost predicate StaysInPlace(t0: Table, t': Table, spec: TableSpec, row: Row, before: map<string, string>, key: string, id: string) {
    var k := KeyOf(spec, row);
    && k in before && k != key && before[k] != id
    && before[k] in t' && Synced(t'[before[k]], spec, row) && LandsProperly(t0, spec, row, before[k])
  }

  lemma NewPlace(t0: Table, t: Table, t': Table, spec: TableSpec, earlier: seq<Row>, row: Row, before: map<string, string>, id: string)
    requires forall i :: 0 <= i < |earlier| ==> StaysInPlace(t0, t', spec, earlier[i], before, KeyOf(spec, row), id)
    requires before.Keys == Ids(spec, earlier) && TouchesOnly(t0, t, before)
    requires Step(spec, t, row, id, t')
    ensures LandsProperly(t0, spec, row, id) && TouchesOnly(t0, t', before[KeyOf(spec, row) := id])
  {
    hide Synced, Matches;
    forall k | k in before ensures k != KeyOf(spec, row) && before[k] != id {
      var r :| r in earlier && KeyOf(spec, r) == k;
    }
    assert id !in before.Values;
    ValuesGrow(before, KeyOf(spec, row), id);
  }

  lemma Reassemble(t0: Table, t': Table, spec: TableSpec, earlier: seq<Row>, row: Row, before: map<string, string>, id: string)
    requires forall i :: 0 <= i < |earlier| ==> StaysInPlace(t0, t', spec, earlier[i], before, KeyOf(spec, row), id)
    requires OneToOne(spec, earlier, before)
    requires id in t' && Synced(t'[id], spec, row) && LandsProperly(t0, spec, row, id)
    requires TouchesOnly(t0, t', before[KeyOf(spec, row) := id])
    ensures Faithful(t0, t', spec, earlier + [row], before[KeyOf(spec, row) := id])
  {
    var rows := earlier + [row];
    forall i | 0 <= i < |earlier|
      ensures rows[i] == earlier[i] && StaysInPlace(t0, t', spec, rows[i], before, KeyOf(spec, row), id)
    {
    }
  }

  lemma ValuesGrow(m: map<string, string>, key: string, value: string)
    requires key !in m
    ensures m[key := value].Values == m.Values + {value}
  {
    var m' := m[key := value];
    forall v | v in m.Values ensures v in m'.Values {
      var k :| k in m && m[k] == v;
      assert k in m' && m'[k] == v;
    }
    assert key in m' && m'[key] == value;
  }

  /** The next row never lands where an earlier one already is. */
  lemma LandsApart(t0: Table, t: Table, spec: TableSpec, earlier: Row, place: string, row: Row, id: string)
    requires MemoryTable(spec)
    requires place in t && Synced(t[place], spec, earlier) && LandsProperly(t0, spec, earlier, place)
    requires KeyOf(spec, earlier) != KeyOf(spec, row)
    requires !SameKey(earlier, row, OwnerId, Codename) && !SameKey(earlier, row, OwnerId, Slug)
    requires !(!Keyed(row) && KeyOf(spec, row) in t0 && Matches(earlier, t0[KeyOf(spec, row)]))
    requires (id in t && Matches(row, t[id])) || (id == KeyOf(spec, row) && (Keyed(row) ==> id !in t))
    ensures id != place
  {
    if id == place && Matches(row, t[id]) {
      SharedName(spec, earlier, row, t[id]);
    }
  }

  // ---------------------------------------------------------------- a clash merges two memories

  /** The target row under the id of `row` is already taken by a row that carries the clashing name. */
  lemma PlaceIsTaken(t0: Table, t: Table, spec: TableSpec, earlier: Row, before: map<string, string>, row: Row)
    requires MemoryTable(spec) && UniqueMemoryKeys(t) && TouchesOnly(t0, t, before)
    requires KeyOf(spec, earlier) in before && before[KeyOf(spec, earlier)] in t && Synced(t[before[KeyOf(spec, earlier)]], spec, earlier)
    requires Shadows(t0, spec, earlier, row) && Col(earlier, OwnerId).Text?
    ensures KeyOf(spec, row) in before.Values
  {
    hide UniqueMemoryKeys;
    var u, place := KeyOf(spec, row), before[KeyOf(spec, earlier)];
    CarriedIsMatched(spec, earlier, t[place]);
    if u !in before.Values {
      AtMostOneHit(t, earlier, u, place);
    }
  }

  /** With a clash at the last row, that row lands on the place of an earlier, named row. */
  lemma ClashLands(t0: Table, t: Table, spec: TableSpec, earlier: seq<Row>, before: map<string, string>, row: Row, i: nat)
    returns (taken: nat)
    requires MemoryTable(spec) && UniqueMemoryKeys(t)
    requires forall k :: 0 <= k < |earlier| ==> Apart(spec, earlier[k], row)
    requires Faithful(t0, t, spec, earlier, before) && before.Keys == Ids(spec, earlier)
    requires i < |earlier| && Shadows(t0, spec, earlier[i], row) && Col(earlier[i], OwnerId).Text?
    ensures taken < |earlier| && Keyed(earlier[taken])
    ensures before[KeyOf(spec, earlier[taken])] == KeyOf(spec, row)
  {
    hide UniqueMemoryKeys, Shadows, Matches, Synced;
    PlaceIsTaken(t0, t, spec, earlier[i], before, row);
    var k :| k in before && before[k] == KeyOf(spec, row);
    var r :| r in earlier && KeyOf(spec, r) == k;
    taken :| 0 <= taken < |earlier| && earlier[taken] == r;
    OffItsIdIsKeyed(t0, spec, earlier[taken], KeyOf(spec, row));
  }

  lemma OffItsIdIsKeyed(t0: Table, spec: TableSpec, row: Row, id: string)
    requires LandsProperly(t0, spec, row, id) && id != KeyOf(spec, row)
    ensures Keyed(row)
  {
  }

  lemma {:induction false} ClashMerges(schema: Schema, db: Database, spec: TableSpec, rows: seq<Row>)
    requires EnforcesMemoryKeys(schema) && db in schema.accepted && MemoryTable(spec)
    requires ValidMemories(spec, rows) && Clash(TableOf(db, spec.table), spec, rows)
    requires MigrateMemories(schema, db, spec, rows).Some?
    ensures !OneToOne(spec, rows, MigrateMemories(schema, db, spec, rows).value.idMap)
  {
    var t0 := TableOf(db, spec.table);
    var n := |rows| - 1;
    var before, id := LastWrite(schema, db, spec, rows);
    MapCoversRows(schema, db, spec, rows[..n]);
    PrefixIsValid(spec, rows);
    SplitLast(rows);
    if Clash(t0, spec, rows[..n]) {
      ClashMerges(schema, db, spec, rows[..n]);
      MergeStays(spec, rows[..n], rows[n], before.idMap, id);
    } else {
      WithoutClashFaithful(schema, db, spec, rows[..n]);
      var i := LastClash(t0, spec, rows);
      i := ClashLands(t0, TableOf(before.db, spec.table), spec, rows[..n], before.idMap, rows[n], i);
      MergeNow(spec, rows[..n], rows[n], before.idMap, i);
    }
  }

  lemma MergeStays(spec: TableSpec, earlier: seq<Row>, row: Row, before: map<string, string>, id: string)
    requires forall k :: 0 <= k < |earlier| ==> Apart(spec, earlier[k], row)
    requires before.Keys == Ids(spec, earlier) && !OneToOne(spec, earlier, before)
    ensures !OneToOne(spec, earlier + [row], before[KeyOf(spec, row) := id])
  {
    var rows, idMap := earlier + [row], before[KeyOf(spec, row) := id];
    var i, j :| 0 <= i < j < |earlier| && before[KeyOf(spec, earlier[i])] == before[KeyOf(spec, earlier[j])];
    assert rows[i] == earlier[i] && rows[j] == earlier[j];
  }

  lemma MergeNow(spec: TableSpec, earlier: seq<Row>, row: Row, before: map<string, string>, i: nat)
    requires forall k :: 0 <= k < |earlier| ==> Apart(spec, earlier[k], row)
    requires i < |earlier| && KeyOf(spec, earlier[i]) in before && before[KeyOf(spec, earlier[i])] == KeyOf(spec, row)
    ensures !OneToOne(spec, earlier + [row], before[KeyOf(spec, row) := KeyOf(spec, row)])
  {
    var rows := earlier + [row];
    assert rows[i] == earlier[i] && rows[|earlier|] == row;
  }

  lemma PrefixIsValid(spec: TableSpec, rows: seq<Row>)
    requires rows != [] && ValidMemories(spec, rows)
    ensures var n := |rows| - 1;
            && ValidMemories(spec, rows[..n])
            && forall k :: 0 <= k < n ==> Apart(spec, rows[..n][k], rows[n])
  {
  }

  /** A clash that the prefix does not have involves the last row. */
  lemma LastClash(t0: Table, spec: TableSpec, rows: seq<Row>) returns (i: nat)
    requires rows != [] && Clash(t0, spec, rows) && !Clash(t0, spec, rows[..|rows| - 1])
    ensures i < |rows| - 1 && Shadows(t0, spec, rows[..|rows| - 1][i], rows[|rows| - 1])
  {
    var n := |rows| - 1;
    var a: nat, b: nat :| ClashAt(t0, spec, rows, a, b);
    if b < n {
      assert ClashAt(t0, spec, rows[..n], a, b);
    }
    i := a;
  }

  /**
   * The exact condition: a completed pass maps the source memories one-to-one iff no
   * row that is matched by id alone has its id on a target row that an earlier row
   * matches by codename or slug.
   */
  lemma {:induction false} OneToOneExactlyWithoutClash(schema: Schema, db: Database, spec: TableSpec, rows: seq<Row>)
    requires EnforcesMemoryKeys(schema) && db in schema.accepted && MemoryTable(spec)
    requires ValidMemories(spec, rows)
    requires MigrateMemories(schema, db, spec, rows).Some?
    ensures OneToOne(spec, rows, MigrateMemories(schema, db, spec, rows).value.idMap)
            <==> !Clash(TableOf(db, spec.table), spec, rows)
  {
    if Clash(TableOf(db, spec.table), spec, rows) {
      ClashMerges(schema, db, spec, rows);
    } else {
      WithoutClashFaithful(schema, db, spec, rows);
    }
  }

  /** Ids that mean the same memory on both sides leave no room for a clash. */
  lemma AgreeingIdsNeverClash(t0: Table, spec: TableSpec, rows: seq<Row>)
    requires IdsAgree(t0, spec, rows)
    ensures !Clash(t0, spec, rows)
  {
    forall i: nat, j: nat | i < j < |rows| ensures !Shadows(t0, spec, rows[i], rows[j]) {
    }
  }

  // ---------------------------------------------------------------- running it again

  /** Writing a row that the target already carries changes nothing. */
  lemma WriteAgain(schema: Schema, db: Database, spec: TableSpec, key: string, row: Row)
    requires db in schema.accepted
    requires key in TableOf(db, spec.table) && Synced(TableOf(db, spec.table)[key], spec, row)
    ensures Write(schema, db, spec, key, row) == Some(db)
  {
    var t := TableOf(db, spec.table);
    assert Overwritten(t[key], spec, row) == t[key];
    assert t[key := t[key]] == t;
    assert db[spec.table := t] == db;
  }

  lemma UpsertAgain(schema: Schema, db: Database, spec: TableSpec, row: Row, t0: Table, place: string)
    requires EnforcesMemoryKeys(schema) && db in schema.accepted && MemoryTable(spec)
    requires Col(row, spec.primaryKey).Text? && Col(row, OwnerId).Text?
    requires var t := TableOf(db, spec.table); place in t && Synced(t[place], spec, row)
    requires LandsProperly(t0, spec, row, place)
    ensures UpsertMemory(schema, db, spec, row) == Some(MemoryWrite(db, place))
  {
    var t := TableOf(db, spec.table);
    WriteAgain(schema, db, spec, place, row);
    if Keyed(row) {
      CarriedIsMatched(spec, row, t[place]);
      AtMostOneHit(t, row, ArbiterHit(t, row).value, place);
    }
  }

  ghost predicate Agrees(t0: Table, t: Table, spec: TableSpec, row: Row, idMap: map<string, string>) {
    var k := KeyOf(spec, row);
    && Col(row, spec.primaryKey).Text? && Col(row, OwnerId).Text?
    && k in idMap && idMap[k] in t && Synced(t[idMap[k]], spec, row) && LandsProperly(t0, spec, row, idMap[k])
  }

  lemma FaithfulAgrees(t0: Table, t: Table, spec: TableSpec, rows: seq<Row>, idMap: map<string, string>)
    requires ValidMemories(spec, rows) && Faithful(t0, t, spec, rows, idMap) && idMap.Keys == Ids(spec, rows)
    ensures forall i :: 0 <= i < |rows| ==> Agrees(t0, t, spec, rows[i], idMap)
    ensures Restricted(spec, idMap, rows) == idMap
  {
  }

  lemma {:induction false} RerunStays(schema: Schema, db: Database, spec: TableSpec, rows: seq<Row>, t0: Table, idMap: map<string, string>)
    requires EnforcesMemoryKeys(schema) && db in schema.accepted && MemoryTable(spec)
    requires forall i :: 0 <= i < |rows| ==> Agrees(t0, TableOf(db, spec.table), spec, rows[i], idMap)
    ensures MigrateMemories(schema, db, spec, rows) == Some(MemoryRun(db, Restricted(spec, idMap, rows)))
  {
    if rows == [] {
      assert Restricted(spec, idMap, rows) == map[];
    } else {
      var n := |rows| - 1;
      hide MigrateMemories, EnforcesMemoryKeys, Agrees, Restricted;
      assert forall i :: 0 <= i < n ==> rows[..n][i] == rows[i];
      RerunStays(schema, db, spec, rows[..n], t0, idMap);
      AgreedRowStays(schema, db, spec, rows, t0, idMap);
    }
  }

  lemma AgreedRowStays(schema: Schema, db: Database, spec: TableSpec, rows: seq<Row>, t0: Table, idMap: map<string, string>)
    requires EnforcesMemoryKeys(schema) && db in schema.accepted && MemoryTable(spec)
    requires rows != [] && Agrees(t0, TableOf(db, spec.table), spec, rows[|rows| - 1], idMap)
    requires MigrateMemories(schema, db, spec, rows[..|rows| - 1]) == Some(MemoryRun(db, Restricted(spec, idMap, rows[..|rows| - 1])))
    ensures MigrateMemories(schema, db, spec, rows) == Some(MemoryRun(db, Restricted(spec, idMap, rows)))
  {
    hide UpsertMemory, EnforcesMemoryKeys, Synced, LandsProperly, Restricted;
    RestrictedStep(spec, idMap, rows);
    UpsertAgain(schema, db, spec, rows[|rows| - 1], t0, idMap[KeyOf(spec, rows[|rows| - 1])]);
  }

  ghost function Restricted(spec: TableSpec, idMap: map<string, string>, rows: seq<Row>): map<string, string> {
    map k | k in Ids(spec, rows) && k in idMap :: idMap[k]
  }

  lemma RestrictedStep(spec: TableSpec, idMap: map<string, string>, rows: seq<Row>)
    requires rows != [] && KeyOf(spec, rows[|rows| - 1]) in idMap
    ensures var k := KeyOf(spec, rows[|rows| - 1]);
            Restricted(spec, idMap, rows) == Restricted(spec, idMap, rows[..|rows| - 1])[k := idMap[k]]
  {
    IdsStep(spec, rows);
  }

  ghost predicate UnderOwnId(t: Table, spec: TableSpec, row: Row) {
    KeyOf(spec, row) in t && Synced(t[KeyOf(spec, row)], spec, row)
  }

  /** A later row cannot land on a row that has neither codename nor slug. */
  lemma UnkeyedUndisturbed(spec: TableSpec, t: Table, t': Table, held: Row, row: Row, id: string)
    requires MemoryTable(spec) && Step(spec, t, row, id, t') && Apart(spec, held, row)
    requires !Keyed(held) && UnderOwnId(t, spec, held)
    ensures UnderOwnId(t', spec, held)
  {
  }

  ghost predicate UnkeyedInPlace(t: Table, spec: TableSpec, rows: seq<Row>) {
    forall i :: 0 <= i < |rows| && !Keyed(rows[i]) ==> UnderOwnId(t, spec, rows[i])
  }

  lemma UnkeyedStep(spec: TableSpec, t: Table, t': Table, earlier: seq<Row>, row: Row, id: string)
    requires MemoryTable(spec) && Step(spec, t, row, id, t')
    requires forall i :: 0 <= i < |earlier| ==> Apart(spec, earlier[i], row)
    requires UnkeyedInPlace(t, spec, earlier)
    ensures UnkeyedInPlace(t', spec, earlier + [row])
  {
    forall i | 0 <= i < |earlier| && !Keyed(earlier[i]) ensures UnderOwnId(t', spec, earlier[i]) {
      hide Step, UnderOwnId, Apart, Matches, Synced;
      UnkeyedUndisturbed(spec, t, t', earlier[i], row, id);
    }
  }

  /** A row matched by id alone stays under its id for good, so no clash is left behind. */
  lemma {:induction false} UnkeyedStay(schema: Schema, db: Database, spec: TableSpec, rows: seq<Row>)
    requires EnforcesMemoryKeys(schema) && db in schema.accepted && MemoryTable(spec)
    requires ValidMemories(spec, rows) && MigrateMemories(schema, db, spec, rows).Some?
    ensures UnkeyedInPlace(TableOf(MigrateMemories(schema, db, spec, rows).value.db, spec.table), spec, rows)
  {
    hide UnkeyedInPlace, Step, Apart, UpsertMemory, EnforcesMemoryKeys;
    if rows == [] {
      NoneInPlace(TableOf(MigrateMemories(schema, db, spec, rows).value.db, spec.table), spec);
    } else {
      var n := |rows| - 1;
      SplitLast(rows);
      var before, id := LastWrite(schema, db, spec, rows);
      PrefixIsValid(spec, rows);
      UnkeyedStay(schema, db, spec, rows[..n]);
      UnkeyedStep(spec, TableOf(before.db, spec.table), TableOf(MigrateMemories(schema, db, spec, rows).value.db, spec.table),
                  rows[..n], rows[n], id);
    }
  }

  lemma NoneInPlace(t: Table, spec: TableSpec)
    ensures UnkeyedInPlace(t, spec, [])
  {
  }

  ghost predicate Lost(t: Table, row: Row) {
    Keyed(row) && forall k :: k in t ==> !Matches(row, t[k])
  }

  lemma LostForGood(spec: TableSpec, t: Table, t': Table, lost: Row, row: Row, id: string)
    requires MemoryTable(spec) && Step(spec, t, row, id, t') && Apart(spec, lost, row)
    requires Keyed(lost) && forall k :: k in t && k != id ==> !Matches(lost, t[k])
    ensures Lost(t', lost)
  {
    if Matches(lost, t'[id]) {
      SharedName(spec, row, lost, t'[id]);
    }
  }

  /** After a clash some named source row is nowhere in the target any more. */
  lemma {:induction false} ClashLosesName(schema: Schema, db: Database, spec: TableSpec, rows: seq<Row>) returns (lost: nat)
    requires EnforcesMemoryKeys(schema) && db in schema.accepted && MemoryTable(spec)
    requires ValidMemories(spec, rows) && Clash(TableOf(db, spec.table), spec, rows)
    requires MigrateMemories(schema, db, spec, rows).Some?
    ensures lost < |rows|
    ensures Lost(TableOf(MigrateMemories(schema, db, spec, rows).value.db, spec.table), rows[lost])
  {
    var t0 := TableOf(db, spec.table);
    var n := |rows| - 1;
    var before, id := LastWrite(schema, db, spec, rows);
    var t, t' := TableOf(before.db, spec.table), TableOf(MigrateMemories(schema, db, spec, rows).value.db, spec.table);
    PrefixIsValid(spec, rows);
    if Clash(t0, spec, rows[..n]) {
      lost := ClashLosesName(schema, db, spec, rows[..n]);
      LostForGood(spec, t, t', rows[..n][lost], rows[n], id);
    } else {
      WithoutClashFaithful(schema, db, spec, rows[..n]);
      MapCoversRows(schema, db, spec, rows[..n]);
      lost := LastClash(t0, spec, rows);
      lost := ClashLands(t0, t, spec, rows[..n], before.idMap, rows[n], lost);
      PlaceIsUnique(t0, t, spec, rows[..n], before.idMap, lost);
      LostForGood(spec, t, t', rows[..n][lost], rows[n], id);
    }
  }

  /** Only the place of a named row matches it. */
  lemma PlaceIsUnique(t0: Table, t: Table, spec: TableSpec, rows: seq<Row>, idMap: map<string, string>, i: nat)
    requires MemoryTable(spec) && UniqueMemoryKeys(t) && Faithful(t0, t, spec, rows, idMap)
    requires i < |rows| && Keyed(rows[i]) && Col(rows[i], OwnerId).Text?
    ensures forall k :: k in t && k != idMap[KeyOf(spec, rows[i])] ==> !Matches(rows[i], t[k])
  {
    var place := idMap[KeyOf(spec, rows[i])];
    CarriedIsMatched(spec, rows[i], t[place]);
    forall k | k in t && Matches(rows[i], t[k]) ensures k == place {
      AtMostOneHit(t, rows[i], k, place);
    }
  }

  /** A second pass over what a first one left completes without a change iff the first had no clash. */
  lemma RerunUnchangedExactlyWithoutClash(schema: Schema, db: Database, spec: TableSpec, rows: seq<Row>, db': Database)
    requires EnforcesMemoryKeys(schema) && db in schema.accepted && MemoryTable(spec) && ValidMemories(spec, rows)
    requires MigrateMemories(schema, db, spec, rows).Some?
    requires db' in schema.accepted
    requires TableOf(db', spec.table) == TableOf(MigrateMemories(schema, db, spec, rows).value.db, spec.table)
    ensures var again := MigrateMemories(schema, db', spec, rows);
            && (again.Some? && TableOf(again.value.db, spec.table) == TableOf(db', spec.table)
                <==> !Clash(TableOf(db, spec.table), spec, rows))
            && (!Clash(TableOf(db, spec.table), spec, rows) ==>
                  again == Some(MemoryRun(db', MigrateMemories(schema, db, spec, rows).value.idMap)))
  {
    var run := MigrateMemories(schema, db, spec, rows).value;
    var t0, t1 := TableOf(db, spec.table), TableOf(db', spec.table);
    if !Clash(t0, spec, rows) {
      WithoutClashFaithful(schema, db, spec, rows);
      MapCoversRows(schema, db, spec, rows);
      FaithfulAgrees(t0, t1, spec, rows, run.idMap);
      RerunStays(schema, db', spec, rows, t0, run.idMap);
    } else if MigrateMemories(schema, db', spec, rows).Some? {
      var lost := ClashLosesName(schema, db, spec, rows);
      NoClashLeft(schema, db, spec, rows);
      WithoutClashFaithful(schema, db', spec, rows);
      var again := MigrateMemories(schema, db', spec, rows).value;
      var place := again.idMap[KeyOf(spec, rows[lost])];
      CarriedIsMatched(spec, rows[lost], TableOf(again.db, spec.table)[place]);
    }
  }

  lemma NoClashLeft(schema: Schema, db: Database, spec: TableSpec, rows: seq<Row>)
    requires EnforcesMemoryKeys(schema) && db in schema.accepted && MemoryTable(spec) && ValidMemories(spec, rows)
    requires MigrateMemories(schema, db, spec, rows).Some?
    ensures !Clash(TableOf(MigrateMemories(schema, db, spec, rows).value.db, spec.table), spec, rows)
  {
    var t := TableOf(MigrateMemories(schema, db, spec, rows).value.db, spec.table);
    UnkeyedStay(schema, db, spec, rows);
    hide MigrateMemories, EnforcesMemoryKeys;
    forall i: nat, j: nat | i < j < |rows| ensures !Shadows(t, spec, rows[i], rows[j]) {
      if !Keyed(rows[j]) {
        assert UnderOwnId(t, spec, rows[j]);
      }
    }
  }
}
