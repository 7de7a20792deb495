/**
 * The relation graph after a backfill is the source graph with its nodes renamed.
 */
module BackfillGraph {
  import opened Relational
  import opened BackfillModel
  import opened BackfillMemories
  import opened BackfillTables

  ghost predicate Edge(row: Row, a: string, b: string) {
    Col(row, SourceMemoryId) == Text(a) && Col(row, TargetMemoryId) == Text(b)
  }

  ghost predicate Linked(rows: seq<Row>, a: string, b: string) {
    exists i :: 0 <= i < |rows| && Edge(rows[i], a, b)
  }

  ghost predicate Path(rows: seq<Row>, nodes: seq<string>) {
    && |nodes| > 0
    && forall k :: 0 <= k < |nodes| - 1 ==> Linked(rows, nodes[k], nodes[k + 1])
  }

  ghost predicate Reachable(rows: seq<Row>, a: string, b: string) {
    exists nodes :: Path(rows, nodes) && nodes[0] == a && nodes[|nodes| - 1] == b
  }

  /** The ids at the ends of relations, whether or not their memories are scanned. */
  ghost function Ends(rows: seq<Row>): set<string> {
    (set row | row in rows && Col(row, SourceMemoryId).Text? :: Col(row, SourceMemoryId).text)
    + (set row | row in rows && Col(row, TargetMemoryId).Text? :: Col(row, TargetMemoryId).text)
  }

  lemma EdgeEnds(rows: seq<Row>, i: nat, a: string, b: string)
    requires i < |rows| && Edge(rows[i], a, b)
    ensures a in Ends(rows) && b in Ends(rows)
  {
    assert rows[i] in rows;
  }

  /** What the rewrite makes of an id: ids of memories that are not scanned stay. */
  function Image(id: string, idMap: map<string, string>): string {
    if id in idMap && idMap[id] != "" then idMap[id] else id
  }

  ghost function Naming(ids: set<string>, idMap: map<string, string>): map<string, string> {
    map id | id in ids :: Image(id, idMap)
  }

  /** The target rows that now hold the scanned relations. */
  ghost function Migrated(t: Table, spec: TableSpec, rows: seq<Row>): seq<Row>
    requires forall i :: 0 <= i < |rows| ==> KeyOf(spec, rows[i]) in t
  {
    seq(|rows|, i requires 0 <= i < |rows| => t[KeyOf(spec, rows[i])])
  }

  ghost function RenamedNodes(nodes: seq<string>, idMap: map<string, string>): seq<string>
    requires forall k :: 0 <= k < |nodes| ==> nodes[k] in idMap
  {
    seq(|nodes|, k requires 0 <= k < |nodes| => idMap[nodes[k]])
  }

  ghost predicate Injective(idMap: map<string, string>) {
    forall a, b :: a in idMap && b in idMap && idMap[a] == idMap[b] ==> a == b
  }

  /** A carried relation has the images of its ends. */
  lemma RemapEnds(row: Row, idMap: map<string, string>, spec: TableSpec)
    requires spec.table == MemoryRelations
    ensures var after := RemapMemoryForeignKeys(row, idMap, spec);
            && Col(after, SourceMemoryId) == Renamed(Col(row, SourceMemoryId), idMap)
            && Col(after, TargetMemoryId) == Renamed(Col(row, TargetMemoryId), idMap)
  {
    assert idMap != map[] ==> |idMap| != 0;
  }

  ghost predicate RelationsCarried(t: Table, spec: TableSpec, rows: seq<Row>, idMap: map<string, string>) {
    && spec.table == MemoryRelations && spec.primaryKey == Id
    && SourceMemoryId in spec.columns && TargetMemoryId in spec.columns
    && AllCarried(t, spec, rows, idMap)
    && forall i :: 0 <= i < |rows| ==> KeyOf(spec, rows[i]) in t
  }

  ghost predicate GraphCarried(t: Table, spec: TableSpec, rows: seq<Row>, idMap: map<string, string>, names: map<string, string>) {
    && RelationsCarried(t, spec, rows, idMap)
    && Ends(rows) <= names.Keys && names == Naming(names.Keys, idMap) && Injective(names)
  }

  /** A migrated relation joins two ids exactly when it joined ids with these images. */
  lemma EdgeRenamed(t: Table, spec: TableSpec, rows: seq<Row>, idMap: map<string, string>, i: nat, a: string, b: string)
    requires RelationsCarried(t, spec, rows, idMap) && i < |rows|
    ensures Edge(rows[i], a, b) ==> Edge(Migrated(t, spec, rows)[i], Image(a, idMap), Image(b, idMap))
    ensures Edge(Migrated(t, spec, rows)[i], a, b) ==>
              exists x, y :: Edge(rows[i], x, y) && Image(x, idMap) == a && Image(y, idMap) == b
  {
    hide RemapMemoryForeignKeys;
    assert Carried(t, spec, rows[i], idMap);
    RemapEnds(rows[i], idMap, spec);
    if Edge(Migrated(t, spec, rows)[i], a, b) {
      var x, y := Col(rows[i], SourceMemoryId).text, Col(rows[i], TargetMemoryId).text;
      assert Edge(rows[i], x, y) && Image(x, idMap) == a && Image(y, idMap) == b;
    }
  }

  /** Two ids are linked in the source iff their names are linked in the target. */
  lemma EdgesRenamed(t: Table, spec: TableSpec, rows: seq<Row>, idMap: map<string, string>, names: map<string, string>, a: string, b: string)
    requires GraphCarried(t, spec, rows, idMap, names) && a in names && b in names
    ensures Linked(rows, a, b) <==> Linked(Migrated(t, spec, rows), names[a], names[b])
  {
    hide Edge, AllCarried, Ends;
    var after := Migrated(t, spec, rows);
    forall i | 0 <= i < |rows| ensures Edge(rows[i], a, b) <==> Edge(after[i], names[a], names[b]) {
      EdgeRenamed(t, spec, rows, idMap, i, a, b);
      EdgeRenamed(t, spec, rows, idMap, i, names[a], names[b]);
      if Edge(after[i], names[a], names[b]) {
        var x, y :| Edge(rows[i], x, y) && Image(x, idMap) == names[a] && Image(y, idMap) == names[b];
        EdgeEnds(rows, i, x, y);
      }
    }
  }

  /** Nothing leaves the image: a migrated relation joins the names of two ends in the source. */
  lemma EdgesStayInImage(t: Table, spec: TableSpec, rows: seq<Row>, idMap: map<string, string>, names: map<string, string>, a': string, b': string)
    returns (a: string, b: string)
    requires GraphCarried(t, spec, rows, idMap, names)
    requires Linked(Migrated(t, spec, rows), a', b')
    ensures a in names && b in names && names[a] == a' && names[b] == b'
  {
    hide AllCarried, Ends;
    var i :| 0 <= i < |rows| && Edge(Migrated(t, spec, rows)[i], a', b');
    EdgeRenamed(t, spec, rows, idMap, i, a', b');
    a, b :| Edge(rows[i], a, b) && Image(a, idMap) == a' && Image(b, idMap) == b';
    EdgeEnds(rows, i, a, b);
  }

  lemma PathForward(t: Table, spec: TableSpec, rows: seq<Row>, idMap: map<string, string>, names: map<string, string>, nodes: seq<string>)
    requires GraphCarried(t, spec, rows, idMap, names)
    requires Path(rows, nodes) && forall k :: 0 <= k < |nodes| ==> nodes[k] in names
    ensures Path(Migrated(t, spec, rows), RenamedNodes(nodes, names))
  {
    hide GraphCarried, Linked;
    assert RelationsCarried(t, spec, rows, idMap) by {
      CarriedUnfold(t, spec, rows, idMap, names);
    }
    forall k | 0 <= k < |nodes| - 1 ensures Linked(Migrated(t, spec, rows), names[nodes[k]], names[nodes[k + 1]]) {
      EdgesRenamed(t, spec, rows, idMap, names, nodes[k], nodes[k + 1]);
    }
  }

  lemma CarriedUnfold(t: Table, spec: TableSpec, rows: seq<Row>, idMap: map<string, string>, names: map<string, string>)
    requires GraphCarried(t, spec, rows, idMap, names)
    ensures RelationsCarried(t, spec, rows, idMap) && Ends(rows) <= names.Keys
  {
  }

  lemma PathNodesNamed(rows: seq<Row>, ids: set<string>, nodes: seq<string>)
    requires Ends(rows) <= ids && Path(rows, nodes) && nodes[0] in ids
    ensures forall k :: 0 <= k < |nodes| ==> nodes[k] in ids
  {
    forall k | 0 < k < |nodes| ensures nodes[k] in ids {
      assert Linked(rows, nodes[k - 1], nodes[k - 1 + 1]);
      var i :| 0 <= i < |rows| && Edge(rows[i], nodes[k - 1], nodes[k]);
      EdgeEnds(rows, i, nodes[k - 1], nodes[k]);
    }
  }

  /** A walk in the migrated graph is the renaming of a walk in the source graph. */
  lemma {:induction false} PathBackward(t: Table, spec: TableSpec, rows: seq<Row>, idMap: map<string, string>, names: map<string, string>,
                                        x: string, nodes': seq<string>)
    returns (nodes: seq<string>)
    requires GraphCarried(t, spec, rows, idMap, names)
    requires x in names && Path(Migrated(t, spec, rows), nodes') && nodes'[0] == names[x]
    ensures Path(rows, nodes) && nodes[0] == x
    ensures forall k :: 0 <= k < |nodes| ==> nodes[k] in names
    ensures RenamedNodes(nodes, names) == nodes'
    decreases |nodes'|
  {
    hide AllCarried, Ends, Linked, Naming;
    if |nodes'| == 1 {
      nodes := [x];
    } else {
      var n := |nodes'| - 1;
      var shorter := nodes'[..n];
      forall k | 0 <= k < n - 1 ensures Linked(Migrated(t, spec, rows), shorter[k], shorter[k + 1]) {
        assert Linked(Migrated(t, spec, rows), nodes'[k], nodes'[k + 1]);
      }
      var front := PathBackward(t, spec, rows, idMap, names, x, shorter);
      assert |front| == |RenamedNodes(front, names)| == n;
      assert Linked(Migrated(t, spec, rows), nodes'[n - 1], nodes'[n - 1 + 1]);
      var a, b := EdgesStayInImage(t, spec, rows, idMap, names, nodes'[n - 1], nodes'[n]);
      assert names[front[n - 1]] == RenamedNodes(front, names)[n - 1] == nodes'[n - 1];
      EdgesRenamed(t, spec, rows, idMap, names, front[n - 1], b);
      nodes := front + [b];
      forall k | 0 <= k < n ensures Linked(rows, nodes[k], nodes[k + 1]) {
        if k < n - 1 {
          assert Linked(rows, front[k], front[k + 1]);
        }
      }
      assert RenamedNodes(nodes, names) == RenamedNodes(front, names) + [nodes'[n]];
    }
  }

  /** Reachability is the same before and after, up to the renaming. */
  lemma ReachabilityPreserved(t: Table, spec: TableSpec, rows: seq<Row>, idMap: map<string, string>, names: map<string, string>, x: string, y: string)
    requires GraphCarried(t, spec, rows, idMap, names)
    requires x in names && y in names
    ensures Reachable(rows, x, y) <==> Reachable(Migrated(t, spec, rows), names[x], names[y])
  {
    hide AllCarried, Ends, Linked, Naming;
    var after := Migrated(t, spec, rows);
    if Reachable(rows, x, y) {
      var nodes :| Path(rows, nodes) && nodes[0] == x && nodes[|nodes| - 1] == y;
      PathNodesNamed(rows, names.Keys, nodes);
      PathForward(t, spec, rows, idMap, names, nodes);
      var renamed := RenamedNodes(nodes, names);
      assert renamed[0] == names[x] && renamed[|renamed| - 1] == names[y];
    }
    if Reachable(after, names[x], names[y]) {
      var nodes' :| Path(after, nodes') && nodes'[0] == names[x] && nodes'[|nodes'| - 1] == names[y];
      var nodes := PathBackward(t, spec, rows, idMap, names, x, nodes');
      assert names[nodes[|nodes| - 1]] == RenamedNodes(nodes, names)[|nodes| - 1];
    }
  }

  // ---------------------------------------------------------------- a completed run

  /** The scanned memories and all ends of relations. */
  ghost function Nodes(source: Source, owner: string, memories: TableSpec, relations: TableSpec): set<string> {
    Ids(memories, ScopedRows(source, memories, owner)) + Ends(ScopedRows(source, relations, owner))
  }

  ghost predicate MigratedGraph(source: Source, owner: string, after: Database, memories: TableSpec, relations: TableSpec, idMap: map<string, string>) {
    var rels := ScopedRows(source, relations, owner);
    var t := TableOf(after, MemoryRelations);
    var names := Naming(Nodes(source, owner, memories, relations), idMap);
    && Injective(names)
    && (forall id :: id in Ids(memories, ScopedRows(source, memories, owner)) ==> id in idMap && names[id] == idMap[id])
    && (forall i :: 0 <= i < |rels| ==> KeyOf(relations, rels[i]) in t)
    && forall x, y :: x in names && y in names ==>
         && (Linked(rels, x, y) <==> Linked(Migrated(t, relations, rels), names[x], names[y]))
         && (Reachable(rels, x, y) <==> Reachable(Migrated(t, relations, rels), names[x], names[y]))
  }

  lemma OneToOneIsInjective(spec: TableSpec, rows: seq<Row>, idMap: map<string, string>)
    requires OneToOne(spec, rows, idMap) && idMap.Keys == Ids(spec, rows)
    ensures Injective(idMap)
  {
    forall a, b | a in idMap && b in idMap && idMap[a] == idMap[b] ensures a == b {
      var r :| r in rows && KeyOf(spec, r) == a;
      var s :| s in rows && KeyOf(spec, s) == b;
      var i :| 0 <= i < |rows| && rows[i] == r;
      var j :| 0 <= j < |rows| && rows[j] == s;
    }
  }

  /** A relation's end that is not scanned has the id of a target row which some scanned memory would take over. */
  ghost predicate Mistaken(t0: Table, memories: TableSpec, rows: seq<Row>, id: string) {
    id !in Ids(memories, rows) && id in t0 && exists i :: 0 <= i < |rows| && Matches(rows[i], t0[id])
  }

  lemma NamesAreInjective(t0: Table, t: Table, memories: TableSpec, rows: seq<Row>, idMap: map<string, string>, ids: set<string>)
    requires Faithful(t0, t, memories, rows, idMap) && idMap.Keys == Ids(memories, rows) && "" !in t0
    requires forall id :: id in ids ==> !Mistaken(t0, memories, rows, id)
    ensures Injective(Naming(ids, idMap))
    ensures forall id :: id in idMap ==> Image(id, idMap) == idMap[id]
  {
    OneToOneIsInjective(memories, rows, idMap);
    ImagesNotEmpty(t0, t, memories, rows, idMap);
    hide Synced, Matches, CarriesAll, TouchesOnly, OneToOne;
    forall a, b | a in ids && b in ids && Image(a, idMap) == Image(b, idMap) ensures a == b {
      if a in idMap && b !in idMap {
        ImageIsNoStranger(t0, t, memories, rows, idMap, a, b);
      } else if b in idMap && a !in idMap {
        ImageIsNoStranger(t0, t, memories, rows, idMap, b, a);
      }
    }
  }

  lemma ImageIsNoStranger(t0: Table, t: Table, memories: TableSpec, rows: seq<Row>, idMap: map<string, string>, a: string, b: string)
    requires Faithful(t0, t, memories, rows, idMap) && idMap.Keys == Ids(memories, rows)
    requires a in idMap && b !in idMap && !Mistaken(t0, memories, rows, b)
    ensures idMap[a] != b
  {
    var row :| row in rows && KeyOf(memories, row) == a;
    var i :| 0 <= i < |rows| && rows[i] == row;
    assert LandsProperly(t0, memories, rows[i], idMap[a]);
  }

  /** No relation has such an end. */
  ghost predicate NoneMistaken(source: Source, owner: string, db: Database, memories: TableSpec, relations: TableSpec) {
    forall id :: id in Ends(ScopedRows(source, relations, owner)) ==>
      !Mistaken(TableOf(db, Memories), memories, ScopedRows(source, memories, owner), id)
  }

  /**
   * The relation graph that a completed run leaves is the source graph renamed (the naming
   * is injective on all memories and ends, two of them are linked, and reach each other,
   * after the run exactly as before) iff there is no clash and no unscanned end bears the
   * id of a target row that a scanned memory takes over. Empty target ids are ruled out
   * because the rewrite skips them.
   */
  lemma RelationGraphRenamed(schema: Schema, source: Source, owner: string, db: Database, specs: seq<TableSpec>, m: nat, r: nat)
    requires EnforcesMemoryKeys(schema) && db in schema.accepted
    requires WellOrdered(specs) && ValidSource(source, owner, specs)
    requires m < |specs| && specs[m].table == Memories
    requires r < |specs| && specs[r].table == MemoryRelations && specs[r].primaryKey == Id
    requires SourceMemoryId in specs[r].columns && TargetMemoryId in specs[r].columns
    requires "" !in TableOf(db, Memories)
    requires MigrateAll(schema, source, owner, db, specs).Some?
    ensures var run := MigrateAll(schema, source, owner, db, specs).value;
            MigratedGraph(source, owner, run.db, specs[m], specs[r], run.idMap)
            <==> NoClash(source, owner, db, specs) && NoneMistaken(source, owner, db, specs[m], specs[r])
  {
    hide MigrateAll, ValidSource, NoClash, ScopedRows, EnforcesMemoryKeys, Faithful, Ids, Ends, Mistaken, MigratedGraph, AllCarried, TableOf, OneToOne;
    var run := MigrateAll(schema, source, owner, db, specs).value;
    RunIsOneToOneExactlyWithoutClash(schema, source, owner, db, specs, m);
    if NoClash(source, owner, db, specs) {
      MemoriesAndRelations(schema, source, owner, db, specs, m, r);
      if NoneMistaken(source, owner, db, specs[m], specs[r]) {
        GraphIsRenamed(source, owner, db, run.db, specs[m], specs[r], run.idMap);
      } else {
        MistakenEndBreaks(schema, source, owner, db, specs, m, r);
      }
    } else if MigratedGraph(source, owner, run.db, specs[m], specs[r], run.idMap) {
      MemoriesAreValid(source, owner, specs, m);
      GraphIsOneToOne(source, owner, run.db, specs[m], specs[r], run.idMap);
    }
  }

  lemma MemoriesAreValid(source: Source, owner: string, specs: seq<TableSpec>, m: nat)
    requires ValidSource(source, owner, specs) && m < |specs| && specs[m].table == Memories
    ensures ValidMemories(specs[m], ScopedRows(source, specs[m], owner))
  {
  }

  /** A migrated graph has one name for each memory. */
  lemma GraphIsOneToOne(source: Source, owner: string, after: Database, memories: TableSpec, relations: TableSpec, idMap: map<string, string>)
    requires MigratedGraph(source, owner, after, memories, relations, idMap)
    requires ValidMemories(memories, ScopedRows(source, memories, owner))
    ensures OneToOne(memories, ScopedRows(source, memories, owner), idMap)
  {
    hide ScopedRows, Ends, KeyOf, Linked, Reachable;
    var rows := ScopedRows(source, memories, owner);
    forall i | 0 <= i < |rows| ensures KeyOf(memories, rows[i]) in Ids(memories, rows) {
      assert rows[i] in rows;
    }
    forall i, j | 0 <= i < j < |rows| ensures idMap[KeyOf(memories, rows[i])] != idMap[KeyOf(memories, rows[j])] {
      assert Apart(memories, rows[i], rows[j]);
    }
  }

  /** The target row of a mistaken end is taken over: its id is the image of a scanned memory. */
  lemma MistakenIsImage(t0: Table, t: Table, memories: TableSpec, rows: seq<Row>, idMap: map<string, string>, id: string)
    requires MemoryTable(memories) && ValidMemories(memories, rows) && UniqueMemoryKeys(t)
    requires Faithful(t0, t, memories, rows, idMap) && idMap.Keys == Ids(memories, rows)
    requires Mistaken(t0, memories, rows, id)
    ensures id in idMap.Values
  {
    var i :| 0 <= i < |rows| && Matches(rows[i], t0[id]);
    hide OneToOne, Synced, SameKey, UniqueMemoryKeys, Ids;
    if id !in idMap.Values {
      var place := idMap[KeyOf(memories, rows[i])];
      assert place in idMap.Values;
      assert Keyed(rows[i]);
      CarriedIsMatched(memories, rows[i], t[place]);
      AtMostOneHit(t, rows[i], place, id);
    }
  }

  lemma TwoOfOneName(ids: set<string>, idMap: map<string, string>, id: string)
    requires id in ids && id !in idMap && id != "" && id in idMap.Values && idMap.Keys <= ids
    ensures !Injective(Naming(ids, idMap))
  {
    var a :| a in idMap && idMap[a] == id;
    var names := Naming(ids, idMap);
    assert names[a] == id == names[id];
  }

  /** The memory and the end whose target row it took over get one name. */
  lemma MistakenEndBreaks(schema: Schema, source: Source, owner: string, db: Database, specs: seq<TableSpec>, m: nat, r: nat)
    requires EnforcesMemoryKeys(schema) && db in schema.accepted
    requires WellOrdered(specs) && ValidSource(source, owner, specs) && NoClash(source, owner, db, specs)
    requires m < |specs| && specs[m].table == Memories && r < |specs| && specs[r].table == MemoryRelations
    requires "" !in TableOf(db, Memories)
    requires MigrateAll(schema, source, owner, db, specs).Some?
    requires !NoneMistaken(source, owner, db, specs[m], specs[r])
    ensures var run := MigrateAll(schema, source, owner, db, specs).value;
            !MigratedGraph(source, owner, run.db, specs[m], specs[r], run.idMap)
  {
    MemoriesAndRelations(schema, source, owner, db, specs, m, r);
    MemoriesAreValid(source, owner, specs, m);
    var run := MigrateAll(schema, source, owner, db, specs).value;
    UniqueAfter(schema, run.db);
    assert MemoryTable(specs[m]);
    hide MigrateAll, ValidSource, NoClash, ScopedRows, EnforcesMemoryKeys, Faithful, Ids, Ends, AllCarried, TableOf, WellOrdered,
         ValidMemories, UniqueMemoryKeys, Linked, Reachable, Injective, Naming, Matches, MemoryTable;
    var rows := ScopedRows(source, specs[m], owner);
    var id :| id in Ends(ScopedRows(source, specs[r], owner)) && Mistaken(TableOf(db, Memories), specs[m], rows, id);
    MistakenIsImage(TableOf(db, Memories), TableOf(run.db, Memories), specs[m], rows, run.idMap, id);
    TwoOfOneName(Nodes(source, owner, specs[m], specs[r]), run.idMap, id);
  }

  lemma UniqueAfter(schema: Schema, after: Database)
    requires EnforcesMemoryKeys(schema) && after in schema.accepted
    ensures UniqueMemoryKeys(TableOf(after, Memories))
  {
  }

  /** What a completed run says of the two tables of the graph. */
  lemma MemoriesAndRelations(schema: Schema, source: Source, owner: string, db: Database, specs: seq<TableSpec>, m: nat, r: nat)
    requires EnforcesMemoryKeys(schema) && db in schema.accepted
    requires WellOrdered(specs) && ValidSource(source, owner, specs) && NoClash(source, owner, db, specs)
    requires m < |specs| && specs[m].table == Memories && r < |specs| && specs[r].table == MemoryRelations
    requires MigrateAll(schema, source, owner, db, specs).Some?
    ensures var run := MigrateAll(schema, source, owner, db, specs).value;
            && Faithful(TableOf(db, Memories), TableOf(run.db, Memories), specs[m], ScopedRows(source, specs[m], owner), run.idMap)
            && run.idMap.Keys == Ids(specs[m], ScopedRows(source, specs[m], owner))
            && AllCarried(TableOf(run.db, MemoryRelations), specs[r], ScopedRows(source, specs[r], owner), run.idMap)
  {
    CompletedRunArrives(schema, source, owner, db, specs);
    hide MigrateAll, WellOrdered, ValidSource, NoClash, ScopedRows, EnforcesMemoryKeys, Faithful, AllCarried, Ids;
    var run := MigrateAll(schema, source, owner, db, specs).value;
    assert Arrived(source, owner, db, run.db, specs[m], run.idMap);
    assert Arrived(source, owner, db, run.db, specs[r], run.idMap);
  }

  lemma GraphIsRenamed(source: Source, owner: string, db: Database, after: Database, memories: TableSpec, relations: TableSpec, idMap: map<string, string>)
    requires var rows := ScopedRows(source, memories, owner);
             Faithful(TableOf(db, Memories), TableOf(after, Memories), memories, rows, idMap) && idMap.Keys == Ids(memories, rows)
    requires relations.table == MemoryRelations && relations.primaryKey == Id
    requires SourceMemoryId in relations.columns && TargetMemoryId in relations.columns
    requires AllCarried(TableOf(after, MemoryRelations), relations, ScopedRows(source, relations, owner), idMap)
    requires forall id :: id in Ends(ScopedRows(source, relations, owner)) ==>
               !Mistaken(TableOf(db, Memories), memories, ScopedRows(source, memories, owner), id)
    requires "" !in TableOf(db, Memories)
    ensures MigratedGraph(source, owner, after, memories, relations, idMap)
  {
    var rels, t := ScopedRows(source, relations, owner), TableOf(after, MemoryRelations);
    var names := Naming(Nodes(source, owner, memories, relations), idMap);
    hide ScopedRows, Faithful, AllCarried, Mistaken, GraphCarried, TableOf, Linked, Reachable, Ids, Ends, KeyOf;
    GraphIsCarried(TableOf(db, Memories), TableOf(after, Memories), t, memories, ScopedRows(source, memories, owner), relations, rels, idMap, names);
    forall x, y | x in names && y in names
      ensures Linked(rels, x, y) <==> Linked(Migrated(t, relations, rels), names[x], names[y])
      ensures Reachable(rels, x, y) <==> Reachable(Migrated(t, relations, rels), names[x], names[y])
    {
      EdgesRenamed(t, relations, rels, idMap, names, x, y);
      ReachabilityPreserved(t, relations, rels, idMap, names, x, y);
    }
  }

  lemma GraphIsCarried(t0: Table, m: Table, t: Table, memories: TableSpec, rows: seq<Row>, relations: TableSpec, rels: seq<Row>,
                       idMap: map<string, string>, names: map<string, string>)
    requires Faithful(t0, m, memories, rows, idMap) && idMap.Keys == Ids(memories, rows)
    requires relations.table == MemoryRelations && relations.primaryKey == Id
    requires SourceMemoryId in relations.columns && TargetMemoryId in relations.columns
    requires AllCarried(t, relations, rels, idMap) && "" !in t0
    requires forall id :: id in Ends(rels) ==> !Mistaken(t0, memories, rows, id)
    requires names == Naming(Ids(memories, rows) + Ends(rels), idMap)
    ensures GraphCarried(t, relations, rels, idMap, names)
    ensures forall i :: 0 <= i < |rels| ==> KeyOf(relations, rels[i]) in t
    ensures Injective(names) && forall id :: id in Ids(memories, rows) ==> names[id] == idMap[id]
  {
    hide Ends, Faithful, Matches, Synced, Ids;
    NamesAreInjective(t0, m, memories, rows, idMap, Ids(memories, rows) + Ends(rels));
    forall i | 0 <= i < |rels| ensures KeyOf(relations, rels[i]) in t {
      assert Carried(t, relations, rels[i], idMap);
    }
  }

  /**
   * Row by row, whatever its ends: after a completed run the relation stands under its own
   * key; an end that was not scanned is as it was, and a scanned one is the image of its
   * memory, unless that image is an empty id that the target had before.
   */
  lemma RelationEndsRenamed(schema: Schema, source: Source, owner: string, db: Database, specs: seq<TableSpec>, m: nat, r: nat, i: nat)
    requires EnforcesMemoryKeys(schema) && db in schema.accepted
    requires WellOrdered(specs) && ValidSource(source, owner, specs) && NoClash(source, owner, db, specs)
    requires m < |specs| && specs[m].table == Memories
    requires r < |specs| && specs[r].table == MemoryRelations && specs[r].primaryKey == Id
    requires SourceMemoryId in specs[r].columns && TargetMemoryId in specs[r].columns
    requires i < |ScopedRows(source, specs[r], owner)|
    requires MigrateAll(schema, source, owner, db, specs).Some?
    ensures var run := MigrateAll(schema, source, owner, db, specs).value;
            var row := ScopedRows(source, specs[r], owner)[i];
            var t := TableOf(run.db, MemoryRelations);
            var scanned := Ids(specs[m], ScopedRows(source, specs[m], owner));
            && KeyOf(specs[r], row) in t
            && EndRenamed(Col(row, SourceMemoryId), Col(t[KeyOf(specs[r], row)], SourceMemoryId), scanned, run.idMap)
            && EndRenamed(Col(row, TargetMemoryId), Col(t[KeyOf(specs[r], row)], TargetMemoryId), scanned, run.idMap)
  {
    hide MigrateAll, ValidSource, NoClash, ScopedRows, EnforcesMemoryKeys, Faithful, Ids, AllCarried, EndRenamed, KeyOf, Col, TableOf;
    MemoriesAndRelations(schema, source, owner, db, specs, m, r);
    RowIsRenamed(TableOf(MigrateAll(schema, source, owner, db, specs).value.db, MemoryRelations), specs[r], ScopedRows(source, specs[r], owner),
                 MigrateAll(schema, source, owner, db, specs).value.idMap, i);
  }

  lemma RowIsRenamed(t: Table, spec: TableSpec, rels: seq<Row>, idMap: map<string, string>, i: nat)
    requires spec.table == MemoryRelations && spec.primaryKey == Id
    requires SourceMemoryId in spec.columns && TargetMemoryId in spec.columns
    requires AllCarried(t, spec, rels, idMap) && i < |rels|
    ensures KeyOf(spec, rels[i]) in t
    ensures EndRenamed(Col(rels[i], SourceMemoryId), Col(t[KeyOf(spec, rels[i])], SourceMemoryId), idMap.Keys, idMap)
    ensures EndRenamed(Col(rels[i], TargetMemoryId), Col(t[KeyOf(spec, rels[i])], TargetMemoryId), idMap.Keys, idMap)
  {
    hide RemapMemoryForeignKeys;
    assert Carried(t, spec, rels[i], idMap);
    RemapEnds(rels[i], idMap, spec);
  }

  ghost predicate EndRenamed(before: Cell, after: Cell, scanned: set<string>, idMap: map<string, string>) {
    && (before.Null? || before.text !in scanned ==> after == before)
    && (before.Text? && before.text in scanned ==>
          before.text in idMap && (after == Text(idMap[before.text]) <==> idMap[before.text] != "" || before.text == ""))
  }

  /** Only an existing target row can have an empty id that its source memory did not have. */
  lemma ImagesNotEmpty(t0: Table, t: Table, spec: TableSpec, rows: seq<Row>, idMap: map<string, string>)
    requires Faithful(t0, t, spec, rows, idMap) && idMap.Keys == Ids(spec, rows)
    requires "" !in t0
    ensures forall id :: id in idMap ==> idMap[id] != "" || id == ""
  {
    forall id | id in idMap ensures idMap[id] != "" || id == "" {
      var row :| row in rows && KeyOf(spec, row) == id;
      var i :| 0 <= i < |rows| && rows[i] == row;
      assert LandsProperly(t0, spec, rows[i], idMap[id]);
    }
  }

  /** Every migrated embedding belongs to the image of the memory it belonged to. */
  lemma EmbeddingsRenamed(schema: Schema, source: Source, owner: string, db: Database, specs: seq<TableSpec>, m: nat, e: nat, i: nat, id: string)
    requires EnforcesMemoryKeys(schema) && db in schema.accepted
    requires WellOrdered(specs) && ValidSource(source, owner, specs) && NoClash(source, owner, db, specs)
    requires m < |specs| && specs[m].table == Memories
    requires e < |specs| && specs[e].table == MemoryEmbeddings && MemoryId in specs[e].columns
    requires "" !in TableOf(db, Memories)
    requires i < |ScopedRows(source, specs[e], owner)|
    requires Col(ScopedRows(source, specs[e], owner)[i], MemoryId) == Text(id)
    requires id in Ids(specs[m], ScopedRows(source, specs[m], owner))
    requires MigrateAll(schema, source, owner, db, specs).Some?
    ensures var run := MigrateAll(schema, source, owner, db, specs).value;
            var k := KeyOf(specs[e], ScopedRows(source, specs[e], owner)[i]);
            && id in run.idMap && run.idMap[id] in TableOf(run.db, Memories)
            && k in TableOf(run.db, MemoryEmbeddings)
            && Col(TableOf(run.db, MemoryEmbeddings)[k], MemoryId) == Text(run.idMap[id])
  {
    var run := MigrateAll(schema, source, owner, db, specs).value;
    CompletedRunArrives(schema, source, owner, db, specs);
    assert Arrived(source, owner, db, run.db, specs[m], run.idMap);
    assert Arrived(source, owner, db, run.db, specs[e], run.idMap);
    ImagesNotEmpty(TableOf(db, Memories), TableOf(run.db, Memories), specs[m], ScopedRows(source, specs[m], owner), run.idMap);
    assert KeyIsNotForeign(specs[e]);
    EmbeddingArrived(TableOf(run.db, MemoryEmbeddings), specs[e], ScopedRows(source, specs[e], owner), run.idMap, i, id);
    assert TouchesOnly(TableOf(db, Memories), TableOf(run.db, Memories), run.idMap);
    assert run.idMap[id] in run.idMap.Values;
  }

  lemma EmbeddingArrived(t: Table, spec: TableSpec, rows: seq<Row>, idMap: map<string, string>, i: nat, id: string)
    requires spec.table == MemoryEmbeddings && spec.primaryKey != MemoryId && MemoryId in spec.columns
    requires AllCarried(t, spec, rows, idMap) && i < |rows| && Col(rows[i], MemoryId) == Text(id)
    requires id in idMap && (idMap[id] != "" || id == "")
    ensures KeyOf(spec, rows[i]) in t && Col(t[KeyOf(spec, rows[i])], MemoryId) == Text(idMap[id])
  {
    assert Carried(t, spec, rows[i], idMap);
    assert |idMap| != 0;
  }
}
