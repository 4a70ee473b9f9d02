/** The merge in terms of table names and columns: which rows are merged, what
    comes of them, and what the final check accepts
    (tools/merge_qq_runtime_database.py). */
module DatabaseMergeRules {
  import opened Wrappers
  import opened DatabaseMerge

  // ----- One row that is already there -----

  /** The two rows agree in every column but the time of creation. */
  predicate SamePerson(a: Row, b: Row) {
    && a.key == b.key && a.userScope == b.userScope && a.updatedAt == b.updatedAt && a.revision == b.revision
    && a.interactionCount == b.interactionCount && a.rest == b.rest
  }

  /** What two rows of one key need to be merged, by the name of their table. */
  predicate MayMeet(table: string, prior: Row, row: Row) {
    if table == "character_states" || table == "relationship_states" then prior.userScope == "local"
    else if table == "participants" && row.key == ["local"] then SamePerson(prior, row)
    else SamePerson(prior, row) && prior.createdAt == row.createdAt
  }

  /** The columns of a merged row: those of the later of the two, the primary one when
      they are equally old, under the next revision; relationships add up their
      interactions. Rows of other tables stay what they were. */
  predicate Reconciles(table: string, prior: Row, row: Row, merged: Row) {
    if table == "character_states" || table == "relationship_states" then
      var later := if prior.updatedAt < row.updatedAt then row else prior;
      && merged.key == prior.key && merged.userScope == later.userScope && merged.updatedAt == later.updatedAt
      && merged.createdAt == later.createdAt && merged.rest == later.rest
      && merged.revision > prior.revision && merged.revision > row.revision
      && (merged.revision == prior.revision + 1 || merged.revision == row.revision + 1)
      && merged.interactionCount ==
         if table == "relationship_states" then prior.interactionCount + row.interactionCount else later.interactionCount
    else merged == prior
  }

  lemma CompatibleExactly(table: string, primary: Table, row: Row)
    ensures Compatible(table, primary, row) <==> (row.key in primary ==> MayMeet(table, primary[row.key], row))
  {}

  lemma MergedReconciles(table: string, prior: Row, row: Row)
    requires prior.key == row.key && MayMeet(table, prior, row)
    ensures Reconciles(table, prior, row, Merged(table, prior, row))
  {}

  /** A row is merged if and only if there is none with its key, or the two may meet;
      then the table holds the incoming row, or the reconciled one. */
  lemma RowMergesExactly(table: string, primary: Table, p: Progress, row: Row)
    requires Keyed(primary) && Untouched(primary, p.target, [row])
    ensures var r := MergeRow(table, primary, p, row);
      && (r.Ok? <==> (row.key in primary ==> MayMeet(table, primary[row.key], row)))
      && (r.Ok? ==>
            && row.key in r.value.target && r.value.target - {row.key} == p.target - {row.key}
            && (row.key in primary ==> Reconciles(table, primary[row.key], row, r.value.target[row.key]))
            && (row.key !in primary ==> r.value.target[row.key] == row))
      && (r.Err? ==> r.error == RefusalOf(table, row.key))
  {
    assert row in [row];
    CompatibleExactly(table, primary, row);
    if MergeRow(table, primary, p, row).Ok? {
      MergedRow(table, primary, p, row);
      if row.key in primary {
        MergedReconciles(table, primary[row.key], row);
      }
    }
  }

  /** How a row that may not meet the one already there is refused. */
  function RefusalOf(table: string, key: Key): Error {
    match table
    case "character_states" => NonOwnerState("character_states")
    case "relationship_states" => NonOwnerState("relationship_states")
    case "participants" => if key == ["local"] then OwnerDiffers else ConflictingIdentity("participants")
    case _ => ConflictingIdentity(table)
  }

  // ----- All rows of a table -----

  predicate RowOk(table: string, primary: Table, row: Row) { row.key in primary ==> MayMeet(table, primary[row.key], row) }

  /** The error is that of the first row that may not meet the one already there. */
  lemma {:induction false} FirstConflictIsReported(table: string, primary: Table, p: Progress, rows: seq<Row>) returns (i: nat)
    requires Keyed(primary) && KeysDistinct(rows) && Untouched(primary, p.target, rows)
    requires MergeRows(table, primary, p, rows).Err?
    ensures i < |rows| && MergeRows(table, primary, p, rows).error == RefusalOf(table, rows[i].key)
    ensures !RowOk(table, primary, rows[i]) && forall k :: 0 <= k < i ==> RowOk(table, primary, rows[k])
    decreases |rows|
  {
    assert rows[0] in rows;
    RowMergesExactly(table, primary, p, rows[0]);
    i := 0;
    if MergeRow(table, primary, p, rows[0]).Ok? {
      RestUntouched(table, primary, p, rows);
      i := FirstConflictIsReported(table, primary, MergeRow(table, primary, p, rows[0]).value, rows[1..]);
      i := i + 1;
    }
  }

  // ----- Whole tables -----

  /** The role of a table is that of its name. */
  predicate Named(d: TablePair) { d == PairOf(d.name, d.hasKey, d.primary, d.incoming) }

  /** A table of configuration is left alone, as is one without incoming rows; any
      other has to be a known one with a primary key. */
  predicate TableOk(d: TablePair) {
    || d.name in PRIMARY_CONFIG
    || d.incoming == []
    || (d.name in IMPORT_TABLES && d.hasKey && forall row :: row in d.incoming ==> RowOk(d.name, d.primary, row))
  }

  /** No table is both configuration and imported, and the three with rules of their
      own are imported. */
  lemma RolesApart()
    ensures PRIMARY_CONFIG !! IMPORT_TABLES
    ensures {"participants", "character_states", "relationship_states"} <= IMPORT_TABLES
  {}

  /** What the table holds after the merge, key by key. */
  ghost predicate Union(d: TablePair, target: Table) {
    if d.name in PRIMARY_CONFIG then target == d.primary
    else
      && (forall key :: key in target <==> key in d.primary || exists row :: row in d.incoming && row.key == key)
      && (forall key :: key in d.primary && (forall row :: row in d.incoming ==> row.key != key) ==> target[key] == d.primary[key])
      && (forall row :: row in d.incoming ==>
            if row.key in d.primary then Reconciles(d.name, d.primary[row.key], row, target[row.key])
            else target[row.key] == row)
  }

  lemma TableMergesExactly(d: TablePair)
    requires WellKeyed(d) && Named(d)
    ensures MergeTable(d).Ok? <==> TableOk(d)
    ensures MergeTable(d).Ok? ==> Union(d, MergeTable(d).value.target)
    ensures MergeTable(d) == Err(UnexpectedTable(d.name)) <==>
            d.name !in PRIMARY_CONFIG && d.incoming != [] && (d.name !in IMPORT_TABLES || !d.hasKey)
  {
    MergeTableExactly(d);
    forall row | row in d.incoming
      ensures Compatible(d.name, d.primary, row) <==> RowOk(d.name, d.primary, row)
    {
      CompatibleExactly(d.name, d.primary, row);
    }
    if d.name !in PRIMARY_CONFIG && d.incoming != [] && d.name in IMPORT_TABLES && d.hasKey {
      ImportedTable(d);
    }
  }

  lemma ImportedTable(d: TablePair)
    requires WellKeyed(d) && Named(d) && d.name !in PRIMARY_CONFIG && d.incoming != [] && d.name in IMPORT_TABLES && d.hasKey
    ensures MergeTable(d).Ok? ==> Union(d, MergeTable(d).value.target)
    ensures MergeTable(d) != Err(UnexpectedTable(d.name))
  {
    var start := Progress(d.primary, 0, 0);
    if MergeTable(d).Ok? {
      MergeIsUnion(d.name, d.primary, start, d.incoming);
      MergeTableExactly(d);
      forall row | row in d.incoming && row.key in d.primary
        ensures Reconciles(d.name, d.primary[row.key], row, MergeTable(d).value.target[row.key])
      {
        CompatibleExactly(d.name, d.primary, row);
        MergedReconciles(d.name, d.primary[row.key], row);
      }
    } else {
      var i := FirstConflictIsReported(d.name, d.primary, start, d.incoming);
    }
  }

  lemma {:induction false} OnlyStatesAreReconciled(table: string, primary: Table, p: Progress, rows: seq<Row>)
    requires table != "character_states" && table != "relationship_states" && MergeRows(table, primary, p, rows).Ok?
    ensures MergeRows(table, primary, p, rows).value.merged == p.merged
    decreases |rows|
  {
    if rows != [] {
      OnlyStatesAreReconciled(table, primary, MergeRow(table, primary, p, rows[0]).value, rows[1..]);
    }
  }

  /** The counters of a table: every key gained is one row inserted; in the two state
      tables every other row is one reconciled, elsewhere none is. */
  lemma CountersOfTable(d: TablePair)
    requires WellKeyed(d) && Named(d) && MergeTable(d).Ok?
    ensures var r := MergeTable(d).value;
      && r.inserted == |r.target| - |d.primary|
      && r.merged == if d.name in {"character_states", "relationship_states"} then |d.incoming| - r.inserted else 0
  {
    if d.name !in PRIMARY_CONFIG && d.incoming != [] {
      var start := Progress(d.primary, 0, 0);
      CountersAreRight(d.name, d.primary, start, d.incoming);
      if d.name !in {"character_states", "relationship_states"} {
        OnlyStatesAreReconciled(d.name, d.primary, start, d.incoming);
      }
    }
  }

  /** The union is one table: the conditions leave no choice. */
  lemma UnionIsOne(d: TablePair, a: Table, b: Table)
    requires WellKeyed(d) && Union(d, a) && Union(d, b)
    ensures a == b
  {
    if d.name !in PRIMARY_CONFIG {
      forall key | key in a
        ensures key in b && a[key] == b[key]
      {
        if row :| row in d.incoming && row.key == key {
          assert key in d.primary ==> Reconciles(d.name, d.primary[key], row, a[key]);
          assert key in d.primary ==> Reconciles(d.name, d.primary[key], row, b[key]);
        }
      }
    }
  }

  /** The final check accepts exactly the union of the two tables. */
  lemma CheckAcceptsExactlyUnion(d: TablePair, actual: Table)
    requires WellKeyed(d) && Named(d) && TableOk(d)
    ensures CheckTable(d, actual) == None <==> Union(d, actual)
    ensures CheckTable(d, actual) != None ==> CheckTable(d, actual) == Some(RowPreservationFailed(d.name))
  {
    TableMergesExactly(d);
    CheckCannotFail(d);
    var target := MergeTable(d).value.target;
    assert CheckTable(d, target) == None;
    assert actual != target ==> CheckTable(d, actual) == Some(RowPreservationFailed(d.name));
    if Union(d, actual) {
      UnionIsOne(d, actual, target);
    }
  }

  // ----- The whole database -----

  /** The operation succeeds if and only if every table may be merged, and then each
      result is the union of the two tables. */
  lemma DatabaseMergesExactly(tables: seq<TablePair>)
    requires AllWellKeyed(tables) && forall d :: d in tables ==> Named(d)
    ensures Outcome(tables).Ok? <==> forall d :: d in tables ==> TableOk(d)
    ensures Outcome(tables).Ok? ==>
              && |Outcome(tables).value| == |tables|
              && forall i :: 0 <= i < |tables| ==> Union(tables[i], Outcome(tables).value[i].target)
  {
    MergeDatabaseExactly(tables);
    forall d | d in tables
      ensures Mergeable(d) <==> TableOk(d)
    {
      MergeTableExactly(d);
      TableMergesExactly(d);
    }
    if Outcome(tables).Ok? {
      forall i | 0 <= i < |tables|
        ensures Union(tables[i], Outcome(tables).value[i].target)
      {
        assert tables[i] in tables;
        TableMergesExactly(tables[i]);
      }
    }
  }
}
