/** Merging the rows of a second database into a copy of the primary one, and the
    check of the result against the declared union
    (tools/merge_qq_runtime_database.py). Tables are maps from primary key to row. */
module DatabaseMerge {
  import opened Wrappers

  type Key = seq<string>

  /** `updatedAt` is the parsed time; `rest` are the columns no rule looks at. */
  datatype Row = Row(key: Key, userScope: string, updatedAt: int, revision: int, interactionCount: int,
                     createdAt: string, rest: seq<string>)

  type Table = map<Key, Row>

  datatype Error =
    | UnexpectedTable(table: string)
    | NonOwnerState(table: string)
    | OwnerDiffers
    | ConflictingIdentity(table: string)
    | DuplicateKey(table: string)
    | RowPreservationFailed(table: string)

  const PRIMARY_CONFIG: set<string> :=
    {"schema_migrations", "model_role_configs", "companion_settings", "realtime_configurations",
     "tts_cloud_configs", "tts_provider_configs", "photo_memory_settings", "sticker_library_settings"}

  const IMPORT_TABLES: set<string> :=
    {"participants", "conversation_scenes", "sessions", "turns", "generations", "events", "outbox",
     "memory_items", "memory_records", "memory_sources", "memory_proposals", "memory_embeddings",
     "memory_scope_resets", "character_states", "relationship_states", "conversation_history_dependencies",
     "skill_runs", "skill_tool_calls", "permission_requests", "permission_grants", "channel_connections",
     "channel_adapter_checkpoints", "channel_bindings", "channel_turns", "channel_turn_burst_members",
     "channel_deliveries", "channel_delivery_parts", "channel_participant_links",
     "channel_group_audience_observations", "channel_group_routes", "channel_group_route_versions",
     "channel_group_route_members", "channel_group_route_heads", "channel_proactive_policies",
     "channel_proactive_episodes", "channel_outbound_intents"}

  /** What the merge may do with a table, by its name. */
  datatype Role = Configuration | Imported | Unknown

  function RoleOf(table: string): Role {
    if table in PRIMARY_CONFIG then Configuration
    else if table in IMPORT_TABLES then Imported
    else Unknown
  }

  predicate IsState(table: string) { table == "character_states" || table == "relationship_states" }

  predicate IsOwner(table: string, key: Key) { table == "participants" && key == ["local"] }

  function Max(a: int, b: int): int { if a >= b then a else b }

  // ----- One row -----

  /** The later of the two snapshots (the primary one when they are equally old). */
  function Latest(primary: Row, incoming: Row): Row {
    if incoming.updatedAt > primary.updatedAt then incoming else primary
  }

  function ChooseState(table: string, primary: Row, incoming: Row): Result<Row, Error> {
    if primary.userScope != "local" then Err(NonOwnerState(table))
    else
      var selected := Latest(primary, incoming).(revision := Max(primary.revision, incoming.revision) + 1);
      Ok(if table == "relationship_states" then
           selected.(interactionCount := primary.interactionCount + incoming.interactionCount)
         else selected)
  }

  /** A reconciled state is newer than both, not older than either, and in the
      relationship table keeps the sum of the interactions. */
  lemma ReconciledState(table: string, primary: Row, incoming: Row)
    requires primary.key == incoming.key
    ensures ChooseState(table, primary, incoming).Ok? <==> primary.userScope == "local"
    ensures ChooseState(table, primary, incoming).Ok? ==>
              var r := ChooseState(table, primary, incoming).value;
              && r.key == primary.key
              && r.revision > primary.revision && r.revision > incoming.revision
              && r.updatedAt >= primary.updatedAt && r.updatedAt >= incoming.updatedAt
              && (table == "relationship_states" ==>
                    r.interactionCount == primary.interactionCount + incoming.interactionCount)
              && (exists latest :: latest in [primary, incoming] && latest.updatedAt == r.updatedAt
                                   && latest.rest == r.rest && latest.userScope == r.userScope)
  {
    assert Latest(primary, incoming) in [primary, incoming];
  }

  predicate SameOwner(prior: Row, row: Row) { prior.(createdAt := row.createdAt) == row }

  datatype Progress = Progress(target: Table, inserted: nat, merged: nat)

  /** One incoming row: a state is reconciled by an update of the columns outside
      the key, the owner must be the same person, any other row already there must
      be equal, and a new row is inserted. */
  function MergeRow(table: string, primary: Table, p: Progress, row: Row): Result<Progress, Error> {
    if row.key in primary then
      var prior := primary[row.key];
      if IsState(table) then
        match ChooseState(table, prior, row) {
          case Err(e) => Err(e)
          case Ok(selected) =>
            Ok(p.(target := p.target[row.key := selected.(key := row.key)], merged := p.merged + 1))
        }
      else if IsOwner(table, row.key) then
        if SameOwner(prior, row) then Ok(p) else Err(OwnerDiffers)
      else if prior != row then Err(ConflictingIdentity(table))
      else Ok(p)
    else if row.key in p.target then Err(DuplicateKey(table))
    else Ok(p.(target := p.target[row.key := row], inserted := p.inserted + 1))
  }

  function MergeRows(table: string, primary: Table, p: Progress, rows: seq<Row>): Result<Progress, Error>
    decreases |rows|
  {
    if rows == [] then Ok(p)
    else
      match MergeRow(table, primary, p, rows[0])
      case Err(e) => Err(e)
      case Ok(next) => MergeRows(table, primary, next, rows[1..])
  }

  // ----- The declared union that the check computes -----

  function ExpectRow(table: string, expected: Table, row: Row): Result<Table, Error> {
    if row.key !in expected then Ok(expected[row.key := row])
    else if IsState(table) then
      match ChooseState(table, expected[row.key], row)
      case Err(e) => Err(e)
      case Ok(selected) => Ok(expected[row.key := selected])
    else Ok(expected)
  }

  function ExpectRows(table: string, expected: Table, rows: seq<Row>): Result<Table, Error>
    decreases |rows|
  {
    if rows == [] then Ok(expected)
    else
      match ExpectRow(table, expected, rows[0])
      case Err(e) => Err(e)
      case Ok(next) => ExpectRows(table, next, rows[1..])
  }

  // ----- Keys -----

  /** Rows are stored under their own key. */
  predicate Keyed(t: Table) { forall k :: k in t ==> t[k].key == k }

  /** The primary key of the incoming table. */
  predicate KeysDistinct(rows: seq<Row>) {
    forall i, j :: 0 <= i < j < |rows| ==> rows[i].key != rows[j].key
  }

  /** What is left to merge meets a target that is still the primary there. */
  predicate Untouched(primary: Table, target: Table, rows: seq<Row>) {
    forall row :: row in rows ==>
      && (row.key in target <==> row.key in primary)
      && (row.key in primary ==> target[row.key] == primary[row.key])
  }

  lemma RestUntouched(table: string, primary: Table, p: Progress, rows: seq<Row>)
    requires rows != [] && KeysDistinct(rows) && Untouched(primary, p.target, rows)
    requires MergeRow(table, primary, p, rows[0]).Ok?
    ensures KeysDistinct(rows[1..])
    ensures Untouched(primary, MergeRow(table, primary, p, rows[0]).value.target, rows[1..])
  {
    forall row | row in rows[1..]
      ensures row in rows && row.key != rows[0].key
    {
      var i :| 0 <= i < |rows| - 1 && rows[1..][i] == row;
      assert rows[i + 1] == row;
    }
  }

  /** The loop over the rows and the check reach the same table. */
  lemma {:induction false} LoopMatchesUnion(table: string, primary: Table, p: Progress, rows: seq<Row>)
    requires Keyed(primary) && KeysDistinct(rows) && Untouched(primary, p.target, rows)
    requires MergeRows(table, primary, p, rows).Ok?
    ensures ExpectRows(table, p.target, rows) == Ok(MergeRows(table, primary, p, rows).value.target)
    decreases |rows|
  {
    if rows != [] {
      assert rows[0] in rows;
      var next := MergeRow(table, primary, p, rows[0]).value;
      RestUntouched(table, primary, p, rows);
      RowMatchesUnion(table, primary, p, rows[0]);
      LoopMatchesUnion(table, primary, next, rows[1..]);
    }
  }

  lemma RowMatchesUnion(table: string, primary: Table, p: Progress, row: Row)
    requires Keyed(primary) && Untouched(primary, p.target, [row]) && MergeRow(table, primary, p, row).Ok?
    ensures ExpectRow(table, p.target, row) == Ok(MergeRow(table, primary, p, row).value.target)
  {
    assert row in [row];
    if row.key in primary && IsState(table) {
      ReconciledState(table, primary[row.key], row);
    }
  }

  // ----- When it succeeds, and what comes out -----

  /** An incoming row that can be merged. */
  predicate Compatible(table: string, primary: Table, row: Row) {
    row.key in primary ==>
      if IsState(table) then primary[row.key].userScope == "local"
      else if IsOwner(table, row.key) then SameOwner(primary[row.key], row)
      else primary[row.key] == row
  }

  /** The loop succeeds exactly when every row is compatible. */
  lemma {:induction false} MergesExactlyCompatible(table: string, primary: Table, p: Progress, rows: seq<Row>)
    requires Keyed(primary) && KeysDistinct(rows) && Untouched(primary, p.target, rows)
    ensures MergeRows(table, primary, p, rows).Ok? <==> forall row :: row in rows ==> Compatible(table, primary, row)
    decreases |rows|
  {
    if rows != [] {
      assert rows[0] in rows;
      assert forall row :: row in rows <==> row == rows[0] || row in rows[1..];
      if MergeRow(table, primary, p, rows[0]).Ok? {
        RestUntouched(table, primary, p, rows);
        MergesExactlyCompatible(table, primary, MergeRow(table, primary, p, rows[0]).value, rows[1..]);
      }
    }
  }

  function Merged(table: string, prior: Row, row: Row): Row {
    if IsState(table) && ChooseState(table, prior, row).Ok? then ChooseState(table, prior, row).value else prior
  }

  /** What the table holds under one key after the rows. */
  ghost predicate HoldsUnion(table: string, primary: Table, before: Table, rows: seq<Row>, after: Table) {
    && (forall k :: k in after <==> k in before || exists row :: row in rows && row.key == k)
    && (forall k :: k in before && (forall row :: row in rows ==> row.key != k) ==> after[k] == before[k])
    && (forall row :: row in rows ==>
          row.key in after && after[row.key] == if row.key in primary then Merged(table, primary[row.key], row) else row)
  }

  /** The keyed union: nothing of the primary is lost, every incoming row is there
      or reconciled, and the counters say how many. */
  lemma {:induction false} MergeIsUnion(table: string, primary: Table, p: Progress, rows: seq<Row>)
    requires Keyed(primary) && KeysDistinct(rows) && Untouched(primary, p.target, rows)
    requires MergeRows(table, primary, p, rows).Ok?
    ensures HoldsUnion(table, primary, p.target, rows, MergeRows(table, primary, p, rows).value.target)
    decreases |rows|
  {
    if rows != [] {
      var row := rows[0];
      assert row in rows;
      assert forall r :: r in rows <==> r == row || r in rows[1..];
      var next := MergeRow(table, primary, p, row).value;
      RestUntouched(table, primary, p, rows);
      MergeIsUnion(table, primary, next, rows[1..]);
      MergedRow(table, primary, p, row);
      NotInRest(rows);
      UnionStep(table, primary, p.target, next.target, rows, MergeRows(table, primary, p, rows).value.target);
    }
  }

  lemma NotInRest(rows: seq<Row>)
    requires rows != [] && KeysDistinct(rows)
    ensures forall r :: r in rows[1..] ==> r.key != rows[0].key
  {
    forall r | r in rows[1..]
      ensures r.key != rows[0].key
    {
      var i :| 0 <= i < |rows| - 1 && rows[1..][i] == r;
      assert rows[i + 1] == r;
    }
  }

  lemma MergedRow(table: string, primary: Table, p: Progress, row: Row)
    requires Keyed(primary) && Untouched(primary, p.target, [row]) && MergeRow(table, primary, p, row).Ok?
    ensures var after := MergeRow(table, primary, p, row).value.target;
      && after == p.target[row.key := if row.key in primary then Merged(table, primary[row.key], row) else row]
  {
    assert row in [row];
    if row.key in primary && IsState(table) {
      ReconciledState(table, primary[row.key], row);
    }
  }

  lemma UnionStep(table: string, primary: Table, before: Table, next: Table, rows: seq<Row>, after: Table)
    requires rows != [] && forall r :: r in rows[1..] ==> r.key != rows[0].key
    requires var row := rows[0];
      next == before[row.key := if row.key in primary then Merged(table, primary[row.key], row) else row]
    requires HoldsUnion(table, primary, next, rows[1..], after)
    ensures HoldsUnion(table, primary, before, rows, after)
  {
    assert forall r :: r in rows <==> r == rows[0] || r in rows[1..];
  }

  // ----- Counters and totals -----

  /** Rows inserted are the keys gained; rows reconciled are the states already there. */
  lemma {:induction false} CountersAreRight(table: string, primary: Table, p: Progress, rows: seq<Row>)
    requires Keyed(primary) && KeysDistinct(rows) && Untouched(primary, p.target, rows)
    requires MergeRows(table, primary, p, rows).Ok?
    ensures var r := MergeRows(table, primary, p, rows).value;
      && r.inserted - p.inserted == |r.target| - |p.target|
      && (r.inserted - p.inserted) + (r.merged - p.merged) <= |rows|
      && (IsState(table) ==> (r.inserted - p.inserted) + (r.merged - p.merged) == |rows|)
    decreases |rows|
  {
    if rows != [] {
      assert rows[0] in rows;
      RestUntouched(table, primary, p, rows);
      CountersAreRight(table, primary, MergeRow(table, primary, p, rows[0]).value, rows[1..]);
    }
  }

  ghost function Interactions(t: Table): int
    decreases |t|
  {
    if t == map[] then 0
    else
      var k :| k in t;
      t[k].interactionCount + Interactions(t - {k})
  }

  function IncomingInteractions(rows: seq<Row>): int {
    if rows == [] then 0 else rows[0].interactionCount + IncomingInteractions(rows[1..])
  }

  lemma {:induction false} InteractionsWithout(t: Table, k: Key)
    requires k in t
    ensures Interactions(t) == t[k].interactionCount + Interactions(t - {k})
    decreases |t|
  {
    var first :| first in t && Interactions(t) == t[first].interactionCount + Interactions(t - {first});
    if first != k {
      InteractionsWithout(t - {first}, k);
      InteractionsWithout(t - {k}, first);
      assert t - {first} - {k} == t - {k} - {first};
    }
  }

  lemma InteractionsUpdated(t: Table, k: Key, row: Row)
    ensures Interactions(t[k := row])
         == Interactions(t) + row.interactionCount - (if k in t then t[k].interactionCount else 0)
  {
    InteractionsWithout(t[k := row], k);
    if k in t {
      InteractionsWithout(t, k);
      assert t[k := row] - {k} == t - {k};
    } else {
      assert t[k := row] - {k} == t;
    }
  }

  /** Merging the relationship table adds up all interactions of both databases. */
  lemma {:induction false} InteractionsConserved(primary: Table, p: Progress, rows: seq<Row>)
    requires Keyed(primary) && KeysDistinct(rows) && Untouched(primary, p.target, rows)
    requires MergeRows("relationship_states", primary, p, rows).Ok?
    ensures Interactions(MergeRows("relationship_states", primary, p, rows).value.target)
         == Interactions(p.target) + IncomingInteractions(rows)
    decreases |rows|
  {
    if rows != [] {
      var row := rows[0];
      assert row in rows;
      RestUntouched("relationship_states", primary, p, rows);
      MergedRow("relationship_states", primary, p, row);
      if row.key in primary {
        ReconciledState("relationship_states", primary[row.key], row);
      }
      InteractionsUpdated(p.target, row.key, MergeRow("relationship_states", primary, p, row).value.target[row.key]);
      InteractionsConserved(primary, MergeRow("relationship_states", primary, p, row).value, rows[1..]);
    }
  }

  // ----- The whole database -----

  /** A table of both inputs; `hasKey`: the schema gives it a primary key. */
  datatype TablePair = TablePair(name: string, role: Role, hasKey: bool, primary: Table, incoming: seq<Row>)

  function PairOf(name: string, hasKey: bool, primary: Table, incoming: seq<Row>): TablePair {
    TablePair(name, RoleOf(name), hasKey, primary, incoming)
  }

  /** What SQLite guarantees of the inputs. */
  predicate WellKeyed(d: TablePair) { Keyed(d.primary) && KeysDistinct(d.incoming) }

  function MergeTable(d: TablePair): Result<Progress, Error> {
    var start := Progress(d.primary, 0, 0);
    if d.role == Configuration || d.incoming == [] then Ok(start)
    else if d.role != Imported || !d.hasKey then Err(UnexpectedTable(d.name))
    else MergeRows(d.name, d.primary, start, d.incoming)
  }

  function CheckTable(d: TablePair, actual: Table): Option<Error> {
    if d.role == Configuration then
      if actual == d.primary then None else Some(RowPreservationFailed(d.name))
    else
      match ExpectRows(d.name, d.primary, d.incoming)
      case Err(e) => Some(e)
      case Ok(expected) => if actual == expected then None else Some(RowPreservationFailed(d.name))
  }

  /** The rows of one table, one by one. */
  method MergeTableRows(d: TablePair) returns (r: Result<Progress, Error>)
    ensures r == MergeTable(d)
  {
    if d.role == Configuration || d.incoming == [] {
      return Ok(Progress(d.primary, 0, 0));
    }
    if d.role != Imported || !d.hasKey {
      return Err(UnexpectedTable(d.name));
    }
    var target := d.primary;
    var inserted: nat, merged: nat := 0, 0;
    var i := 0;
    while i < |d.incoming|
      invariant 0 <= i <= |d.incoming|
      invariant MergeRows(d.name, d.primary, Progress(target, inserted, merged), d.incoming[i..]) == MergeTable(d)
    {
      var row := d.incoming[i];
      i := i + 1;
      if row.key in d.primary {
        var prior := d.primary[row.key];
        if IsState(d.name) {
          var selected := ChooseState(d.name, prior, row);
          if selected.Err? {
            return Err(selected.error);
          }
          target := target[row.key := selected.value.(key := row.key)];
          merged := merged + 1;
        } else if IsOwner(d.name, row.key) {
          if !SameOwner(prior, row) {
            return Err(OwnerDiffers);
          }
        } else if prior != row {
          return Err(ConflictingIdentity(d.name));
        }
        continue;
      }
      if row.key in target {
        return Err(DuplicateKey(d.name));
      }
      target := target[row.key := row];
      inserted := inserted + 1;
    }
    return Ok(Progress(target, inserted, merged));
  }

  /** The verification of one table: rebuild the union, then compare. */
  method VerifyTable(d: TablePair, actual: Table) returns (failure: Option<Error>)
    ensures failure == CheckTable(d, actual)
  {
    var expected := d.primary;
    if d.role != Configuration {
      var i := 0;
      while i < |d.incoming|
        invariant 0 <= i <= |d.incoming|
        invariant ExpectRows(d.name, expected, d.incoming[i..]) == ExpectRows(d.name, d.primary, d.incoming)
      {
        var row := d.incoming[i];
        if row.key !in expected {
          expected := expected[row.key := row];
        } else if IsState(d.name) {
          var selected := ChooseState(d.name, expected[row.key], row);
          if selected.Err? {
            return Some(selected.error);
          }
          expected := expected[row.key := selected.value];
        }
        i := i + 1;
      }
    }
    if expected != actual {
      return Some(RowPreservationFailed(d.name));
    }
    return None;
  }

  /** A table that can be merged: configuration, nothing incoming, or a known keyed
      table whose incoming rows are all compatible. */
  predicate Mergeable(d: TablePair) {
    || d.role == Configuration
    || d.incoming == []
    || (d.role == Imported && d.hasKey && forall row :: row in d.incoming ==> Compatible(d.name, d.primary, row))
  }

  /** A merge succeeds exactly for mergeable tables. */
  lemma MergeTableExactly(d: TablePair)
    requires WellKeyed(d)
    ensures MergeTable(d).Ok? <==> Mergeable(d)
  {
    MergesExactlyCompatible(d.name, d.primary, Progress(d.primary, 0, 0), d.incoming);
  }

  /** After a merge without conflict the row check cannot fail. */
  lemma CheckCannotFail(d: TablePair)
    requires WellKeyed(d) && MergeTable(d).Ok?
    ensures CheckTable(d, MergeTable(d).value.target) == None
  {
    if d.role != Configuration && d.incoming != [] {
      LoopMatchesUnion(d.name, d.primary, Progress(d.primary, 0, 0), d.incoming);
    }
  }

  function MergeTables(tables: seq<TablePair>, results: seq<Progress>): (r: Result<seq<Progress>, Error>)
    ensures r.Ok? ==> |r.value| == |results| + |tables|
    decreases |tables|
  {
    if tables == [] then Ok(results)
    else
      match MergeTable(tables[0])
      case Err(e) => Err(e)
      case Ok(p) => MergeTables(tables[1..], results + [p])
  }

  function CheckTables(tables: seq<TablePair>, results: seq<Progress>): Option<Error>
    requires |tables| == |results|
    decreases |tables|
  {
    if tables == [] then None
    else
      match CheckTable(tables[0], results[0].target)
      case Some(e) => Some(e)
      case None => CheckTables(tables[1..], results[1..])
  }

  /** First all tables are merged, then all are verified. */
  function Outcome(tables: seq<TablePair>): Result<seq<Progress>, Error> {
    var merged := MergeTables(tables, []);
    if merged.Err? then merged
    else
      var failure := CheckTables(tables, merged.value);
      if failure.Some? then Err(failure.value) else merged
  }

  /** merge_database on the tables of both inputs. */
  method MergeDatabase(tables: seq<TablePair>) returns (r: Result<seq<Progress>, Error>)
    ensures r == Outcome(tables)
  {
    var results: seq<Progress> := [];
    var i := 0;
    while i < |tables|
      invariant 0 <= i <= |tables| && |results| == i
      invariant MergeTables(tables[i..], results) == MergeTables(tables, [])
    {
      var merged := MergeTableRows(tables[i]);
      if merged.Err? {
        return Err(merged.error);
      }
      results := results + [merged.value];
      i := i + 1;
    }
    var k := 0;
    while k < |tables|
      invariant 0 <= k <= |tables|
      invariant CheckTables(tables[k..], results[k..]) == CheckTables(tables, results)
    {
      var failure := VerifyTable(tables[k], results[k].target);
      if failure.Some? {
        return Err(failure.value);
      }
      k := k + 1;
    }
    return Ok(results);
  }

  predicate AllWellKeyed(tables: seq<TablePair>) { forall d :: d in tables ==> WellKeyed(d) }

  predicate AllMergeable(tables: seq<TablePair>) { forall d :: d in tables ==> Mergeable(d) }

  /** The results are those of the tables, one by one. */
  predicate AllMerged(tables: seq<TablePair>, results: seq<Progress>) {
    |tables| == |results| && forall i :: 0 <= i < |tables| ==> MergeTable(tables[i]) == Ok(results[i])
  }

  lemma AllCons(tables: seq<TablePair>)
    requires tables != []
    ensures AllWellKeyed(tables) <==> WellKeyed(tables[0]) && AllWellKeyed(tables[1..])
    ensures AllMergeable(tables) <==> Mergeable(tables[0]) && AllMergeable(tables[1..])
  {
    assert tables[0] in tables;
    assert forall d :: d in tables <==> d == tables[0] || d in tables[1..];
  }

  lemma AllMergedCons(tables: seq<TablePair>, first: Progress, rest: seq<Progress>)
    requires tables != [] && MergeTable(tables[0]) == Ok(first) && AllMerged(tables[1..], rest)
    ensures AllMerged(tables, [first] + rest)
  {
    forall i | 0 < i < |tables|
      ensures MergeTable(tables[i]) == Ok(([first] + rest)[i])
    {
      assert tables[1..][i - 1] == tables[i] && ([first] + rest)[i] == rest[i - 1];
    }
  }

  lemma {:induction false} MergeTablesExactly(tables: seq<TablePair>, results: seq<Progress>) returns (rest: seq<Progress>)
    requires AllWellKeyed(tables)
    ensures MergeTables(tables, results).Ok? <==> AllMergeable(tables)
    ensures AllMergeable(tables) ==> AllMerged(tables, rest) && MergeTables(tables, results) == Ok(results + rest)
    decreases |tables|
  {
    rest := [];
    if tables != [] {
      AllCons(tables);
      MergeTableExactly(tables[0]);
      if MergeTable(tables[0]).Ok? {
        var first := MergeTable(tables[0]).value;
        var later := MergeTablesExactly(tables[1..], results + [first]);
        rest := [first] + later;
        assert results + [first] + later == results + rest;
        if AllMergeable(tables) {
          AllMergedCons(tables, first, later);
        }
      }
    } else {
      assert results + rest == results;
    }
  }

  lemma {:induction false} ChecksCannotFail(tables: seq<TablePair>, results: seq<Progress>)
    requires AllWellKeyed(tables) && AllMerged(tables, results)
    ensures CheckTables(tables, results) == None
    decreases |tables|
  {
    if tables != [] {
      AllCons(tables);
      CheckCannotFail(tables[0]);
      assert AllMerged(tables[1..], results[1..]);
      ChecksCannotFail(tables[1..], results[1..]);
    }
  }

  /** The whole operation succeeds exactly when every table is mergeable, with the
      merged tables as its results: the final verification rejects nothing. */
  lemma MergeDatabaseExactly(tables: seq<TablePair>)
    requires AllWellKeyed(tables)
    ensures Outcome(tables) == MergeTables(tables, [])
    ensures Outcome(tables).Ok? <==> AllMergeable(tables)
    ensures Outcome(tables).Ok? ==> AllMerged(tables, Outcome(tables).value)
  {
    var results := MergeTablesExactly(tables, []);
    if AllMergeable(tables) {
      assert [] + results == results;
      ChecksCannotFail(tables, results);
    }
  }

  /** A conflict is reported as one of the merge, never as a lost row. */
  lemma {:induction false} ConflictsAreNamed(table: string, primary: Table, p: Progress, rows: seq<Row>)
    ensures MergeRows(table, primary, p, rows).Err? ==> !MergeRows(table, primary, p, rows).error.RowPreservationFailed?
    decreases |rows|
  {
    if rows != [] && MergeRow(table, primary, p, rows[0]).Ok? {
      ConflictsAreNamed(table, primary, MergeRow(table, primary, p, rows[0]).value, rows[1..]);
    }
  }
}
