/** `Vec0SDK` (app/lib/vec0/index.ts): a vector store over one sqlite-vec connection, with a
    bounded log of per-operation metrics. */
module Vec0 {
  import opened Wrappers
  import opened Sorting
  import opened Vec0Types
  import opened Vec0Sql
  import opened Vec0Metrics
  import opened Vec0Search
  import Strings

  /** What decides whether a statement succeeds: the connection, the tables and the engine. */
  datatype Env = Env(open: bool, tables: map<string, Schema>, engine: Engine)

  /** The rows of a table as the engine keeps them: distinct ids, vectors of the table's width,
      and a partition value only on a partitioned table. */
  ghost predicate WellFormedRows(schema: Schema, rows: seq<Row>) {
    && DistinctBy(rows, RowId)
    && forall i :: 0 <= i < |rows| ==> Fits(schema, rows[i])
  }

  /** Every table has its rows, and they are well formed for its schema. */
  ghost predicate TablesWellFormed(tables: map<string, Schema>, rows: map<string, seq<Row>>) {
    && tables.Keys == rows.Keys
    && (forall t :: t in tables ==> TableKey(t) == t)
    && forall t :: t in tables ==> WellFormedRows(tables[t], rows[t])
  }

  predicate Fits(schema: Schema, row: Row) {
    && |row.embedding| == schema.dimensions
    && (row.partition.Some? ==> schema.partitioned)
  }

  // ---------------------------------------------------------------- INSERT OR REPLACE

  /** The rows without the one whose id is `id`. */
  function Without(rows: seq<Row>, id: string): (r: seq<Row>)
    ensures forall i :: 0 <= i < |r| ==> r[i] in rows && r[i].id != id
    ensures forall i :: 0 <= i < |rows| && rows[i].id != id ==> rows[i] in r
  {
    if rows == [] then []
    else
      var rest := Without(rows[1..], id);
      assert forall i :: 1 <= i < |rows| ==> rows[i] == rows[1..][i - 1];
      if rows[0].id == id then rest else [rows[0]] + rest
  }

  /** `INSERT OR REPLACE`: a row with the same id is deleted and the new row gets the next rowid. */
  function Replaced(rows: seq<Row>, row: Row): seq<Row> {
    Without(rows, row.id) + [row]
  }

  /** The row stored under `id`, if any. */
  function Lookup(rows: seq<Row>, id: string): Option<Row> {
    if rows == [] then None
    else if rows[0].id == id then Some(rows[0])
    else Lookup(rows[1..], id)
  }

  /** Number of rows stored under `id`. */
  function CountId(rows: seq<Row>, id: string): nat {
    if rows == [] then 0 else (if rows[0].id == id then 1 else 0) + CountId(rows[1..], id)
  }

  lemma {:induction false} CountIdConcat(a: seq<Row>, b: seq<Row>, id: string)
    ensures CountId(a + b, id) == CountId(a, id) + CountId(b, id)
  {
    if a == [] {
      assert a + b == b;
    } else {
      assert (a + b)[0] == a[0] && (a + b)[1..] == a[1..] + b;
      CountIdConcat(a[1..], b, id);
    }
  }

  lemma {:induction false} WithoutCount(rows: seq<Row>, id: string, other: string)
    ensures CountId(Without(rows, id), other) == if other == id then 0 else CountId(rows, other)
  {
    if rows != [] {
      WithoutCount(rows[1..], id, other);
    }
  }

  lemma {:induction false} LookupConcat(a: seq<Row>, b: seq<Row>, id: string)
    ensures Lookup(a + b, id) == if Lookup(a, id).Some? then Lookup(a, id) else Lookup(b, id)
  {
    if a == [] {
      assert a + b == b;
    } else {
      assert (a + b)[0] == a[0] && (a + b)[1..] == a[1..] + b;
      LookupConcat(a[1..], b, id);
    }
  }

  lemma {:induction false} WithoutLookup(rows: seq<Row>, id: string, other: string)
    ensures Lookup(Without(rows, id), other) == if other == id then None else Lookup(rows, other)
  {
    if rows != [] {
      WithoutLookup(rows[1..], id, other);
    }
  }

  /** After an upsert there is exactly one row with its id, holding the new row, and every
      other id keeps its row and its count. */
  lemma ReplacedSpec(rows: seq<Row>, row: Row, other: string)
    ensures CountId(Replaced(rows, row), row.id) == 1
    ensures Lookup(Replaced(rows, row), row.id) == Some(row)
    ensures other != row.id ==> Lookup(Replaced(rows, row), other) == Lookup(rows, other)
    ensures other != row.id ==> CountId(Replaced(rows, row), other) == CountId(rows, other)
  {
    var w := Without(rows, row.id);
    CountIdConcat(w, [row], row.id);
    CountIdConcat(w, [row], other);
    WithoutCount(rows, row.id, row.id);
    WithoutCount(rows, row.id, other);
    LookupConcat(w, [row], row.id);
    LookupConcat(w, [row], other);
    WithoutLookup(rows, row.id, row.id);
    WithoutLookup(rows, row.id, other);
  }

  lemma {:induction false} WithoutDistinct(rows: seq<Row>, id: string)
    requires DistinctBy(rows, RowId)
    ensures DistinctBy(Without(rows, id), RowId)
  {
    if rows != [] {
      assert DistinctBy(rows[1..], RowId) by {
        forall i, j | 0 <= i < j < |rows[1..]| ensures rows[1..][i].id != rows[1..][j].id {
          assert rows[1..][i] == rows[i + 1] && rows[1..][j] == rows[j + 1];
        }
      }
      WithoutDistinct(rows[1..], id);
      var rest := Without(rows[1..], id);
      forall i | 0 <= i < |rest| ensures rest[i].id != rows[0].id {
        var m :| 0 <= m < |rows[1..]| && rows[1..][m] == rest[i];
        assert rows[m + 1] == rest[i];
      }
    }
  }

  /** Replacing a row keeps a table well formed. */
  lemma ReplacedWellFormed(schema: Schema, rows: seq<Row>, row: Row)
    requires WellFormedRows(schema, rows) && Fits(schema, row)
    ensures WellFormedRows(schema, Replaced(rows, row))
  {
    WithoutDistinct(rows, row.id);
    var r := Replaced(rows, row);
    var w := Without(rows, row.id);
    forall i | 0 <= i < |r| ensures Fits(schema, r[i]) {
      if i < |w| {
        var m :| 0 <= m < |rows| && rows[m] == w[i];
      }
    }
  }

  // ---------------------------------------------------------------- failures

  /** Why `createTable` throws, if it does. An existing name is a success that changes nothing. */
  function CreateFailure(env: Env, schema: TableSchema): (failure: Option<StoreError>)
    ensures !env.open ==> failure == Some(ConnectionClosed)
    ensures env.open && TableKey(schema.name) in env.tables ==> failure.None?
    ensures env.open && TableKey(schema.name) !in env.tables ==>
      (failure.None? <==> env.engine.acceptsTable(CreateTableSql(schema)))
    ensures failure.Some? ==> failure.value == ConnectionClosed || failure.value == SchemaRejected
  {
    if !env.open then Some(ConnectionClosed)
    else if TableKey(schema.name) in env.tables then None
    else if !env.engine.acceptsTable(CreateTableSql(schema)) then Some(SchemaRejected)
    else None
  }

  /** Why writing `row` into `tableName` throws, if it does: a closed connection, a missing
      table, a partition column the table does not have, a vector of the wrong width, or an
      engine-level refusal. */
  function WriteFailure(env: Env, tableName: string, row: Row): (failure: Option<StoreError>)
    ensures !env.open ==> failure == Some(ConnectionClosed)
    ensures env.open && TableKey(tableName) !in env.tables ==> failure == Some(NoSuchTable(tableName))
    ensures failure.None? <==>
      && env.open && TableKey(tableName) in env.tables && Fits(env.tables[TableKey(tableName)], row)
      && env.engine.acceptsWrite(env.tables[TableKey(tableName)], row)
  {
    var key := TableKey(tableName);
    if !env.open then Some(ConnectionClosed)
    else if key !in env.tables then Some(NoSuchTable(tableName))
    else if row.partition.Some? && !env.tables[key].partitioned then Some(NoPartitionColumn)
    else if |row.embedding| != env.tables[key].dimensions then
      Some(DimensionMismatch(env.tables[key].dimensions, |row.embedding|))
    else if !env.engine.acceptsWrite(env.tables[key], row) then Some(EngineRejected)
    else None
  }

  /** Why `search` throws, if it does. */
  function QueryFailure(env: Env, tableName: string, q: seq<real>, options: SearchOptions): (failure: Option<StoreError>)
    ensures !env.open ==> failure == Some(ConnectionClosed)
    ensures env.open && TableKey(tableName) !in env.tables ==> failure == Some(NoSuchTable(tableName))
    ensures failure.None? <==>
      && env.open && TableKey(tableName) in env.tables
      && (options.partition.NoPartition? || options.partition == OnePartition("")
          || env.tables[TableKey(tableName)].partitioned)
      && |q| == env.tables[TableKey(tableName)].dimensions
      && env.engine.acceptsQuery(env.tables[TableKey(tableName)], q, EffectiveLimit(options.limit))
  {
    var key := TableKey(tableName);
    if !env.open then Some(ConnectionClosed)
    else if key !in env.tables then Some(NoSuchTable(tableName))
    else if !EffectiveFilter(options.partition).NoPartition? && !env.tables[key].partitioned then
      Some(NoPartitionColumn)
    else if |q| != env.tables[key].dimensions then
      Some(DimensionMismatch(env.tables[key].dimensions, |q|))
    else if !env.engine.acceptsQuery(env.tables[key], q, EffectiveLimit(options.limit)) then
      Some(EngineRejected)
    else None
  }

  /** A name and its upper-cased spelling name the same table: the `IF NOT EXISTS` test, the
      writes and the queries behave alike for both. */
  lemma NameCaseIgnored(env: Env, schema: TableSchema, tableName: string, row: Row, q: seq<real>, options: SearchOptions)
    ensures TableKey(Strings.ToUpper(tableName)) == TableKey(tableName)
    ensures TableKey(schema.name) in env.tables ==>
      CreateFailure(env, schema.(name := Strings.ToUpper(schema.name))) == CreateFailure(env, schema)
    ensures WriteFailure(env, Strings.ToUpper(tableName), row).None? <==> WriteFailure(env, tableName, row).None?
    ensures QueryFailure(env, Strings.ToUpper(tableName), q, options).None? <==> QueryFailure(env, tableName, q, options).None?
  {
    Strings.ToLowerFolds(tableName);
    Strings.ToLowerFolds(schema.name);
  }

  /** In a well-formed catalogue every stored table is found under its own name and under its
      upper-cased spelling: neither a write nor a search reports it missing. */
  lemma StoredTableFound(env: Env, rows: map<string, seq<Row>>, name: string, row: Row, q: seq<real>,
                         options: SearchOptions)
    requires TablesWellFormed(env.tables, rows) && env.open && name in env.tables
    ensures WriteFailure(env, name, row) != Some(NoSuchTable(name))
    ensures QueryFailure(env, name, q, options) != Some(NoSuchTable(name))
    ensures WriteFailure(env, Strings.ToUpper(name), row) != Some(NoSuchTable(Strings.ToUpper(name)))
    ensures QueryFailure(env, Strings.ToUpper(name), q, options) != Some(NoSuchTable(Strings.ToUpper(name)))
  {
    NameCaseIgnored(env, TableSchema(name, 0, false, []), name, row, q, options);
  }

  // ---------------------------------------------------------------- batchUpsert

  /** The row an item writes: the partition only when it is truthy. */
  function RowOf(item: BatchItem): Row {
    Row(item.id, item.embedding, Truthy(item.partition))
  }

  function ItemFailure(env: Env, tableName: string, item: BatchItem): Option<StoreError> {
    WriteFailure(env, tableName, RowOf(item))
  }

  /** The counters and error list after the loop has handled `items`. */
  function BatchOutcome(env: Env, tableName: string, items: seq<BatchItem>): BatchResult {
    if items == [] then BatchResult(0, 0, [])
    else
      var prev := BatchOutcome(env, tableName, items[..|items| - 1]);
      var item := items[|items| - 1];
      match ItemFailure(env, tableName, item)
      case None => prev.(successful := prev.successful + 1)
      case Some(e) => prev.(failed := prev.failed + 1, errors := prev.errors + [ItemError(item.id, e)])
  }

  /** The table after the loop has handled `items`: the accepted ones applied in order. */
  function BatchRows(env: Env, tableName: string, rows: seq<Row>, items: seq<BatchItem>): seq<Row> {
    if items == [] then rows
    else
      var prev := BatchRows(env, tableName, rows, items[..|items| - 1]);
      var item := items[|items| - 1];
      if ItemFailure(env, tableName, item).None? then Replaced(prev, RowOf(item)) else prev
  }

  /** The `upsert` metric entries the loop records, one per item. */
  function UpsertEntries(env: Env, tableName: string, items: seq<BatchItem>): (log: seq<Metric>)
    ensures |log| == |items|
  {
    if items == [] then []
    else
      UpsertEntries(env, tableName, items[..|items| - 1])
      + [MetricFor(tableName, UpsertOp, ItemFailure(env, tableName, items[|items| - 1]))]
  }

  /** The failing items' errors, in item order. */
  function FailedItems(env: Env, tableName: string, items: seq<BatchItem>): seq<ItemError> {
    if items == [] then []
    else
      (match ItemFailure(env, tableName, items[0])
       case None => []
       case Some(e) => [ItemError(items[0].id, e)])
      + FailedItems(env, tableName, items[1..])
  }

  lemma {:induction false} FailedItemsSnoc(env: Env, tableName: string, items: seq<BatchItem>, item: BatchItem)
    ensures FailedItems(env, tableName, items + [item])
         == FailedItems(env, tableName, items) + FailedItems(env, tableName, [item])
  {
    if items == [] {
      assert items + [item] == [item];
    } else {
      assert (items + [item])[0] == items[0] && (items + [item])[1..] == items[1..] + [item];
      FailedItemsSnoc(env, tableName, items[1..], item);
    }
  }

  /** Batch accounting: every item is counted once, as a success or as a failure, and the
      error list holds exactly the failing items' ids and errors, in item order. */
  lemma {:induction false} BatchAccounting(env: Env, tableName: string, items: seq<BatchItem>)
    ensures var r := BatchOutcome(env, tableName, items);
      && r.successful + r.failed == |items|
      && |r.errors| == r.failed
      && r.errors == FailedItems(env, tableName, items)
  {
    if items != [] {
      var init := items[..|items| - 1];
      BatchAccounting(env, tableName, init);
      assert items == init + [items[|items| - 1]];
      FailedItemsSnoc(env, tableName, init, items[|items| - 1]);
    }
  }

  /** The last accepted item with this id, if any. */
  function LastAccepted(env: Env, tableName: string, items: seq<BatchItem>, id: string): Option<BatchItem> {
    if items == [] then None
    else
      var item := items[|items| - 1];
      if item.id == id && ItemFailure(env, tableName, item).None? then Some(item)
      else LastAccepted(env, tableName, items[..|items| - 1], id)
  }

  /** After a batch, an id holds the row of its last accepted item, or its old row when no
      item for it was accepted. */
  lemma {:induction false} BatchLookup(env: Env, tableName: string, rows: seq<Row>, items: seq<BatchItem>, id: string)
    ensures Lookup(BatchRows(env, tableName, rows, items), id)
         == match LastAccepted(env, tableName, items, id)
            case Some(item) => Some(RowOf(item))
            case None => Lookup(rows, id)
  {
    if items != [] {
      var init := items[..|items| - 1];
      var item := items[|items| - 1];
      BatchLookup(env, tableName, rows, init, id);
      if ItemFailure(env, tableName, item).None? {
        ReplacedSpec(BatchRows(env, tableName, rows, init), RowOf(item), id);
      }
    }
  }

  lemma {:induction false} BatchWellFormed(env: Env, tableName: string, rows: seq<Row>, items: seq<BatchItem>)
    requires TableKey(tableName) in env.tables && WellFormedRows(env.tables[TableKey(tableName)], rows)
    ensures WellFormedRows(env.tables[TableKey(tableName)], BatchRows(env, tableName, rows, items))
  {
    if items != [] {
      var init := items[..|items| - 1];
      BatchWellFormed(env, tableName, rows, init);
      var item := items[|items| - 1];
      if ItemFailure(env, tableName, item).None? {
        ReplacedWellFormed(env.tables[TableKey(tableName)], BatchRows(env, tableName, rows, init), RowOf(item));
      }
    }
  }

  /** One more item, unfolded once. */
  lemma BatchStep(env: Env, tableName: string, before: map<string, seq<Row>>, items: seq<BatchItem>, i: int)
    requires 0 <= i < |items|
    ensures var item := items[i];
      && BatchOutcome(env, tableName, items[..i + 1])
         == (var prev := BatchOutcome(env, tableName, items[..i]);
             match ItemFailure(env, tableName, item)
             case None => prev.(successful := prev.successful + 1)
             case Some(e) => prev.(failed := prev.failed + 1, errors := prev.errors + [ItemError(item.id, e)]))
      && (TableKey(tableName) in before ==>
            BatchRows(env, tableName, before[TableKey(tableName)], items[..i + 1])
            == (var prev := BatchRows(env, tableName, before[TableKey(tableName)], items[..i]);
                if ItemFailure(env, tableName, item).None? then Replaced(prev, RowOf(item)) else prev))
      && UpsertEntries(env, tableName, items[..i + 1])
         == UpsertEntries(env, tableName, items[..i]) + [MetricFor(tableName, UpsertOp, ItemFailure(env, tableName, item))]
  {
    assert items[..i + 1][..i] == items[..i];
  }

  /** Trimming after each entry of a run is trimming the whole run once. */
  lemma LogStep(base: seq<Metric>, done: seq<Metric>, entry: Metric)
    ensures Trimmed(Trimmed(base + done) + [entry]) == Trimmed(base + (done + [entry]))
  {
    TrimmedTrimmed(base + done, [entry]);
    assert base + done + [entry] == base + (done + [entry]);
  }

  lemma UpdateTwice<K, V>(m: map<K, V>, k: K, a: V, b: V)
    ensures m[k := a][k := b] == m[k := b]
  {
  }

  // ---------------------------------------------------------------- the SDK

  class Vec0SDK {
    const engine: Engine
    var open: bool
    var tables: map<string, Schema>
    var rows: map<string, seq<Row>>
    var metrics: seq<Metric>

    ghost predicate Valid()
      reads this
    {
      && TablesWellFormed(tables, rows)
      && |metrics| <= MaxMetrics
    }

    function State(): Env
      reads this
    {
      Env(open, tables, engine)
    }

    /** Opens the database file, whose existing vector tables are `tables` and `rows`. */
    constructor (engine: Engine, tables: map<string, Schema>, rows: map<string, seq<Row>>)
      requires TablesWellFormed(tables, rows)
      ensures Valid()
      ensures this.engine == engine && open && this.tables == tables && this.rows == rows
      ensures metrics == []
    {
      this.engine := engine;
      this.open := true;
      this.tables := tables;
      this.rows := rows;
      this.metrics := [];
    }

    /** `recordMetric`: append, then keep only the newest `maxMetrics` entries. */
    method RecordMetric(m: Metric)
      requires |metrics| <= MaxMetrics
      modifies this`metrics
      ensures metrics == Trimmed(old(metrics) + [m])
      ensures |metrics| <= MaxMetrics
    {
      metrics := metrics + [m];
      if |metrics| > MaxMetrics {
        metrics := metrics[|metrics| - MaxMetrics..];
      }
    }

    /** `createTable`: runs `CREATE VIRTUAL TABLE IF NOT EXISTS`; records the outcome either way. */
    method CreateTable(schema: TableSchema) returns (failure: Option<StoreError>)
      requires Valid()
      modifies this
      ensures Valid()
      ensures failure == CreateFailure(old(State()), schema)
      ensures failure.None? && TableKey(schema.name) !in old(tables) ==>
        && tables == old(tables)[TableKey(schema.name) := Schema(schema.dimensions, schema.partitionBy)]
        && rows == old(rows)[TableKey(schema.name) := []]
      ensures failure.Some? || TableKey(schema.name) in old(tables) ==> tables == old(tables) && rows == old(rows)
      ensures open == old(open)
      ensures metrics == Trimmed(old(metrics) + [MetricFor(schema.name, CreateTableOp, failure)])
    {
      failure := CreateFailure(State(), schema);
      if failure.None? && TableKey(schema.name) !in tables {
        TableKeyCanonical(schema.name);
        AddTable(TableKey(schema.name), Schema(schema.dimensions, schema.partitionBy));
      }
      RecordMetric(MetricFor(schema.name, CreateTableOp, failure));
    }

    /** The catalogue change of a successful `CREATE VIRTUAL TABLE`: a new, empty table. */
    method AddTable(name: string, schema: Schema)
      requires Valid() && name !in tables && TableKey(name) == name
      modifies this`tables, this`rows
      ensures Valid()
      ensures tables == old(tables)[name := schema] && rows == old(rows)[name := []]
    {
      tables := tables[name := schema];
      rows := rows[name := []];
    }

    /** `upsert`: `INSERT OR REPLACE` of the id, the vector and, when truthy, the partition. */
    method Upsert(tableName: string, id: string, embedding: seq<real>, partition: Option<string>)
      returns (failure: Option<StoreError>)
      requires Valid()
      modifies this
      ensures Valid()
      ensures var row := Row(id, embedding, Truthy(partition));
        && failure == WriteFailure(old(State()), tableName, row)
        && rows == (if failure.None? then old(rows)[TableKey(tableName) := Replaced(old(rows)[TableKey(tableName)], row)]
                    else old(rows))
      ensures tables == old(tables) && open == old(open)
      ensures metrics == Trimmed(old(metrics) + [MetricFor(tableName, UpsertOp, failure)])
    {
      var sql := UpsertSql(tableName, partition);
      var values := UpsertParams(id, embedding, partition);
      UpsertArity(id, embedding, partition);
      var row := Row(id, embedding, if |values| == 3 then Some(values[2].text) else None);
      assert row.partition == Truthy(partition);
      failure := WriteFailure(State(), tableName, row);
      if failure.None? {
        WriteRow(TableKey(tableName), row);
      }
      RecordMetric(MetricFor(tableName, UpsertOp, failure));
    }

    /** The table change of a successful `INSERT OR REPLACE` into the table keyed `key`. */
    method WriteRow(key: string, row: Row)
      requires Valid() && key in tables && Fits(tables[key], row)
      modifies this`rows
      ensures Valid()
      ensures rows == old(rows)[key := Replaced(old(rows)[key], row)]
    {
      ReplacedWellFormed(tables[key], rows[key], row);
      rows := rows[key := Replaced(rows[key], row)];
    }

    /** `search`: the `limit` nearest rows (10 when absent or zero), optionally restricted to
        one partition or a list of partitions, ordered by ascending distance. */
    method Search(tableName: string, embedding: seq<real>, options: SearchOptions)
      returns (res: Result<seq<SearchResult>, StoreError>)
      requires Valid()
      modifies this`metrics
      ensures Valid()
      ensures var failure := QueryFailure(old(State()), tableName, embedding, options);
        && (res.Failure? <==> failure.Some?)
        && (res.Failure? ==> res.error == failure.value)
        && metrics == Trimmed(old(metrics) + [MetricFor(tableName, SearchOp, failure)])
      ensures res.Success? ==>
        IsKnnAnswer(rows[TableKey(tableName)], EffectiveFilter(options.partition), embedding,
                    EffectiveLimit(options.limit), engine.distance, res.value)
      ensures res.Success? ==>
        res.value == Knn(rows[TableKey(tableName)], EffectiveFilter(options.partition), embedding,
                         EffectiveLimit(options.limit), engine.distance)
    {
      var sql := SearchSql(tableName, options);
      var params := SearchParams(embedding, options);
      var failure := QueryFailure(State(), tableName, embedding, options);
      if failure.None? {
        var f := EffectiveFilter(options.partition);
        var limit := EffectiveLimit(options.limit);
        KnnIsAnswer(rows[TableKey(tableName)], f, embedding, limit, engine.distance);
        res := Success(Knn(rows[TableKey(tableName)], f, embedding, limit, engine.distance));
      } else {
        res := Failure(failure.value);
      }
      RecordMetric(MetricFor(tableName, SearchOp, failure));
    }

    /** The body of the transaction: each item upserted in turn, its failure caught and counted. */
    method UpsertEach(tableName: string, items: seq<BatchItem>) returns (result: BatchResult)
      requires Valid() && open
      modifies this
      ensures Valid() && State() == old(State())
      ensures result == BatchOutcome(old(State()), tableName, items)
      ensures rows == if TableKey(tableName) in old(rows)
                      then old(rows)[TableKey(tableName) := BatchRows(old(State()), tableName, old(rows)[TableKey(tableName)], items)]
                      else old(rows)
      ensures metrics == Trimmed(old(metrics) + UpsertEntries(old(State()), tableName, items))
    {
      ghost var env := State();
      ghost var before := rows;
      ghost var log0 := metrics;
      assert items[..0] == [];
      result := BatchResult(0, 0, []);
      var i := 0;
      while i < |items|
        invariant 0 <= i <= |items|
        invariant Valid() && State() == env
        invariant BatchProgress(env, before, log0, tableName, items[..i], result)
      {
        result := UpsertStep(tableName, items, i, result, env, before, log0);
        i := i + 1;
      }
      assert items[..|items|] == items;
    }

    /** What the loop of `batchUpsert` has achieved after handling `done`. */
    ghost predicate BatchProgress(env: Env, before: map<string, seq<Row>>, log0: seq<Metric>,
                                  tableName: string, done: seq<BatchItem>, result: BatchResult)
      reads this
    {
      && result == BatchOutcome(env, tableName, done)
      && rows == (if TableKey(tableName) in before
                  then before[TableKey(tableName) := BatchRows(env, tableName, before[TableKey(tableName)], done)]
                  else before)
      && metrics == Trimmed(log0 + UpsertEntries(env, tableName, done))
    }

    /** One turn of the loop: upsert `items[i]`, catch its failure and count it. */
    method UpsertStep(tableName: string, items: seq<BatchItem>, i: int, result: BatchResult,
                      ghost env: Env, ghost before: map<string, seq<Row>>, ghost log0: seq<Metric>)
      returns (next: BatchResult)
      requires 0 <= i < |items|
      requires Valid() && State() == env
      requires BatchProgress(env, before, log0, tableName, items[..i], result)
      modifies this
      ensures Valid() && State() == env
      ensures BatchProgress(env, before, log0, tableName, items[..i + 1], next)
    {
      var item := items[i];
      BatchStep(env, tableName, before, items, i);
      assert RowOf(item) == Row(item.id, item.embedding, Truthy(item.partition));
      var failure := Upsert(tableName, item.id, item.embedding, item.partition);
      assert failure == ItemFailure(env, tableName, item);
      LogStep(log0, UpsertEntries(env, tableName, items[..i]), MetricFor(tableName, UpsertOp, failure));
      assert metrics == Trimmed(log0 + UpsertEntries(env, tableName, items[..i + 1]));
      ghost var key := TableKey(tableName);
      if failure.None? {
        assert key in before;
        ghost var table := BatchRows(env, tableName, before[key], items[..i]);
        assert BatchRows(env, tableName, before[key], items[..i + 1]) == Replaced(table, RowOf(item));
        UpdateTwice(before, key, table, Replaced(table, RowOf(item)));
        next := result.(successful := result.successful + 1);
      } else {
        assert key in before ==> BatchRows(env, tableName, before[key], items[..i + 1])
                                 == BatchRows(env, tableName, before[key], items[..i]);
        next := result.(failed := result.failed + 1,
                        errors := result.errors + [ItemError(item.id, failure.value)]);
      }
    }

    /** `batchUpsert`: one transaction around a per-item `upsert` whose failures are caught and
        counted; the accepted items persist unless the commit itself fails. */
    method BatchUpsert(tableName: string, items: seq<BatchItem>, commitSucceeds: bool)
      returns (res: Result<BatchResult, StoreError>)
      requires Valid()
      modifies this
      ensures Valid()
      ensures tables == old(tables) && open == old(open)
      ensures !old(open) ==>
        && res == Failure(ConnectionClosed)
        && rows == old(rows)
        && metrics == Trimmed(old(metrics) + [MetricFor(tableName, BatchUpsertOp, Some(ConnectionClosed))])
      ensures old(open) ==>
        && res == (if commitSucceeds then Success(BatchOutcome(old(State()), tableName, items))
                   else Failure(CommitFailed))
        && rows == (if commitSucceeds && TableKey(tableName) in old(rows)
                    then old(rows)[TableKey(tableName) := BatchRows(old(State()), tableName, old(rows)[TableKey(tableName)], items)]
                    else old(rows))
        && metrics == Trimmed(old(metrics) + UpsertEntries(old(State()), tableName, items)
                              + [MetricFor(tableName, BatchUpsertOp, if commitSucceeds then None else Some(CommitFailed))])
    {
      if !open {
        RecordMetric(MetricFor(tableName, BatchUpsertOp, Some(ConnectionClosed)));
        return Failure(ConnectionClosed);
      }
      ghost var env := State();
      var before := rows;
      var result := UpsertEach(tableName, items);
      var failure: Option<StoreError> := None;
      if !commitSucceeds {
        rows := before;
        failure := Some(CommitFailed);
      }
      RecordMetric(MetricFor(tableName, BatchUpsertOp, failure));
      TrimmedTrimmed(old(metrics) + UpsertEntries(env, tableName, items), [MetricFor(tableName, BatchUpsertOp, failure)]);
      if commitSucceeds {
        res := Success(result);
      } else {
        res := Failure(CommitFailed);
      }
    }

    /** `getMetrics`: a copy of the log. */
    method GetMetrics() returns (log: seq<Metric>)
      ensures log == metrics
    {
      log := metrics;
    }

    /** `clearMetrics`: empties the log and touches nothing else. */
    method ClearMetrics()
      requires Valid()
      modifies this`metrics
      ensures Valid() && metrics == []
    {
      metrics := [];
    }

    /** `close`: every later statement fails with a closed connection. */
    method Close()
      requires Valid()
      modifies this`open
      ensures Valid() && !open
    {
      open := false;
    }
  }
}
