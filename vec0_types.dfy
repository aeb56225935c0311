/** The shapes of app/lib/vec0/types.ts, and what the storage engine keeps. */
module Vec0Types {
  import opened Wrappers
  import Strings

  /** `Vec0TableSchema`. The auxiliary columns are accepted but never used. */
  datatype TableSchema = TableSchema(
    name: string,
    dimensions: int,
    partitionBy: bool,
    auxiliaryColumns: seq<string>)

  /** What a created table records: its vector width and whether it has a partition column. */
  datatype Schema = Schema(dimensions: int, partitioned: bool)

  /** One stored row: `id`, the vector, and the partition text (NULL when none was written). */
  datatype Row = Row(id: string, embedding: seq<real>, partition: Option<string>)

  /** The catalogue key of a table name. The name is spliced into the SQL unquoted, and SQLite
      matches unquoted identifiers ignoring the case of ASCII letters. */
  function TableKey(name: string): (key: string)
    ensures |key| == |name|
    ensures forall i :: 0 <= i < |key| ==> !Strings.IsUpperAscii(key[i])
  {
    Strings.ToLower(name)
  }
  /** A catalogue key is its own key: the store keeps only lower-cased names. */
  lemma TableKeyCanonical(name: string)
    ensures TableKey(TableKey(name)) == TableKey(name)
  {
    Strings.ToLowerFolds(name);
  }


  /** `Vec0SearchOptions.partition`: absent, one value, or a list of values. */
  datatype PartitionOption = NoPartition | OnePartition(value: string) | AnyPartition(values: seq<string>)

  /** `Vec0SearchOptions`. */
  datatype SearchOptions = SearchOptions(limit: Option<int>, partition: PartitionOption)

  /** `Vec0SearchResult`: the query selects `id` and `distance` only. */
  datatype SearchResult = SearchResult(id: string, distance: real)

  /** One element of `batchUpsert`'s `items`. */
  datatype BatchItem = BatchItem(id: string, embedding: seq<real>, partition: Option<string>)

  /** Why the engine refused a statement (the thrown error's message). */
  datatype StoreError =
    | ConnectionClosed
    | NoSuchTable(table: string)
    | SchemaRejected
    | NoPartitionColumn
    | DimensionMismatch(expected: int, actual: int)
    | EngineRejected
    | CommitFailed

  /** `Vec0BatchResult` and its `errors` entries. */
  datatype ItemError = ItemError(id: string, error: StoreError)
  datatype BatchResult = BatchResult(successful: nat, failed: nat, errors: seq<ItemError>)

  /** `Vec0Metrics` without its `duration` and `timestamp`. */
  datatype Operation = CreateTableOp | UpsertOp | SearchOp | BatchUpsertOp
  datatype Metric = Metric(tableName: string, operation: Operation, success: bool, error: Option<StoreError>)

  /** The metric entry an operation records, from the error it threw, if any. */
  function MetricFor(tableName: string, op: Operation, failure: Option<StoreError>): (m: Metric)
    ensures m.success <==> failure.None?
    ensures m.error == failure && m.operation == op && m.tableName == tableName
  {
    Metric(tableName, op, failure.None?, failure)
  }

  /** The decisions the sqlite-vec engine makes that the SDK cannot see: whether it accepts a
      CREATE statement, a write or a query for reasons beyond those the model checks itself
      (disk errors, malformed names and the like), and the distance between two vectors. */
  datatype Engine = Engine(
    acceptsTable: string -> bool,
    acceptsWrite: (Schema, Row) -> bool,
    acceptsQuery: (Schema, seq<real>, int) -> bool,
    distance: (seq<real>, seq<real>) -> real)
}
