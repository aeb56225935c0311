/** The SQL text and bound parameters the SDK builds (app/lib/vec0/index.ts). */
module Vec0Sql {
  import opened Wrappers
  import opened Strings
  import opened Vec0Types

  /** A value bound to a `?` placeholder. */
  datatype SqlValue = TextValue(text: string) | VectorValue(vector: seq<real>) | IntValue(n: int)

  /** `x ? ... : ...` on an optional string: undefined and "" are both falsy. */
  function Truthy(p: Option<string>): (r: Option<string>)
    ensures r.Some? <==> p.Some? && p.value != ""
    ensures r.Some? ==> r == p
  {
    if p.Some? && p.value != "" then p else None
  }

  /** The column definitions of `createTable`, in order. */
  function ColumnList(schema: TableSchema): seq<string> {
    ["id TEXT PRIMARY KEY"]
    + (if schema.partitionBy then ["partition TEXT"] else [])
    + ["embedding FLOAT[" + IntToString(schema.dimensions) + "]"]
  }

  /** `id` comes first and the vector column last; the partition column is present exactly
      when `partitionBy` is set; auxiliary columns never add a column. */
  lemma ColumnListShape(schema: TableSchema, aux: seq<string>)
    ensures var cols := ColumnList(schema);
      && |cols| == (if schema.partitionBy then 3 else 2)
      && cols[0] == "id TEXT PRIMARY KEY"
      && cols[|cols| - 1] == "embedding FLOAT[" + IntToString(schema.dimensions) + "]"
      && ("partition TEXT" in cols <==> schema.partitionBy)
      && ColumnList(schema.(auxiliaryColumns := aux)) == cols
  {
    var cols := ColumnList(schema);
    if !schema.partitionBy {
      assert cols == ["id TEXT PRIMARY KEY", "embedding FLOAT[" + IntToString(schema.dimensions) + "]"];
      assert "embedding FLOAT[" + IntToString(schema.dimensions) + "]" != "partition TEXT" by {
        assert ("embedding FLOAT[" + IntToString(schema.dimensions) + "]")[0] == 'e';
      }
    }
  }

  /** The CREATE statement; `IF NOT EXISTS` makes it a no-op on an existing name. */
  function CreateTableSql(schema: TableSchema): string {
    "CREATE VIRTUAL TABLE IF NOT EXISTS " + schema.name + " USING vec0("
    + Join(ColumnList(schema), ",\n") + ");"
  }

  /** The column list of the INSERT. */
  function UpsertColumnsText(partition: Option<string>): string {
    "id" + "," + " embedding" + (if Truthy(partition).Some? then "," + " partition" else "")
  }

  /** The VALUES list of the INSERT. */
  function UpsertValuesText(partition: Option<string>): string {
    "?" + ", " + "?" + (if Truthy(partition).Some? then ", " + "?" else "")
  }

  function UpsertSql(tableName: string, partition: Option<string>): string {
    "INSERT OR REPLACE INTO " + tableName
    + (" (" + UpsertColumnsText(partition) + ") VALUES (" + UpsertValuesText(partition) + ")")
  }

  /** The values bound to the INSERT: `[id, vec]`, plus the partition when truthy. */
  function UpsertParams(id: string, embedding: seq<real>, partition: Option<string>): seq<SqlValue> {
    [TextValue(id), VectorValue(embedding)]
    + (if Truthy(partition).Some? then [TextValue(partition.value)] else [])
  }

  /** The INSERT names as many columns as it has placeholders and bound values: two without a
      partition, three with one, the third being the partition text. */
  lemma UpsertArity(id: string, embedding: seq<real>, partition: Option<string>)
    ensures var n := |UpsertParams(id, embedding, partition)|;
      && n == (if Truthy(partition).Some? then 3 else 2)
      && CountChar(UpsertValuesText(partition), '?') == n
      && CountChar(UpsertColumnsText(partition), ',') + 1 == n
      && (n == 3 ==> UpsertParams(id, embedding, partition)[2] == TextValue(partition.value))
  {
    UpsertValuesCount(partition);
    UpsertColumnsCount(partition);
  }

  /** The whole INSERT, with the table name spliced in, holds one placeholder per bound value,
      besides any `?` the name itself contains. */
  lemma UpsertStatementArity(tableName: string, id: string, embedding: seq<real>, partition: Option<string>)
    ensures CountChar(UpsertSql(tableName, partition), '?')
         == CountChar(tableName, '?') + |UpsertParams(id, embedding, partition)|
  {
    UpsertArity(id, embedding, partition);
    var vals := UpsertValuesText(partition);
    var middle := " (" + UpsertColumnsText(partition) + ") VALUES (";
    ColumnsWithoutPlaceholder(partition);
    CountCharConcat(middle + vals, ")", '?');
    CountCharConcat(middle, vals, '?');
    CountCharAbsent(")", '?');
    CountCharSplice("INSERT OR REPLACE INTO ", tableName, middle + vals + ")", '?');
  }

  lemma ColumnsWithoutPlaceholder(partition: Option<string>)
    ensures CountChar(" (" + UpsertColumnsText(partition) + ") VALUES (", '?') == 0
  {
    ColumnsTextWithoutPlaceholder(partition);
    CountCharSplice(" (", UpsertColumnsText(partition), ") VALUES (", '?');
    CountCharAbsent(") VALUES (", '?');
  }

  lemma ColumnsTextWithoutPlaceholder(partition: Option<string>)
    ensures CountChar(UpsertColumnsText(partition), '?') == 0
  {
    var tail := if Truthy(partition).Some? then "," + " partition" else "";
    CountCharConcat("id" + "," + " embedding", tail, '?');
    CountCharAbsent("id" + "," + " embedding", '?');
    CountCharAbsent(tail, '?');
  }

  lemma UpsertValuesCount(partition: Option<string>)
    ensures CountChar(UpsertValuesText(partition), '?') == (if Truthy(partition).Some? then 3 else 2)
  {
    var tail := if Truthy(partition).Some? then ", " + "?" else "";
    CountCharConcat("?" + ", " + "?", tail, '?');
    CountCharConcat("?" + ", ", "?", '?');
    CountCharConcat("?", ", ", '?');
    CountCharAbsent(", ", '?');
    if Truthy(partition).Some? {
      CountCharOne(", ", "", '?');
      assert ", " + "?" + "" == tail;
    }
  }

  lemma UpsertColumnsCount(partition: Option<string>)
    ensures CountChar(UpsertColumnsText(partition), ',') == (if Truthy(partition).Some? then 2 else 1)
  {
    var tail := if Truthy(partition).Some? then "," + " partition" else "";
    CountCharConcat("id" + "," + " embedding", tail, ',');
    LeadingColumnsCount();
    if Truthy(partition).Some? {
      PartitionColumnCount();
    }
  }

  lemma LeadingColumnsCount()
    ensures CountChar("id" + "," + " embedding", ',') == 1
  {
    CountCharOne("id", " embedding", ',');
  }

  lemma PartitionColumnCount()
    ensures CountChar("," + " partition", ',') == 1
  {
    CountCharOne("", " partition", ',');
    assert "" + "," + " partition" == "," + " partition";
  }

  /** The effective filter of `search`: undefined and "" are falsy, any array is truthy. */
  function EffectiveFilter(p: PartitionOption): (f: PartitionOption)
    ensures f.NoPartition? <==> p.NoPartition? || p == OnePartition("")
    ensures !f.NoPartition? ==> f == p
  {
    match p
    case OnePartition(v) => if v == "" then NoPartition else p
    case _ => p
  }

  /** `options.limit || 10`: an absent or zero limit means 10. */
  function EffectiveLimit(limit: Option<int>): (n: int)
    ensures n == 10 <==> limit.None? || limit.value == 0 || limit.value == 10
    ensures limit.Some? && limit.value != 0 ==> n == limit.value
  {
    if limit.None? || limit.value == 0 then 10 else limit.value
  }

  function Questions(n: nat): seq<string> {
    seq(n, _ => "?")
  }

  /** `values.map(() => '?').join(',')`. */
  function Placeholders(n: nat): string {
    Join(Questions(n), ",")
  }

  lemma {:induction false} PlaceholdersCount(n: nat)
    ensures CountChar(Placeholders(n), '?') == n
  {
    if n == 1 {
      assert Questions(1) == ["?"];
    } else if n > 1 {
      assert Questions(n)[1..] == Questions(n - 1);
      assert Placeholders(n) == "?" + "," + Placeholders(n - 1);
      PlaceholdersCount(n - 1);
      CountCharConcat("?,", Placeholders(n - 1), '?');
      assert "?" + "," == "?,";
    }
  }

  /** The partition condition of the query for an effective filter. */
  function FilterText(f: PartitionOption): string {
    match f
    case NoPartition => ""
    case OnePartition(_) => " AND partition = " + "?"
    case AnyPartition(vs) => " AND partition IN (" + Placeholders(|vs|) + ")"
  }

  /** The query after its `FROM <table>`. */
  function SearchClause(f: PartitionOption): string {
    " WHERE embedding MATCH " + "?" + FilterText(f) + " ORDER BY distance ASC LIMIT " + "?"
  }

  function SearchSql(tableName: string, options: SearchOptions): string {
    "SELECT id, distance FROM " + tableName + SearchClause(EffectiveFilter(options.partition))
  }

  function PartitionParams(f: PartitionOption): seq<SqlValue> {
    match f
    case NoPartition => []
    case OnePartition(v) => [TextValue(v)]
    case AnyPartition(vs) => seq(|vs|, i requires 0 <= i < |vs| => TextValue(vs[i]))
  }

  /** `[vec, limit]`, `[vec, value, limit]` or `[vec, ...values, limit]`. */
  function SearchParams(embedding: seq<real>, options: SearchOptions): seq<SqlValue> {
    [VectorValue(embedding)] + PartitionParams(EffectiveFilter(options.partition))
    + [IntValue(EffectiveLimit(options.limit))]
  }

  /** The query has exactly one placeholder per bound value: 2 unfiltered, 3 for one partition,
      2 + n for a list of n; the vector is bound first, the limit last, the partitions between. */
  lemma SearchArity(embedding: seq<real>, options: SearchOptions)
    ensures var f := EffectiveFilter(options.partition);
      var ps := SearchParams(embedding, options);
      && |ps| == (match f
                  case NoPartition => 2
                  case OnePartition(_) => 3
                  case AnyPartition(vs) => 2 + |vs|)
      && CountChar(SearchClause(f), '?') == |ps|
      && ps[0] == VectorValue(embedding)
      && ps[|ps| - 1] == IntValue(EffectiveLimit(options.limit))
      && ps[1..|ps| - 1] == PartitionParams(f)
  {
    var f := EffectiveFilter(options.partition);
    SearchClauseCount(f);
    FilterTextCount(f);
    var ps := SearchParams(embedding, options);
    assert ps[1..|ps| - 1] == PartitionParams(f);
  }

  /** The whole SELECT, with the table name spliced in, holds one placeholder per bound value,
      besides any `?` the name itself contains. */
  lemma SearchStatementArity(tableName: string, embedding: seq<real>, options: SearchOptions)
    ensures CountChar(SearchSql(tableName, options), '?')
         == CountChar(tableName, '?') + |SearchParams(embedding, options)|
  {
    SearchArity(embedding, options);
    CountCharSplice("SELECT id, distance FROM ", tableName, SearchClause(EffectiveFilter(options.partition)), '?');
  }

  /** The fixed parts of the query hold two placeholders: the vector and the limit. */
  lemma SearchClauseCount(f: PartitionOption)
    ensures CountChar(SearchClause(f), '?') == 2 + CountChar(FilterText(f), '?')
  {
    var a := " WHERE embedding MATCH " + "?";
    var b := " ORDER BY distance ASC LIMIT " + "?";
    assert SearchClause(f) == a + FilterText(f) + b;
    CountCharConcat(a + FilterText(f), b, '?');
    CountCharConcat(a, FilterText(f), '?');
    MatchCount();
    LimitCount();
  }

  lemma MatchCount()
    ensures CountChar(" WHERE embedding MATCH " + "?", '?') == 1
  {
    CountCharOne(" WHERE embedding MATCH ", "", '?');
    assert " WHERE embedding MATCH " + "?" + "" == " WHERE embedding MATCH " + "?";
  }

  lemma LimitCount()
    ensures CountChar(" ORDER BY distance ASC LIMIT " + "?", '?') == 1
  {
    CountCharOne(" ORDER BY distance ASC LIMIT ", "", '?');
    assert " ORDER BY distance ASC LIMIT " + "?" + "" == " ORDER BY distance ASC LIMIT " + "?";
  }

  lemma InListCount(n: nat)
    ensures CountChar(" AND partition IN (" + Placeholders(n) + ")", '?') == n
  {
    PlaceholdersCount(n);
    CountCharBetween(" AND partition IN (", Placeholders(n), ")", '?');
  }

  lemma FilterTextCount(f: PartitionOption)
    ensures CountChar(FilterText(f), '?') == |PartitionParams(f)|
  {
    match f
    case NoPartition =>
    case OnePartition(_) =>
      CountCharOne(" AND partition = ", "", '?');
      assert " AND partition = " + "?" + "" == FilterText(f);
    case AnyPartition(vs) =>
      InListCount(|vs|);
  }
}
