/** The retrieval helpers of app/models/rag.server.ts around the message vector table: query
    rewriting, similarity search, fusion search, question answering and embedding storage.
    Replies of the language model and the embedding service are inputs. */
module Rag {
  import opened Wrappers
  import opened Strings
  import opened Vec0Types
  import opened Vec0Sql
  import opened Vec0Metrics
  import opened Vec0Search
  import opened RagFusion
  import opened Sorting
  import Vec0

  const MessagesTable: string := "messages_vec"
  const EmbeddingDimensions: int := 1536

  /** The table created when the module loads: an unpartitioned 1536-wide table that asks
      for a `content` auxiliary column, which the store does not create. */
  function MessagesSchema(): TableSchema {
    TableSchema(MessagesTable, EmbeddingDimensions, false, ["content"])
  }

  datatype Strategy = Simple | Fusion
  datatype ContextItem = ContextItem(messageId: string, content: Option<string>)
  datatype Answer = Answer(answer: string, context: seq<ContextItem>)
  datatype RagError = EmptyContent | StoreFailed(error: StoreError)

  // ---------------------------------------------------------------- pure helpers

  /** `searchSimilar`'s mapping: the store selects only `id` and `distance`, so
      `auxiliaryData?.content` is always absent. */
  function ToSimilar(results: seq<SearchResult>): (hits: seq<Similar>)
    ensures |hits| == |results|
    ensures forall i :: 0 <= i < |hits| ==>
      hits[i].messageId == results[i].id && hits[i].distance == results[i].distance && hits[i].content.None?
  {
    seq(|results|, i requires 0 <= i < |results| => Similar(results[i].id, None, results[i].distance))
  }

  /** `generateSearchQuery`: without a (non-empty) history the question itself; otherwise the
      trimmed reply of the model, or the question when that is missing or blank. */
  function GenerateSearchQuery(question: string, history: Option<string>, reply: Option<string>): (q: string)
    ensures Truthy(history).None? ==> q == question
    ensures q == question || (reply.Some? && q == Trim(reply.value) && !IsBlank(reply.value))
    ensures Truthy(history).Some? && reply.Some? && !IsBlank(reply.value) ==> q == Trim(reply.value)
  {
    TrimProperties(if reply.Some? then reply.value else "");
    if Truthy(history).None? then question
    else if reply.Some? && Trim(reply.value) != "" then Trim(reply.value)
    else question
  }

  /** `generateQueryVariations`: the query, then the trimmed comma-separated pieces of the
      reply (none when the reply is missing). */
  function GenerateQueryVariations(query: string, reply: Option<string>): (vs: seq<string>)
    ensures |vs| >= 1 && vs[0] == query
    ensures reply.None? <==> |vs| == 1
  {
    if reply.None? then [query]
    else
      var pieces := Split(reply.value, ',');
      [query] + seq(|pieces|, i requires 0 <= i < |pieces| => Trim(pieces[i]))
  }

  /** A reply with n commas gives n + 1 variations after the query. */
  lemma VariationsCount(query: string, reply: string)
    ensures |GenerateQueryVariations(query, Some(reply))| == CountChar(reply, ',') + 2
  {
    SplitCount(reply, ',');
  }

  /** The variations after the first are the comma-separated pieces of the reply, each
      trimmed, so none holds a comma. */
  lemma VariationsPieces(query: string, reply: string)
    ensures var vs := GenerateQueryVariations(query, Some(reply));
      forall i :: 1 <= i < |vs| ==> vs[i] == Trim(Split(reply, ',')[i - 1]) && ',' !in vs[i]
  {
    var pieces := Split(reply, ',');
    assert GenerateQueryVariations(query, Some(reply))
      == [query] + seq(|pieces|, i requires 0 <= i < |pieces| => Trim(pieces[i]));
    TrimmedPieces(query, pieces);
  }

  /** Trimming pieces that hold no comma leaves pieces that hold no comma. */
  lemma TrimmedPieces(query: string, pieces: seq<string>)
    requires forall j :: 0 <= j < |pieces| ==> ',' !in pieces[j]
    ensures var vs := [query] + seq(|pieces|, i requires 0 <= i < |pieces| => Trim(pieces[i]));
      forall i :: 1 <= i < |vs| ==> vs[i] == Trim(pieces[i - 1]) && ',' !in vs[i]
  {
    var trimmed := seq(|pieces|, i requires 0 <= i < |pieces| => Trim(pieces[i]));
    var vs := [query] + trimmed;
    forall i | 1 <= i < |vs| ensures vs[i] == Trim(pieces[i - 1]) && ',' !in vs[i] {
      assert vs[i] == trimmed[i - 1];
      TrimInside(pieces[i - 1]);
    }
  }

  /** `contextResults.map(r => r.content).filter(Boolean)`: every present, non-empty content,
      in result order. */
  function NonEmptyContents(items: seq<ContextItem>): (parts: seq<string>)
    ensures |parts| <= |items|
    ensures forall i :: 0 <= i < |parts| ==> parts[i] != ""
    ensures forall i :: 0 <= i < |parts| ==> exists j :: 0 <= j < |items| && items[j].content == Some(parts[i])
    ensures forall j :: 0 <= j < |items| && items[j].content.Some? && items[j].content.value != "" ==>
      items[j].content.value in parts
  {
    if items == [] then []
    else
      var rest := NonEmptyContents(items[1..]);
      assert forall j :: 1 <= j < |items| ==> items[j] == items[1..][j - 1];
      (if items[0].content.Some? && items[0].content.value != "" then [items[0].content.value] else [])
      + rest
  }

  /** The filter keeps result order: it distributes over concatenation of the results. */
  lemma {:induction false} NonEmptyContentsConcat(a: seq<ContextItem>, b: seq<ContextItem>)
    ensures NonEmptyContents(a + b) == NonEmptyContents(a) + NonEmptyContents(b)
  {
    if a == [] {
      assert a + b == b;
    } else {
      assert (a + b)[0] == a[0] && (a + b)[1..] == a[1..] + b;
      NonEmptyContentsConcat(a[1..], b);
    }
  }

  /** One result contributes its content exactly when that is present and non-empty. */
  lemma NonEmptyContentsOne(item: ContextItem)
    ensures NonEmptyContents([item]) ==
      if item.content.Some? && item.content.value != "" then [item.content.value] else []
  {
    assert [item][1..] == [];
  }

  /** The context block of the prompt: the contents joined by blank lines, empty exactly when
      no result has content. */
  function ContextText(items: seq<ContextItem>): (text: string)
    ensures text == "" <==> NonEmptyContents(items) == []
    ensures |NonEmptyContents(items)| == 1 ==> text == NonEmptyContents(items)[0]
  {
    var parts := NonEmptyContents(items);
    assert parts != [] ==> |Join(parts, "\n\n")| >= |parts[0]| > 0;
    Join(parts, "\n\n")
  }

  /** The context joins exactly the present, non-empty contents: with none of them it is empty. */
  lemma {:induction false} ContextEmptyWithoutContent(items: seq<ContextItem>)
    requires forall i :: 0 <= i < |items| ==> items[i].content.None? || items[i].content == Some("")
    ensures NonEmptyContents(items) == [] && ContextText(items) == ""
  {
    if items != [] {
      ContextEmptyWithoutContent(items[1..]);
    }
  }

  function SimpleContext(hits: seq<Similar>): seq<ContextItem> {
    seq(|hits|, i requires 0 <= i < |hits| => ContextItem(hits[i].messageId, hits[i].content))
  }

  function FusionContext(fused: seq<FusionResult>): seq<ContextItem> {
    seq(|fused|, i requires 0 <= i < |fused| => ContextItem(fused[i].messageId, Some(fused[i].content)))
  }

  lemma {:induction false} ContentOfAbsent(es: seq<Entry>, id: string)
    requires forall i :: 0 <= i < |es| ==> es[i].content.None?
    ensures ContentOf(es, id) == ""
  {
    if es != [] {
      ContentOfAbsent(es[..|es| - 1], id);
    }
  }

  lemma {:induction false} EntriesWithoutContent(lists: seq<seq<Similar>>)
    requires forall i, j :: 0 <= i < |lists| && 0 <= j < |lists[i]| ==> lists[i][j].content.None?
    ensures forall i :: 0 <= i < |Entries(lists)| ==> Entries(lists)[i].content.None?
  {
    if lists != [] {
      var init := lists[..|lists| - 1];
      assert forall i, j :: 0 <= i < |init| && 0 <= j < |init[i]| ==> init[i][j] == lists[i][j];
      EntriesWithoutContent(init);
    }
  }

  /** Because search never returns content, both strategies hand the model an empty context. */
  lemma ContextAlwaysEmpty(results: seq<SearchResult>, lists: seq<seq<SearchResult>>, k: int, limit: int)
    requires k > 0
    ensures ContextText(SimpleContext(ToSimilar(results))) == ""
    ensures var hits := seq(|lists|, i requires 0 <= i < |lists| => ToSimilar(lists[i]));
      ContextText(FusionContext(Fused(hits, k, limit))) == ""
  {
    ContextEmptyWithoutContent(SimpleContext(ToSimilar(results)));
    var hits := seq(|lists|, i requires 0 <= i < |lists| => ToSimilar(lists[i]));
    EntriesWithoutContent(hits);
    var es := Entries(hits);
    var fused := Fused(hits, k, limit);
    FusedEntries(hits, k, limit);
    forall i | 0 <= i < |fused| ensures fused[i].content == "" {
      ContentOfAbsent(es, fused[i].messageId);
    }
    ContextEmptyWithoutContent(FusionContext(fused));
  }

  // ---------------------------------------------------------------- operations on the store

  /** What `getEmbedding(text)` sends to the embedding service: the trimmed text. */
  function QueryVector(embed: string -> seq<real>, text: string): seq<real> {
    embed(Trim(text))
  }

  /** Padding around a text never reaches the embedding service: the text is trimmed first. */
  lemma QueryVectorIgnoresPadding(embed: string -> seq<real>, text: string)
    ensures QueryVector(embed, text) == QueryVector(embed, Trim(text))
  {
    TrimIdempotent(text);
  }

  function SimilarOptions(limit: int): SearchOptions {
    SearchOptions(Some(limit), NoPartition)
  }

  /** The hits `searchSimilar` may return: the mapped nearest rows of the table. */
  ghost predicate IsSimilarAnswer(rows: seq<Row>, q: seq<real>, limit: int,
                                  dist: (seq<real>, seq<real>) -> real, hits: seq<Similar>)
  {
    exists results :: IsKnnAnswer(rows, NoPartition, q, EffectiveLimit(Some(limit)), dist, results)
                      && hits == ToSimilar(results)
  }

  /** Startup: `createTable` for the message vectors. */
  method Initialize(store: Vec0.Vec0SDK) returns (failure: Option<StoreError>)
    requires store.Valid()
    modifies store
    ensures store.Valid()
    ensures failure == Vec0.CreateFailure(old(store.State()), MessagesSchema())
    ensures failure.None? ==> TableKey(MessagesTable) in store.tables
    ensures failure.None? && TableKey(MessagesTable) !in old(store.tables) ==>
      && store.tables == old(store.tables)[TableKey(MessagesTable) := Schema(EmbeddingDimensions, false)]
      && store.rows == old(store.rows)[TableKey(MessagesTable) := []]
    ensures failure.Some? || TableKey(MessagesTable) in old(store.tables) ==>
      store.tables == old(store.tables) && store.rows == old(store.rows)
    ensures store.open == old(store.open)
    ensures store.metrics == Trimmed(old(store.metrics) + [MetricFor(MessagesTable, CreateTableOp, failure)])
  {
    failure := store.CreateTable(MessagesSchema());
  }

  /** The hits of `searchSimilar` on a table: its nearest rows (ties in row order), mapped. */
  function SimilarHits(rows: seq<Row>, q: seq<real>, limit: int, dist: (seq<real>, seq<real>) -> real): seq<Similar> {
    ToSimilar(Knn(rows, NoPartition, q, EffectiveLimit(Some(limit)), dist))
  }

  /** On a store's table the hits are a nearest-neighbour answer: sorted by distance,
      distinct, the nearest matching rows and as many as the limit allows. */
  lemma SimilarHitsAnswer(rows: seq<Row>, q: seq<real>, limit: int, dist: (seq<real>, seq<real>) -> real)
    requires DistinctBy(rows, RowId)
    ensures IsSimilarAnswer(rows, q, limit, dist, SimilarHits(rows, q, limit, dist))
  {
    KnnIsAnswer(rows, NoPartition, q, EffectiveLimit(Some(limit)), dist);
  }

  /** The query vectors of the variations, in order (`variations.map(...)`). */
  function Queries(embed: string -> seq<real>, variations: seq<string>): (qs: seq<seq<real>>)
    ensures |qs| == |variations|
    ensures forall i :: 0 <= i < |qs| ==> qs[i] == QueryVector(embed, variations[i])
  {
    seq(|variations|, i requires 0 <= i < |variations| => QueryVector(embed, variations[i]))
  }

  lemma QueriesSnoc(embed: string -> seq<real>, variations: seq<string>, i: int)
    requires 0 <= i < |variations|
    ensures Queries(embed, variations[..i + 1]) == Queries(embed, variations[..i]) + [QueryVector(embed, variations[i])]
  {
    var longer := Queries(embed, variations[..i + 1]);
    var extended := Queries(embed, variations[..i]) + [QueryVector(embed, variations[i])];
    forall j | 0 <= j <= i ensures longer[j] == extended[j] {
      assert variations[..i + 1][j] == variations[j];
      if j < i {
        assert variations[..i][j] == variations[j];
      }
    }
    assert |longer| == |extended|;
  }

  /** The hit lists of the fusion search, one per query vector. */
  function AllHits(rows: seq<Row>, qs: seq<seq<real>>, k: int, dist: (seq<real>, seq<real>) -> real): (lists: seq<seq<Similar>>)
    ensures |lists| == |qs|
  {
    seq(|qs|, i requires 0 <= i < |qs| => SimilarHits(rows, qs[i], k, dist))
  }

  lemma AllHitsSnoc(rows: seq<Row>, qs: seq<seq<real>>, q: seq<real>, k: int, dist: (seq<real>, seq<real>) -> real)
    ensures AllHits(rows, qs + [q], k, dist) == AllHits(rows, qs, k, dist) + [SimilarHits(rows, q, k, dist)]
  {
    var longer := AllHits(rows, qs + [q], k, dist);
    var extended := AllHits(rows, qs, k, dist) + [SimilarHits(rows, q, k, dist)];
    forall j | 0 <= j <= |qs| ensures longer[j] == extended[j] {
      if j < |qs| {
        assert (qs + [q])[j] == qs[j];
      }
    }
    assert |longer| == |extended|;
  }

  /** The first error among the searches of the query vectors, in order. */
  function FirstFailure(env: Vec0.Env, qs: seq<seq<real>>, k: int): Option<StoreError> {
    if qs == [] then None
    else
      var before := FirstFailure(env, qs[..|qs| - 1], k);
      if before.Some? then before
      else Vec0.QueryFailure(env, MessagesTable, qs[|qs| - 1], SimilarOptions(k))
  }

  lemma FirstFailureSnoc(env: Vec0.Env, qs: seq<seq<real>>, q: seq<real>, k: int)
    ensures FirstFailure(env, qs + [q], k)
         == (var before := FirstFailure(env, qs, k);
             if before.Some? then before else Vec0.QueryFailure(env, MessagesTable, q, SimilarOptions(k)))
  {
    assert (qs + [q])[..|qs|] == qs;
  }

  /** The fusion search fails exactly when one of its searches would, and then with the error
      of the first such query. */
  lemma {:induction false} FirstFailureMeaning(env: Vec0.Env, qs: seq<seq<real>>, k: int)
    ensures FirstFailure(env, qs, k).None? <==>
      forall j :: 0 <= j < |qs| ==> Vec0.QueryFailure(env, MessagesTable, qs[j], SimilarOptions(k)).None?
    ensures FirstFailure(env, qs, k).Some? ==>
      exists j :: 0 <= j < |qs|
        && FirstFailure(env, qs, k) == Vec0.QueryFailure(env, MessagesTable, qs[j], SimilarOptions(k))
        && forall l :: 0 <= l < j ==> Vec0.QueryFailure(env, MessagesTable, qs[l], SimilarOptions(k)).None?
  {
    if qs != [] {
      var n := |qs| - 1;
      var init := qs[..n];
      FirstFailureMeaning(env, init, k);
      assert forall j :: 0 <= j < n ==> init[j] == qs[j];
    }
  }

  /** `searchSimilar`: the rewritten query is embedded and searched with `limit`. */
  method SearchSimilar(store: Vec0.Vec0SDK, query: string, limit: int, history: Option<string>,
                       reply: Option<string>, embed: string -> seq<real>)
    returns (res: Result<seq<Similar>, StoreError>)
    requires store.Valid()
    modifies store`metrics
    ensures store.Valid()
    ensures var q := QueryVector(embed, GenerateSearchQuery(query, history, reply));
      var failure := Vec0.QueryFailure(old(store.State()), MessagesTable, q, SimilarOptions(limit));
      && (res.Failure? <==> failure.Some?)
      && (res.Failure? ==> res.error == failure.value)
      && store.metrics == Trimmed(old(store.metrics) + [MetricFor(MessagesTable, SearchOp, failure)])
      && (res.Success? ==>
            TableKey(MessagesTable) in store.rows
            && res.value == SimilarHits(store.rows[TableKey(MessagesTable)], q, limit, store.engine.distance))
  {
    var enhanced := GenerateSearchQuery(query, history, reply);
    var q := embed(Trim(enhanced));
    var found := store.Search(MessagesTable, q, SimilarOptions(limit));
    if found.Success? {
      res := Success(ToSimilar(found.value));
    } else {
      res := Failure(found.error);
    }
  }

  /** `searchSimilar(q, k)` as the fusion search calls it: without history the variation is
      embedded as it is. */
  method SearchVariation(store: Vec0.Vec0SDK, variation: string, k: int, embed: string -> seq<real>)
    returns (found: Result<seq<Similar>, StoreError>)
    requires store.Valid()
    modifies store`metrics
    ensures store.Valid() && store.State() == old(store.State()) && store.rows == old(store.rows)
    ensures var failure := Vec0.QueryFailure(store.State(), MessagesTable, QueryVector(embed, variation), SimilarOptions(k));
      && (found.Failure? <==> failure.Some?)
      && (found.Failure? ==> found.error == failure.value)
      && store.metrics == Trimmed(old(store.metrics) + [MetricFor(MessagesTable, SearchOp, failure)])
    ensures found.Success? ==>
      TableKey(MessagesTable) in store.rows &&
      found.value == SimilarHits(store.rows[TableKey(MessagesTable)], QueryVector(embed, variation), k, store.engine.distance)
  {
    assert GenerateSearchQuery(variation, None, None) == variation;
    found := SearchSimilar(store, variation, k, None, None, embed);
  }

  /** The log entries of the searches of the query vectors `qs`, one per query in order. */
  function SearchEntries(env: Vec0.Env, qs: seq<seq<real>>, k: int): (entries: seq<Metric>)
    ensures |entries| == |qs|
    ensures forall i :: 0 <= i < |qs| ==>
      entries[i] == MetricFor(MessagesTable, SearchOp, Vec0.QueryFailure(env, MessagesTable, qs[i], SimilarOptions(k)))
  {
    seq(|qs|, i requires 0 <= i < |qs| =>
      MetricFor(MessagesTable, SearchOp, Vec0.QueryFailure(env, MessagesTable, qs[i], SimilarOptions(k))))
  }

  lemma SearchEntriesSnoc(env: Vec0.Env, qs: seq<seq<real>>, q: seq<real>, k: int)
    ensures SearchEntries(env, qs + [q], k)
         == SearchEntries(env, qs, k) + [MetricFor(MessagesTable, SearchOp, Vec0.QueryFailure(env, MessagesTable, q, SimilarOptions(k)))]
  {
    var longer := SearchEntries(env, qs + [q], k);
    var extended := SearchEntries(env, qs, k)
      + [MetricFor(MessagesTable, SearchOp, Vec0.QueryFailure(env, MessagesTable, q, SimilarOptions(k)))];
    forall j | 0 <= j <= |qs| ensures longer[j] == extended[j] {
      if j < |qs| {
        assert (qs + [q])[j] == qs[j];
      }
    }
    assert |longer| == |extended|;
  }

  /** What the searches of the query vectors `qs` have produced: the first failure, and
      otherwise one hit list per query. */
  ghost predicate SearchProgress(env: Vec0.Env, rows0: map<string, seq<Row>>, qs: seq<seq<real>>, k: int,
                                 failure: Option<StoreError>, allResults: seq<seq<Similar>>)
  {
    && failure == FirstFailure(env, qs, k)
    && (qs == [] ==> allResults == [])
    && (failure.None? && qs != [] ==>
          TableKey(MessagesTable) in rows0 && allResults == AllHits(rows0[TableKey(MessagesTable)], qs, k, env.engine.distance))
  }

  /** One search of `Promise.all`: `variations[i]` is searched and its outcome added. */
  method SearchStep(store: Vec0.Vec0SDK, variations: seq<string>, i: int, k: int, embed: string -> seq<real>,
                    failure: Option<StoreError>, allResults: seq<seq<Similar>>,
                    ghost env: Vec0.Env, ghost rows0: map<string, seq<Row>>, ghost log0: seq<Metric>)
    returns (failure': Option<StoreError>, allResults': seq<seq<Similar>>)
    requires 0 <= i < |variations|
    requires store.Valid() && store.State() == env && store.rows == rows0
    requires SearchProgress(env, rows0, Queries(embed, variations[..i]), k, failure, allResults)
    requires store.metrics == Trimmed(log0 + SearchEntries(env, Queries(embed, variations[..i]), k))
    modifies store`metrics
    ensures store.Valid() && store.State() == env && store.rows == rows0
    ensures SearchProgress(env, rows0, Queries(embed, variations[..i + 1]), k, failure', allResults')
    ensures store.metrics == Trimmed(log0 + SearchEntries(env, Queries(embed, variations[..i + 1]), k))
  {
    var found := SearchVariation(store, variations[i], k, embed);
    ghost var qs := Queries(embed, variations[..i]);
    ghost var q := QueryVector(embed, variations[i]);
    QueriesSnoc(embed, variations, i);
    FirstFailureSnoc(env, qs, q, k);
    SearchEntriesSnoc(env, qs, q, k);
    Vec0.LogStep(log0, SearchEntries(env, qs, k),
                 MetricFor(MessagesTable, SearchOp, Vec0.QueryFailure(env, MessagesTable, q, SimilarOptions(k))));
    failure', allResults' := failure, allResults;
    if found.Failure? {
      if failure.None? {
        failure' := Some(found.error);
      }
    } else if failure.None? {
      AllHitsSnoc(rows0[TableKey(MessagesTable)], qs, q, k, env.engine.distance);
      allResults' := allResults + [found.value];
    }
  }

  /** `Promise.all(variations.map(q => searchSimilar(q, k)))`: every variation is searched with
      limit `k`; the first failure is the outcome, and otherwise the hit lists in order. */
  method SearchEach(store: Vec0.Vec0SDK, variations: seq<string>, k: int, embed: string -> seq<real>)
    returns (failure: Option<StoreError>, allResults: seq<seq<Similar>>)
    requires store.Valid()
    modifies store`metrics
    ensures store.Valid() && store.rows == old(store.rows)
    ensures failure == FirstFailure(old(store.State()), Queries(embed, variations), k)
    ensures store.metrics == Trimmed(old(store.metrics) + SearchEntries(old(store.State()), Queries(embed, variations), k))
    ensures failure.None? && |variations| > 0 ==>
      TableKey(MessagesTable) in store.rows &&
      allResults == AllHits(store.rows[TableKey(MessagesTable)], Queries(embed, variations), k, store.engine.distance)
  {
    ghost var env := store.State();
    ghost var rows0 := store.rows;
    ghost var log0 := store.metrics;
    allResults := [];
    failure := None;
    var i := 0;
    assert Queries(embed, variations[..0]) == [];
    TrimmedKeepsNewest(log0, MetricFor(MessagesTable, SearchOp, None));
    assert log0 + [] == log0;
    while i < |variations|
      invariant 0 <= i <= |variations|
      invariant store.Valid() && store.State() == env && store.rows == rows0
      invariant SearchProgress(env, rows0, Queries(embed, variations[..i]), k, failure, allResults)
      invariant store.metrics == Trimmed(log0 + SearchEntries(env, Queries(embed, variations[..i]), k))
    {
      failure, allResults := SearchStep(store, variations, i, k, embed, failure, allResults, env, rows0, log0);
      i := i + 1;
    }
    assert variations[..|variations|] == variations;
  }

  /** `searchWithRAGFusion`: one similarity search with limit `k` per query variation, merged
      with Reciprocal Rank Fusion; any failing search fails the whole call. */
  method SearchWithRagFusion(store: Vec0.Vec0SDK, query: string, k: int, limit: int, history: Option<string>,
                             queryReply: Option<string>, variationsReply: Option<string>,
                             embed: string -> seq<real>)
    returns (res: Result<seq<FusionResult>, StoreError>)
    requires k > 0
    requires store.Valid()
    modifies store`metrics
    ensures store.Valid() && store.rows == old(store.rows)
    ensures var variations := GenerateQueryVariations(GenerateSearchQuery(query, history, queryReply), variationsReply);
      var qs := Queries(embed, variations);
      && (res.Failure? <==> FirstFailure(old(store.State()), qs, k).Some?)
      && (res.Failure? ==> res.error == FirstFailure(old(store.State()), qs, k).value)
      && store.metrics == Trimmed(old(store.metrics) + SearchEntries(old(store.State()), qs, k))
      && (res.Success? ==>
            && TableKey(MessagesTable) in store.rows
            && res.value == Fused(AllHits(store.rows[TableKey(MessagesTable)], qs, k, store.engine.distance), k, limit))
  {
    var enhanced := GenerateSearchQuery(query, history, queryReply);
    var variations := GenerateQueryVariations(enhanced, variationsReply);
    var failure, allResults := SearchEach(store, variations, k, embed);
    if failure.Some? {
      res := Failure(failure.value);
    } else {
      var fused := FuseResults(allResults, k, limit);
      res := Success(fused);
    }
  }

  /** `answerWithContext`: fusion search with `k = 60` and limit 10, or a similarity search
      with limit 10; the context block joins the non-empty contents; the answer is the
      model's reply, or `''`. */
  method AnswerWithContext(store: Vec0.Vec0SDK, question: string, strategy: Strategy, history: Option<string>,
                           queryReply: Option<string>, variationsReply: Option<string>,
                           answerReply: Option<string>, embed: string -> seq<real>)
    returns (res: Result<Answer, StoreError>, contextText: string)
    requires store.Valid()
    modifies store`metrics
    ensures store.Valid()
    ensures strategy == Simple ==>
      var failure := Vec0.QueryFailure(old(store.State()), MessagesTable,
        QueryVector(embed, GenerateSearchQuery(question, history, queryReply)), SimilarOptions(10));
      && (res.Failure? <==> failure.Some?)
      && (res.Failure? ==> res.error == failure.value && contextText == "")
      && store.metrics == Trimmed(old(store.metrics) + [MetricFor(MessagesTable, SearchOp, failure)])
    ensures strategy == Fusion ==>
      var qs := Queries(embed, GenerateQueryVariations(GenerateSearchQuery(question, history, queryReply), variationsReply));
      var failure := FirstFailure(old(store.State()), qs, 60);
      && (res.Failure? <==> failure.Some?)
      && (res.Failure? ==> res.error == failure.value && contextText == "")
      && store.metrics == Trimmed(old(store.metrics) + SearchEntries(old(store.State()), qs, 60))
    ensures res.Success? ==> res.value.answer == ContentText(answerReply)
    ensures res.Success? ==> contextText == ContextText(res.value.context)
    ensures res.Success? && strategy == Simple ==>
      TableKey(MessagesTable) in store.rows &&
      res.value.context == SimpleContext(SimilarHits(store.rows[TableKey(MessagesTable)],
        QueryVector(embed, GenerateSearchQuery(question, history, queryReply)), 10, store.engine.distance))
    ensures res.Success? && strategy == Fusion ==>
      var variations := GenerateQueryVariations(GenerateSearchQuery(question, history, queryReply), variationsReply);
      TableKey(MessagesTable) in store.rows &&
      res.value.context == FusionContext(Fused(AllHits(store.rows[TableKey(MessagesTable)], Queries(embed, variations), 60,
                                                       store.engine.distance), 60, 10))
  {
    var items: seq<ContextItem>;
    if strategy == Fusion {
      var fused := SearchWithRagFusion(store, question, 60, 10, history, queryReply, variationsReply, embed);
      if fused.Failure? {
        return Failure(fused.error), "";
      }
      items := FusionContext(fused.value);
    } else {
      var hits := SearchSimilar(store, question, 10, history, queryReply, embed);
      if hits.Failure? {
        return Failure(hits.error), "";
      }
      items := SimpleContext(hits.value);
    }
    contextText := ContextText(items);
    res := Success(Answer(ContentText(answerReply), items));
  }

  /** `storeEmbedding`: empty content is refused before anything else happens; otherwise the
      embedding of the trimmed content is upserted under the message id, without partition. */
  method StoreEmbedding(store: Vec0.Vec0SDK, messageId: string, content: string, embed: string -> seq<real>)
    returns (res: Result<string, RagError>)
    requires store.Valid()
    modifies store
    ensures store.Valid()
    ensures content == "" ==> res == Failure(EmptyContent) && unchanged(store)
    ensures content != "" ==>
      var row := Row(messageId, QueryVector(embed, content), None);
      var failure := Vec0.WriteFailure(old(store.State()), MessagesTable, row);
      && res == (if failure.None? then Success(messageId) else Failure(StoreFailed(failure.value)))
      && store.tables == old(store.tables) && store.open == old(store.open)
      && store.rows == (if failure.None? then old(store.rows)[TableKey(MessagesTable) := Vec0.Replaced(old(store.rows)[TableKey(MessagesTable)], row)]
                        else old(store.rows))
      && store.metrics == Trimmed(old(store.metrics) + [MetricFor(MessagesTable, UpsertOp, failure)])
  {
    if content == "" {
      return Failure(EmptyContent);
    }
    var embedding := embed(Trim(content));
    var failure := store.Upsert(MessagesTable, messageId, embedding, None);
    if failure.Some? {
      return Failure(StoreFailed(failure.value));
    }
    return Success(messageId);
  }

  /** `cleanup`: closes the store. */
  method Cleanup(store: Vec0.Vec0SDK)
    requires store.Valid()
    modifies store`open
    ensures store.Valid() && !store.open
  {
    store.Close();
  }
}
