/** The nearest-neighbour query that sqlite-vec answers for `search`
    (app/lib/vec0/index.ts:125-156). */
module Vec0Search {
  import opened Wrappers
  import opened Seqs
  import opened Sorting
  import opened Vec0Types

  function RowId(r: Row): string {
    r.id
  }

  /** Whether a row passes the partition condition of the query. */
  predicate Matches(row: Row, f: PartitionOption) {
    match f
    case NoPartition => true
    case OnePartition(v) => row.partition == Some(v)
    case AnyPartition(vs) => row.partition.Some? && row.partition.value in vs
  }

  /** The rows that pass the partition condition, in row order. */
  function Candidates(rows: seq<Row>, f: PartitionOption): (c: seq<Row>)
    ensures forall i :: 0 <= i < |c| ==> c[i] in rows && Matches(c[i], f)
    ensures forall i :: 0 <= i < |rows| && Matches(rows[i], f) ==> rows[i] in c
  {
    if rows == [] then []
    else
      var rest := Candidates(rows[1..], f);
      assert forall i :: 1 <= i < |rows| ==> rows[i] == rows[1..][i - 1];
      if Matches(rows[0], f) then [rows[0]] + rest else rest
  }

  lemma {:induction false} CandidatesDistinct(rows: seq<Row>, f: PartitionOption)
    requires DistinctBy(rows, RowId)
    ensures DistinctBy(Candidates(rows, f), RowId)
  {
    if rows != [] {
      assert DistinctBy(rows[1..], RowId) by {
        forall i, j | 0 <= i < j < |rows[1..]| ensures rows[1..][i].id != rows[1..][j].id {
          assert rows[1..][i] == rows[i + 1] && rows[1..][j] == rows[j + 1];
        }
      }
      CandidatesDistinct(rows[1..], f);
      var rest := Candidates(rows[1..], f);
      forall i | 0 <= i < |rest| ensures rest[i].id != rows[0].id {
        var m :| 0 <= m < |rows[1..]| && rows[1..][m] == rest[i];
        assert rows[m + 1] == rest[i];
      }
    }
  }

  /** `LIMIT n`: SQLite reads a negative limit as no limit. */
  function RowCount(limit: int, available: nat): (n: nat)
    ensures n <= available
    ensures limit >= 0 ==> n == if limit < available then limit else available
  {
    if limit < 0 || limit > available then available else limit
  }

  /** The distance of a row's vector to the query vector. */
  function DistanceTo(dist: (seq<real>, seq<real>) -> real, q: seq<real>): Row -> real {
    (r: Row) => dist(r.embedding, q)
  }

  function Ids(results: seq<SearchResult>): seq<string> {
    seq(|results|, i requires 0 <= i < |results| => results[i].id)
  }

  /** What a correct k-nearest-neighbour answer is: `limit` rows (or all when fewer match), each a
      matching row with its distance, no row twice, ordered by ascending distance, and no matching
      row left out that is nearer than one returned. Ties may come in any order. */
  ghost predicate IsKnnAnswer(rows: seq<Row>, f: PartitionOption, q: seq<real>, limit: int,
                              dist: (seq<real>, seq<real>) -> real, results: seq<SearchResult>)
  {
    var key := DistanceTo(dist, q);
    && |results| == RowCount(limit, |Candidates(rows, f)|)
    && (forall i, j :: 0 <= i < j < |results| ==> results[i].distance <= results[j].distance)
    && (forall i, j :: 0 <= i < j < |results| ==> results[i].id != results[j].id)
    && (forall i :: 0 <= i < |results| ==>
          exists r :: r in rows && Matches(r, f) && results[i] == SearchResult(r.id, key(r)))
    && (forall r :: r in rows && Matches(r, f) && r.id !in Ids(results) ==>
          forall i :: 0 <= i < |results| ==> results[i].distance <= key(r))
  }

  /** The matching rows ordered by distance to the query (ties in row order). */
  function Ranked(rows: seq<Row>, f: PartitionOption, q: seq<real>,
                  dist: (seq<real>, seq<real>) -> real): seq<Row>
  {
    SortBy(Candidates(rows, f), DistanceTo(dist, q))
  }

  /** One such answer: the ranked rows cut to the limit, with their distances. */
  function Knn(rows: seq<Row>, f: PartitionOption, q: seq<real>, limit: int,
               dist: (seq<real>, seq<real>) -> real): (results: seq<SearchResult>)
    ensures |results| == RowCount(limit, |Candidates(rows, f)|)
    ensures forall i :: 0 <= i < |results| ==>
      results[i] == SearchResult(Ranked(rows, f, q, dist)[i].id,
                                 dist(Ranked(rows, f, q, dist)[i].embedding, q))
  {
    var sorted := Ranked(rows, f, q, dist);
    var n := RowCount(limit, |sorted|);
    seq(n, i requires 0 <= i < n => SearchResult(sorted[i].id, dist(sorted[i].embedding, q)))
  }

  lemma KnnOrdered(rows: seq<Row>, f: PartitionOption, q: seq<real>, limit: int,
                   dist: (seq<real>, seq<real>) -> real)
    requires DistinctBy(rows, RowId)
    ensures var results := Knn(rows, f, q, limit, dist);
      && (forall i, j :: 0 <= i < j < |results| ==> results[i].distance <= results[j].distance)
      && (forall i, j :: 0 <= i < j < |results| ==> results[i].id != results[j].id)
  {
    var cands := Candidates(rows, f);
    CandidatesDistinct(rows, f);
    SortBySorted(cands, DistanceTo(dist, q));
    SortByDistinct(cands, DistanceTo(dist, q), RowId);
  }

  lemma KnnFromRows(rows: seq<Row>, f: PartitionOption, q: seq<real>, limit: int,
                    dist: (seq<real>, seq<real>) -> real)
    ensures var results := Knn(rows, f, q, limit, dist);
      forall i :: 0 <= i < |results| ==>
        exists r :: r in rows && Matches(r, f) && results[i] == SearchResult(r.id, DistanceTo(dist, q)(r))
  {
    var results := Knn(rows, f, q, limit, dist);
    var sorted := Ranked(rows, f, q, dist);
    forall i | 0 <= i < |results|
      ensures exists r :: r in rows && Matches(r, f) && results[i] == SearchResult(r.id, DistanceTo(dist, q)(r))
    {
      assert sorted[i] in multiset(sorted);
      assert sorted[i] in Candidates(rows, f);
    }
  }

  /** A row of a sorted sequence that is not among the returned prefix is no nearer than any
      returned row. */
  lemma BeyondPrefix(sorted: seq<Row>, results: seq<SearchResult>, key: Row -> real, r: Row)
    requires SortedBy(sorted, key)
    requires |results| <= |sorted|
    requires forall j :: 0 <= j < |results| ==> results[j] == SearchResult(sorted[j].id, key(sorted[j]))
    requires r in multiset(sorted) && r.id !in Ids(results)
    ensures forall i :: 0 <= i < |results| ==> results[i].distance <= key(r)
  {
    var m :| 0 <= m < |sorted| && sorted[m] == r;
    assert forall j :: 0 <= j < |results| ==> Ids(results)[j] == sorted[j].id;
    assert m >= |results|;
  }

  lemma KnnNearest(rows: seq<Row>, f: PartitionOption, q: seq<real>, limit: int,
                   dist: (seq<real>, seq<real>) -> real)
    ensures var results := Knn(rows, f, q, limit, dist);
      forall r :: r in rows && Matches(r, f) && r.id !in Ids(results) ==>
        forall i :: 0 <= i < |results| ==> results[i].distance <= DistanceTo(dist, q)(r)
  {
    var key := DistanceTo(dist, q);
    var cands := Candidates(rows, f);
    var sorted := Ranked(rows, f, q, dist);
    var results := Knn(rows, f, q, limit, dist);
    SortBySorted(cands, key);
    forall r | r in rows && Matches(r, f) && r.id !in Ids(results)
      ensures forall i :: 0 <= i < |results| ==> results[i].distance <= key(r)
    {
      var k :| 0 <= k < |rows| && rows[k] == r;
      assert r in cands;
      assert r in multiset(cands);
      BeyondPrefix(sorted, results, key, r);
    }
  }

  /** `Knn` is a correct nearest-neighbour answer whenever the table's ids are distinct. */
  lemma KnnIsAnswer(rows: seq<Row>, f: PartitionOption, q: seq<real>, limit: int,
                    dist: (seq<real>, seq<real>) -> real)
    requires DistinctBy(rows, RowId)
    ensures IsKnnAnswer(rows, f, q, limit, dist, Knn(rows, f, q, limit, dist))
  {
    KnnOrdered(rows, f, q, limit, dist);
    KnnFromRows(rows, f, q, limit, dist);
    KnnNearest(rows, f, q, limit, dist);
  }

  /** The argument of `ExactMatchFirst` over an arbitrary non-negative key. */
  lemma ZeroKeyFirst(rows: seq<Row>, f: PartitionOption, key: Row -> real, results: seq<SearchResult>, exact: Row)
    requires DistinctBy(rows, RowId)
    requires forall i, j :: 0 <= i < j < |results| ==> results[i].distance <= results[j].distance
    requires forall i :: 0 <= i < |results| ==>
      exists r :: r in rows && Matches(r, f) && results[i] == SearchResult(r.id, key(r))
    requires forall r :: r in rows && Matches(r, f) && r.id !in Ids(results) ==>
      forall i :: 0 <= i < |results| ==> results[i].distance <= key(r)
    requires forall r :: r in rows ==> key(r) >= 0.0
    requires exact in rows && Matches(exact, f) && key(exact) == 0.0
    requires results != []
    ensures results[0].distance == 0.0
  {
    var r :| r in rows && Matches(r, f) && results[0] == SearchResult(r.id, key(r));
    assert results[0].distance >= 0.0;
    if exact.id in Ids(results) {
      var j :| 0 <= j < |results| && Ids(results)[j] == exact.id;
      var e :| e in rows && Matches(e, f) && results[j] == SearchResult(e.id, key(e));
      var a :| 0 <= a < |rows| && rows[a] == e;
      var b :| 0 <= b < |rows| && rows[b] == exact;
      assert a == b;
      assert results[0].distance <= results[j].distance;
    }
  }

  /** When a matching row lies at distance zero (an exact match) and distances are never
      negative, the first result is at distance zero. */
  lemma ExactMatchFirst(rows: seq<Row>, f: PartitionOption, q: seq<real>, limit: int,
                        dist: (seq<real>, seq<real>) -> real, results: seq<SearchResult>, exact: Row)
    requires IsKnnAnswer(rows, f, q, limit, dist, results)
    requires DistinctBy(rows, RowId)
    requires forall r :: r in rows ==> dist(r.embedding, q) >= 0.0
    requires exact in rows && Matches(exact, f) && dist(exact.embedding, q) == 0.0
    requires results != []
    ensures results[0].distance == 0.0
  {
    var key := DistanceTo(dist, q);
    assert forall r :: r in rows ==> key(r) >= 0.0;
    ZeroKeyFirst(rows, f, key, results, exact);
  }
}
