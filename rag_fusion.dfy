/** Reciprocal Rank Fusion as `searchWithRAGFusion` performs it (app/models/rag.server.ts):
    every result at zero-based position `r` of a result list adds `1/(k + r)` to the score of
    its message id, results without an id are skipped, and the ids are ranked by descending
    total score, ties in the order the ids were first met. */
module RagFusion {
  import opened Wrappers
  import opened Seqs
  import opened Sorting

  /** One search hit as `searchSimilar` reports it. */
  datatype Similar = Similar(messageId: string, content: Option<string>, distance: real)

  /** One fused hit. */
  datatype FusionResult = FusionResult(messageId: string, content: string, score: real)

  /** A hit together with its position in its own result list. */
  datatype Entry = Entry(id: string, content: Option<string>, rank: nat)

  /** An id and its accumulated score, as `scores.entries()` yields them. */
  datatype Scored = Scored(id: string, score: real)

  // ---------------------------------------------------------------- specification

  /** The hits of one list with their ranks. */
  function Positions(list: seq<Similar>): seq<Entry> {
    seq(|list|, r requires 0 <= r < |list| => Entry(list[r].messageId, list[r].content, r))
  }

  /** All hits in processing order: list by list, each list front to back. */
  function Entries(lists: seq<seq<Similar>>): seq<Entry> {
    if lists == [] then []
    else Entries(lists[..|lists| - 1]) + Positions(lists[|lists| - 1])
  }

  /** The weight of rank `rank`: `1 / (k + rank)`. */
  function Rrf(k: int, rank: nat): (w: real)
    requires k > 0
    ensures w > 0.0
  {
    1.0 / ((k + rank) as real)
  }

  /** `1 / (k + rank)` for a hit with this (non-empty) id, nothing otherwise. */
  function Contribution(e: Entry, k: int, id: string): real
    requires k > 0
  {
    if e.id == id && id != "" then Rrf(k, e.rank) else 0.0
  }

  /** The score the loop has accumulated for `id` after the hits `es`. */
  function ScoreOf(es: seq<Entry>, k: int, id: string): real
    requires k > 0
  {
    if es == [] then 0.0
    else ScoreOf(es[..|es| - 1], k, id) + Contribution(es[|es| - 1], k, id)
  }

  /** The ids the loop records, in processing order. */
  function KeptIds(es: seq<Entry>): (ids: seq<string>)
    ensures forall i :: 0 <= i < |ids| ==> ids[i] != ""
  {
    if es == [] then []
    else KeptIds(es[..|es| - 1]) + (if es[|es| - 1].id != "" then [es[|es| - 1].id] else [])
  }

  /** The iteration order of the `scores` map: insertion order of its keys. */
  function Order(es: seq<Entry>): seq<string> {
    FirstSeen(KeptIds(es))
  }

  /** `result.content || ''`. */
  function ContentText(c: Option<string>): string {
    if c.Some? then c.value else ""
  }

  /** The content the `contents` map holds for `id`: that of its last hit. */
  function ContentOf(es: seq<Entry>, id: string): string {
    if es == [] then ""
    else if es[|es| - 1].id == id && id != "" then ContentText(es[|es| - 1].content)
    else ContentOf(es[..|es| - 1], id)
  }

  /** `Array.from(scores.entries())`. */
  function Tally(es: seq<Entry>, k: int): (t: seq<Scored>)
    requires k > 0
    ensures |t| == |Order(es)|
    ensures forall i :: 0 <= i < |t| ==> t[i] == Scored(Order(es)[i], ScoreOf(es, k, Order(es)[i]))
  {
    var order := Order(es);
    seq(|order|, i requires 0 <= i < |order| => Scored(order[i], ScoreOf(es, k, order[i])))
  }

  /** The sort key of `(a, b) => b - a` on scores: descending score. */
  function Descending(s: Scored): real {
    -s.score
  }

  function ScoredId(s: Scored): string {
    s.id
  }

  function ResultOf(es: seq<Entry>, s: Scored): FusionResult {
    FusionResult(s.id, ContentOf(es, s.id), s.score)
  }

  /** The fused ranking: sorted by descending score, cut with `slice(0, limit)`. */
  function Fused(lists: seq<seq<Similar>>, k: int, limit: int): (fused: seq<FusionResult>)
    requires k > 0
    ensures |fused| <= |Order(Entries(lists))|
    ensures var n := |Order(Entries(lists))|;
      limit >= 0 ==> |fused| == if limit < n then limit else n
  {
    var es := Entries(lists);
    var top := SliceTo(SortBy(Tally(es, k), Descending), limit);
    seq(|top|, i requires 0 <= i < |top| => ResultOf(es, top[i]))
  }

  // ---------------------------------------------------------------- reference score

  /** The score of `id` from one list: `1/(k + r)` for each position `r` holding it. */
  function ListScore(list: seq<Similar>, k: int, id: string): real
    requires k > 0
  {
    if list == [] then 0.0
    else
      ListScore(list[..|list| - 1], k, id)
      + (if list[|list| - 1].messageId == id && id != "" then Rrf(k, |list| - 1) else 0.0)
  }

  /** The Reciprocal Rank Fusion score of `id`: the sum of its list scores. */
  function RrfScore(lists: seq<seq<Similar>>, k: int, id: string): real
    requires k > 0
  {
    if lists == [] then 0.0
    else RrfScore(lists[..|lists| - 1], k, id) + ListScore(lists[|lists| - 1], k, id)
  }

  lemma {:induction false} ScoreOfConcat(a: seq<Entry>, b: seq<Entry>, k: int, id: string)
    requires k > 0
    ensures ScoreOf(a + b, k, id) == ScoreOf(a, k, id) + ScoreOf(b, k, id)
    decreases |b|
  {
    if b == [] {
      assert a + b == a;
    } else {
      var init := b[..|b| - 1];
      assert (a + b)[..|a + b| - 1] == a + init;
      assert (a + b)[|a + b| - 1] == b[|b| - 1];
      ScoreOfConcat(a, init, k, id);
    }
  }

  lemma {:induction false} PositionsScore(list: seq<Similar>, k: int, id: string)
    requires k > 0
    ensures ScoreOf(Positions(list), k, id) == ListScore(list, k, id)
    decreases |list|
  {
    if list != [] {
      var init := list[..|list| - 1];
      assert Positions(list)[..|list| - 1] == Positions(init);
      PositionsScore(init, k, id);
    }
  }

  /** The loop's accumulated score is the Reciprocal Rank Fusion score: a sum over every list
      position holding the id, skipped positions still counting towards the rank. */
  lemma {:induction false} ScoreIsRrf(lists: seq<seq<Similar>>, k: int, id: string)
    requires k > 0
    ensures ScoreOf(Entries(lists), k, id) == RrfScore(lists, k, id)
    decreases |lists|
  {
    if lists != [] {
      var init := lists[..|lists| - 1];
      ScoreIsRrf(init, k, id);
      ScoreOfConcat(Entries(init), Positions(lists[|lists| - 1]), k, id);
      PositionsScore(lists[|lists| - 1], k, id);
    }
  }

  // ---------------------------------------------------------------- properties of the ranking

  lemma TallyDistinct(es: seq<Entry>, k: int)
    requires k > 0
    ensures DistinctBy(Tally(es, k), ScoredId)
  {
    var t := Tally(es, k);
    var order := Order(es);
    forall i, j | 0 <= i < j < |t| ensures ScoredId(t[i]) != ScoredId(t[j]) {
      assert t[i].id == order[i] && t[j].id == order[j];
    }
  }

  /** Where a fused hit comes from: a position of the sorted tally. */
  lemma FusedFromSorted(lists: seq<seq<Similar>>, k: int, limit: int)
    requires k > 0
    ensures var es := Entries(lists);
      var sorted := SortBy(Tally(es, k), Descending);
      var fused := Fused(lists, k, limit);
      && |fused| <= |sorted|
      && forall i :: 0 <= i < |fused| ==> fused[i] == ResultOf(es, sorted[i])
  {
  }

  /** The fused list holds each id at most once, each one a non-empty id that some list holds,
      with its Reciprocal Rank Fusion score and the content of its last hit. */
  lemma FusedEntries(lists: seq<seq<Similar>>, k: int, limit: int)
    requires k > 0
    ensures var es := Entries(lists);
      var fused := Fused(lists, k, limit);
      && (forall i, j :: 0 <= i < j < |fused| ==> fused[i].messageId != fused[j].messageId)
      && (forall i :: 0 <= i < |fused| ==>
            && fused[i].messageId in Order(es)
            && fused[i].messageId != ""
            && fused[i].score == RrfScore(lists, k, fused[i].messageId)
            && fused[i].content == ContentOf(es, fused[i].messageId))
  {
    var es := Entries(lists);
    var t := Tally(es, k);
    var sorted := SortBy(t, Descending);
    var fused := Fused(lists, k, limit);
    FusedFromSorted(lists, k, limit);
    TallyDistinct(es, k);
    SortByDistinct(t, Descending, ScoredId);
    forall i | 0 <= i < |fused|
      ensures fused[i].messageId in Order(es) && fused[i].messageId != ""
      ensures fused[i].score == RrfScore(lists, k, fused[i].messageId)
    {
      var m := SortBySource(t, Descending, i);
      assert fused[i].messageId == Order(es)[m];
      assert Order(es)[m] in KeptIds(es);
      ScoreIsRrf(lists, k, fused[i].messageId);
    }
    forall i, j | 0 <= i < j < |fused| ensures fused[i].messageId != fused[j].messageId {
      assert ScoredId(sorted[i]) != ScoredId(sorted[j]);
    }
  }

  /** The fused list is ordered by non-increasing score. */
  lemma FusedOrdered(lists: seq<seq<Similar>>, k: int, limit: int)
    requires k > 0
    ensures var fused := Fused(lists, k, limit);
      forall i, j :: 0 <= i < j < |fused| ==> fused[i].score >= fused[j].score
  {
    var es := Entries(lists);
    var sorted := SortBy(Tally(es, k), Descending);
    FusedFromSorted(lists, k, limit);
    SortBySorted(Tally(es, k), Descending);
    var fused := Fused(lists, k, limit);
    forall i, j | 0 <= i < j < |fused| ensures fused[i].score >= fused[j].score {
      assert Descending(sorted[i]) <= Descending(sorted[j]);
    }
  }

  /** The cut keeps the top `limit`: an id that was met but left out of the fused list scores
      no higher than any kept one. */
  lemma FusedKeepsTop(lists: seq<seq<Similar>>, k: int, limit: int, id: string)
    requires k > 0
    requires id in Order(Entries(lists))
    requires forall i :: 0 <= i < |Fused(lists, k, limit)| ==> Fused(lists, k, limit)[i].messageId != id
    ensures var fused := Fused(lists, k, limit);
      forall i :: 0 <= i < |fused| ==> RrfScore(lists, k, id) <= fused[i].score
  {
    var es := Entries(lists);
    var t := Tally(es, k);
    var sorted := SortBy(t, Descending);
    var fused := Fused(lists, k, limit);
    FusedFromSorted(lists, k, limit);
    SortBySorted(t, Descending);
    ScoreIsRrf(lists, k, id);
    var a :| 0 <= a < |Order(es)| && Order(es)[a] == id;
    assert t[a] in multiset(sorted);
    var p :| 0 <= p < |sorted| && sorted[p] == t[a];
    assert sorted[p].id == id && sorted[p].score == RrfScore(lists, k, id);
    assert p >= |fused|;
    forall i | 0 <= i < |fused| ensures RrfScore(lists, k, id) <= fused[i].score {
      assert i < p;
      assert Descending(sorted[i]) <= Descending(sorted[p]);
    }
  }

  /** The fused hit at `i` is the tally entry at some position `a`, whose id is `Order(es)[a]`. */
  lemma FusedAt(lists: seq<seq<Similar>>, k: int, limit: int, i: int) returns (a: int)
    requires k > 0
    requires 0 <= i < |Fused(lists, k, limit)|
    ensures 0 <= a < |Tally(Entries(lists), k)|
    ensures Tally(Entries(lists), k)[a] == SortBy(Tally(Entries(lists), k), Descending)[i]
    ensures Fused(lists, k, limit)[i].messageId == Order(Entries(lists))[a]
  {
    var t := Tally(Entries(lists), k);
    FusedFromSorted(lists, k, limit);
    a := SortBySource(t, Descending, i);
  }

  /** Equal scores keep the order in which their ids were first met. */
  lemma FusedTiesFirstSeen(lists: seq<seq<Similar>>, k: int, limit: int, i: int, j: int)
    requires k > 0
    requires 0 <= i < j < |Fused(lists, k, limit)|
    requires Fused(lists, k, limit)[i].score == Fused(lists, k, limit)[j].score
    ensures var es := Entries(lists);
      var fused := Fused(lists, k, limit);
      && fused[i].messageId in KeptIds(es) && fused[j].messageId in KeptIds(es)
      && FirstIndex(KeptIds(es), fused[i].messageId) < FirstIndex(KeptIds(es), fused[j].messageId)
  {
    var es := Entries(lists);
    var t := Tally(es, k);
    FusedFromSorted(lists, k, limit);
    TallyDistinct(es, k);
    var a := FusedAt(lists, k, limit, i);
    var b := FusedAt(lists, k, limit, j);
    SortByTieOrder(t, Descending, ScoredId, i, j, a, b);
    FirstSeenOrder(KeptIds(es));
  }

  // ---------------------------------------------------------------- the loop

  /** `scores.set(id, (scores.get(id) || 0) + w)`. */
  function AddScore(scores: map<string, real>, id: string, w: real): (r: map<string, real>)
    ensures r.Keys == scores.Keys + {id}
    ensures r[id] == (if id in scores then scores[id] else 0.0) + w
    ensures forall other :: other in scores && other != id ==> r[other] == scores[other]
  {
    scores[id := (if id in scores then scores[id] else 0.0) + w]
  }

  /** The `scores` map after the hits `es`, built as the loop builds it. */
  function ScoreMap(es: seq<Entry>, k: int): map<string, real>
    requires k > 0
  {
    if es == [] then map[]
    else
      var m := ScoreMap(es[..|es| - 1], k);
      var e := es[|es| - 1];
      if e.id == "" then m else AddScore(m, e.id, Rrf(k, e.rank))
  }

  /** The `contents` map after the hits `es`, built as the loop builds it. */
  function ContentMap(es: seq<Entry>): map<string, string> {
    if es == [] then map[]
    else
      var m := ContentMap(es[..|es| - 1]);
      var e := es[|es| - 1];
      if e.id == "" then m else m[e.id := ContentText(e.content)]
  }

  lemma {:induction false} ScoreAbsent(es: seq<Entry>, k: int, id: string)
    requires k > 0
    requires id !in KeptIds(es)
    ensures ScoreOf(es, k, id) == 0.0
  {
    if es != [] {
      var init := es[..|es| - 1];
      assert KeptIds(init) <= KeptIds(es);
      ScoreAbsent(init, k, id);
    }
  }

  /** The `scores` map has a key for every recorded id and holds its accumulated score. */
  lemma {:induction false} ScoreMapMeaning(es: seq<Entry>, k: int, id: string)
    requires k > 0
    ensures id in ScoreMap(es, k) <==> id in KeptIds(es)
    ensures id in ScoreMap(es, k) ==> ScoreMap(es, k)[id] == ScoreOf(es, k, id)
  {
    if es != [] {
      var init := es[..|es| - 1];
      ScoreMapMeaning(init, k, id);
      if id !in KeptIds(init) {
        ScoreAbsent(init, k, id);
      }
    }
  }

  /** The `contents` map has a key for every recorded id and holds the content of its last hit. */
  lemma {:induction false} ContentMapMeaning(es: seq<Entry>, id: string)
    ensures id in ContentMap(es) <==> id in KeptIds(es)
    ensures id in ContentMap(es) ==> ContentMap(es)[id] == ContentOf(es, id)
  {
    if es != [] {
      ContentMapMeaning(es[..|es| - 1], id);
    }
  }

  lemma OrderStep(es: seq<Entry>, e: Entry)
    ensures Order(es + [e]) == if e.id == "" || e.id in KeptIds(es) then Order(es) else Order(es) + [e.id]
  {
    var s := es + [e];
    assert s[..|s| - 1] == es;
    var kept := KeptIds(es);
    if e.id != "" {
      assert KeptIds(s) == kept + [e.id];
      assert (kept + [e.id])[..|kept|] == kept;
    } else {
      assert KeptIds(s) == kept;
    }
  }

  /** One hit merged into maps that track `es`: a hit without an id changes nothing;
      otherwise its id is appended to the key order when new, its score grows by
      `1/(k + rank)` and its content is overwritten. */
  lemma MergeStep(es: seq<Entry>, e: Entry, k: int)
    requires k > 0
    ensures var scores := ScoreMap(es, k);
      && Order(es + [e]) == (if e.id == "" || e.id in scores then Order(es) else Order(es) + [e.id])
      && ScoreMap(es + [e], k)
         == (if e.id == "" then scores
             else AddScore(scores, e.id, Rrf(k, e.rank)))
      && ContentMap(es + [e]) == (if e.id == "" then ContentMap(es) else ContentMap(es)[e.id := ContentText(e.content)])
  {
    var s := es + [e];
    assert s[..|s| - 1] == es && s[|s| - 1] == e;
    OrderStep(es, e);
    ScoreMapMeaning(es, k, e.id);
  }

  lemma PositionsStep(done: seq<Entry>, results: seq<Similar>, rank: int)
    requires 0 <= rank < |results|
    ensures done + Positions(results)[..rank] + [Entry(results[rank].messageId, results[rank].content, rank)]
         == done + Positions(results)[..rank + 1]
  {
    assert Positions(results)[..rank + 1] == Positions(results)[..rank] + [Positions(results)[rank]];
  }

  /** The inner `forEach`: the hits of one result list merged into the maps. */
  method MergeList(ghost done: seq<Entry>, results: seq<Similar>, k: int,
                   scores0: map<string, real>, contents0: map<string, string>, order0: seq<string>)
    returns (scores: map<string, real>, contents: map<string, string>, order: seq<string>)
    requires k > 0
    requires order0 == Order(done) && scores0 == ScoreMap(done, k) && contents0 == ContentMap(done)
    ensures var es := done + Positions(results);
      order == Order(es) && scores == ScoreMap(es, k) && contents == ContentMap(es)
  {
    scores, contents, order := scores0, contents0, order0;
    ghost var es := done;
    var rank := 0;
    assert done + Positions(results)[..0] == done;
    while rank < |results|
      invariant 0 <= rank <= |results|
      invariant es == done + Positions(results)[..rank]
      invariant order == Order(es) && scores == ScoreMap(es, k) && contents == ContentMap(es)
    {
      var result := results[rank];
      ghost var e := Entry(result.messageId, result.content, rank);
      MergeStep(es, e, k);
      PositionsStep(done, results, rank);
      es := es + [e];
      if result.messageId != "" {
        var rrf := Rrf(k, rank);
        if result.messageId !in scores {
          order := order + [result.messageId];
        }
        scores := AddScore(scores, result.messageId, rrf);
        contents := contents[result.messageId := ContentText(result.content)];
      }
      rank := rank + 1;
    }
    assert Positions(results)[..|results|] == Positions(results);
  }

  /** The merge loop of `searchWithRAGFusion` with the sort, cut and mapping after it. */
  method FuseResults(allResults: seq<seq<Similar>>, k: int, limit: int) returns (fused: seq<FusionResult>)
    requires k > 0
    ensures fused == Fused(allResults, k, limit)
  {
    var scores: map<string, real> := map[];
    var contents: map<string, string> := map[];
    var order: seq<string> := [];
    var i := 0;
    while i < |allResults|
      invariant 0 <= i <= |allResults|
      invariant var es := Entries(allResults[..i]);
        order == Order(es) && scores == ScoreMap(es, k) && contents == ContentMap(es)
    {
      assert allResults[..i + 1][..i] == allResults[..i];
      scores, contents, order := MergeList(Entries(allResults[..i]), allResults[i], k, scores, contents, order);
      i := i + 1;
    }
    assert allResults[..|allResults|] == allResults;
    fused := RankResults(allResults, k, limit, scores, contents, order);
  }

  /** What the three maps hold for every id the merge has seen. */
  lemma MapsMeaning(es: seq<Entry>, k: int, scores: map<string, real>, contents: map<string, string>,
                    order: seq<string>)
    requires k > 0
    requires order == Order(es) && scores == ScoreMap(es, k) && contents == ContentMap(es)
    ensures forall id :: id in order ==>
      && id in scores && scores[id] == ScoreOf(es, k, id)
      && id in contents && contents[id] == ContentOf(es, id)
  {
    forall id | id in order
      ensures id in scores && scores[id] == ScoreOf(es, k, id)
      ensures id in contents && contents[id] == ContentOf(es, id)
    {
      ScoreMapMeaning(es, k, id);
      ContentMapMeaning(es, id);
    }
  }

  /** Sorting and cutting the tally keeps only ids of the merge order. */
  lemma RankedIdsKnown(tally: seq<Scored>, order: seq<string>, limit: int, top: seq<Scored>)
    requires |tally| == |order|
    requires forall j :: 0 <= j < |tally| ==> tally[j].id == order[j]
    requires top == SliceTo(SortBy(tally, Descending), limit)
    ensures forall j :: 0 <= j < |top| ==> top[j].id in order
  {
    forall j | 0 <= j < |top| ensures top[j].id in order {
      var a := SortBySource(tally, Descending, j);
      assert tally[a].id == order[a];
    }
  }

  /** `Array.from(scores.entries())`: each key in insertion order with its value. */
  function ScoredEntries(order: seq<string>, scores: map<string, real>): seq<Scored>
    requires forall id :: id in order ==> id in scores
  {
    seq(|order|, j requires 0 <= j < |order| => Scored(order[j], scores[order[j]]))
  }

  /** `.map(([messageId, score]) => ({ messageId, content: contents.get(messageId), score }))`. */
  function ResultsOf(top: seq<Scored>, contents: map<string, string>): seq<FusionResult>
    requires forall j :: 0 <= j < |top| ==> top[j].id in contents
  {
    seq(|top|, j requires 0 <= j < |top| => FusionResult(top[j].id, contents[top[j].id], top[j].score))
  }

  /** The entries of the `scores` map the merge built are the tally of its hits. */
  lemma ScoredEntriesTally(es: seq<Entry>, k: int, scores: map<string, real>, contents: map<string, string>,
                           order: seq<string>)
    requires k > 0
    requires order == Order(es) && scores == ScoreMap(es, k) && contents == ContentMap(es)
    ensures forall id :: id in order ==> id in scores
    ensures ScoredEntries(order, scores) == Tally(es, k)
  {
    MapsMeaning(es, k, scores, contents, order);
  }

  /** Looking the ranked ids up in the `contents` map the merge built gives the fused ranking. */
  lemma ResultsFused(lists: seq<seq<Similar>>, k: int, limit: int, contents: map<string, string>, top: seq<Scored>)
    requires k > 0
    requires contents == ContentMap(Entries(lists))
    requires top == SliceTo(SortBy(Tally(Entries(lists), k), Descending), limit)
    ensures forall j :: 0 <= j < |top| ==> top[j].id in contents
    ensures ResultsOf(top, contents) == Fused(lists, k, limit)
  {
    var es := Entries(lists);
    var order := Order(es);
    RankedIdsKnown(Tally(es, k), order, limit, top);
    forall j | 0 <= j < |top| ensures top[j].id in contents && contents[top[j].id] == ContentOf(es, top[j].id) {
      ContentMapMeaning(es, top[j].id);
    }
  }

  /** The sort by descending score, the cut to `limit` and the mapping to results, on the
      maps the merge loop built. */
  method RankResults(ghost lists: seq<seq<Similar>>, k: int, limit: int,
                     scores: map<string, real>, contents: map<string, string>, order: seq<string>)
    returns (fused: seq<FusionResult>)
    requires k > 0
    requires var es := Entries(lists);
      order == Order(es) && scores == ScoreMap(es, k) && contents == ContentMap(es)
    ensures fused == Fused(lists, k, limit)
  {
    ScoredEntriesTally(Entries(lists), k, scores, contents, order);
    var tally := ScoredEntries(order, scores);
    var top := SliceTo(SortBy(tally, Descending), limit);
    ResultsFused(lists, k, limit, contents, top);
    fused := ResultsOf(top, contents);
  }

  function ExampleLists(): seq<seq<Similar>> {
    [[Similar("a", None, 0.5), Similar("b", None, 0.7)], [Similar("b", None, 0.2), Similar("a", None, 0.9)]]
  }

  /** The hits of `ExampleLists()` in processing order. */
  function ExampleEntryList(): seq<Entry> {
    [Entry("a", None, 0), Entry("b", None, 1), Entry("b", None, 0), Entry("a", None, 1)]
  }

  lemma ExampleEntries()
    ensures Entries(ExampleLists()) == ExampleEntryList()
  {
    var lists := ExampleLists();
    assert lists[..1] == [lists[0]] && lists[..1][..0] == [];
    assert Positions(lists[0]) == [Entry("a", None, 0), Entry("b", None, 1)];
    assert Positions(lists[1]) == [Entry("b", None, 0), Entry("a", None, 1)];
    assert Entries(lists[..1]) == Positions(lists[0]);
  }

  lemma ExampleKept()
    ensures KeptIds(ExampleEntryList()) == ["a", "b", "b", "a"]
  {
    var es := ExampleEntryList();
    var e3, e2, e1 := es[..3], es[..3][..2], es[..3][..2][..1];
    assert e1[..0] == [];
    assert e1[0] == es[0] && e2[1] == es[1] && e3[2] == es[2];
    assert "a" != "" && "b" != "";
    assert KeptIds(e1) == [] + ["a"];
    assert KeptIds(e2) == ["a", "b"];
    assert KeptIds(e3) == ["a", "b", "b"];
  }

  lemma ExampleFirstSeen()
    ensures FirstSeen(["a", "b", "b", "a"]) == ["a", "b"]
  {
    var kept := ["a", "b", "b", "a"];
    assert "a" != "b" by {
      assert "a"[0] != "b"[0];
    }
    assert kept[..3] == ["a", "b", "b"] && kept[..3][..2] == ["a", "b"];
    assert kept[..3][..2][..1] == ["a"] && kept[..3][..2][..1][..0] == [];
    assert FirstSeen(kept[..3][..2][..1]) == ["a"];
    assert FirstSeen(kept[..3][..2]) == ["a", "b"];
    assert FirstSeen(kept[..3]) == ["a", "b"];
  }

  lemma ExampleScores()
    ensures ScoreOf(ExampleEntryList(), 60, "a") == 1.0 / 60.0 + 1.0 / 61.0
    ensures ScoreOf(ExampleEntryList(), 60, "b") == 1.0 / 61.0 + 1.0 / 60.0
  {
    var es := ExampleEntryList();
    var e3, e2, e1 := es[..3], es[..3][..2], es[..3][..2][..1];
    assert e1[..0] == [];
    assert "a" != "b" by {
      assert "a"[0] != "b"[0];
    }
    assert e1[0] == es[0] && e2[1] == es[1] && e3[2] == es[2] && es[..3] == e3;
    assert ScoreOf(e1, 60, "a") == 1.0 / 60.0;
    assert ScoreOf(e1, 60, "b") == 0.0;
    assert ScoreOf(e2, 60, "a") == 1.0 / 60.0;
    assert ScoreOf(e2, 60, "b") == 1.0 / 61.0;
    assert ScoreOf(e3, 60, "a") == 1.0 / 60.0;
    assert ScoreOf(e3, 60, "b") == 1.0 / 61.0 + 1.0 / 60.0;
  }

  lemma ExampleContents()
    ensures ContentOf(ExampleEntryList(), "a") == "" && ContentOf(ExampleEntryList(), "b") == ""
  {
    var es := ExampleEntryList();
    assert es[..3][..2][..1][..0] == [];
  }

  function ExampleTop(): seq<Scored> {
    [Scored("a", 1.0 / 60.0 + 1.0 / 61.0), Scored("b", 1.0 / 61.0 + 1.0 / 60.0)]
  }

  lemma ExampleTally()
    ensures Tally(ExampleEntryList(), 60) == ExampleTop()
  {
    var es := ExampleEntryList();
    ExampleKept();
    ExampleFirstSeen();
    ExampleScores();
    assert Order(es) == ["a", "b"];
  }

  /** Equal scores: the stable sort keeps `a` ahead of `b`. */
  lemma ExampleSort()
    ensures SortBy(ExampleTop(), Descending) == ExampleTop()
  {
    var t := ExampleTop();
    assert t[1..] == [t[1]];
    assert SortBy([t[1]], Descending) == [t[1]];
  }

  /** The worked example: with `k = 60`, two lists `[a, b]` and `[b, a]` give both ids the
      score `1/60 + 1/61`, and the tie keeps `a` (met first) ahead of `b`. */
  lemma TwoListsExample()
    ensures Fused(ExampleLists(), 60, 10)
         == [FusionResult("a", "", 1.0 / 60.0 + 1.0 / 61.0), FusionResult("b", "", 1.0 / 61.0 + 1.0 / 60.0)]
  {
    ExampleEntries();
    ExampleTally();
    ExampleSort();
    ExampleContents();
    var top := SliceTo(ExampleTop(), 10);
    assert top == ExampleTop();
  }
}
