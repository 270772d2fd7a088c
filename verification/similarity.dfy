/**
 * The `similarity-compare` endpoint (`compare_embeddings` in main.py).
 *
 * The query vector comes from the request's `embedding` string when it is
 * not blank, otherwise from the embedding provider. Every stored record is
 * scored against it; records whose stored embedding is empty, is not valid
 * JSON, or makes the arithmetic raise are skipped. Records scoring at least
 * the threshold are kept, sorted by rounded score and cut to `top_k`.
 */
module Similarity {
  import opened Wrappers
  import opened EmbeddingService
  import opened Records
  import opened Ranking
  import Text

  /** The body of the request; `threshold` and `top_k` may be sent as `null`. */
  datatype CompareRequest = CompareRequest(
    newsDesc: string,
    embedding: Option<string>,
    threshold: Option<real>,
    topK: Option<int>)

  /** The request defaults: no embedding, threshold 0.9, top 1. */
  function DefaultRequest(newsDesc: string): CompareRequest
  {
    CompareRequest(newsDesc, None, Some(0.9), Some(1))
  }

  /**
   * The `data` of a successful response. With no stored embeddings at all
   * the endpoint answers early with an empty result list and zero compared.
   */
  datatype CompareData =
    | EmptyCorpus
    | Compared(results: seq<ResultItem>, totalCompared: nat, totalAboveThreshold: nat)
  {
    function Results(): seq<ResultItem>
    {
      if EmptyCorpus? then [] else results
    }
    function TotalCompared(): nat
    {
      if EmptyCorpus? then 0 else totalCompared
    }
  }

  const InvalidEmbedding := "Invalid embedding format. Must be JSON array."

  /** A supplied embedding counts when it is present and `strip()` leaves something. */
  predicate Supplied(req: CompareRequest)
  {
    req.embedding.Some? && !Text.IsBlank(req.embedding.value)
  }

  /**
   * The query vector: the parsed supplied embedding, or the provider's vector
   * for `news_desc`. A supplied string that does not parse is a 400; a
   * provider failure is a 500.
   */
  function ResolveQuery(req: CompareRequest, env: Env): (r: Result<JsonValue, HttpError>)
    ensures r.Failure? && r.error.status == 400 <==> Supplied(req) && env.parse(req.embedding.value).None?
    ensures r.Failure? && r.error.status == 500 <==> !Supplied(req) && env.embed(req.newsDesc).Failure?
    ensures r.Failure? ==> r.error.status in {400, 500}
    ensures Supplied(req) && env.parse(req.embedding.value).Some? ==>
      r == Success(env.parse(req.embedding.value).value)
    ensures !Supplied(req) && env.embed(req.newsDesc).Success? ==>
      r == Success(Numbers(env.embed(req.newsDesc).value))
  {
    if Supplied(req) then
      match env.parse(req.embedding.value)
      case None => Failure(HttpError(400, InvalidEmbedding))
      case Some(v) => Success(v)
    else
      match env.embed(req.newsDesc)
      case Failure(msg) => Failure(HttpError(500, "Error comparing embeddings: " + msg))
      case Success(v) => Success(Numbers(v))
  }

  /** `cosine_similarity(query, stored)`, or None when it raises. */
  function Score(q: JsonValue, v: JsonValue, sqrt: real -> real): (r: Option<real>)
    ensures r.Some? <==> q.Numbers? && v.Numbers?
    ensures r.Some? ==> r.value == CosineSimilarity(q.elems, v.elems, sqrt)
  {
    if q.Numbers? && v.Numbers? then Some(CosineSimilarity(q.elems, v.elems, sqrt)) else None
  }

  /** The score of one stored record, or None when the record is skipped. */
  function ScoreRecord(n: News, q: JsonValue, env: Env): Option<real>
    reads n
  {
    if n.embedding.None? || n.embedding.value == "" then None
    else
      match env.parse(n.embedding.value)
      case None => None
      case Some(v) => Score(q, v, env.sqrt)
  }

  /**
   * With the exact square root every score the loop compares against the
   * threshold lies between -1 and 1.
   */
  lemma ScoreRecordInRange(n: News, q: JsonValue, env: Env)
    requires IsSqrt(env.sqrt)
    requires ScoreRecord(n, q, env).Some?
    ensures -1.0 <= ScoreRecord(n, q, env).value <= 1.0
  {
    var v := env.parse(n.embedding.value).value;
    CosineInRange(q.elems, v.elems, env.sqrt);
  }

  /**
   * `score >= request.threshold`; with a `null` threshold the comparison raises
   * `TypeError`, which the loop catches like a parse error.
   */
  predicate MeetsThreshold(score: real, threshold: Option<real>)
  {
    threshold.Some? && score >= threshold.value
  }

  /** The `result_item` built for a kept record. */
  function ItemOf(n: News, score: real, env: Env): ResultItem
  {
    ResultItem(n.newsId, n.header, Text.PreviewOpt(n.desc), env.round(score), n.dateTime)
  }

  /** What the loop appends for one record: an item, or nothing. */
  function Kept(n: News, q: JsonValue, threshold: Option<real>, env: Env): Option<ResultItem>
    reads n
  {
    match ScoreRecord(n, q, env)
    case None => None
    case Some(s) => if MeetsThreshold(s, threshold) then Some(ItemOf(n, s, env)) else None
  }

  /** The `similarities` list after the loop has seen `allNews`, before sorting. */
  function Similarities(allNews: seq<News>, q: JsonValue, threshold: Option<real>, env: Env): (r: seq<ResultItem>)
    reads allNews
    ensures |r| <= |allNews|
  {
    if allNews == [] then []
    else
      var rest := Similarities(allNews[..|allNews| - 1], q, threshold, env);
      match Kept(allNews[|allNews| - 1], q, threshold, env)
      case None => rest
      case Some(x) => rest + [x]
  }

  /** The whole endpoint as a function of the request, the stored records and the collaborators. */
  function Compare(req: CompareRequest, allNews: seq<News>, env: Env): Result<CompareData, HttpError>
    reads allNews
  {
    match ResolveQuery(req, env)
    case Failure(e) => Failure(e)
    case Success(q) =>
      if allNews == [] then Success(EmptyCorpus)
      else
        var similarities := Similarities(allNews, q, req.threshold, env);
        Success(Compared(Rank(similarities, req.topK), |allNews|, |similarities|))
  }

  /** `compare_embeddings`: the scoring loop, the in-place sort and the slice. */
  method CompareEmbeddings(req: CompareRequest, allNews: seq<News>, env: Env)
    returns (r: Result<CompareData, HttpError>)
    ensures r == Compare(req, allNews, env)
    ensures r.Failure? <==> ResolveQuery(req, env).Failure?
    ensures r.Success? && r.value.Compared? ==> r.value.totalCompared == |allNews|
  {
    var resolved := ResolveQuery(req, env);
    if resolved.Failure? {
      return Failure(resolved.error);
    }
    var q := resolved.value;
    if allNews == [] {
      return Success(EmptyCorpus);
    }
    var similarities: seq<ResultItem> := [];
    var i := 0;
    while i < |allNews|
      invariant 0 <= i <= |allNews|
      invariant similarities == Similarities(allNews[..i], q, req.threshold, env)
    {
      var news := allNews[i];
      var score := ScoreRecord(news, q, env);
      if score.Some? && MeetsThreshold(score.value, req.threshold) {
        similarities := similarities + [ItemOf(news, score.value, env)];
      }
      assert allNews[..i + 1][..i] == allNews[..i];
      i := i + 1;
    }
    assert allNews[..i] == allNews;
    var aboveThreshold := |similarities|;
    similarities := SortByScore(similarities);
    var topResults := TopK(similarities, req.topK);
    return Success(Compared(topResults, |allNews|, aboveThreshold));
  }

  // Properties of the endpoint.

  /** `x` was built from a record of `allNews` whose score met the threshold. */
  ghost predicate FromPassingRecord(x: ResultItem, allNews: seq<News>, q: JsonValue, threshold: Option<real>, env: Env)
    reads allNews
  {
    exists i, s :: 0 <= i < |allNews| && ScoreRecord(allNews[i], q, env) == Some(s)
      && MeetsThreshold(s, threshold) && x == ItemOf(allNews[i], s, env)
  }

  /** Every kept item was built from a stored record whose score met the threshold. */
  lemma {:induction false} SimilaritiesFromPassing(allNews: seq<News>, q: JsonValue, threshold: Option<real>, env: Env)
    ensures forall x :: x in Similarities(allNews, q, threshold, env) ==>
      FromPassingRecord(x, allNews, q, threshold, env)
  {
    if allNews != [] {
      var n := |allNews| - 1;
      SimilaritiesFromPassing(allNews[..n], q, threshold, env);
      forall x | x in Similarities(allNews, q, threshold, env)
        ensures FromPassingRecord(x, allNews, q, threshold, env)
      {
        if x in Similarities(allNews[..n], q, threshold, env) {
          var i, s :| 0 <= i < n && ScoreRecord(allNews[..n][i], q, env) == Some(s)
            && MeetsThreshold(s, threshold) && x == ItemOf(allNews[..n][i], s, env);
          assert allNews[..n][i] == allNews[i];
        } else {
          var s := ScoreRecord(allNews[n], q, env).value;
          assert x == ItemOf(allNews[n], s, env);
        }
      }
    }
  }

  /** The record's score exists and meets the threshold. */
  predicate Passes(n: News, q: JsonValue, threshold: Option<real>, env: Env)
    reads n
  {
    ScoreRecord(n, q, env).Some? && MeetsThreshold(ScoreRecord(n, q, env).value, threshold)
  }

  /** The positions of the fetched records that pass, counted independently of the loop. */
  ghost function PassingIndices(allNews: seq<News>, q: JsonValue, threshold: Option<real>, env: Env): set<int>
    reads allNews
  {
    set i | 0 <= i < |allNews| && Passes(allNews[i], q, threshold, env)
  }

  /** Every record that passes contributes its item: nothing passing is dropped. */
  lemma {:induction false} SimilaritiesComplete(allNews: seq<News>, q: JsonValue, threshold: Option<real>, env: Env, i: int)
    requires 0 <= i < |allNews| && Passes(allNews[i], q, threshold, env)
    ensures ItemOf(allNews[i], ScoreRecord(allNews[i], q, env).value, env) in Similarities(allNews, q, threshold, env)
  {
    var n := |allNews| - 1;
    if i < n {
      assert allNews[..n][i] == allNews[i];
      SimilaritiesComplete(allNews[..n], q, threshold, env, i);
    }
  }

  /** The loop keeps exactly one item per passing record. */
  lemma {:induction false} SimilaritiesCount(allNews: seq<News>, q: JsonValue, threshold: Option<real>, env: Env)
    ensures |Similarities(allNews, q, threshold, env)| == |PassingIndices(allNews, q, threshold, env)|
  {
    if allNews != [] {
      var n := |allNews| - 1;
      SimilaritiesCount(allNews[..n], q, threshold, env);
      PassingIndicesStep(allNews, q, threshold, env);
    }
  }

  /** Extending the fetched records by one adds its position exactly when it passes. */
  lemma PassingIndicesStep(allNews: seq<News>, q: JsonValue, threshold: Option<real>, env: Env)
    requires allNews != []
    ensures var n := |allNews| - 1;
      PassingIndices(allNews, q, threshold, env)
        == PassingIndices(allNews[..n], q, threshold, env)
           + (if Passes(allNews[n], q, threshold, env) then {n} else {})
      && n !in PassingIndices(allNews[..n], q, threshold, env)
  {
    var n := |allNews| - 1;
    var before := PassingIndices(allNews[..n], q, threshold, env);
    var all := PassingIndices(allNews, q, threshold, env);
    var last: set<int> := if Passes(allNews[n], q, threshold, env) then {n} else {};
    forall i ensures i in all <==> i in before + last {
      if 0 <= i < n {
        assert allNews[..n][i] == allNews[i];
      }
    }
  }

  lemma {:induction false} SimilaritiesAppend(a: seq<News>, b: seq<News>, q: JsonValue, threshold: Option<real>, env: Env)
    ensures Similarities(a + b, q, threshold, env)
         == Similarities(a, q, threshold, env) + Similarities(b, q, threshold, env)
  {
    if b == [] {
      assert a + b == a;
    } else {
      var n := |b| - 1;
      SimilaritiesAppend(a, b[..n], q, threshold, env);
      assert (a + b)[..|a + b| - 1] == a + b[..n];
      assert (a + b)[|a + b| - 1] == b[n];
    }
  }

  /**
   * A record that is skipped (no stored embedding, one that does not parse,
   * or one the arithmetic rejects) changes nothing: the rest are ranked as if
   * it were not there.
   */
  lemma SkippedRecordIgnored(a: seq<News>, n: News, b: seq<News>, q: JsonValue, threshold: Option<real>, env: Env)
    requires ScoreRecord(n, q, env).None?
    ensures Similarities(a + [n] + b, q, threshold, env) == Similarities(a + b, q, threshold, env)
  {
    SimilaritiesAppend(a + [n], b, q, threshold, env);
    SimilaritiesAppend(a, [n], q, threshold, env);
    SimilaritiesAppend(a, b, q, threshold, env);
    assert Similarities([n], q, threshold, env) == [] by {
      assert [n][..0] == [];
    }
  }

  /** With a `null` threshold every record is skipped. */
  lemma {:induction false} NullThresholdKeepsNothing(allNews: seq<News>, q: JsonValue, env: Env)
    ensures Similarities(allNews, q, None, env) == []
  {
    if allNews != [] {
      NullThresholdKeepsNothing(allNews[..|allNews| - 1], q, env);
    }
  }

  /** A query that is not a list of numbers makes every record raise, so nothing is kept. */
  lemma {:induction false} NonNumericQueryKeepsNothing(allNews: seq<News>, threshold: Option<real>, env: Env)
    ensures Similarities(allNews, NotNumbers, threshold, env) == []
  {
    if allNews != [] {
      NonNumericQueryKeepsNothing(allNews[..|allNews| - 1], threshold, env);
    }
  }

  /**
   * The totals of a successful comparison: `total_compared` counts every
   * fetched record, `total_above_threshold` every passing one, and every
   * passing record is among the candidates.
   */
  lemma CompareTotals(req: CompareRequest, allNews: seq<News>, env: Env)
    requires ResolveQuery(req, env).Success? && allNews != []
    ensures var q := ResolveQuery(req, env).value;
      var sims := Similarities(allNews, q, req.threshold, env);
      var d := Compare(req, allNews, env).value;
      && d.Compared?
      && d.totalCompared == |allNews|
      && d.totalAboveThreshold == |sims| == |PassingIndices(allNews, q, req.threshold, env)|
      && (forall i :: 0 <= i < |allNews| && Passes(allNews[i], q, req.threshold, env) ==>
            ItemOf(allNews[i], ScoreRecord(allNews[i], q, env).value, env) in sims)
  {
    var q := ResolveQuery(req, env).value;
    SimilaritiesCount(allNews, q, req.threshold, env);
    forall i | 0 <= i < |allNews| && Passes(allNews[i], q, req.threshold, env)
      ensures ItemOf(allNews[i], ScoreRecord(allNews[i], q, env).value, env) in Similarities(allNews, q, req.threshold, env)
    {
      SimilaritiesComplete(allNews, q, req.threshold, env, i);
    }
  }

  /**
   * The results of a successful comparison are the first items of the
   * stable sort of the candidates: sorted, exactly `min(top_k,
   * total_above_threshold)` of them for `top_k >= 0`, none for `top_k = 0`,
   * and equal-score results in fetch order.
   */
  lemma CompareResponse(req: CompareRequest, allNews: seq<News>, env: Env)
    requires ResolveQuery(req, env).Success? && allNews != []
    ensures var q := ResolveQuery(req, env).value;
      var sims := Similarities(allNews, q, req.threshold, env);
      var d := Compare(req, allNews, env).value;
      && d.Compared?
      && d.results <= SortByScore(sims)
      && SortedDesc(d.results)
      && |d.results| <= d.totalAboveThreshold
      && (req.topK.Some? && 0 <= req.topK.value ==>
            |d.results| == if req.topK.value < |sims| then req.topK.value else |sims|)
      && (req.topK == Some(0) ==> d.results == [])
      && (forall v :: WithScore(d.results, v) <= WithScore(sims, v))
  {
    var q := ResolveQuery(req, env).value;
    var sims := Similarities(allNews, q, req.threshold, env);
    RankProperties(sims, req.topK);
    forall v ensures WithScore(Rank(sims, req.topK), v) <= WithScore(sims, v) {
      RankKeepsTieOrder(sims, req.topK, v);
    }
  }

  /**
   * Which candidates a successful comparison returns: each result was built
   * from a record meeting the threshold, no candidate left out scores above
   * a result, and when `top_k` does not cut every candidate is returned.
   */
  lemma CompareSelectsTop(req: CompareRequest, allNews: seq<News>, env: Env)
    requires ResolveQuery(req, env).Success? && allNews != []
    ensures var q := ResolveQuery(req, env).value;
      var sims := Similarities(allNews, q, req.threshold, env);
      var d := Compare(req, allNews, env).value;
      && d.Compared?
      && (forall x :: x in d.results ==> FromPassingRecord(x, allNews, q, req.threshold, env))
      && (forall x, y :: x in d.results && y in multiset(sims) - multiset(d.results) ==> x.score >= y.score)
      && ((req.topK.None? || |sims| <= req.topK.value) ==> multiset(d.results) == multiset(sims))
  {
    var q := ResolveQuery(req, env).value;
    var sims := Similarities(allNews, q, req.threshold, env);
    RankSelectsTop(sims, req.topK);
    SimilaritiesFromPassing(allNews, q, req.threshold, env);
  }

  /** No stored embeddings: success with no results and nothing compared. */
  lemma EmptyCorpusResponse(req: CompareRequest, env: Env)
    ensures Compare(req, [], env).Success? <==> ResolveQuery(req, env).Success?
    ensures Compare(req, [], env).Success? ==>
      Compare(req, [], env).value.Results() == [] && Compare(req, [], env).value.TotalCompared() == 0
  {
  }

  /**
   * A non-blank supplied embedding takes precedence: the provider is never
   * consulted, whatever it would answer.
   */
  lemma SuppliedEmbeddingWins(req: CompareRequest, allNews: seq<News>, env: Env, embed: string -> Result<seq<real>, string>)
    requires Supplied(req)
    ensures Compare(req, allNews, env) == Compare(req, allNews, env.(embed := embed))
  {
    var env' := env.(embed := embed);
    assert ResolveQuery(req, env) == ResolveQuery(req, env');
    if ResolveQuery(req, env).Success? && allNews != [] {
      SimilaritiesIgnoreEmbed(allNews, ResolveQuery(req, env).value, req.threshold, env, embed);
    }
  }

  lemma {:induction false} SimilaritiesIgnoreEmbed(allNews: seq<News>, q: JsonValue, threshold: Option<real>, env: Env,
                                                    embed: string -> Result<seq<real>, string>)
    ensures Similarities(allNews, q, threshold, env) == Similarities(allNews, q, threshold, env.(embed := embed))
  {
    if allNews != [] {
      SimilaritiesIgnoreEmbed(allNews[..|allNews| - 1], q, threshold, env, embed);
    }
  }

  /**
   * With the request defaults the answer holds at most one result, and only
   * a record scoring at least 0.9 can be it.
   */
  lemma DefaultRequestResponse(newsDesc: string, allNews: seq<News>, env: Env)
    ensures var req := DefaultRequest(newsDesc);
      Compare(req, allNews, env).Success? ==>
        var results := Compare(req, allNews, env).value.Results();
        && |results| <= 1
        && forall x :: x in results ==>
             exists i, s :: 0 <= i < |allNews| && ScoreRecord(allNews[i], ResolveQuery(req, env).value, env) == Some(s)
               && s >= 0.9 && x == ItemOf(allNews[i], s, env)
  {
    var req := DefaultRequest(newsDesc);
    if Compare(req, allNews, env).Success? && allNews != [] {
      CompareResponse(req, allNews, env);
      CompareSelectsTop(req, allNews, env);
    }
  }

  /**
   * Raising the threshold only drops records from the passing list: what
   * passes the higher threshold is a sub-collection of what passes the lower.
   */
  lemma {:induction false} RaisingThresholdKeepsSubset(allNews: seq<News>, q: JsonValue, t1: real, t2: real, env: Env)
    requires t1 <= t2
    ensures multiset(Similarities(allNews, q, Some(t2), env)) <= multiset(Similarities(allNews, q, Some(t1), env))
    ensures |Similarities(allNews, q, Some(t2), env)| <= |Similarities(allNews, q, Some(t1), env)|
  {
    if allNews != [] {
      RaisingThresholdKeepsSubset(allNews[..|allNews| - 1], q, t1, t2, env);
    }
  }

  /**
   * The cut to `top_k` is not monotone in the threshold. Records are ordered
   * by their rounded score, so two records whose rounded scores tie keep
   * their fetch order. With `top_k = 1`, raising the threshold past the
   * first one's raw score brings the second one into the result.
   */
  lemma RaisingThresholdCanAdd(x: News, y: News, q: JsonValue, t1: real, t2: real, env: Env)
    requires x.newsId != y.newsId
    requires ScoreRecord(x, q, env).Some? && ScoreRecord(y, q, env).Some?
    requires t1 <= ScoreRecord(x, q, env).value < t2 <= ScoreRecord(y, q, env).value
    requires env.round(ScoreRecord(x, q, env).value) == env.round(ScoreRecord(y, q, env).value)
    ensures var low := Rank(Similarities([x, y], q, Some(t1), env), Some(1));
      var high := Rank(Similarities([x, y], q, Some(t2), env), Some(1));
      low == [ItemOf(x, ScoreRecord(x, q, env).value, env)]
      && high == [ItemOf(y, ScoreRecord(y, q, env).value, env)]
      && high[0] !in low
  {
    var ix := ItemOf(x, ScoreRecord(x, q, env).value, env);
    var iy := ItemOf(y, ScoreRecord(y, q, env).value, env);
    assert Kept(x, q, Some(t1), env) == Some(ix);
    assert Kept(y, q, Some(t1), env) == Some(iy);
    assert Kept(x, q, Some(t2), env).None?;
    assert Kept(y, q, Some(t2), env) == Some(iy);
    assert Similarities([x, y], q, Some(t1), env) == [ix, iy] by {
      SimilaritiesPair(x, y, q, Some(t1), env);
      SimilaritiesSingle(x, q, Some(t1), env);
      SimilaritiesSingle(y, q, Some(t1), env);
    }
    assert Similarities([x, y], q, Some(t2), env) == [iy] by {
      SimilaritiesPair(x, y, q, Some(t2), env);
      SimilaritiesSingle(x, q, Some(t2), env);
      SimilaritiesSingle(y, q, Some(t2), env);
    }
    SortTiedPair(ix, iy);
    SortSingle(iy);
  }

  lemma SimilaritiesSingle(n: News, q: JsonValue, threshold: Option<real>, env: Env)
    ensures Similarities([n], q, threshold, env) == match Kept(n, q, threshold, env) case None => [] case Some(i) => [i]
  {
    assert [n][..0] == [];
  }

  lemma SimilaritiesPair(x: News, y: News, q: JsonValue, threshold: Option<real>, env: Env)
    ensures Similarities([x, y], q, threshold, env) == Similarities([x], q, threshold, env) + Similarities([y], q, threshold, env)
  {
    SimilaritiesAppend([x], [y], q, threshold, env);
    assert [x] + [y] == [x, y];
  }

  /** An unparseable supplied embedding is rejected with 400, before any record is looked at. */
  lemma InvalidSuppliedEmbedding(req: CompareRequest, allNews: seq<News>, env: Env)
    requires Supplied(req) && env.parse(req.embedding.value).None?
    ensures Compare(req, allNews, env) == Failure(HttpError(400, InvalidEmbedding))
  {
  }
}
