# NEWS-DB-VECTOR-API similarity core in Dafny

This project models the part of the NEWS-DB-VECTOR-API backend that has real logic. That part is the
similarity comparison behind `POST /similarity-compare`, together with the bookkeeping of the
two endpoints that write embeddings back to stored news records. It covers:

- `cosine_similarity` (module `EmbeddingService`). This is the dot product over `zip`, the
  sums of squares, the zero-magnitude guard and the division, computed over exact reals. The
  square root is a parameter. `IsSqrt` states when it is the exact one.
- Query resolution (`Similarity.ResolveQuery`). A non-blank supplied `embedding` string is
  parsed and takes precedence. A string that does not parse is a 400. Otherwise the embedding
  provider is called, and its failure is a 500.
- The comparison loop (`Similarity.CompareEmbeddings`). Each fetched record is scored. A record
  whose stored embedding is empty or does not parse, or on which the arithmetic raises, is
  skipped. A record is kept when its score is at least the threshold. The kept items are
  stable-sorted by their rounded score, descending (`Ranking.SortByScore`), and cut with
  Python's `[:top_k]` (`Ranking.TopK`). The method is proved equal to the specification
  function `Similarity.Compare`, and the response properties are lemmas about that function.
- The batch endpoint (`Batch.EmbedAllPending`). Every pending record gets an embedding or a
  failure entry, and the loop never stops early. Each record is counted once. The response
  lists the first ten failures.
- The by-id endpoint (`Batch.CreateEmbeddingById`), with its 404, 400 and 500 answers and its
  write.
- The 200-character description preview (`Text.Preview`).

The collaborators are parameters, bundled in `Records.Env`:
- the JSON parser and serialiser;
- the embedding provider;
- `math.sqrt`;
- `round(x, 4)`.

A stored news row is the class `Records.News`. Its `embedding` field is the only field these
endpoints write.

Behaviour of the code worth knowing:
- **Mismatched lengths.** Vectors of different lengths are not rejected. `zip` stops at the
  shorter one (`EmbeddingService.DotOverZip`).
- **Negative `top_k`.** A negative `top_k` is a Python slice from the end, not an empty
  result (`Ranking.TopK`).
- **Null `threshold` and `top_k`.** A request may send `threshold: null`. Then `score >= None`
  raises `TypeError`, which the per-record handler catches, so every record is skipped
  (`Similarity.NullThresholdKeepsNothing`). `top_k: null` keeps everything.
- **Sort key.** The sort key is the rounded score `round(score, 4)`. The threshold test uses
  the unrounded score. So raising the threshold can change which record fills a `top_k` cut,
  not only remove records (`Similarity.RaisingThresholdCanAdd`). Without the cut, raising the
  threshold only removes records (`Similarity.RaisingThresholdKeepsSubset`).
- **No skip count.** The response does not count skipped records. It reports only
  `total_compared`, which counts every fetched record, and `total_above_threshold`.
- **Empty provider vector.** An empty vector from the provider is not rejected.
- **Non-numeric supplied embedding.** A supplied embedding that parses but is not a numeric
  array is not a 400. Every record then raises and is skipped
  (`Similarity.NonNumericQueryKeepsNothing`).

## Model

| member | source | states |
|---|---|---|
| `EmbeddingService.Dot` | embedding_service.py:79 | definition of the dot product over `zip`; its properties are `DotOverZip`, `DotSymmetric` and `CauchySchwarz` |
| `EmbeddingService.CosineSimilarity` | embedding_service.py:65-89 | definition of `cosine_similarity`: 0.0 when a magnitude is zero, otherwise the dot product over the product of the magnitudes; its properties are the `Cosine*` lemmas below |
| `EmbeddingService.SumSq` | embedding_service.py:82-83 | a sum of squares is never negative |
| `EmbeddingService.DotOverZip` | embedding_service.py:79 | the dot product uses exactly the first `min(len(a), len(b))` positions; mismatched lengths are not an error |
| `EmbeddingService.DotSymmetric` | embedding_service.py:79 | the dot product is symmetric |
| `EmbeddingService.CosineSymmetric` | embedding_service.py:65-89 | `cosine_similarity(a, b) == cosine_similarity(b, a)` for any square root |
| `EmbeddingService.SumSqZeroIff` | embedding_service.py:82-83 | a sum of squares is zero exactly when every element is zero |
| `EmbeddingService.MagnitudeZeroIff` | embedding_service.py:82-83 | with the exact square root, a magnitude is zero exactly when every element is zero |
| `EmbeddingService.CosineWithZeroVector` | embedding_service.py:86-87 | if either vector is all zeros the result is exactly 0.0, for any square root with `sqrt(0.0) == 0.0` (which `math.sqrt` meets exactly) |
| `EmbeddingService.CosineWithItself` | embedding_service.py:79-89 | a non-zero vector has similarity exactly 1 with itself |
| `EmbeddingService.CauchySchwarz` | embedding_service.py:79-83 | `dot(a, b)^2 <= sumsq(a) * sumsq(b)`, also for vectors of different lengths |
| `EmbeddingService.CosineInRange` | embedding_service.py:73-89 | with the exact square root the result lies between -1 and 1, as the doc comment promises |
| `Text.IsBlank` | main.py:172 | definition of `s.strip() == ""`: every character is one that `str.isspace()` accepts (also used at main.py:102 and main.py:223) |
| `Text.Preview` | main.py:128 | a text of at most 200 characters is unchanged; a longer one becomes its first 200 characters plus `"..."` (203 in all) |
| `Text.PreviewOpt` | main.py:273 | a missing description stays missing; one of at most 200 characters is unchanged; a longer one becomes its first 200 characters plus `"..."` |
| `Ranking.TopK` | main.py:289 | `s[:k]` is a prefix of `s`; with `None` it is all of `s`; with `k >= 0` it has `min(k, len(s))` items; with `k < 0` it has `max(0, len(s) + k)` items |
| `Ranking.SortByScore` | main.py:288 | definition of the stable descending sort by score; its properties are `SortPermutation`, `SortSorted`, `SortStable` and `StableSortUnique` |
| `Ranking.Rank` | main.py:288-289 | definition of the ranked results: the stable sort followed by `[:top_k]`; its properties are `RankProperties`, `RankSelectsTop` and `RankKeepsTieOrder` |
| `Ranking.SortPermutation` | main.py:288 | sorting keeps exactly the same items |
| `Ranking.SortSorted` | main.py:288 | the sorted list is in non-increasing score order |
| `Ranking.SortStable` | main.py:288 | items with equal score keep their original relative order |
| `Ranking.StableSortUnique` | main.py:288 | any sorted list that keeps each score's items in original order equals `SortByScore`, so the stable sort's result is fully determined |
| `Ranking.SortedUnique` | main.py:288 | two sorted lists with the same items for every score are equal |
| `Ranking.RankProperties` | main.py:288-289 | the results are a prefix of the stable sort, so sorted; for `top_k >= 0` there are exactly `min(top_k, len)` of them, none for `top_k = 0` |
| `Ranking.RankSelectsTop` | main.py:288-289 | the results are drawn from the candidates; every candidate left out scores no higher than every one kept; when `top_k` does not cut the results are all the candidates |
| `Ranking.RankKeepsTieOrder` | main.py:288-289 | within one score, the results are the first candidates of that score in fetch order |
| `Similarity.Supplied` | main.py:223 | definition of the precedence test: an `embedding` is present and `strip()` leaves something |
| `Similarity.ResolveQuery` | main.py:223-234 | a supplied embedding that parses is the query, and otherwise the provider's vector for `news_desc` is; the result is a 400 exactly when a non-blank embedding is supplied and does not parse, and a 500 exactly when none is supplied and the provider fails |
| `Similarity.ScoreRecord` | main.py:257-263 | definition of one record's score: none when the stored embedding is missing or empty, does not parse, or makes the arithmetic raise; otherwise `cosine_similarity(query, stored)` |
| `Similarity.MeetsThreshold` | main.py:269 | definition of `score >= threshold`, false for a `null` threshold, whose comparison raises and is caught |
| `Similarity.ItemOf` | main.py:270-276 | definition of the `result_item` of a kept record: id, header, previewed description, score rounded to 4 places, date |
| `Similarity.Kept` | main.py:257-282 | definition of one loop iteration: the record's item when it has a score meeting the threshold, otherwise nothing |
| `Similarity.Passes` | main.py:257-269 | definition of a record that is kept: it has a score and the score meets the threshold |
| `Similarity.Compare` | main.py:219-302 | definition of the endpoint as a function: query resolution, the early empty answer, the loop, the sort and the slice, and the two totals; its properties are `CompareTotals`, `CompareResponse`, `CompareSelectsTop` and the lemmas after them |
| `Similarity.Score` | main.py:260-263 | a score exists exactly when both parsed values are numeric vectors, and it is `cosine_similarity` of the two vectors |
| `Similarity.ScoreRecordInRange` | main.py:257-263 | with the exact square root, every record's score lies between -1 and 1 |
| `Similarity.Similarities` | main.py:255-285 | the loop keeps at most one item per record |
| `Similarity.CompareEmbeddings` | main.py:218-302 | the loop, sort and slice compute `Compare`; the call fails exactly when query resolution fails; `total_compared` is the number of fetched records |
| `Similarity.SimilaritiesFromPassing` | main.py:269-282 | every kept item was built from a fetched record whose score is at least the threshold |
| `Similarity.SimilaritiesComplete` | main.py:255-282 | every fetched record that passes contributes its item to the kept list |
| `Similarity.SimilaritiesCount` | main.py:255-294 | the kept list has exactly one item per passing record, counted over the fetched positions independently of the loop |
| `Similarity.SimilaritiesAppend` | main.py:256-285 | records are scored independently: the kept items of `a + b` are those of `a` followed by those of `b` |
| `Similarity.SkippedRecordIgnored` | main.py:257-285 | a record whose embedding is empty, unparseable or non-numeric changes nothing in the result |
| `Similarity.NullThresholdKeepsNothing` | main.py:269-285 | with a `null` threshold no record is kept |
| `Similarity.NonNumericQueryKeepsNothing` | main.py:226-285 | a query that parses to something other than a numeric array keeps no record |
| `Similarity.CompareTotals` | main.py:255-294 | a successful comparison reports `total_compared` as the number of fetched records and `total_above_threshold` as the number of passing records, and every passing record is among the candidates |
| `Similarity.CompareResponse` | main.py:287-289 | the results of a successful comparison are a prefix of the stable sort of the candidates: sorted, exactly `min(top_k, total_above_threshold)` of them for `top_k >= 0`, none for `top_k = 0`, ties in fetch order |
| `Similarity.CompareSelectsTop` | main.py:269-289 | each result comes from a record meeting the threshold, no candidate left out scores above a result, and when `top_k` does not cut every candidate is returned |
| `Similarity.EmptyCorpusResponse` | main.py:243-252 | with no stored embeddings the answer is success with no results and zero compared, unless query resolution already failed |
| `Similarity.SuppliedEmbeddingWins` | main.py:223-234 | with a non-blank supplied embedding the provider's behaviour cannot change the response |
| `Similarity.InvalidSuppliedEmbedding` | main.py:225-228 | an unparseable supplied embedding gives 400 "Invalid embedding format. Must be JSON array." whatever is stored |
| `Similarity.DefaultRequest` | request_class.py:16-19 | definition of a request with the defaults: no embedding, threshold 0.9, `top_k` 1 |
| `Similarity.DefaultRequestResponse` | request_class.py:18-19 | with the default threshold 0.9 and `top_k` 1, at most one result is returned, and it scored at least 0.9 |
| `Similarity.RaisingThresholdKeepsSubset` | main.py:269 | the records passing a higher threshold are a sub-collection of those passing a lower one |
| `Similarity.RaisingThresholdCanAdd` | main.py:269-289 | with `top_k = 1`, two records whose rounded scores tie and whose raw scores straddle the higher threshold make the result switch to a record it did not hold before |
| `Batch.Attempt` | main.py:172-198 | a missing or blank description fails with "Empty news_desc"; a record succeeds exactly when its description is not blank and the provider returns a vector, and then stores the serialised vector; a provider failure fails with the provider's message |
| `Batch.Failures` | main.py:187-198 | there are never more failure entries than records |
| `Batch.SuccessCount` | main.py:166-186 | there are never more successes than records |
| `Batch.EmbeddingAfter` | main.py:185 | definition of a record's stored embedding after the loop: the serialised vector if the loop has seen it and it succeeded, otherwise what it held before |
| `Batch.EmbedAllPending` | main.py:155-212 | nothing pending gives the early answer; otherwise `processed`, `success`, `failed` and the first ten failures are reported, and exactly the successful records get the serialised vector |
| `Batch.CountsAddUp` | main.py:166-209 | `success + failed == processed` |
| `Batch.BatchCompose` | main.py:170-198 | a failure never stops the loop: the counts and failures of `p1 + p2` are those of `p1` followed by those of `p2` |
| `Batch.Shown` | main.py:210 | the listed failures are a prefix of all failures: all of them when there are at most ten, otherwise exactly ten |
| `Batch.ShownFailuresArePrefixOfBatch` | main.py:170-210 | the listed failures are exactly the failures of some leading part of the batch, so no failed record is passed over to list a later one |
| `Batch.BlankDescriptionFails` | main.py:172-192 | a record with a blank description appears among the failures with reason "Empty news_desc", whatever the provider does |
| `Batch.CreateEmbeddingById` | main.py:76-141 | unknown id gives 404; missing or empty description gives 400 before any write; blank description gives the re-wrapped 400; provider failure gives 500 with no write; success writes the serialised vector and returns the preview, dimension, header and model name |

## Left out

- Floating point. Vectors and scores are exact reals. `math.sqrt`, `round(x, 4)` and the
  division are not rounded. The square root and `round` are parameters, and the range result
  assumes the exact square root. `NaN` and the infinities, which `json.loads` accepts, are not
  modelled.
- JSON. `json.loads` and `json.dumps` are parameters. `Records.JsonValue` says only whether a
  parsed value behaves as a list of numbers under `zip` and `sum` (`Numbers`) or makes the
  arithmetic raise (`NotNumbers`). Which texts land in which case is the parser's business.
  An empty JSON string or object therefore counts as `Numbers([])`, matching how Python
  iterates it.
- The embedding provider (`generate_embedding`, `generate_embeddings_batch`, `genai.configure`).
  It is a function that returns a vector or an error message. The `task_type` argument is not
  modelled.
- Storage:
  - The queries that choose which records are fetched are not modelled. The fetched records
    are an input.
  - `commit`, `refresh` and `rollback` are not modelled, nor the 500 answers for storage
    failures (main.py:214-216, and the catch-all of the by-id endpoint for anything other
    than the provider).
- Exceptions that are not modelled. The model treats every `json.loads` failure as a
  `JSONDecodeError` and every failure of the arithmetic as a `TypeError` or `ValueError`. In
  the code some inputs raise otherwise, and then the catch-all 500 of `compare_embeddings`
  (main.py:306-307) answers:
  - a deeply nested JSON text makes `json.loads` raise `RecursionError`, which the per-record
    handler (main.py:283) does not catch;
  - a supplied embedding with an integer literal too long to convert makes `json.loads` raise
    a plain `ValueError`, which the 400 handler (main.py:227) does not catch (for a stored
    embedding the per-record handler catches it and the record is skipped, as modelled);
  - an integer too large for a float makes `math.sqrt` raise `OverflowError`.
- `Similarity.CompareEmbeddings`: the response fields that only echo the request are not
  modelled. These are `query`, `top_k`, `threshold`, `method` and the status and message
  strings.
- `Similarity.CompareEmbeddings`: the `debug_warning` field (main.py:266, main.py:279-280) is
  not modelled. It is a diagnostic for near-1.0 scores on identical text.
- The sort algorithm. Python's `list.sort` is library code. The model uses its specification,
  the stable descending sort `Ranking.SortByScore`, and `Ranking.StableSortUnique` shows every
  stable sort gives that result. The in-place update of the list is a reassignment of a
  sequence.
- Bytes descriptions. Descriptions are strings, so the decoding steps of both writing
  endpoints are not modelled: in `Batch.CreateEmbeddingById` the decoding (main.py:90-99)
  reduces to the blank check, and in `Batch.EmbedAllPending` the decoding (main.py:174-176)
  reduces to `str(news_desc)`.
- Request validation by pydantic (wrong types in the request body).
- The other endpoints are not modelled. These are `create_news_embedding` (main.py:54-74),
  the root, health, config and database-test endpoints, and startup.
- config.py and database.py are not part of this model.
