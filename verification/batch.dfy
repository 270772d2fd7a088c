/**
 * The two endpoints that write embeddings back to stored records:
 * `create_embeddings_for_all_news` (every pending record, counting successes
 * and failures) and `create_news_embedding_by_id` (one record).
 */
module Batch {
  import opened Wrappers
  import opened Records
  import Text

  /** One entry of `failed_items`. */
  datatype FailedItem = FailedItem(newsId: string, reason: string)

  /** The `data` of the batch response. */
  datatype BatchData =
    | NothingPending
    | Processed(processed: nat, success: nat, failed: nat, failedItems: seq<FailedItem>)

  /** At most this many failures are listed in the response. */
  const FailedItemsShown := 10

  const EmptyDescReason := "Empty news_desc"

  /**
   * What the loop does with one record: the JSON text to store, or the reason
   * it failed. A missing or blank description fails without calling the
   * provider; a provider failure carries its message.
   */
  function Attempt(n: News, env: Env): (r: Result<string, string>)
    ensures n.desc.None? || Text.IsBlank(n.desc.value) ==> r == Failure(EmptyDescReason)
    ensures r.Success? <==> n.desc.Some? && !Text.IsBlank(n.desc.value) && env.embed(n.desc.value).Success?
    ensures n.desc.Some? && !Text.IsBlank(n.desc.value) && env.embed(n.desc.value).Failure? ==>
      r == Failure(env.embed(n.desc.value).error)
    ensures r.Success? ==> r.value == env.dumps(env.embed(n.desc.value).value)
  {
    if n.desc.Some? && !Text.IsBlank(n.desc.value) then
      match env.embed(n.desc.value)
      case Success(v) => Success(env.dumps(v))
      case Failure(msg) => Failure(msg)
    else
      Failure(EmptyDescReason)
  }

  /** The failures of `pending`, in loop order. */
  function Failures(pending: seq<News>, env: Env): (r: seq<FailedItem>)
    ensures |r| <= |pending|
  {
    if pending == [] then []
    else
      var n := pending[|pending| - 1];
      Failures(pending[..|pending| - 1], env)
        + (if Attempt(n, env).Failure? then [FailedItem(n.newsId, Attempt(n, env).error)] else [])
  }

  /** The number of records of `pending` that got an embedding. */
  function SuccessCount(pending: seq<News>, env: Env): (r: nat)
    ensures r <= |pending|
  {
    if pending == [] then 0
    else SuccessCount(pending[..|pending| - 1], env) + (if Attempt(pending[|pending| - 1], env).Success? then 1 else 0)
  }

  /** The embedding a record holds after the loop has seen `done`. */
  function EmbeddingAfter(n: News, done: seq<News>, before: Option<string>, env: Env): Option<string>
  {
    if n in done && Attempt(n, env).Success? then Some(Attempt(n, env).value) else before
  }

  /** `failed_items[:10]`: the failures listed in the response. */
  function Shown(failures: seq<FailedItem>): (r: seq<FailedItem>)
    ensures r <= failures
    ensures |r| == if |failures| <= FailedItemsShown then |failures| else FailedItemsShown
  {
    if |failures| <= FailedItemsShown then failures else failures[..FailedItemsShown]
  }

  /**
   * `create_embeddings_for_all_news` over the records it fetched: each one
   * gets an embedding or a failure entry, and the loop goes on either way.
   */
  method EmbedAllPending(pending: seq<News>, env: Env) returns (r: BatchData)
    modifies pending
    ensures pending == [] ==> r == NothingPending
    ensures pending != [] ==>
      var failures := Failures(pending, env);
      r == Processed(|pending|, SuccessCount(pending, env), |failures|, Shown(failures))
    ensures forall n :: n in pending ==> n.embedding == EmbeddingAfter(n, pending, old(n.embedding), env)
  {
    if pending == [] {
      return NothingPending;
    }
    var successCount := 0;
    var failedCount := 0;
    var failedItems: seq<FailedItem> := [];
    var i := 0;
    while i < |pending|
      invariant 0 <= i <= |pending|
      invariant successCount == SuccessCount(pending[..i], env)
      invariant failedItems == Failures(pending[..i], env)
      invariant failedCount == |failedItems|
      invariant forall n :: n in pending ==> n.embedding == EmbeddingAfter(n, pending[..i], old(n.embedding), env)
    {
      var news := pending[i];
      var outcome := Attempt(news, env);
      if outcome.Success? {
        news.embedding := Some(outcome.value);
        successCount := successCount + 1;
      } else {
        failedCount := failedCount + 1;
        failedItems := failedItems + [FailedItem(news.newsId, outcome.error)];
      }
      assert pending[..i + 1][..i] == pending[..i];
      assert pending[..i + 1] == pending[..i] + [news];
      i := i + 1;
    }
    assert pending[..i] == pending;
    return Processed(|pending|, successCount, failedCount, Shown(failedItems));
  }

  /** Every record counts exactly once, as a success or as a failure. */
  lemma {:induction false} CountsAddUp(pending: seq<News>, env: Env)
    ensures SuccessCount(pending, env) + |Failures(pending, env)| == |pending|
  {
    if pending != [] {
      CountsAddUp(pending[..|pending| - 1], env);
    }
  }

  /**
   * A failure does not stop the loop: processing `p1 + p2` counts and lists
   * exactly what processing `p1` and then `p2` would.
   */
  lemma {:induction false} BatchCompose(p1: seq<News>, p2: seq<News>, env: Env)
    ensures SuccessCount(p1 + p2, env) == SuccessCount(p1, env) + SuccessCount(p2, env)
    ensures Failures(p1 + p2, env) == Failures(p1, env) + Failures(p2, env)
  {
    if p2 == [] {
      assert p1 + p2 == p1;
    } else {
      var n := |p2| - 1;
      BatchCompose(p1, p2[..n], env);
      assert (p1 + p2)[..|p1 + p2| - 1] == p1 + p2[..n];
      assert (p1 + p2)[|p1 + p2| - 1] == p2[n];
    }
  }

  /**
   * The listed failures are all the failures of some leading part of the
   * batch: the listing never skips a failed record to show a later one.
   */
  lemma {:induction false} ShownFailuresArePrefixOfBatch(pending: seq<News>, env: Env)
    ensures exists j :: 0 <= j <= |pending| && Shown(Failures(pending, env)) == Failures(pending[..j], env)
  {
    var failures := Failures(pending, env);
    if |failures| <= FailedItemsShown {
      assert pending[..|pending|] == pending;
    } else {
      var n := |pending| - 1;
      var before := Failures(pending[..n], env);
      ShownFailuresArePrefixOfBatch(pending[..n], env);
      var j :| 0 <= j <= n && Shown(before) == Failures(pending[..n][..j], env);
      assert pending[..n][..j] == pending[..j];
      if |before| >= FailedItemsShown {
        assert Shown(failures) == Shown(before);
      } else {
        assert false;
      }
    }
  }

  /** A record with a blank description is listed as failed whatever the provider would do. */
  lemma {:induction false} BlankDescriptionFails(pending: seq<News>, env: Env, i: nat)
    requires i < |pending|
    requires pending[i].desc.None? || Text.IsBlank(pending[i].desc.value)
    ensures FailedItem(pending[i].newsId, EmptyDescReason) in Failures(pending, env)
  {
    var n := |pending| - 1;
    if i < n {
      BlankDescriptionFails(pending[..n], env, i);
    }
  }

  // The single-record endpoint.

  /** The `data` of a successful `create_news_embedding_by_id`. */
  datatype ByIdData = ByIdData(
    newsId: string,
    header: string,
    desc: string,
    embeddingDimension: nat,
    dateTime: Option<string>,
    model: string)

  const Model := "text-embedding-004"

  /**
   * `create_news_embedding_by_id`: `found` is the record with the requested
   * id, or null when the lookup found none.
   */
  method CreateEmbeddingById(found: News?, requestedId: string, env: Env)
    returns (r: Result<ByIdData, HttpError>)
    modifies found
    ensures found == null ==> r == Failure(HttpError(404, "News item with ID '" + requestedId + "' not found"))
    ensures found != null && (found.desc.None? || found.desc.value == "") ==>
      r == Failure(HttpError(400, "News description is empty, cannot generate embedding"))
    ensures found != null && found.desc.Some? && found.desc.value != "" && Text.IsBlank(found.desc.value) ==>
      r == Failure(HttpError(400, "Error decoding news description: 400: News description is empty after decoding"))
    ensures found != null && found.desc.Some? && !Text.IsBlank(found.desc.value) ==>
      match env.embed(found.desc.value)
      case Failure(msg) => r == Failure(HttpError(500, "Error creating news embedding: " + msg))
      case Success(v) =>
        && r.Success?
        && r.value.newsId == found.newsId
        && r.value.header == (if found.header.Some? then found.header.value else "")
        && r.value.desc == Text.Preview(found.desc.value)
        && r.value.embeddingDimension == |v|
        && r.value.dateTime == found.dateTime
        && r.value.model == Model
    ensures found != null && r.Success? ==>
      found.desc.Some? && env.embed(found.desc.value).Success?
      && found.embedding == Some(env.dumps(env.embed(found.desc.value).value))
    ensures found != null && r.Failure? ==> found.embedding == old(found.embedding)
  {
    if found == null {
      return Failure(HttpError(404, "News item with ID '" + requestedId + "' not found"));
    }
    if found.desc.None? || found.desc.value == "" {
      return Failure(HttpError(400, "News description is empty, cannot generate embedding"));
    }
    var text := found.desc.value;
    if Text.IsBlank(text) {
      return Failure(HttpError(400, "Error decoding news description: 400: News description is empty after decoding"));
    }
    var generated := env.embed(text);
    if generated.Failure? {
      return Failure(HttpError(500, "Error creating news embedding: " + generated.error));
    }
    var embedding := generated.value;
    found.embedding := Some(env.dumps(embedding));
    var header := if found.header.Some? then found.header.value else "";
    return Success(ByIdData(found.newsId, header, Text.Preview(text), |embedding|, found.dateTime, Model));
  }
}
