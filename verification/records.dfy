/**
 * The stored news record and the collaborators the endpoints call out to.
 *
 * The JSON codec, the embedding provider, `math.sqrt` and `round(x, 4)` are
 * not modelled; they are parameters bundled in `Env`.
 */
module Records {
  import opened Wrappers

  /**
   * A row of the `news` table as the endpoints see it. Only `embedding` is
   * written by the code modelled here; `dateTime` is already `str(date_time)`,
   * or `None` when the column is empty.
   */
  class News {
    const newsId: string
    const header: Option<string>
    const desc: Option<string>
    const dateTime: Option<string>
    var embedding: Option<string>

    constructor (newsId: string, header: Option<string>, desc: Option<string>,
                 dateTime: Option<string>, embedding: Option<string>)
      ensures this.newsId == newsId && this.header == header && this.desc == desc
      ensures this.dateTime == dateTime && this.embedding == embedding
    {
      this.newsId := newsId;
      this.header := header;
      this.desc := desc;
      this.dateTime := dateTime;
      this.embedding := embedding;
    }
  }

  /**
   * What `json.loads` produced, seen through `cosine_similarity`: either a
   * value that `zip` and `sum` treat as the given numbers, or one on which the
   * arithmetic raises `TypeError` or `ValueError` (a number, `null`, a list of
   * strings, ...).
   */
  datatype JsonValue = Numbers(elems: seq<real>) | NotNumbers

  /** An `HTTPException`: status code and detail text. */
  datatype HttpError = HttpError(status: int, detail: string)

  /**
   * The collaborators:
   * `parse` is `json.loads` (None when it raises `JSONDecodeError`),
   * `embed` is `generate_embedding` (Failure carries `str(e)`),
   * `dumps` is `json.dumps`, `sqrt` is `math.sqrt`, `round` is `round(x, 4)`.
   */
  datatype Env = Env(
    parse: string -> Option<JsonValue>,
    embed: string -> Result<seq<real>, string>,
    dumps: seq<real> -> string,
    sqrt: real -> real,
    round: real -> real)
}
