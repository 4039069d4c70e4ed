/**
 * The dictionaries the matcher reads and writes, as records. Every key the
 * core looks up is an `Option` field: `None` stands for a missing key and for
 * a JSON null alike, since `dict.get` returns `None` for both. Keys the core
 * never reads are not represented; `dict.update` leaves them alone anyway.
 */
module Records {
  import opened Wrappers

  /** A JSON scalar the attribute comparison can see: a string or an integer. */
  datatype Value = Text(text: string) | Number(number: int)

  /**
   * A candidate or a search result. `pipelineType` is `entry["pipeline"]["type"]`
   * (absent when either key is missing); the last three fields are the keys
   * `calculate_match_score` adds.
   */
  datatype Record = Record(
    firstName: Option<string>,
    lastName: Option<string>,
    birthdate: Option<Value>,
    nationality: Option<Value>,
    age: Option<Value>,
    pipelineType: Option<Value>,
    matchScore: Option<int>,
    confidence: Option<string>,
    classification: Option<string>)

  /** How a call to the completion service can fail. */
  datatype FailureKind = Transport | Authentication | RateLimit | MalformedResponse

  /** The exceptions the core raises or lets through. */
  datatype Error =
    | KeyError(key: string)        // a `d[key]` lookup of a missing key
    | MissingApiKey                // the `ValueError` of the helper's constructor
    | ApiFailure(kind: FailureKind) // anything the completion call raises
}
