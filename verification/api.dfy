/**
 * The data exchanged with the contest platform's REST API: contests,
 * leaderboard entries, the JSON envelope around every response, and the
 * offset/limit page request.
 */
module Api {
  import opened Wrappers

  /** HTTP status code of a successful response. */
  const HttpOk: int := 200

  /** Page size used for every request, both for contests and leaderboards. */
  const PageLimit: nat := 100

  /** A contest as listed by the administration endpoint. */
  datatype Contest = Contest(slug: string, name: string)

  /** The numeric score of an entry; it is only ever copied, never computed with. */
  type Score = real

  /**
   * One leaderboard row. `timeTaken` is absent when the API leaves the
   * `time_taken` key out.
   */
  datatype Entry = Entry(rank: int, hacker: string, score: Score, timeTaken: Option<nat>)

  /** The query parameters of one paginated request. */
  datatype PageRequest = PageRequest(offset: nat, limit: nat)

  /**
   * An HTTP response with its decoded JSON body. `status` is the truthiness
   * of the body's `status` key (None when the key is absent) and `models`
   * is the body's `models` list (None when the key is absent).
   */
  datatype Envelope<T> = Envelope(code: int, status: Option<bool>, models: Option<seq<T>>) {

    /** The body's `models` list, the empty list when the key is absent. */
    function Models(): seq<T> {
      models.GetOr([])
    }

    /** The body's `status` flag read as a truth value, false when absent. */
    predicate StatusFlag() {
      status.GetOr(false)
    }
  }

  /** The `time_taken` of an entry, 0 when absent. */
  function TimeOrZero(e: Entry): nat {
    e.timeTaken.GetOr(0)
  }
}
