/** Shapes of the data the backend hands to the pages. */
module Backend {

  /** One shortened link as listed by `GET /api/me/urls`. */
  datatype Link = Link(short: string, url: string, createdAt: string)

  /**
   * How an awaited `fetch(...)` followed by `response.json()` ends: with a parsed
   * body, with a response whose `ok` flag is false, or with a rejected promise
   * (network failure, unparsable body) carrying its error message.
   */
  datatype Response<T> = Received(body: T) | NotOk | Rejected(message: string)
}
