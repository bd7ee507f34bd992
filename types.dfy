/**
 * The records that flow through the search core (src/types.ts) and the
 * abstract shapes of what the core calls but does not contain: an engine
 * adapter and the WHATWG URL parser.
 */
module Types {
  import opened Wrappers

  /** One search hit, already uniform across engines. */
  datatype SearchResult = SearchResult(
    title: string,
    url: string,
    description: string,
    source: string,
    engine: string,
    publishDate: Option<string>)

  /** How one engine call settles: with its results, or rejected. */
  datatype Outcome = Resolved(results: seq<SearchResult>) | Rejected

  /**
   * An engine adapter such as `searchBaidu` or `searchBing`: it is given
   * the query and a result count and settles to an outcome.
   */
  type Engine = (string, nat) -> Outcome

  /** The two components of a parsed URL that the core reads. */
  datatype Url = Url(hostname: string, pathname: string)

  /** `new URL(text)`: `None` where the constructor throws. */
  type UrlParser = string -> Option<Url>

  /** The failures that reach a caller. */
  datatype SearchError = EmptyQuery | EngineFailure

  /** `call.catch(() => [])`: a rejected call contributes nothing. */
  function Settle(o: Outcome): seq<SearchResult> {
    match o
    case Resolved(rs) => rs
    case Rejected => []
  }
}
