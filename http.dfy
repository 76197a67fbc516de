/**
 * The Fetch API objects the worker sees, reduced to the fields it reads,
 * and the network as an oracle that records every request sent to it.
 */
module Http {
  import opened Wrappers

  newtype byte = b: int | 0 <= b < 256

  /**
   * An intercepted request: its method (standard methods already upper-cased
   * by the browser), URL, mode, cache directive and the value of
   * `headers.get('range')` (None when the header is absent).
   */
  datatype Request = Request(
    httpMethod: string,
    url: string,
    mode: string,
    cache: string,
    range: Option<string>)

  datatype Response = Response(
    status: int,
    statusText: string,
    headers: seq<(string, string)>,
    body: seq<byte>)

  /** The `TypeError` a failed `fetch` rejects with. */
  datatype NetError = NetError(reason: string)

  /** How `fetch(request)` settles: a response of any HTTP status, or a network error. */
  datatype FetchResult = Ok(response: Response) | Err(error: NetError)

  /** The network: a fixed answer per request, and the log of requests sent so far. */
  class Network {
    const answer: Request -> FetchResult
    var sent: seq<Request>

    constructor (answer: Request -> FetchResult)
      ensures this.answer == answer && sent == []
    {
      this.answer := answer;
      sent := [];
    }

    /** `fetch(req)`: one more request on the wire, settled by the oracle. */
    method Fetch(req: Request) returns (r: FetchResult)
      modifies this
      ensures sent == old(sent) + [req]
      ensures r == answer(req)
    {
      sent := sent + [req];
      r := answer(req);
    }
  }
}
