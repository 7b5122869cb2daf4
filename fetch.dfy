/** What one update cycle asks of the mining server and what it gets back.
    Shared by both copies of the coordinator. The HTTP session, the
    10-second `async_timeout` window and `await` scheduling are not part of
    the model: each endpoint's reply is an input. */
module Fetch {
  import opened Json
  import opened Snapshot
  import opened Text

  /** The outcome of one GET inside the cycle's shared 10-second window. */
  datatype Reply<T> =
    | Ok(body: T)          // status 200, body decoded as JSON
    | NotOk(status: int)   // any other status: logged, the section stays empty
    | Timeout              // the window ran out while this request was pending
    | ClientError          // aiohttp.ClientError, or ValueError from resp.json()
  {
    /** Replies that end the whole cycle. */
    predicate Aborts()
    {
      Timeout? || ClientError?
    }
  }

  /** One reply per configured address (same order), then network, then info. */
  datatype Replies = Replies(clients: seq<Reply<Client>>, network: Reply<map<string, Json>>, info: Reply<Info>)

  datatype Endpoint = ClientEndpoint(address: string) | NetworkEndpoint | InfoEndpoint

  /** Why a cycle produced no snapshot. `TimeoutError` and `FetchError` are
      the two `UpdateFailed` messages; `WorkerNameError` is the `KeyError`
      (or `TypeError`) a worker without a usable "name" raises, which the
      cycle does not catch. */
  datatype UpdateError = TimeoutError | FetchError | WorkerNameError

  datatype Outcome = Updated(snapshot: Snapshot) | Failed(error: UpdateError)

  /** The error an aborting reply turns into. */
  function AbortError<T>(r: Reply<T>): UpdateError
    requires r.Aborts()
  {
    if r.Timeout? then TimeoutError else FetchError
  }

  /** The client endpoints, one per configured address, in configured order. */
  function ClientEndpoints(addresses: seq<string>): (eps: seq<Endpoint>)
    ensures |eps| == |addresses|
    ensures forall i :: 0 <= i < |addresses| ==> eps[i] == ClientEndpoint(addresses[i])
  {
    seq(|addresses|, i requires 0 <= i < |addresses| => ClientEndpoint(addresses[i]))
  }

  /** The order a complete cycle requests endpoints in. */
  function FetchOrder(addresses: seq<string>): seq<Endpoint>
  {
    ClientEndpoints(addresses) + [NetworkEndpoint, InfoEndpoint]
  }

  /** `f"http://{host}:{port}/api"`. */
  function BaseUrl(host: string, port: int): string
  {
    "http://" + host + ":" + IntToString(port) + "/api"
  }

  /** The URL the coordinator requests for an endpoint. */
  function Url(host: string, port: int, ep: Endpoint): string
  {
    BaseUrl(host, port) + match ep
      case ClientEndpoint(a) => "/client/" + a
      case NetworkEndpoint => "/network"
      case InfoEndpoint => "/info"
  }

  /** Distinct addresses are fetched from distinct URLs. */
  lemma ClientUrlsDistinct(host: string, port: int, a: string, b: string)
    requires a != b
    ensures Url(host, port, ClientEndpoint(a)) != Url(host, port, ClientEndpoint(b))
  {
    if Url(host, port, ClientEndpoint(a)) == Url(host, port, ClientEndpoint(b)) {
      var p := BaseUrl(host, port) + "/client/";
      assert Url(host, port, ClientEndpoint(a)) == p + a;
      assert Url(host, port, ClientEndpoint(b)) == p + b;
      CancelPrefix(p, a, b);
    }
  }
}
