/**
 * The HTTP side as the extension sees it through axios: a client (base URL, timeout,
 * bearer header), the requests it sends, and the envelope `{success, data, error}` the
 * remote API answers with. The remote itself and the secret store are parameters (Host).
 */
module Remote {
  import opened Wrappers
  import opened Types

  /** An axios instance as `axios.create` configures it. */
  datatype Client = Client(baseURL: string, timeoutMs: nat, authorization: Option<string>)

  datatype Verb = Get | Put

  /** The JSON body a write sends. */
  datatype WriteBody = WriteBody(name: string, content: string)

  datatype Request = Request(
    client: Client,
    verb: Verb,
    path: string,
    params: seq<(string, string)>,
    body: Option<WriteBody>,
    maxRedirects: Option<nat>)

  /** The `data` member of an envelope: absent, one element, or a list of them. */
  datatype Payload = NoPayload | One(element: ModElement) | Many(elements: seq<ModElement>)

  datatype Envelope = Envelope(success: bool, data: Payload, error: Option<string>)

  /** An HTTP response (with its Location header), or a request that got no response. */
  datatype Reply = Response(status: int, location: Option<string>, body: Envelope) | NetworkError

  /** axios resolves a request only on a 2xx status; anything else it rejects. */
  predicate Resolves(r: Reply)
  {
    r.Response? && 200 <= r.status < 300
  }

  /** What the extension cannot see: the secret store and the remote server. */
  datatype Host = Host(secrets: map<string, string>, server: Request -> Reply)
}
