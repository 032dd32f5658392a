/** The HTTP layer under the controller client, reduced to values: the requests the
    client sends, the replies it can get, and a session that keeps the requests it
    has sent. The controller itself is a parameter. */
module Transport {

  datatype Option<+T> = None | Some(value: T)
  {
    function GetOr(default: T): T
    {
      match this
      case Some(v) => v
      case None => default
    }
  }

  /** A decoded JSON value (numbers limited to integers). */
  datatype Json =
    | Null
    | Bool(b: bool)
    | Number(n: int)
    | Str(s: string)
    | Array(items: seq<Json>)
    | Object(members: seq<(string, Json)>)

  /** A reply body: not decodable as JSON, or a JSON object of which the client reads
      only `meta.rc` (`None` when `meta` or `rc` is absent or `rc` is not a string)
      and the `data` member. */
  datatype Body = NonJson | JsonObject(rc: Option<string>, data: Option<Json>)

  /** A reply: status code, `Location` header if any, and body. */
  datatype Response = Response(status: int, location: Option<string>, body: Body)

  /** What a request yields: a reply, or a transport failure (name resolution, refused
      connection, timeout) that the HTTP library raises. */
  datatype Outcome = Received(response: Response) | TransportError

  datatype Payload =
    | Credentials(username: string, password: string, remember: bool)
    | Command(cmd: string, mac: string, minutes: int)

  datatype Request = Post(url: string, payload: Payload) | Get(url: string)

  /** The controller as the client sees it: its answer to a request may depend on every
      request sent earlier on the same session, which is how session cookies act. */
  type Server = (seq<Request>, Request) -> Outcome

  /** `requests.Session`: one cookie scope, here the log of what it has sent. */
  class Session
  {
    const server: Server
    var sent: seq<Request>

    constructor (server: Server)
      ensures this.server == server && sent == []
    {
      this.server := server;
      sent := [];
    }

    /** Send one request and return the controller's answer to it in this session. */
    method Send(req: Request) returns (o: Outcome)
      modifies this
      ensures sent == old(sent) + [req]
      ensures o == server(old(sent), req)
    {
      o := server(sent, req);
      sent := sent + [req];
    }
  }
}
