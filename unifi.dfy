/** The UniFi controller client: the decision tables that read a reply, one
    specification function per operation giving its result and the requests it sends,
    the `UnifiController` class that runs the operations on its session, and the
    properties of the specification. */
module Unifi {
  import opened Transport
  import Text
  import MacAddress

  /** The four settings read from the environment at construction; any may be unset. */
  datatype Config = Config(
    baseUrl: Option<string>,
    username: Option<string>,
    password: Option<string>,
    site: Option<string>)

  /** Python falsiness of an optional string: unset and empty alike. */
  predicate Missing(v: Option<string>)
  {
    v.None? || v.value == ""
  }

  /** How an f-string renders an optional string: an unset value prints as `None`. */
  function Render(v: Option<string>): string
  {
    match v
    case None => "None"
    case Some(s) => s
  }

  /** The result of an operation together with the requests it sent, in order. */
  datatype Exchange<T> = Exchange(result: T, sent: seq<Request>)

  const LoginEndpoints: seq<string> := ["/api/auth/login", "/api/login"]

  const RedirectStatuses: set<int> := {302, 303, 307}

  const AuthorizeCommand: string := "authorize-guest"

  /** The JSON envelope reports `meta.rc == "ok"`. */
  predicate RcOk(body: Body)
  {
    body.JsonObject? && body.rc == Some("ok")
  }

  // ---------------------------------------------------------------------------
  // Decision tables: how each operation reads one reply.

  /** One login attempt succeeds on a 200 whose body is not JSON or reports rc "ok",
      and on a 302, 303 or 307 whose `Location` (an absent one reads as "") does not
      contain "login" in any case. Anything else, a transport failure included, is a
      failed attempt. */
  predicate LoginAttemptSucceeds(o: Outcome): (b: bool)
    ensures b ==> Reachable(o)
  {
    match o
    case TransportError => false
    case Received(r) =>
      if r.status == 200 then r.body.NonJson? || RcOk(r.body)
      else if r.status in RedirectStatuses then
        !Text.Contains(Text.Lower(r.location.GetOr("")), "login")
      else false
  }

  /** The branches of `authorize_guest`: only `Authorized` makes it return true; the
      others differ only in what is logged. */
  datatype AuthorizeVerdict =
    | Authorized
    | Rejected              // 200 with a JSON envelope whose rc is not "ok"
    | Denied(status: int)   // 401 or 403
    | HttpError(status: int)
    | Unreachable           // the request raised

  function Verdict(o: Outcome): (v: AuthorizeVerdict)
    ensures v == Authorized ==> LoginAttemptSucceeds(o)
    ensures v.Denied? ==> v.status == 401 || v.status == 403
    ensures v == Unreachable <==> o == TransportError
  {
    match o
    case TransportError => Unreachable
    case Received(r) =>
      if r.status == 200 then
        (if r.body.NonJson? || RcOk(r.body) then Authorized else Rejected)
      else if r.status == 401 || r.status == 403 then Denied(r.status)
      else HttpError(r.status)
  }

  /** `test_connection`: any reply below 500 means the controller is up. */
  predicate Reachable(o: Outcome)
  {
    o.Received? && o.response.status < 500
  }

  /** What `get_clients` and `health` return: a JSON value; `Undecodable` for a 200
      whose body is not JSON, where the source leaves the decoding error to the HTTP
      library; `Unsized` when `get_clients` raises `TypeError` on a value without a
      length. */
  datatype Fetched = Fetched(value: Json) | Undecodable | Unsized

  /** JSON values that Python's `len()` accepts once decoded: strings, lists, dicts. */
  predicate Sized(j: Json)
  {
    j.Str? || j.Array? || j.Object?
  }

  /** The shared shape of `get_clients` and `health`: the `data` member (or `empty` when
      it is absent) of a 200 reporting rc "ok", and `empty` on anything else. */
  function StatusQuery(o: Outcome, empty: Json): (q: Fetched)
    ensures q != Fetched(empty) ==>
              o.Received? && o.response.status == 200 &&
              (o.response.body.NonJson? || RcOk(o.response.body))
    ensures q != Unsized
  {
    match o
    case TransportError => Fetched(empty)
    case Received(r) =>
      if r.status != 200 then Fetched(empty)
      else match r.body
        case NonJson => Undecodable
        case JsonObject(rc, data) =>
          if rc == Some("ok") then Fetched(data.GetOr(empty)) else Fetched(empty)
  }

  /** `get_clients` also takes `len()` of what it returns, which raises `TypeError` on a
      null, boolean or number `data` member; that exception escapes it as `Unsized`. */
  function ClientsResult(o: Outcome): (q: Fetched)
    ensures q.Fetched? ==> Sized(q.value)
  {
    var q := StatusQuery(o, Array([]));
    if q.Fetched? && !Sized(q.value) then Unsized else q
  }

  // ---------------------------------------------------------------------------
  // Requests.

  function LoginRequest(cfg: Config, user: string, pass: string, endpoint: string): Request
  {
    Post(Render(cfg.baseUrl) + endpoint, Credentials(user, pass, true))
  }

  function SiteUrl(cfg: Config, path: string): string
  {
    Render(cfg.baseUrl) + "/api/s/" + Render(cfg.site) + path
  }

  function AuthorizeRequest(cfg: Config, mac: string, minutes: int): Request
  {
    Post(SiteUrl(cfg, "/cmd/stamgr"), Command(AuthorizeCommand, MacAddress.Normalize(mac), minutes))
  }

  function ClientsRequest(cfg: Config): Request { Get(SiteUrl(cfg, "/stat/sta")) }

  function HealthRequest(cfg: Config): Request { Get(SiteUrl(cfg, "/stat/health")) }

  function RootRequest(cfg: Config): Request { Get(Render(cfg.baseUrl) + "/") }

  // ---------------------------------------------------------------------------
  // Specification of each operation, on a session that has already sent `h`.

  /** The login loop over `endpoints`: post the credentials to each in turn and stop at
      the first successful attempt. */
  function LoginRun(cfg: Config, user: string, pass: string, server: Server,
                    h: seq<Request>, endpoints: seq<string>): (e: Exchange<bool>)
    ensures |e.sent| <= |endpoints|
    ensures e.result ==> e.sent != []
    decreases |endpoints|
  {
    if endpoints == [] then Exchange(false, [])
    else
      var req := LoginRequest(cfg, user, pass, endpoints[0]);
      if LoginAttemptSucceeds(server(h, req)) then Exchange(true, [req])
      else
        var rest := LoginRun(cfg, user, pass, server, h + [req], endpoints[1..]);
        Exchange(rest.result, [req] + rest.sent)
  }

  function LoginSpec(cfg: Config, server: Server, h: seq<Request>): (e: Exchange<bool>)
    ensures |e.sent| <= 2
    ensures e.result ==> !Missing(cfg.username) && !Missing(cfg.password) && e.sent != []
  {
    if Missing(cfg.username) || Missing(cfg.password) then Exchange(false, [])
    else LoginRun(cfg, cfg.username.value, cfg.password.value, server, h, LoginEndpoints)
  }

  function AuthorizeSpec(cfg: Config, server: Server, h: seq<Request>,
                         mac: Option<string>, minutes: int): (e: Exchange<bool>)
    ensures |e.sent| <= 1
    ensures e.result ==> !Missing(mac) && |e.sent| == 1 && server(h, e.sent[0]).Received?
  {
    if Missing(mac) then Exchange(false, [])
    else
      var req := AuthorizeRequest(cfg, mac.value, minutes);
      Exchange(Verdict(server(h, req)) == Authorized, [req])
  }

  function TestConnectionSpec(cfg: Config, server: Server, h: seq<Request>): (e: Exchange<bool>)
    ensures |e.sent| == 1 && e.sent[0].Get?
    ensures e.result ==> server(h, e.sent[0]).Received?
  {
    var req := RootRequest(cfg);
    Exchange(Reachable(server(h, req)), [req])
  }

  function ClientsSpec(cfg: Config, server: Server, h: seq<Request>): (e: Exchange<Fetched>)
    ensures |e.sent| == 1 && e.sent[0].Get?
    ensures e.result.Fetched? ==> Sized(e.result.value)
  {
    var req := ClientsRequest(cfg);
    Exchange(ClientsResult(server(h, req)), [req])
  }

  function HealthSpec(cfg: Config, server: Server, h: seq<Request>): (e: Exchange<Fetched>)
    ensures |e.sent| == 1 && e.sent[0].Get?
    ensures e.result != Unsized
  {
    var req := HealthRequest(cfg);
    Exchange(StatusQuery(server(h, req), Object([])), [req])
  }

  // ---------------------------------------------------------------------------
  // The client.

  class UnifiController
  {
    const config: Config
    const session: Session

    /** Read the settings and open a session of its own. */
    constructor (config: Config, server: Server)
      ensures this.config == config
      ensures fresh(session) && session.server == server && session.sent == []
    {
      this.config := config;
      session := new Session(server);
    }

    method Login() returns (ok: bool)
      modifies session
      ensures var e := LoginSpec(config, session.server, old(session.sent));
        ok == e.result && session.sent == old(session.sent) + e.sent
    {
      if Missing(config.username) || Missing(config.password) {
        return false;
      }
      var user, pass := config.username.value, config.password.value;
      ghost var h0 := session.sent;
      ghost var server := session.server;
      for i := 0 to |LoginEndpoints|
        invariant |h0| <= |session.sent| && session.sent[..|h0|] == h0
        invariant var rest := LoginRun(config, user, pass, server, session.sent, LoginEndpoints[i..]);
          LoginRun(config, user, pass, server, h0, LoginEndpoints)
            == Exchange(rest.result, session.sent[|h0|..] + rest.sent)
      {
        var req := LoginRequest(config, user, pass, LoginEndpoints[i]);
        ghost var before := session.sent;
        var o := session.Send(req);
        assert LoginEndpoints[i..][1..] == LoginEndpoints[i + 1..];
        assert session.sent[|h0|..] == before[|h0|..] + [req];
        if LoginAttemptSucceeds(o) {
          return true;
        }
      }
      assert session.sent == h0 + session.sent[|h0|..];
      return false;
    }

    method AuthorizeGuest(mac: Option<string>, minutes: int) returns (ok: bool)
      modifies session
      ensures var e := AuthorizeSpec(config, session.server, old(session.sent), mac, minutes);
        ok == e.result && session.sent == old(session.sent) + e.sent
    {
      if Missing(mac) {
        return false;
      }
      var normalized := MacAddress.Normalize(mac.value);
      var url := SiteUrl(config, "/cmd/stamgr");
      var o := session.Send(Post(url, Command(AuthorizeCommand, normalized, minutes)));
      var verdict := Verdict(o);
      ok := verdict == Authorized;
    }

    method GetClients() returns (clients: Fetched)
      modifies session
      ensures var e := ClientsSpec(config, session.server, old(session.sent));
        clients == e.result && session.sent == old(session.sent) + e.sent
    {
      var o := session.Send(Get(SiteUrl(config, "/stat/sta")));
      clients := ClientsResult(o);
    }

    method Health() returns (status: Fetched)
      modifies session
      ensures var e := HealthSpec(config, session.server, old(session.sent));
        status == e.result && session.sent == old(session.sent) + e.sent
    {
      var o := session.Send(Get(SiteUrl(config, "/stat/health")));
      status := StatusQuery(o, Object([]));
    }

    method TestConnection() returns (reachable: bool)
      modifies session
      ensures var e := TestConnectionSpec(config, session.server, old(session.sent));
        reachable == e.result && session.sent == old(session.sent) + e.sent
    {
      var o := session.Send(Get(Render(config.baseUrl) + "/"));
      reachable := Reachable(o);
    }
  }

  // ---------------------------------------------------------------------------
  // Properties of login.

  /** The reply to the `k`-th of the requests `sent` after history `h`. */
  function ReplyTo(server: Server, h: seq<Request>, sent: seq<Request>, k: nat): Outcome
    requires k < |sent|
  {
    server(h + sent[..k], sent[k])
  }

  /** The loop posts to the endpoints in order, one request each, stops at the first
      successful attempt, and returns whether its last attempt succeeded; a false result
      means every endpoint was tried and failed. */
  lemma {:induction false} LoginRunAttempts(cfg: Config, user: string, pass: string, server: Server,
                                            h: seq<Request>, endpoints: seq<string>)
    ensures var e := LoginRun(cfg, user, pass, server, h, endpoints);
      && |e.sent| <= |endpoints|
      && (endpoints != [] ==> |e.sent| >= 1)
      && (forall k :: 0 <= k < |e.sent| ==> e.sent[k] == LoginRequest(cfg, user, pass, endpoints[k]))
      && (forall k :: 0 <= k < |e.sent| - 1 ==> !LoginAttemptSucceeds(ReplyTo(server, h, e.sent, k)))
      && (e.result <==> e.sent != [] && LoginAttemptSucceeds(ReplyTo(server, h, e.sent, |e.sent| - 1)))
      && (!e.result ==> |e.sent| == |endpoints|)
    decreases |endpoints|
  {
    if endpoints != [] {
      var req := LoginRequest(cfg, user, pass, endpoints[0]);
      assert h + [req][..0] == h;
      if !LoginAttemptSucceeds(server(h, req)) {
        var rest := LoginRun(cfg, user, pass, server, h + [req], endpoints[1..]);
        LoginRunAttempts(cfg, user, pass, server, h + [req], endpoints[1..]);
        var sent := [req] + rest.sent;
        assert h + sent[..0] == h;
        forall k | 1 <= k < |sent|
          ensures sent[k] == LoginRequest(cfg, user, pass, endpoints[k])
          ensures ReplyTo(server, h, sent, k) == ReplyTo(server, h + [req], rest.sent, k - 1)
        {
          assert sent[..k] == [req] + rest.sent[..k - 1];
          assert h + sent[..k] == (h + [req]) + rest.sent[..k - 1];
        }
      }
    }
  }

  /** Without a username or a password, login fails and sends nothing. */
  lemma LoginWithoutCredentials(cfg: Config, server: Server, h: seq<Request>)
    requires Missing(cfg.username) || Missing(cfg.password)
    ensures LoginSpec(cfg, server, h) == Exchange(false, [])
  {
  }

  /** With credentials, login posts `{username, password, remember: true}` to
      "/api/auth/login" and, only when that attempt failed, to "/api/login"; it succeeds
      iff one of the attempts it made succeeded. */
  lemma LoginProbesEndpoints(cfg: Config, server: Server, h: seq<Request>)
    requires !Missing(cfg.username) && !Missing(cfg.password)
    ensures var e := LoginSpec(cfg, server, h);
      var first := Post(Render(cfg.baseUrl) + "/api/auth/login",
                        Credentials(cfg.username.value, cfg.password.value, true));
      var second := Post(Render(cfg.baseUrl) + "/api/login",
                         Credentials(cfg.username.value, cfg.password.value, true));
      && 1 <= |e.sent| <= 2
      && e.sent[0] == first
      && (|e.sent| == 1 <==> LoginAttemptSucceeds(server(h, first)))
      && (|e.sent| == 2 ==> e.sent[1] == second)
      && (e.result <==> exists k :: 0 <= k < |e.sent| && LoginAttemptSucceeds(ReplyTo(server, h, e.sent, k)))
  {
    var e := LoginSpec(cfg, server, h);
    LoginRunAttempts(cfg, cfg.username.value, cfg.password.value, server, h, LoginEndpoints);
    assert h + e.sent[..0] == h;
  }

  /** Endpoint fallback: a failed first attempt followed by a successful second one
      logs in after exactly two requests. */
  lemma LoginFallback(cfg: Config, server: Server, h: seq<Request>)
    requires !Missing(cfg.username) && !Missing(cfg.password)
    requires var first := LoginRequest(cfg, cfg.username.value, cfg.password.value, "/api/auth/login");
      var second := LoginRequest(cfg, cfg.username.value, cfg.password.value, "/api/login");
      !LoginAttemptSucceeds(server(h, first)) && LoginAttemptSucceeds(server(h + [first], second))
    ensures LoginSpec(cfg, server, h).result && |LoginSpec(cfg, server, h).sent| == 2
  {
    assert LoginEndpoints[1..] == ["/api/login"];
  }

  // ---------------------------------------------------------------------------
  // Properties of the decision tables.

  /** The success cases of one login attempt, and the failures around them. */
  lemma LoginAttemptTable(status: int, location: Option<string>, body: Body, rc: Option<string>, data: Option<Json>)
    ensures LoginAttemptSucceeds(Received(Response(200, location, NonJson)))
    ensures LoginAttemptSucceeds(Received(Response(200, location, JsonObject(Some("ok"), data))))
    ensures rc != Some("ok") ==> !LoginAttemptSucceeds(Received(Response(200, location, JsonObject(rc, data))))
    ensures status in RedirectStatuses ==> LoginAttemptSucceeds(Received(Response(status, None, body)))
    ensures status != 200 && status !in RedirectStatuses ==>
              !LoginAttemptSucceeds(Received(Response(status, location, body)))
    ensures !LoginAttemptSucceeds(TransportError)
  {
    assert !Text.OccursAt("", "login", 0);
  }

  /** A redirect to the dashboard is a successful login. */
  lemma RedirectToDashboard(body: Body)
    ensures LoginAttemptSucceeds(Received(Response(302, Some("/manage"), body)))
  {
    var lowered := Text.Lower("/manage");
    assert lowered == "/manage";
    forall k
      ensures !Text.OccursAt(lowered, "login", k)
    {
      if 0 <= k && k + 5 <= |lowered| {
        assert lowered[k..k + 5][0] == lowered[k] != 'l';
      }
    }
  }

  /** A redirect back to the login page, whatever the letter case of "/login" and
      whatever follows it, is a failed attempt. */
  lemma RedirectToLoginPage(status: int, location: string, body: Body)
    requires status in RedirectStatuses
    requires 6 <= |location| && Text.Lower(location[..6]) == "/login"
    ensures !LoginAttemptSucceeds(Received(Response(status, Some(location), body)))
  {
    var lowered := Text.Lower(location);
    assert forall k :: 1 <= k < 6 ==> lowered[k] == Text.Lower(location[..6])[k];
    assert lowered[1..6] == "login";
    assert Text.OccursAt(lowered, "login", 1);
  }

  /** Whatever authorises a guest would also count as a successful login attempt, and
      a successful login attempt is a reachable controller; login accepts more only
      through its redirect case. */
  lemma AcceptanceNested(o: Outcome)
    ensures Verdict(o) == Authorized ==> LoginAttemptSucceeds(o)
    ensures LoginAttemptSucceeds(o) ==> Reachable(o)
    ensures LoginAttemptSucceeds(o) && Verdict(o) != Authorized <==>
              o.Received? && o.response.status in RedirectStatuses &&
              !Text.Contains(Text.Lower(o.response.location.GetOr("")), "login")
  {
  }

  // ---------------------------------------------------------------------------
  // Properties of the other operations.

  /** Without a MAC address nothing is sent and the guest is not authorised. */
  lemma AuthorizeWithoutMac(cfg: Config, server: Server, h: seq<Request>, mac: Option<string>, minutes: int)
    requires Missing(mac)
    ensures AuthorizeSpec(cfg, server, h, mac, minutes) == Exchange(false, [])
  {
  }

  /** With a MAC address, one command is posted to the site's station manager carrying
      the normalised address, and the guest is authorised iff the reply is a 200 whose
      body is not JSON or reports rc "ok"; every other reply, a transport failure
      included, is a refusal. */
  lemma AuthorizeSendsOneCommand(cfg: Config, server: Server, h: seq<Request>, mac: Option<string>, minutes: int)
    requires !Missing(mac)
    ensures var e := AuthorizeSpec(cfg, server, h, mac, minutes);
      && |e.sent| == 1
      && e.sent[0].Post?
      && e.sent[0].url == Render(cfg.baseUrl) + "/api/s/" + Render(cfg.site) + "/cmd/stamgr"
      && e.sent[0].payload == Command("authorize-guest", MacAddress.Normalize(mac.value), minutes)
      && (e.result <==> var o := server(h, e.sent[0]);
            o.Received? && o.response.status == 200 && (o.response.body.NonJson? || RcOk(o.response.body)))
  {
  }

  /** The address sent is the given one, lower-cased, with colons for separators. */
  lemma AuthorizeSendsNormalizedMac(cfg: Config, server: Server, h: seq<Request>, mac: Option<string>, minutes: int)
    requires !Missing(mac)
    ensures var sentMac := AuthorizeSpec(cfg, server, h, mac, minutes).sent[0].payload.mac;
      && |sentMac| == |mac.value|
      && forall k :: 0 <= k < |sentMac| ==>
           sentMac[k] != '-' && sentMac[k] != '.' && !('A' <= sentMac[k] <= 'Z')
  {
    MacAddress.NormalizedForm(mac.value);
  }

  /** Reachability is one GET of the root path; any reply below 500 counts, a 5xx or a
      transport failure does not. */
  lemma TestConnectionThreshold(cfg: Config, server: Server, h: seq<Request>)
    ensures var e := TestConnectionSpec(cfg, server, h);
      && e.sent == [Get(Render(cfg.baseUrl) + "/")]
      && (e.result <==> var o := server(h, e.sent[0]); o.Received? && o.response.status < 500)
  {
  }

  /** A 404 is reachable; a 503 or a timeout is not. */
  lemma ReachabilityExamples(location: Option<string>, body: Body)
    ensures Reachable(Received(Response(404, location, body)))
    ensures !Reachable(Received(Response(503, location, body)))
    ensures !Reachable(TransportError)
  {
  }

  /** `health` returns something other than `{}` only for a 200 reporting rc "ok", and
      then returns its `data` member (`{}` when it is absent), whatever JSON value it is. */
  lemma HealthQueryTable(o: Outcome)
    ensures StatusQuery(o, Object([])) == Undecodable <==>
              o.Received? && o.response.status == 200 && o.response.body.NonJson?
    ensures o.Received? && o.response.status == 200 && RcOk(o.response.body) ==>
              StatusQuery(o, Object([])) == Fetched(o.response.body.data.GetOr(Object([])))
    ensures !(o.Received? && o.response.status == 200) ==> StatusQuery(o, Object([])) == Fetched(Object([]))
    ensures o.Received? && o.response.body.JsonObject? && !RcOk(o.response.body) ==>
              StatusQuery(o, Object([])) == Fetched(Object([]))
  {
  }

  /** `get_clients` returns something other than `[]` only for a 200 reporting rc "ok":
      then its `data` member (`[]` when it is absent) if `len()` accepts it, and it raises
      when that member is null, a boolean or a number. */
  lemma ClientsQueryTable(o: Outcome)
    ensures ClientsResult(o) == Undecodable <==>
              o.Received? && o.response.status == 200 && o.response.body.NonJson?
    ensures ClientsResult(o) == Unsized <==>
              o.Received? && o.response.status == 200 && RcOk(o.response.body) &&
              o.response.body.data.Some? && !Sized(o.response.body.data.value)
    ensures o.Received? && o.response.status == 200 && RcOk(o.response.body) &&
            Sized(o.response.body.data.GetOr(Array([]))) ==>
              ClientsResult(o) == Fetched(o.response.body.data.GetOr(Array([])))
    ensures !(o.Received? && o.response.status == 200) ==> ClientsResult(o) == Fetched(Array([]))
    ensures o.Received? && o.response.body.JsonObject? && !RcOk(o.response.body) ==>
              ClientsResult(o) == Fetched(Array([]))
  {
  }

  /** A `data` member of null makes `get_clients` raise, and one of `[]` is returned. */
  lemma ClientsNullData()
    ensures ClientsResult(Received(Response(200, None, JsonObject(Some("ok"), Some(Null))))) == Unsized
    ensures ClientsResult(Received(Response(200, None, JsonObject(Some("ok"), Some(Array([])))))) == Fetched(Array([]))
  {
  }

  /** Each status query sends one GET to its site-scoped path. */
  lemma StatusQueriesSendOneGet(cfg: Config, server: Server, h: seq<Request>)
    ensures ClientsSpec(cfg, server, h).sent == [Get(Render(cfg.baseUrl) + "/api/s/" + Render(cfg.site) + "/stat/sta")]
    ensures HealthSpec(cfg, server, h).sent == [Get(Render(cfg.baseUrl) + "/api/s/" + Render(cfg.site) + "/stat/health")]
    ensures ClientsSpec(cfg, server, h).result != Fetched(Array([])) ==> server(h, ClientsRequest(cfg)).Received?
  {
  }
}
