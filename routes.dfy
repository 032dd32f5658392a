/** The guest-authorisation flow of the portal: `get_unifi_controller`, which makes a
    fresh controller client and checks reachability before logging in, and the decision
    skeleton of `authenticate`, which validates the form, drives the controller and
    records the guest. Each run yields an event trace: the requests sent to the
    controller, then what happened to the database session. */
module Routes {
  import opened Transport
  import opened Unifi
  import Email

  /** Reachability check, then login, on a client whose session has sent nothing yet. */
  function ConnectSpec(cfg: Config, server: Server): (c: Exchange<bool>)
    ensures 1 <= |c.sent| <= 3 && c.sent[0].Get?
    ensures c.result ==> |c.sent| >= 2
  {
    var test := TestConnectionSpec(cfg, server, []);
    if !test.result then test
    else
      var login := LoginSpec(cfg, server, test.sent);
      Exchange(login.result, test.sent + login.sent)
  }

  /** `get_unifi_controller`: a logged-in client of its own, or `null`. `sent` is what
      the client sent on the way, also when it is dropped. */
  method GetUnifiController(cfg: Config, server: Server) returns (c: UnifiController?, sent: seq<Request>)
    ensures sent == ConnectSpec(cfg, server).sent
    ensures c != null <==> ConnectSpec(cfg, server).result
    ensures c != null ==> fresh(c) && fresh(c.session) && c.config == cfg &&
                          c.session.server == server && c.session.sent == sent
  {
    var controller := new UnifiController(cfg, server);
    var reachable := controller.TestConnection();
    assert controller.session.sent == TestConnectionSpec(cfg, server, []).sent;
    if !reachable {
      return null, controller.session.sent;
    }
    var loggedIn := controller.Login();
    if !loggedIn {
      return null, controller.session.sent;
    }
    return controller, controller.session.sent;
  }

  /** The form fields of the request; any may be absent. */
  datatype Form = Form(
    email: Option<string>,
    mac: Option<string>,
    ip: Option<string>,
    apMac: Option<string>,
    ssid: Option<string>)

  /** A row of the guests table. */
  datatype Guest = Guest(
    email: string,
    mac: string,
    ip: Option<string>,
    apMac: Option<string>,
    ssid: Option<string>,
    authorized: bool)

  /** Where the request ends: the four redirects back to the portal with their
      messages, the success page, and the redirect after an unexpected error. */
  datatype Page =
    | InvalidEmail
    | MacRequired
    | Unavailable
    | AuthorizationFailed
    | Success
    | UnexpectedError

  datatype Event =
    | Sent(req: Request)
    | Added(guest: Guest)
    | Committed
    | RolledBack

  /** Minutes of network access granted to a guest. */
  const GuestMinutes: int := 60

  function SentEvents(reqs: seq<Request>): (events: seq<Event>)
    ensures |events| == |reqs|
    ensures forall k :: 0 <= k < |reqs| ==> events[k] == Sent(reqs[k])
  {
    if reqs == [] then [] else [Sent(reqs[0])] + SentEvents(reqs[1..])
  }

  /** The guest the form describes, marked authorised. */
  function AuthorizedGuest(form: Form): Guest
    requires form.email.Some? && form.mac.Some?
  {
    Guest(form.email.value, form.mac.value, form.ip, form.apMac, form.ssid, true)
  }

  /** The whole flow as a value: the page it ends on and its event trace.
      `commitSucceeds` stands for whether the database accepts the commit. */
  function AuthenticateSpec(form: Form, cfg: Config, server: Server, commitSucceeds: bool): (r: (Page, seq<Event>))
    ensures r.1 == [] <==> r.0 == InvalidEmail || r.0 == MacRequired
  {
    if Missing(form.email) || !Email.ValidateEmail(form.email.value) then (InvalidEmail, [])
    else if Missing(form.mac) then (MacRequired, [])
    else
      var connect := ConnectSpec(cfg, server);
      if !connect.result then (Unavailable, SentEvents(connect.sent))
      else
        var auth := AuthorizeSpec(cfg, server, connect.sent, form.mac, GuestMinutes);
        var contacts := SentEvents(connect.sent + auth.sent);
        if !auth.result then (AuthorizationFailed, contacts)
        else if commitSucceeds then (Success, contacts + [Added(AuthorizedGuest(form)), Committed])
        else (UnexpectedError, contacts + [Added(AuthorizedGuest(form)), RolledBack])
  }

  /** The database session over the guests table: committed rows, and rows added but
      not yet committed. */
  class GuestTable
  {
    var rows: seq<Guest>
    var pending: seq<Guest>

    constructor ()
      ensures rows == [] && pending == []
    {
      rows, pending := [], [];
    }

    method Add(g: Guest)
      modifies this
      ensures rows == old(rows) && pending == old(pending) + [g]
    {
      pending := pending + [g];
    }

    /** Commit the pending rows when the database accepts them; otherwise report the
        failure and change nothing. */
    method Commit(succeeds: bool) returns (ok: bool)
      modifies this
      ensures ok == succeeds
      ensures ok ==> rows == old(rows) + old(pending) && pending == []
      ensures !ok ==> rows == old(rows) && pending == old(pending)
    {
      ok := succeeds;
      if ok {
        rows, pending := rows + pending, [];
      }
    }

    method Rollback()
      modifies this
      ensures rows == old(rows) && pending == []
    {
      pending := [];
    }
  }

  /** `authenticate`: validate, connect, authorise for 60 minutes, then record the
      guest; a failed commit is rolled back. */
  method Authenticate(form: Form, cfg: Config, server: Server, db: GuestTable, commitSucceeds: bool)
    returns (page: Page, trace: seq<Event>)
    modifies db
    ensures (page, trace) == AuthenticateSpec(form, cfg, server, commitSucceeds)
    ensures page == Success ==>
              db.rows == old(db.rows) + old(db.pending) + [AuthorizedGuest(form)] && db.pending == []
    ensures page == UnexpectedError ==> db.rows == old(db.rows) && db.pending == []
    ensures page != Success && page != UnexpectedError ==>
              db.rows == old(db.rows) && db.pending == old(db.pending)
  {
    if Missing(form.email) || !Email.ValidateEmail(form.email.value) {
      return InvalidEmail, [];
    }
    if Missing(form.mac) {
      return MacRequired, [];
    }
    var guest := Guest(form.email.value, form.mac.value, form.ip, form.apMac, form.ssid, false);
    var controller, sent := GetUnifiController(cfg, server);
    if controller == null {
      return Unavailable, SentEvents(sent);
    }
    var authorized := controller.AuthorizeGuest(form.mac, GuestMinutes);
    assert controller.session.sent == sent + AuthorizeSpec(cfg, server, sent, form.mac, GuestMinutes).sent;
    trace := SentEvents(controller.session.sent);
    if !authorized {
      return AuthorizationFailed, trace;
    }
    guest := guest.(authorized := true);
    assert guest == AuthorizedGuest(form);
    db.Add(guest);
    var committed := db.Commit(commitSucceeds);
    if committed {
      page, trace := Success, trace + [Added(guest), Committed];
    } else {
      db.Rollback();
      page, trace := UnexpectedError, trace + [Added(guest), RolledBack];
    }
  }

  // ---------------------------------------------------------------------------
  // Properties of the flow.

  /** Reachability is checked first, and login is attempted only on a reachable
      controller; a client is handed out only when both passed. */
  lemma ConnectOrder(cfg: Config, server: Server)
    ensures var c := ConnectSpec(cfg, server);
      && 1 <= |c.sent| <= 3
      && c.sent[0] == Get(Render(cfg.baseUrl) + "/")
      && (!Reachable(server([], c.sent[0])) ==> c.sent == [c.sent[0]] && !c.result)
      && (c.result <==> Reachable(server([], c.sent[0])) && LoginSpec(cfg, server, [c.sent[0]]).result)
      && (Reachable(server([], c.sent[0])) ==> c.sent[1..] == LoginSpec(cfg, server, [c.sent[0]]).sent)
  {
    var test := TestConnectionSpec(cfg, server, []);
    if test.result && !Missing(cfg.username) && !Missing(cfg.password) {
      LoginProbesEndpoints(cfg, server, test.sent);
    }
  }

  /** A missing or invalid address ends the flow before anything else is looked at. */
  lemma EmailCheckedFirst(form: Form, cfg: Config, server: Server, commitSucceeds: bool)
    requires Missing(form.email) || !Email.ValidateEmail(form.email.value)
    ensures AuthenticateSpec(form, cfg, server, commitSucceeds) == (InvalidEmail, [])
  {
  }

  /** A valid address without a MAC address ends the flow before the controller is
      contacted. */
  lemma MacCheckedBeforeContact(form: Form, cfg: Config, server: Server, commitSucceeds: bool)
    requires !Missing(form.email) && Email.ValidateEmail(form.email.value)
    requires Missing(form.mac)
    ensures AuthenticateSpec(form, cfg, server, commitSucceeds) == (MacRequired, [])
  {
  }

  /** Connecting sends no guest-authorisation command: only the reachability check
      and login attempts. */
  lemma ConnectSendsNoCommand(cfg: Config, server: Server)
    ensures var sent := ConnectSpec(cfg, server).sent;
      forall j :: 0 <= j < |sent| ==> !(sent[j].Post? && sent[j].payload.Command?)
  {
    var test := TestConnectionSpec(cfg, server, []);
    if test.result && !Missing(cfg.username) && !Missing(cfg.password) {
      LoginRunAttempts(cfg, cfg.username.value, cfg.password.value, server, test.sent, LoginEndpoints);
      var login := LoginSpec(cfg, server, test.sent);
      assert ConnectSpec(cfg, server).sent == test.sent + login.sent;
    }
  }

  /** A guest-authorisation command appears in the trace only after a reachability
      check and a successful login of the same fresh client, and only once. */
  lemma AuthorizeOnlyAfterConnect(form: Form, cfg: Config, server: Server, commitSucceeds: bool, k: nat)
    requires var trace := AuthenticateSpec(form, cfg, server, commitSucceeds).1;
      k < |trace| && trace[k].Sent? && trace[k].req.Post? && trace[k].req.payload.Command?
    ensures ConnectSpec(cfg, server).result
    ensures !Missing(form.email) && Email.ValidateEmail(form.email.value) && !Missing(form.mac)
    ensures var trace := AuthenticateSpec(form, cfg, server, commitSucceeds).1;
      && trace[..k] == SentEvents(ConnectSpec(cfg, server).sent)
      && trace[k] == Sent(AuthorizeRequest(cfg, form.mac.value, GuestMinutes))
  {
    var trace := AuthenticateSpec(form, cfg, server, commitSucceeds).1;
    var connect := ConnectSpec(cfg, server);
    ConnectSendsNoCommand(cfg, server);
    assert !Missing(form.email) && Email.ValidateEmail(form.email.value) && !Missing(form.mac);
    assert connect.result;
    var auth := AuthorizeSpec(cfg, server, connect.sent, form.mac, GuestMinutes);
    var all := connect.sent + auth.sent;
    assert trace[..|all|] == SentEvents(all);
    assert k < |all|;
    assert trace[k] == Sent(all[k]);
    assert k == |connect.sent|;
    assert trace[..k] == SentEvents(all)[..k];
    assert SentEvents(all)[..k] == SentEvents(connect.sent);
  }

  /** The guest is added and committed, marked authorised, exactly when the controller
      authorised it and the database accepted the commit; a rejected commit is rolled
      back. */
  lemma GuestRecordedIffAuthorized(form: Form, cfg: Config, server: Server, commitSucceeds: bool)
    ensures var (page, trace) := AuthenticateSpec(form, cfg, server, commitSucceeds);
      var authorized := !Missing(form.email) && Email.ValidateEmail(form.email.value) && !Missing(form.mac)
        && ConnectSpec(cfg, server).result
        && AuthorizeSpec(cfg, server, ConnectSpec(cfg, server).sent, form.mac, GuestMinutes).result;
      && (page == Success <==> authorized && commitSucceeds)
      && (page == UnexpectedError <==> authorized && !commitSucceeds)
      && (Committed in trace <==> page == Success)
      && (RolledBack in trace <==> page == UnexpectedError)
      && (forall g :: Added(g) in trace ==> authorized && g == AuthorizedGuest(form) && g.authorized)
      && (!authorized ==> forall j :: 0 <= j < |trace| ==> trace[j].Sent?)
  {
    var (page, trace) := AuthenticateSpec(form, cfg, server, commitSucceeds);
    if !Missing(form.email) && Email.ValidateEmail(form.email.value) && !Missing(form.mac) {
      var connect := ConnectSpec(cfg, server);
      var auth := AuthorizeSpec(cfg, server, connect.sent, form.mac, GuestMinutes);
      var contacts := SentEvents(connect.sent + auth.sent);
      assert Committed !in contacts && RolledBack !in contacts;
      assert forall g :: Added(g) !in contacts;
    }
  }

  /** The flow of a valid address and MAC against a controller that is reachable, accepts
      the login and authorises the guest: it ends on the success page, having recorded
      the guest once, marked authorised. */
  lemma EndToEnd(form: Form, cfg: Config, server: Server)
    requires !Missing(form.email) && Email.ValidateEmail(form.email.value) && !Missing(form.mac)
    requires ConnectSpec(cfg, server).result
    requires Verdict(server(ConnectSpec(cfg, server).sent,
                            AuthorizeRequest(cfg, form.mac.value, GuestMinutes))) == Authorized
    ensures var (page, trace) := AuthenticateSpec(form, cfg, server, true);
      && page == Success
      && |trace| >= 3
      && trace[|trace| - 2..] == [Added(AuthorizedGuest(form)), Committed]
      && (forall j :: 0 <= j < |trace| - 2 ==> trace[j].Sent?)
      && multiset(trace)[Added(AuthorizedGuest(form))] == 1
      && AuthorizedGuest(form).authorized
  {
    var connect := ConnectSpec(cfg, server);
    var auth := AuthorizeSpec(cfg, server, connect.sent, form.mac, GuestMinutes);
    var contacts := SentEvents(connect.sent + auth.sent);
    var trace := AuthenticateSpec(form, cfg, server, true).1;
    assert trace == contacts + [Added(AuthorizedGuest(form)), Committed];
    assert Added(AuthorizedGuest(form)) !in multiset(contacts);
  }
}
