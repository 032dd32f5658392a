# UniFi captive-portal guest authorisation, modelled in Dafny

This project models the core of a captive portal that grants network access to
guest devices through a UniFi controller:

- the controller client (`app/unifi.py`): login with its two-endpoint probe and its
  three ways of reading success, guest authorisation by MAC address, reachability,
  and the client-list and health queries;
- the e-mail validator (`app/util.py`);
- the authorisation flow (`app/routes.py`): `get_unifi_controller` and the decision
  skeleton of `authenticate`.

Layout, one module per file:

- `text.dfy` (`Text`): the string operations used by the client (`lower()`,
  one-character `replace()`, the `in` substring test).
- `mac.dfy` (`MacAddress`): MAC-address normalisation.
- `email.dfy` (`Email`): the validator. It is an explicit scan, and it is proved
  to accept exactly the language of the regular expression.
- `transport.dfy` (`Transport`): the HTTP values. It holds requests, replies
  (status, optional `Location`, a non-JSON or JSON-object body) and transport
  failures. It also holds the `Session` class, which logs the requests it sends.
- `unifi.dfy` (`Unifi`): the reply decision tables and one specification function
  per operation. Each returns the result and the requests sent, in order. The module
  also holds the `UnifiController` class, whose methods are proved against those
  functions, and the lemmas about them.
- `routes.dfy` (`Routes`): the per-request flow. It returns the page it ends on and
  an event trace: the controller requests, then the database add, commit or rollback.

The controller is a parameter, `Server = (requests sent earlier on this session,
request) -> Outcome`. Its answer may depend on the session's history, which is how
session cookies take effect. Each controller operation is specified on that
parameter. `UnifiController.Login` is a loop over the endpoint list with an early
return, as in the source. Its postcondition ties its result and the requests it sent
to the recursive specification `LoginRun`.

Python details kept on purpose:

- An unset setting renders as `None` inside an f-string URL.
- "Missing" means `None` or `""`, which is Python falsiness.
- A redirect without a `Location` counts as success, because the header defaults to `""`.
- `$` also matches before one final newline, so `"a@b.co\n"` is accepted.

Behaviour kept as the code has it:

- `authorize_guest` does not check that the guest duration is at least 1.
- `authorize_guest` does not require a prior login; it sends the command on whatever
  session it has.
- `get_clients` and `health` do not always fall back to their empty value. A 200 whose
  body is not JSON is `Undecodable`. A `get_clients` reply with rc `ok` and a null,
  boolean or number `data` member makes `len()` raise `TypeError`, which the
  `RequestException` handler does not catch; the model returns `Unsized` for it.

## Model

| member | source | states |
|---|---|---|
| `Text.Lower` | app/unifi.py:65 | `lower()` keeps the length; each character is lowered by `LowerChar` (ASCII capitals only) |
| `Text.Replace` | app/unifi.py:83 | one-character `replace()` keeps the length; each occurrence of the old character becomes the new one |
| `Text.Contains` | app/unifi.py:65 | the recursive scan is true iff the pattern occurs at some index of the string |
| `MacAddress.CanonicalChar` | app/unifi.py:83 | the per-character rule of the normalisation never yields `-`, `.` or a capital, and keeps every other character |
| `MacAddress.Normalize` | app/unifi.py:83 | `lower()` followed by two `replace()` calls keeps the length and acts on every character as the per-character rule: `-` and `.` become `:`, capitals are lowered, the rest is kept |
| `MacAddress.NormalizedForm` | app/unifi.py:83 | after normalisation no `-`, `.` or A–Z remains, and every other character is unchanged |
| `MacAddress.NormalizeIdempotent` | app/unifi.py:83 | normalising twice equals normalising once |
| `MacAddress.NormalizeAppend` | app/unifi.py:83 | normalising a concatenation is concatenating the normalised parts: the rewrite is per character, with no context |
| `MacAddress.NormalizeExamples` | app/unifi.py:83 | `AA-BB-CC-DD-EE-FF` and `aa.bb.cc.dd.ee.ff` both become `aa:bb:cc:dd:ee:ff` |
| `Email.FirstIndex` | app/util.py:4 | returns the first position of the character, or the length when it is absent |
| `Email.LastIndex` | app/util.py:4 | returns the last position of the character, or -1 when it is absent |
| `Email.MatchesWholeIff` | app/util.py:4 | the scan (first `@`, last `.` after it) succeeds iff the string is L `@` D `.` T: L non-empty over `[a-zA-Z0-9._%+-]`, D non-empty over `[a-zA-Z0-9.-]`, T two or more ASCII letters |
| `Email.ComposedAddress` | app/util.py:4 | any non-empty local part over `[a-zA-Z0-9._%+-]`, `@`, non-empty domain over `[a-zA-Z0-9.-]`, `.` and two or more letters is a word of the pattern's language |
| `Email.ValidateEmail` | app/util.py:6-10 | `validate_email` as a scan: anything accepted has at least six characters (`a@b.co`); `ValidateEmailIsRegex` proves it equal to the pattern, and `AcceptedHasOneAt`, `AcceptedCharacters` and the example lemmas describe it further |
| `Email.ValidateEmailIsRegex` | app/util.py:4-10 | `validate_email` accepts exactly the words of the pattern, each with or without one trailing newline (Python's `$`) |
| `Email.AcceptedHasOneAt` | app/util.py:4 | an accepted address contains exactly one `@` |
| `Email.AcceptedCharacters` | app/util.py:4 | every character of an accepted address except the last is in the local-part class or is `@`; the last is a letter or the newline, so no whitespace occurs before the end |
| `Email.EmailRejections` | app/util.py:4-10 | `""`, `a@b.c`, `a@b.c1` and `a b@c.com` are rejected |
| `Email.EmailAccepted` | app/util.py:4-10 | `guest@example.com` is accepted |
| `Email.EmailTrailingNewline` | app/util.py:4-10 | `"a@b.co\n"` is accepted, because `$` matches before a final newline |
| `Transport.Session.constructor` | app/unifi.py:24 | a new session has sent nothing |
| `Transport.Session.Send` | app/unifi.py:51 | sending appends the request to the session log and yields the controller's answer given the earlier requests |
| `Unifi.UnifiController.constructor` | app/unifi.py:18-29 | the client keeps its settings and opens a fresh session of its own that has sent nothing |
| `Unifi.UnifiController.Login` | app/unifi.py:31-72 | the loop's result and the requests it appends to the session are those of the login specification (credential check, then the endpoints in order with a stop at the first success) |
| `Unifi.UnifiController.AuthorizeGuest` | app/unifi.py:74-109 | result and requests sent are those of the authorisation specification |
| `Unifi.UnifiController.GetClients` | app/unifi.py:111-128 | result and the one GET sent are those of the client-list specification, including `Unsized` where `len()` raises; `ClientsQueryTable` states the table |
| `Unifi.UnifiController.Health` | app/unifi.py:130-145 | result and the one GET sent are those of the health specification |
| `Unifi.UnifiController.TestConnection` | app/unifi.py:147-157 | result and the one GET of the root path are those of the reachability specification |
| `Unifi.LoginAttemptSucceeds` | app/unifi.py:54-67 | the reading of one login reply; a successful attempt is always a reachable reply; `LoginAttemptTable`, `RedirectToDashboard`, `RedirectToLoginPage` and `AcceptanceNested` state its cases |
| `Unifi.Verdict` | app/unifi.py:91-107 | the branches of `authorize_guest`'s reply handling: `Authorized` only for a reply that would also be a successful login attempt, `Denied` only for 401 or 403, `Unreachable` exactly for a transport failure; `AuthorizeSendsOneCommand` states when it authorises |
| `Unifi.StatusQuery` | app/unifi.py:119-128 | the shape shared by `get_clients` and `health` (lines 137-145): anything but the empty value needs a 200 with a non-JSON body or rc `ok`, and it never raises on its own; `HealthQueryTable` and `ClientsQueryTable` state the tables |
| `Unifi.Reachable` | app/unifi.py:154 | `test_connection`'s reading of a reply: a status below 500; `TestConnectionThreshold` and `ReachabilityExamples` state it |
| `Unifi.ClientsResult` | app/unifi.py:119-128 | `get_clients`' reply handling: whatever it returns has a length (string, list or dict); a value without one is `Unsized` |
| `Unifi.LoginRun` | app/unifi.py:46-69 | the endpoint loop as a recursion: it sends at most one request per endpoint, and a success needs at least one; `LoginRunAttempts` characterises it fully |
| `Unifi.LoginSpec` | app/unifi.py:31-72 | `login`: at most two requests; success needs both credentials and at least one request; `LoginWithoutCredentials`, `LoginProbesEndpoints` and `LoginFallback` describe it |
| `Unifi.AuthorizeSpec` | app/unifi.py:74-109 | `authorize_guest`: at most one request; success needs a MAC, the one request and an answer to it; `AuthorizeWithoutMac`, `AuthorizeSendsOneCommand` and `AuthorizeSendsNormalizedMac` describe it |
| `Unifi.TestConnectionSpec` | app/unifi.py:147-157 | `test_connection`: exactly one GET, and true only if it was answered; `TestConnectionThreshold` gives the threshold |
| `Unifi.ClientsSpec` | app/unifi.py:111-128 | `get_clients`: exactly one GET, and a returned value always has a length |
| `Unifi.HealthSpec` | app/unifi.py:130-145 | `health`: exactly one GET, and it never raises on a returned value (no `len()`) |
| `Unifi.LoginRunAttempts` | app/unifi.py:46-69 | the loop posts to the endpoints in order, one request each; every attempt before the last failed; the result is whether the last attempt succeeded; a false result means every endpoint was tried |
| `Unifi.LoginWithoutCredentials` | app/unifi.py:36-38 | with username or password unset or empty, login is false and sends nothing |
| `Unifi.LoginProbesEndpoints` | app/unifi.py:40-72 | with credentials: 1 or 2 posts of `{username, password, remember: true}`; the first goes to `/api/auth/login`; exactly one post iff that attempt succeeded; a second goes to `/api/login`; the result is true iff some attempt succeeded |
| `Unifi.LoginFallback` | app/unifi.py:48-67 | a failed first attempt followed by a successful second one logs in after exactly two requests |
| `Unifi.LoginAttemptTable` | app/unifi.py:54-67 | a 200 with a non-JSON body succeeds; a 200 with rc `ok` succeeds; a 200 with any other rc fails; a 302/303/307 with no `Location` succeeds; any status other than 200/302/303/307 fails, 301 and 308 included; a transport failure fails |
| `Unifi.RedirectToDashboard` | app/unifi.py:63-67 | a 302 to `/manage` is a successful attempt |
| `Unifi.RedirectToLoginPage` | app/unifi.py:63-67 | a 302, 303 or 307 to a location starting with `/login` in any letter case is a failed attempt |
| `Unifi.AcceptanceNested` | app/unifi.py:54-101 | any reply that authorises a guest is a successful login attempt; any successful login attempt is a reachable reply; the two tables differ exactly on redirects away from a login page |
| `Unifi.AuthorizeWithoutMac` | app/unifi.py:79-81 | an unset or empty MAC gives false and sends nothing |
| `Unifi.AuthorizeSendsOneCommand` | app/unifi.py:83-109 | exactly one POST of `{cmd: "authorize-guest", mac: normalised, minutes}` to base + `/api/s/` + site + `/cmd/stamgr`; the result is true iff the reply is a 200 with a non-JSON body or rc `ok`, so a non-ok rc, 401/403, other statuses and transport failures give false |
| `Unifi.AuthorizeSendsNormalizedMac` | app/unifi.py:83-85 | the MAC sent has the input's length and contains no `-`, `.` or capital |
| `Unifi.TestConnectionThreshold` | app/unifi.py:151-157 | one GET of base + `/`; the result is true iff a reply arrives with status below 500 |
| `Unifi.ReachabilityExamples` | app/unifi.py:154-157 | a 404 is reachable; a 503 and a transport failure are not |
| `Unifi.HealthQueryTable` | app/unifi.py:137-145 | health is the reply's `data` (`{}` when absent), whatever JSON value it is, only for a 200 with rc `ok`; any other status, a non-ok rc or a transport failure gives `{}`; a non-JSON 200 is `Undecodable` |
| `Unifi.ClientsQueryTable` | app/unifi.py:119-128 | the client list is the reply's `data` (`[]` when absent) for a 200 with rc `ok` when `len()` accepts it; it is `Unsized` exactly when that member is present and null, boolean or a number; any other status, a non-ok rc or a transport failure gives `[]`; a non-JSON 200 is `Undecodable` |
| `Unifi.ClientsNullData` | app/unifi.py:121-123 | a null `data` member makes `get_clients` raise, and an empty list is returned as is |
| `Unifi.StatusQueriesSendOneGet` | app/unifi.py:116-136 | each query sends one GET to its site-scoped path (`/stat/sta`, `/stat/health`); a non-empty client list implies a reply arrived |
| `Routes.ConnectSpec` | app/routes.py:15-28 | `get_unifi_controller`'s requests: one to three, the first a GET; success needs at least the root GET and one login request; `ConnectOrder` and `ConnectSendsNoCommand` describe it |
| `Routes.GetUnifiController` | app/routes.py:10-32 | builds a fresh client with a fresh session; returns it iff the reachability check and then login succeeded, else null; reports the requests that were sent |
| `Routes.ConnectOrder` | app/routes.py:15-28 | the root GET is sent first; if it is unreachable nothing else is sent and no client is returned; otherwise exactly the login requests follow; a client is returned iff reachable and logged in |
| `Routes.ConnectSendsNoCommand` | app/routes.py:15-28 | connecting sends no guest-authorisation command |
| `Routes.GuestTable.constructor` | app/__init__.py:7 | the database session of one request (`db.session` of the `db` created here): it starts with no rows committed through it and none pending |
| `Routes.GuestTable.Add` | app/routes.py:104 | adding stages the row and leaves committed rows alone |
| `Routes.GuestTable.Commit` | app/routes.py:105 | an accepted commit moves the pending rows into the table; a refused one changes nothing |
| `Routes.GuestTable.Rollback` | app/routes.py:119 | rollback drops the pending rows and keeps the committed ones |
| `Routes.AuthenticateSpec` | app/routes.py:55-122 | the flow as a value: the trace is empty exactly when it stops at the e-mail or MAC check; the lemmas below describe every page |
| `Routes.Authenticate` | app/routes.py:55-122 | page and trace are those of the flow specification; on success the guest, marked authorised, is committed after any rows already pending; after a refused commit nothing is committed and pending rows are dropped; on every other path the database is untouched |
| `Routes.EmailCheckedFirst` | app/routes.py:71-74 | a missing or invalid e-mail ends the flow with an empty trace, before the MAC check and before any controller contact |
| `Routes.MacCheckedBeforeContact` | app/routes.py:76-78 | a valid e-mail with a missing MAC ends the flow with an empty trace |
| `Routes.AuthorizeOnlyAfterConnect` | app/routes.py:85-96 | a guest-authorisation command in the trace implies the form passed validation and connecting succeeded; it comes right after the connection requests and carries the form's MAC and 60 minutes |
| `Routes.GuestRecordedIffAuthorized` | app/routes.py:96-119 | success iff validated, connected, authorised and committed; a rollback iff all that held but the commit failed; an added guest is always the form's guest marked authorised; on every failure before that the trace holds only controller requests |
| `Routes.EndToEnd` | app/routes.py:55-111 | valid e-mail and MAC, a reachable controller, an accepted login and an accepted authorisation reach the success page; the trace is controller requests followed by adding the authorised guest and committing, and that guest is added exactly once |

## Left out

- HTTP transport mechanics are not modelled: headers, `verify=False`, timeouts (10 s and 5 s), redirect following and cookie handling. The controller is a function of the session's request history and the request.
- The `print` diagnostics and the truncated body in the error branch of `authorize_guest` are not modelled. They produce output only. The verdict type keeps the branches apart, but nothing is printed.
- Environment and dotenv loading are not modelled: the settings are constructor parameters.
- JSON decoding is not modelled. A body is either non-JSON or a JSON object, and only `meta.rc` (as a string) and `data` are kept. A JSON array or scalar body, or a non-object `meta`, would raise `AttributeError` in the source. Those cases are not modelled.
- `Unifi.StatusQuery`: a 200 with a non-JSON body yields `Undecodable` rather than a value. The source leaves that decoding error to the HTTP library, where it is caught or not depending on the library version.
- `Text.Lower`: only ASCII letters are lowered. Python lowers all of Unicode. For an ASCII `Location` and an ASCII MAC address the two agree. For MAC addresses, non-ASCII characters are kept as they are.
- `int(minutes)` is taken to be given an integer. A conversion error is not modelled.
- Flask plumbing is not modelled: rendering, `flash`, `url_for`, `redirect`, the continue URL, the logger, the `portal_login`, `success`, `admin` and `health_check` routes, and the error handlers.
- The catch-all handler in `get_unifi_controller` is not reachable in the model, because no client operation raises. Transport failures are values.
- In `authenticate`, the only exception modelled is a refused database commit. It is a boolean parameter, and it leads to the rollback path.
- `app/__init__.py` (application wiring) and `app/models.py` (column declarations, creation timestamp) are not part of this model. Only the guest fields that the flow sets are kept.
- Concurrent requests are not modelled: each flow runs alone, with its own fresh client.
