/**
 * The client that mirrors a node's address into the upstream DNS server's
 * host records. It holds one piece of state, the current session id, which it
 * creates lazily, probes before use and replaces wholesale when the probe
 * fails.
 *
 * The answers of the upstream server are inputs (`Upstream`), and the
 * requests the client sends are returned in order, so the lemmas can say
 * which requests a call makes.
 */
module PiholeSync {
  import opened Common
  import opened FormUrlEncoded

  /** The session part of an authentication answer. */
  datatype AuthSession = AuthSession(valid: bool, sid: Option<string>)

  /** The decoded body of an authentication answer. */
  datatype AuthResponse = AuthResponse(session: AuthSession)

  /** What the session probe (GET .../auth/sessions) brings back. */
  datatype ProbeAnswer = ProbeStatus(status: nat) | ProbeTransportError(cause: string)

  /**
   * What session creation (POST .../auth) brings back: a decoded body, whatever
   * its HTTP status, or a transport or body-decoding failure.
   */
  datatype AuthAnswer = AuthBody(response: AuthResponse) | AuthRequestError(cause: string)

  /** What the host-record PUT brings back. */
  datatype PutAnswer = PutStatus(status: nat) | PutTransportError(cause: string)

  /**
   * The upstream's answers to one `put_ip` call, and whether the host-record
   * URL text parses as a URL (the URL parser is not modelled).
   */
  datatype Upstream = Upstream(probe: ProbeAnswer, auth: AuthAnswer, urlParses: bool, put: PutAnswer)

  /** A request the client sends. */
  datatype Request =
    | SessionProbe(url: string, sid: string)          // GET, header `sid`
    | CreateSession(url: string, password: string)    // POST, JSON body {password}
    | PutHost(url: string, sid: string)               // PUT, header `sid`

  /** Why `put_ip` failed. */
  datatype PutError =
    | ProbeFailed(cause: string)
    | AuthRequestFailed(cause: string)
    | AuthenticationFailed                 // "Authentication failed"
    | InvalidUrl
    | UnexpectedAuthenticationFailure      // "Unexpected authentication failure"
    | HttpStatus(status: nat)              // "Failed to put IP: HTTP <status>"
    | PutFailed(cause: string)             // "Failed to put IP: <cause>"

  /** A 2xx status. */
  predicate IsSuccess(status: nat) {
    200 <= status < 300
  }

  /** The API root for a server address. */
  function ServerUrl(base: string): string {
    base + "/" + "api"
  }

  /** A path under the API root. */
  function ApiPath(serverUrl: string, path: string): string {
    serverUrl + "/" + path
  }

  /** The URL of the host record pairing `ip` with `hostname`. */
  function HostsUrl(serverUrl: string, ip: string, hostname: string): string {
    ApiPath(serverUrl, "config/dns/hosts") + "/" + FormEncode(ip + " " + hostname)
  }

  /** The session and requests after one `put_ip` call, and its result. */
  datatype Exchange = Exchange(sid: Option<string>, requests: seq<Request>, result: Result<(), PutError>)

  /** The answer of `is_auth_valid`: without a session no request is made. */
  function ProbeOutcome(sid: Option<string>, probe: ProbeAnswer): Result<bool, string> {
    if sid.None? then Ok(false)
    else match probe
      case ProbeStatus(status) => Ok(IsSuccess(status))
      case ProbeTransportError(cause) => Err(cause)
  }

  /** The requests `is_auth_valid` sends. */
  function ProbeRequests(serverUrl: string, sid: Option<string>): seq<Request> {
    if sid.None? then [] else [SessionProbe(ApiPath(serverUrl, "auth/sessions"), sid.value)]
  }

  /**
   * What one `put_ip(hostname, ip)` does, starting from session `sid`:
   * probe (if a session is held), create a session if the probe did not
   * succeed, then send the PUT authorised by the current session.
   */
  function PutIpExchange(serverUrl: string, password: string, sid: Option<string>,
                         hostname: string, ip: string, net: Upstream): Exchange
  {
    var probed := ProbeRequests(serverUrl, sid);
    match ProbeOutcome(sid, net.probe)
    case Err(cause) => Exchange(sid, probed, Err(ProbeFailed(cause)))
    case Ok(valid) =>
      if !valid then
        var sent := probed + [CreateSession(ApiPath(serverUrl, "auth"), password)];
        match net.auth
        case AuthRequestError(cause) => Exchange(sid, sent, Err(AuthRequestFailed(cause)))
        case AuthBody(response) =>
          if !response.session.valid || response.session.sid.None? then
            Exchange(sid, sent, Err(AuthenticationFailed))
          else
            PutStep(serverUrl, response.session.sid, sent, hostname, ip, net)
      else
        PutStep(serverUrl, sid, probed, hostname, ip, net)
  }

  /** The PUT stage, with session `sid` in place and `sent` already sent. */
  function PutStep(serverUrl: string, sid: Option<string>, sent: seq<Request>,
                   hostname: string, ip: string, net: Upstream): Exchange
  {
    if !net.urlParses then Exchange(sid, sent, Err(InvalidUrl))
    else if sid.None? then Exchange(sid, sent, Err(UnexpectedAuthenticationFailure))
    else
      var requests := sent + [PutHost(HostsUrl(serverUrl, ip, hostname), sid.value)];
      match net.put
      case PutStatus(status) =>
        Exchange(sid, requests, if IsSuccess(status) then Ok(()) else Err(HttpStatus(status)))
      case PutTransportError(cause) => Exchange(sid, requests, Err(PutFailed(cause)))
  }

  class PiholeClient {
    const serverUrl: string
    const serverPass: string
    var currentSid: Option<string>

    /** A client for the server at `base`, with no session yet. */
    constructor (base: string, password: string)
      ensures serverUrl == ServerUrl(base) && serverPass == password && currentSid == None
    {
      serverUrl := ServerUrl(base);
      serverPass := password;
      currentSid := None;
    }

    method GetCurrentSid() returns (sid: Option<string>)
      ensures sid == currentSid
    {
      sid := currentSid;
    }

    method SetCurrentSid(sid: string)
      modifies this
      ensures currentSid == Some(sid)
    {
      currentSid := Some(sid);
    }

    /**
     * `is_auth_valid`: false without a request when no session is held;
     * otherwise whether the probe answered with a 2xx status, or the
     * transport error.
     */
    method IsAuthValid(probe: ProbeAnswer) returns (r: Result<bool, string>, sent: seq<Request>)
      ensures currentSid.None? ==> r == Ok(false) && sent == []
      ensures currentSid.Some? ==> sent == [SessionProbe(ApiPath(serverUrl, "auth/sessions"), currentSid.value)]
      ensures currentSid.Some? && probe.ProbeStatus? ==> r == Ok(IsSuccess(probe.status))
      ensures currentSid.Some? && probe.ProbeTransportError? ==> r == Err(probe.cause)
    {
      var sid := GetCurrentSid();
      if sid.None? {
        return Ok(false), [];
      }
      sent := [SessionProbe(ApiPath(serverUrl, "auth/sessions"), sid.value)];
      match probe
      case ProbeTransportError(cause) =>
        r := Err(cause);
      case ProbeStatus(status) =>
        r := Ok(IsSuccess(status));
    }

    /** `put_ip`: make sure a valid session is held, then PUT the host record. */
    method PutIp(hostname: string, ip: string, net: Upstream) returns (r: Result<(), PutError>, sent: seq<Request>)
      modifies this
      ensures Exchange(currentSid, sent, r) == PutIpExchange(serverUrl, serverPass, old(currentSid), hostname, ip, net)
    {
      var valid;
      valid, sent := IsAuthValid(net.probe);
      if valid.Err? {
        return Err(ProbeFailed(valid.error)), sent;
      }
      if !valid.value {
        sent := sent + [CreateSession(ApiPath(serverUrl, "auth"), serverPass)];
        match net.auth {
          case AuthRequestError(cause) =>
            return Err(AuthRequestFailed(cause)), sent;
          case AuthBody(response) =>
            if !response.session.valid || response.session.sid.None? {
              return Err(AuthenticationFailed), sent;
            }
            SetCurrentSid(response.session.sid.value);
        }
      }
      var url := HostsUrl(serverUrl, ip, hostname);
      if !net.urlParses {
        return Err(InvalidUrl), sent;
      }
      var sid := GetCurrentSid();
      if sid.None? {
        return Err(UnexpectedAuthenticationFailure), sent;
      }
      sent := sent + [PutHost(url, sid.value)];
      match net.put {
        case PutTransportError(cause) =>
          r := Err(PutFailed(cause));
        case PutStatus(status) =>
          r := if IsSuccess(status) then Ok(()) else Err(HttpStatus(status));
      }
    }
  }

  // ---------------------------------------------------------------------
  // The session state machine.

  function CountCreate(rs: seq<Request>): nat {
    if |rs| == 0 then 0 else (if rs[0].CreateSession? then 1 else 0) + CountCreate(rs[1..])
  }

  predicate NoProbe(rs: seq<Request>) {
    forall i :: 0 <= i < |rs| ==> !rs[i].SessionProbe?
  }

  predicate NoPut(rs: seq<Request>) {
    forall i :: 0 <= i < |rs| ==> !rs[i].PutHost?
  }

  /** Requests go out in the order probe, session creation, PUT, each at most once. */
  predicate WellOrdered(rs: seq<Request>) {
    forall i, j :: 0 <= i < j < |rs| ==>
      (rs[i].SessionProbe? && !rs[j].SessionProbe?) ||
      (rs[i].CreateSession? && rs[j].PutHost?)
  }

  lemma CountCreateAppend(a: seq<Request>, b: seq<Request>)
    ensures CountCreate(a + b) == CountCreate(a) + CountCreate(b)
  {
    if |a| > 0 {
      assert (a + b)[1..] == a[1..] + b;
      CountCreateAppend(a[1..], b);
    } else {
      assert a + b == b;
    }
  }

  /** Every call sends its requests in order, creates at most one session and sends at most one PUT. */
  lemma RequestsWellOrdered(serverUrl: string, password: string, sid: Option<string>,
                            hostname: string, ip: string, net: Upstream)
    ensures var e := PutIpExchange(serverUrl, password, sid, hostname, ip, net);
            WellOrdered(e.requests) && CountCreate(e.requests) <= 1 && |e.requests| <= 3
  {
    var e := PutIpExchange(serverUrl, password, sid, hostname, ip, net);
    var p := ProbeRequests(serverUrl, sid);
    var c := [CreateSession(ApiPath(serverUrl, "auth"), password)];
    var u := [PutHost(HostsUrl(serverUrl, ip, hostname), if sid.Some? then sid.value else "")];
    CountCreateAppend(p, c);
    if net.auth.AuthBody? && net.auth.response.session.sid.Some? {
      CountCreateAppend(p + c, [PutHost(HostsUrl(serverUrl, ip, hostname), net.auth.response.session.sid.value)]);
    }
    if sid.Some? {
      CountCreateAppend(p, [PutHost(HostsUrl(serverUrl, ip, hostname), sid.value)]);
    }
  }

  /** Without a session the probe is skipped and a session is created. */
  lemma NoSessionCreatesOne(serverUrl: string, password: string, hostname: string, ip: string, net: Upstream)
    ensures var e := PutIpExchange(serverUrl, password, None, hostname, ip, net);
            NoProbe(e.requests) && |e.requests| >= 1 &&
            e.requests[0] == CreateSession(ApiPath(serverUrl, "auth"), password)
  {
  }

  /** A session the probe accepts is kept, and no session is created. */
  lemma AcceptedSessionKept(serverUrl: string, password: string, sid: string,
                            hostname: string, ip: string, net: Upstream)
    requires net.probe.ProbeStatus? && IsSuccess(net.probe.status)
    ensures var e := PutIpExchange(serverUrl, password, Some(sid), hostname, ip, net);
            e.sid == Some(sid) && CountCreate(e.requests) == 0 &&
            forall i :: 0 <= i < |e.requests| && e.requests[i].PutHost? ==> e.requests[i].sid == sid
  {
    var e := PutIpExchange(serverUrl, password, Some(sid), hostname, ip, net);
    var p := ProbeRequests(serverUrl, Some(sid));
    CountCreateAppend(p, [PutHost(HostsUrl(serverUrl, ip, hostname), sid)]);
  }

  /** A session the probe rejects is replaced by exactly one session creation, before any PUT. */
  lemma RejectedSessionRecreatedOnce(serverUrl: string, password: string, sid: string,
                                     hostname: string, ip: string, net: Upstream)
    requires net.probe.ProbeStatus? && !IsSuccess(net.probe.status)
    ensures var e := PutIpExchange(serverUrl, password, Some(sid), hostname, ip, net);
            CountCreate(e.requests) == 1 && |e.requests| >= 2 && e.requests[1].CreateSession? &&
            forall i :: 0 <= i < |e.requests| && e.requests[i].PutHost? ==> i == 2
  {
    var p := ProbeRequests(serverUrl, Some(sid));
    var c := [CreateSession(ApiPath(serverUrl, "auth"), password)];
    CountCreateAppend(p, c);
    if net.auth.AuthBody? && net.auth.response.session.sid.Some? {
      CountCreateAppend(p + c, [PutHost(HostsUrl(serverUrl, ip, hostname), net.auth.response.session.sid.value)]);
    }
  }

  /** A transport failure of the probe aborts the call: no session creation, no PUT, session unchanged. */
  lemma ProbeFailureAborts(serverUrl: string, password: string, sid: string,
                           hostname: string, ip: string, net: Upstream)
    requires net.probe.ProbeTransportError?
    ensures var e := PutIpExchange(serverUrl, password, Some(sid), hostname, ip, net);
            e.result == Err(ProbeFailed(net.probe.cause)) && e.sid == Some(sid) &&
            CountCreate(e.requests) == 0 && NoPut(e.requests)
  {
  }

  /** An answer marked invalid or without a session id fails the call: no PUT, session unchanged. */
  lemma InvalidSessionAnswerFails(serverUrl: string, password: string, sid: Option<string>,
                                  hostname: string, ip: string, net: Upstream)
    requires ProbeOutcome(sid, net.probe) == Ok(false)
    requires net.auth.AuthBody? && (!net.auth.response.session.valid || net.auth.response.session.sid.None?)
    ensures var e := PutIpExchange(serverUrl, password, sid, hostname, ip, net);
            e.result == Err(AuthenticationFailed) && e.sid == sid && NoPut(e.requests)
  {
  }

  /** A new session replaces the old one wholesale, and the PUT carries the new id. */
  lemma NewSessionReplaces(serverUrl: string, password: string, sid: Option<string>,
                           hostname: string, ip: string, net: Upstream)
    requires ProbeOutcome(sid, net.probe) == Ok(false)
    requires net.auth.AuthBody? && net.auth.response.session.valid && net.auth.response.session.sid.Some?
    ensures var e := PutIpExchange(serverUrl, password, sid, hostname, ip, net);
            var newSid := net.auth.response.session.sid.value;
            e.sid == Some(newSid) &&
            forall i :: 0 <= i < |e.requests| && e.requests[i].PutHost? ==> e.requests[i].sid == newSid
  {
  }

  /** The session only changes to the id of a successful session creation. */
  lemma SessionChangesOnlyOnNewSession(serverUrl: string, password: string, sid: Option<string>,
                                       hostname: string, ip: string, net: Upstream)
    ensures var e := PutIpExchange(serverUrl, password, sid, hostname, ip, net);
            e.sid == sid ||
            (ProbeOutcome(sid, net.probe) == Ok(false) && net.auth.AuthBody? &&
             net.auth.response.session.valid && e.sid == net.auth.response.session.sid && e.sid.Some?)
  {
  }

  /** The call succeeds exactly when the PUT is sent and answered with a 2xx status. */
  lemma SucceedsIffPutSucceeds(serverUrl: string, password: string, sid: Option<string>,
                               hostname: string, ip: string, net: Upstream)
    ensures var e := PutIpExchange(serverUrl, password, sid, hostname, ip, net);
            e.result.Ok? <==> !NoPut(e.requests) && net.put.PutStatus? && IsSuccess(net.put.status)
  {
    var e := PutIpExchange(serverUrl, password, sid, hostname, ip, net);
    PutOnlyLast(serverUrl, password, sid, hostname, ip, net);
    if e.result.Ok? {
      assert e.requests[|e.requests| - 1].PutHost?;
    }
  }

  /**
   * A PUT, when sent, is the last request; when none is sent the call stops
   * before the PUT stage and so fails.
   */
  lemma PutOnlyLast(serverUrl: string, password: string, sid: Option<string>,
                    hostname: string, ip: string, net: Upstream)
    ensures var e := PutIpExchange(serverUrl, password, sid, hostname, ip, net);
            (NoPut(e.requests) ==> e.result.Err?) &&
            (!NoPut(e.requests) ==> |e.requests| > 0 && e.requests[|e.requests| - 1].PutHost? &&
                                    e.result == (match net.put
                                                 case PutStatus(status) => if IsSuccess(status) then Ok(()) else Err(HttpStatus(status))
                                                 case PutTransportError(cause) => Err(PutFailed(cause))))
  {
    var probed := ProbeRequests(serverUrl, sid);
    var sent := probed + [CreateSession(ApiPath(serverUrl, "auth"), password)];
    assert NoPut(probed) && NoPut(sent);
    match ProbeOutcome(sid, net.probe)
    case Err(_) =>
    case Ok(valid) =>
      if !valid {
        if net.auth.AuthBody? && net.auth.response.session.valid && net.auth.response.session.sid.Some? {
          PutStepLast(serverUrl, net.auth.response.session.sid, sent, hostname, ip, net);
        }
      } else {
        PutStepLast(serverUrl, sid, probed, hostname, ip, net);
      }
  }

  lemma PutStepLast(serverUrl: string, sid: Option<string>, sent: seq<Request>,
                    hostname: string, ip: string, net: Upstream)
    requires NoPut(sent)
    ensures var e := PutStep(serverUrl, sid, sent, hostname, ip, net);
            (NoPut(e.requests) ==> e.result.Err?) &&
            (!NoPut(e.requests) ==> |e.requests| > 0 && e.requests[|e.requests| - 1].PutHost? &&
                                    e.result == (match net.put
                                                 case PutStatus(status) => if IsSuccess(status) then Ok(()) else Err(HttpStatus(status))
                                                 case PutTransportError(cause) => Err(PutFailed(cause))))
  {
    if net.urlParses && sid.Some? {
      var requests := sent + [PutHost(HostsUrl(serverUrl, ip, hostname), sid.value)];
      assert requests[|requests| - 1].PutHost?;
      assert !NoPut(requests);
    }
  }

  /** The session is never found missing right before the PUT. */
  lemma NeverUnexpectedFailure(serverUrl: string, password: string, sid: Option<string>,
                               hostname: string, ip: string, net: Upstream)
    ensures PutIpExchange(serverUrl, password, sid, hostname, ip, net).result != Err(UnexpectedAuthenticationFailure)
  {
  }

  /** Every PUT goes to the host-record URL of this address and host name. */
  lemma PutGoesToHostsUrl(serverUrl: string, password: string, sid: Option<string>,
                          hostname: string, ip: string, net: Upstream)
    ensures var e := PutIpExchange(serverUrl, password, sid, hostname, ip, net);
            forall i :: 0 <= i < |e.requests| && e.requests[i].PutHost? ==>
              e.requests[i].url == HostsUrl(serverUrl, ip, hostname)
  {
  }

  /** The host-record URL is `<base>/api/config/dns/hosts/` followed by "ip hostname" form-encoded. */
  lemma HostsUrlShape(base: string, ip: string, hostname: string)
    ensures HostsUrl(ServerUrl(base), ip, hostname) ==
            base + "/api/config/dns/hosts/" + FormEncode(ip) + "+" + FormEncode(hostname)
  {
    HostsPrefix(base);
    FormEncodeSpace(ip, hostname);
    SplicePlus(base + "/api/config/dns/hosts/", FormEncode(ip), FormEncode(hostname));
  }

  /**
   * Every API path of a client for the server at `base` is `<base>/api/`
   * followed by the path: the session probe, session creation and the host
   * records alike.
   */
  lemma ApiPathShape(base: string, path: string)
    ensures ApiPath(ServerUrl(base), path) == base + "/api/" + path
  {
    assert "/" + "api" + "/" == "/api/";
    assert ApiPath(ServerUrl(base), path) == base + ("/" + "api" + "/") + path;
  }

  lemma HostsPrefix(base: string)
    ensures ApiPath(ServerUrl(base), "config/dns/hosts") + "/" == base + "/api/config/dns/hosts/"
  {
    ApiPathShape(base, "config/dns/hosts");
    assert "/api/" + "config/dns/hosts" + "/" == "/api/config/dns/hosts/";
  }

  lemma SplicePlus(prefix: string, b: string, c: string)
    ensures prefix + (b + "+" + c) == prefix + b + "+" + c
  {
  }
}
