/** The TLS callback and the HTTP handler of internal/sink/sink.go. */
module Serving {
  import opened Results
  import opened GoStrings
  import opened Certificates
  import opened Profiles
  import opened Sorting
  import opened Routing
  import opened Gates
  import opened Metrics
  import CommaLists
  import Issuing
  import opened CachingIssuer

  datatype TlsError = UnknownSni | IssuerFailed(cause: Issuing.Error)

  /** The certificate callback of TLSConfig for a hello that names `sni`. */
  method TlsCertificate(
      gate: set<string>, issuer: Issuer, metrics: Metrics, sni: string, now: Time, signing: Issuing.Signing)
    returns (r: Result<Leaf, TlsError>)
    requires issuer.Valid()
    modifies issuer, issuer.lru, issuer.lru.root, issuer.lru.Nodes, metrics`handshake
    ensures issuer.Valid()
    ensures GatePasses(gate, sni) ==>
              && issuer.history == old(issuer.history) + [Issuing.Call(Some(sni), now, signing)]
              && var answer := CacheRuns.Answer(issuer.Config(), [], issuer.history);
                 && r == (match answer case Ok(leaf) => Ok(leaf) case Err(e) => Err(IssuerFailed(e)))
                 && metrics.handshake
                    == if answer.Ok? then old(metrics.handshake) else Failed(old(metrics.handshake), "other")
    ensures !GatePasses(gate, sni) ==>
              && r == Err(UnknownSni)
              && issuer.history == old(issuer.history)
              && metrics.handshake == Failed(old(metrics.handshake), "unknown_sni")
  {
    var host := Profiles.NormalizeHost(sni);
    if host.Err? || !AllowedHost(gate, host.value) {
      metrics.HandshakeFailure("unknown_sni");
      return Err(UnknownSni);
    }
    var certificate := issuer.GetCertificate(Some(sni), now, signing);
    if certificate.Err? {
      metrics.HandshakeFailure("other");
      return Err(IssuerFailed(certificate.error));
    }
    return Ok(certificate.value);
  }

  /** A request; `host` is the Host header without a port, `site` what the referer names. */
  datatype Request = Request(host: string, method_: string, path: string, site: string)

  datatype Reply = Reply(status: int, headers: map<string, string>, body: Body)

  /** A reply, and what is counted for it. */
  datatype Outcome = Outcome(reply: Reply, profile: string, result: RouteResult)

  class ResponseWriter {
    var headers: map<string, string>
    var status: Option<int>
    var body: Body

    constructor ()
      ensures Fresh()
    {
      headers, status, body := map[], None, [];
    }

    /** Nothing has been written yet. */
    predicate Fresh()
      reads this
    {
      headers == map[] && status == None && body == []
    }

    method Set(name: string, value: string)
      modifies this`headers
      ensures headers == old(headers)[name := value]
    {
      headers := headers[name := value];
    }

    method WriteHeader(code: int)
      modifies this`status
      ensures status == if old(status) == None then Some(code) else old(status)
    {
      if status == None {
        status := Some(code);
      }
    }

    method Write(data: Body)
      modifies this`body
      ensures body == old(body) + data
    {
      body := body + data;
    }
  }

  function ResultName(result: RouteResult): string {
    match result
    case Matched => "matched"
    case UnknownHost => "unknown_host"
    case UnknownPath => "unknown_path"
    case MethodNotAllowed => "method_not_allowed"
  }

  function RequestHost(value: string): string {
    match Profiles.NormalizeHost(value)
    case Ok(host) => host
    case Err(_) => ""
  }

  /** What the Allow header lists. */
  function AllowMethods<B>(route: Route<B>): seq<string> {
    SortStrings(
      if route.corsOrigin != "" && "OPTIONS" !in route.methods then route.methods + ["OPTIONS"] else route.methods)
  }

  method Allow<B>(route: Route<B>) returns (header: string)
    ensures header == Join(AllowMethods(route), ", ")
  {
    var methods := route.methods;
    var hasOptions := false;
    for i := 0 to |methods|
      invariant hasOptions <==> "OPTIONS" in methods[..i]
    {
      if methods[i] == "OPTIONS" {
        hasOptions := true;
      }
    }
    assert methods[..|methods|] == methods;
    if route.corsOrigin != "" && !hasOptions {
      methods := methods + ["OPTIONS"];
    }
    header := Join(SortStrings(methods), ", ");
  }

  function RouteHeaders<B>(route: Route<B>): map<string, string> {
    var h := map[];
    var h := if route.contentType != "" then h["Content-Type" := route.contentType] else h;
    var h := if route.cacheControl != "" then h["Cache-Control" := route.cacheControl] else h;
    var h := if route.corsOrigin != "" then h["Access-Control-Allow-Origin" := route.corsOrigin] else h;
    h["X-Content-Type-Options" := "nosniff"]
  }

  /** What the handler answers and counts, in terms of the gate and of the router's answer. */
  function Dispatch(routes: seq<Route<Body>>, gate: set<string>, r: Request): Outcome {
    var host := RequestHost(r.host);
    if AllowedHost(gate, host) then DispatchAllowed(MatchSpec(routes, host, r.method_, r.path), r.method_)
    else MISDIRECTED
  }

  const MISDIRECTED: Outcome := Outcome(Reply(421, map[], []), "unknown", UnknownHost)

  function DispatchAllowed(found: Found<Body>, method_: string): Outcome
    requires found.result == Matched || found.result == MethodNotAllowed ==> found.route.Some?
  {
    match found.result
    case UnknownHost => MISDIRECTED
    case UnknownPath => Outcome(Reply(404, map[], []), "unknown", UnknownPath)
    case Matched =>
      var route := found.route.value;
      var body := if method_ == "HEAD" then [] else route.body;
      Outcome(Reply(route.status, RouteHeaders(route), body), route.profile, Matched)
    case MethodNotAllowed =>
      var route, allow := found.route.value, Join(AllowMethods(found.route.value), ", ");
      if method_ == "OPTIONS" && route.corsOrigin != "" then
        Outcome(Reply(204, RouteHeaders(route)["Allow" := allow], []), route.profile, Matched)
      else
        Outcome(Reply(405, map["Allow" := allow], []), route.profile, MethodNotAllowed)
  }

  function Counted(r: Request, o: Outcome): Event {
    Event(o.profile, r.site, RequestHost(r.host), r.path, ResultName(o.result))
  }

  class Handler {
    const router: Router<Body>
    const hosts: set<string>
    const metrics: Metrics
    /** What has been counted so far. */
    ghost var served: seq<Event>

    /** The books are those of the requests served. */
    ghost predicate Valid()
      reads this, metrics
    {
      metrics.Current() == AccountAll(metrics.Options(), served)
    }

    constructor (router: Router<Body>, hosts: seq<string>, metrics: Metrics)
      requires metrics.Current() == OPENING
      ensures this.router == router && this.hosts == HostSet(hosts) && this.metrics == metrics
      ensures Valid() && served == []
    {
      served := [];
      this.router, this.metrics := router, metrics;
      var set_ := BuildHostSet(hosts);
      this.hosts := set_;
    }

    method ServeHTTP(writer: ResponseWriter, r: Request)
      requires Valid() && writer.Fresh()
      modifies this`served, writer, metrics
      ensures Valid() && Reconciled(metrics.Options(), metrics.Current())
      ensures var o := Dispatch(router.routes, hosts, r);
              && writer.status == Some(o.reply.status)
              && writer.headers == o.reply.headers
              && writer.body == o.reply.body
              && served == old(served) + [Counted(r, o)]
    {
      Handle(writer, r);
      served := served + [Counted(r, Dispatch(router.routes, hosts, r))];
      assert served[..|served|-1] == old(served);
      AlwaysReconciled(metrics.Options(), served);
    }

    /** The body of ServeHTTP. */
    method Handle(writer: ResponseWriter, r: Request)
      requires writer.Fresh()
      modifies writer, metrics
      ensures var o := Dispatch(router.routes, hosts, r);
              && writer.status == Some(o.reply.status)
              && writer.headers == o.reply.headers
              && writer.body == o.reply.body
              && metrics.Current() == Account(metrics.Options(), old(metrics.Current()), Counted(r, o))
    {
      var host := RequestHost(r.host);
      if !AllowedHost(hosts, host) {
        Respond(writer, r, host, "unknown", UnknownHost, 421);
        return;
      }
      var found := router.Match(host, r.method_, r.path);
      RespondAllowed(writer, r, host, found);
    }

    /** The handler behind the gate, once the router has answered. */
    method RespondAllowed(writer: ResponseWriter, r: Request, host: string, found: Found<Body>)
      requires writer.Fresh()
      requires found.result == Matched || found.result == MethodNotAllowed ==> found.route.Some?
      modifies writer, metrics
      ensures var o := DispatchAllowed(found, r.method_);
              && writer.status == Some(o.reply.status)
              && writer.headers == o.reply.headers
              && writer.body == o.reply.body
              && metrics.Current()
                 == Account(
                      metrics.Options(), old(metrics.Current()),
                      Event(o.profile, r.site, host, r.path, ResultName(o.result)))
    {
      if && r.method_ == "OPTIONS" && found.result == MethodNotAllowed
         && found.route.Some? && found.route.value.corsOrigin != ""
      {
        SetRouteHeaders(writer, found.route.value);
        var allow := Allow(found.route.value);
        writer.Set("Allow", allow);
        Respond(writer, r, host, found.route.value.profile, Matched, 204);
        return;
      }
      match found.result
      case UnknownPath =>
        Respond(writer, r, host, "unknown", UnknownPath, 404);
      case MethodNotAllowed =>
        var allow := Allow(found.route.value);
        writer.Set("Allow", allow);
        Respond(writer, r, host, found.route.value.profile, MethodNotAllowed, 405);
      case Matched =>
        var route := found.route.value;
        SetRouteHeaders(writer, route);
        Respond(writer, r, host, route.profile, Matched, route.status);
        if r.method_ != "HEAD" {
          writer.Write(route.body);
        }
      case UnknownHost =>
        Respond(writer, r, host, "unknown", UnknownHost, 421);
    }

    method SetRouteHeaders(writer: ResponseWriter, route: Route<Body>)
      requires writer.headers == map[]
      modifies writer`headers
      ensures writer.headers == RouteHeaders(route)
    {
      if route.contentType != "" {
        writer.Set("Content-Type", route.contentType);
      }
      if route.cacheControl != "" {
        writer.Set("Cache-Control", route.cacheControl);
      }
      if route.corsOrigin != "" {
        writer.Set("Access-Control-Allow-Origin", route.corsOrigin);
      }
      writer.Set("X-Content-Type-Options", "nosniff");
    }

    /** Counts the request in the three families and sends the status. */
    method Respond(writer: ResponseWriter, r: Request, host: string, name: string, result: RouteResult, status: int)
      requires writer.status == None
      modifies writer`status, metrics
      ensures writer.status == Some(status)
      ensures metrics.Current()
              == Account(
                   metrics.Options(), old(metrics.Current()),
                   Event(name, r.site, host, r.path, ResultName(result)))
    {
      metrics.Request(name, ResultName(result));
      metrics.SiteRequest(r.site, ResultName(result));
      metrics.UpstreamRequest(host, r.path, ResultName(result));
      writer.WriteHeader(status);
    }
  }

  // ---------------------------------------------------------------- what a reply means

  /** The request's host: the text its Host header is a way to write, or nothing when it writes no ASCII text. */
  lemma RequestHostExactly(value: string, h: string)
    requires h != ""
    ensures RequestHost(value) == h <==> (forall c :: c in h ==> c as int <= 127) && Written(value, h)
  {
    Profiles.NormalizeHostExactly(value, h);
    Profiles.NormalizeHostExactly(value, RequestHost(value));
  }

  /**
   The reply to a request that a route serves: of the routes that do, the first gives the status, the
   headers, the profile it is counted under and the body, which only HEAD does not get.
   */
  lemma ServedReply(routes: seq<Route<Body>>, gate: set<string>, r: Request, k: nat)
    requires AllowedHost(gate, RequestHost(r.host))
    requires k < |routes| && Serves(routes[k], RequestHost(r.host), r.method_, r.path)
    requires forall i :: 0 <= i < k ==> !Serves(routes[i], RequestHost(r.host), r.method_, r.path)
    ensures var o := Dispatch(routes, gate, r);
            && o.reply.status == routes[k].status
            && o.reply.headers == RouteHeaders(routes[k])
            && o.reply.body == (if r.method_ == "HEAD" then [] else routes[k].body)
            && o.profile == routes[k].profile
            && o.result == Matched
  {
    FirstServingIs(routes, RequestHost(r.host), r.method_, r.path, k);
  }

  /** What is counted for a request: its site, host and path, and the result by its name. */
  lemma CountedMeaning(routes: seq<Route<Body>>, gate: set<string>, r: Request)
    ensures var o := Dispatch(routes, gate, r);
            var e := Counted(r, o);
            && e.site == r.site && e.host == RequestHost(r.host) && e.path == r.path && e.profile == o.profile
            && (e.result == "matched" <==> o.result == Matched)
            && (e.result == "unknown_host" <==> o.result == UnknownHost)
            && (e.result == "unknown_path" <==> o.result == UnknownPath)
            && (e.result == "method_not_allowed" <==> o.result == MethodNotAllowed)
            && e.result in RESULTS
  {
    assert |"matched"| == 7 && |"unknown_host"| == |"unknown_path"| == 12 && |"method_not_allowed"| == 18;
    assert "unknown_host"[8] != "unknown_path"[8];
  }

  /** The Allow header, read as a comma list, is the list of allowed methods. */
  lemma AllowReadsBack<B>(route: Route<B>)
    requires forall m :: m in route.methods ==> CommaLists.Item(m)
    ensures CommaLists.CommaListSpec(Join(AllowMethods(route), ", ")) == AllowMethods(route)
  {
    AllowIsSortedMethods(route);
    forall m | m in AllowMethods(route) ensures CommaLists.Item(m) {
      assert m in multiset(AllowMethods(route));
      assert m in multiset(route.methods) || m == "OPTIONS";
    }
    CommaLists.SpacedJoinThenList(AllowMethods(route));
  }

  /** A route's headers: each of its three settings exactly when it is not empty, and sniffing always off. */
  lemma RouteHeadersMeaning<B>(route: Route<B>)
    ensures var h := RouteHeaders(route);
            && ("Content-Type" in h <==> route.contentType != "")
            && ("Cache-Control" in h <==> route.cacheControl != "")
            && ("Access-Control-Allow-Origin" in h <==> route.corsOrigin != "")
            && (route.contentType != "" ==> h["Content-Type"] == route.contentType)
            && (route.cacheControl != "" ==> h["Cache-Control"] == route.cacheControl)
            && (route.corsOrigin != "" ==> h["Access-Control-Allow-Origin"] == route.corsOrigin)
            && "X-Content-Type-Options" in h && h["X-Content-Type-Options"] == "nosniff"
            && h.Keys <= {"Content-Type", "Cache-Control", "Access-Control-Allow-Origin", "X-Content-Type-Options"}
  {
  }

  /** Allow lists the route's methods in ascending order, and OPTIONS exactly when CORS is set and it is absent. */
  lemma AllowIsSortedMethods<B>(route: Route<B>)
    ensures Sorted(AllowMethods(route))
    ensures multiset(AllowMethods(route))
            == multiset(route.methods)
               + if route.corsOrigin != "" && "OPTIONS" !in route.methods then multiset{"OPTIONS"} else multiset{}
  {
    SortStringsSorts(route.methods);
    SortStringsSorts(route.methods + ["OPTIONS"]);
  }

  /** A 405 names a method that no route at the host and path lists, and its Allow never lists it either. */
  lemma AllowOmitsRefused(routes: seq<Route<Body>>, gate: set<string>, r: Request)
    requires Dispatch(routes, gate, r).result == MethodNotAllowed
    ensures var route := MatchSpec(routes, RequestHost(r.host), r.method_, r.path).route.value;
            && Dispatch(routes, gate, r).reply == Reply(405, map["Allow" := Join(AllowMethods(route), ", ")], [])
            && r.method_ !in AllowMethods(route)
            && forall i :: 0 <= i < |routes| && At(routes[i], RequestHost(r.host), r.path) ==>
                 r.method_ !in routes[i].methods
  {
    var route := MatchSpec(routes, RequestHost(r.host), r.method_, r.path).route.value;
    RefusedMethod(routes, RequestHost(r.host), r.method_, r.path);
    AllowIsSortedMethods(route);
    assert r.method_ !in multiset(AllowMethods(route));
  }

  /** A request is counted as matched exactly when a route serves it, or as a preflight of the last route there. */
  lemma MatchedMeaning(routes: seq<Route<Body>>, gate: set<string>, r: Request)
    ensures var host := RequestHost(r.host);
            var past := PastLastAt(routes, host, r.path);
            Dispatch(routes, gate, r).result == Matched
            <==> && AllowedHost(gate, host)
                 && ( || SomeServes(routes, host, r.method_, r.path)
                      || (r.method_ == "OPTIONS" && past > 0 && routes[past-1].corsOrigin != ""))
  {
    MatchMeaning(routes, RequestHost(r.host), r.method_, r.path);
  }

  /**
   The other answers: 421 when the gate refuses the host or no route covers it, 404 when routes cover
   it but none at this path, 204 with the route's CORS and Allow headers for a preflight, and 405
   for any other method that no route at the host and path lists.
   */
  lemma RefusalMeaning(routes: seq<Route<Body>>, gate: set<string>, r: Request)
    ensures var o, host := Dispatch(routes, gate, r), RequestHost(r.host);
            var refused := AllowedHost(gate, host) && SomeAt(routes, host, r.path)
                           && !SomeServes(routes, host, r.method_, r.path);
            && (o.result == UnknownHost <==> !AllowedHost(gate, host) || !Covered(routes, host))
            && (o.result == UnknownPath <==>
                  AllowedHost(gate, host) && Covered(routes, host) && !SomeAt(routes, host, r.path))
            && (o.result == UnknownHost ==> o.reply == Reply(421, map[], []) && o.profile == "unknown")
            && (o.result == UnknownPath ==> o.reply == Reply(404, map[], []) && o.profile == "unknown")
            && (o.result == MethodNotAllowed ==> refused && o.reply.status == 405)
            && (refused ==>
                  var last := MatchSpec(routes, host, r.method_, r.path).route.value;
                  var allow := Join(AllowMethods(last), ", ");
                  && o.profile == last.profile
                  && if r.method_ == "OPTIONS" && last.corsOrigin != "" then
                       o.reply == Reply(204, RouteHeaders(last)["Allow" := allow], []) && o.result == Matched
                     else
                       o.reply == Reply(405, map["Allow" := allow], []) && o.result == MethodNotAllowed)
  {
  }

  /** A body is sent only by the earliest route that serves the request, and never for HEAD. */
  lemma BodyMeaning(routes: seq<Route<Body>>, gate: set<string>, r: Request)
    requires Dispatch(routes, gate, r).reply.body != []
    ensures exists i ::
              && 0 <= i < |routes|
              && Serves(routes[i], RequestHost(r.host), r.method_, r.path)
              && (forall j :: 0 <= j < i ==> !Serves(routes[j], RequestHost(r.host), r.method_, r.path))
              && Dispatch(routes, gate, r).reply == Reply(routes[i].status, RouteHeaders(routes[i]), routes[i].body)
    ensures r.method_ != "HEAD" && AllowedHost(gate, RequestHost(r.host))
  {
  }
}
