/** The router of internal/profile/profile.go: which route answers a request. */
module Routing {
  import opened Results
  import opened Profiles

  datatype RouteResult = Matched | UnknownHost | UnknownPath | MethodNotAllowed

  datatype Found<B> = Found(route: Option<Route<B>>, result: RouteResult)

  predicate At<B>(route: Route<B>, host: string, path: string) {
    RouteHasHost(route, host) && route.path == path
  }

  predicate Serves<B>(route: Route<B>, host: string, method_: string, path: string) {
    At(route, host, path) && method_ in route.methods
  }

  /** The enabled profiles' routes, in the order the profiles are enabled. */
  function RoutesOf<B>(items: map<string, Profile<B>>, enabled: seq<string>): seq<Route<B>>
    requires forall name :: name in enabled ==> name in items
  {
    if enabled == [] then []
    else RoutesOf(items, enabled[..|enabled|-1]) + items[enabled[|enabled|-1]].routes
  }

  /** The position of the first route that serves the request, or the number of routes. */
  function FirstServing<B>(routes: seq<Route<B>>, host: string, method_: string, path: string): (k: nat)
    ensures k <= |routes|
    ensures k < |routes| ==> Serves(routes[k], host, method_, path)
    ensures forall i :: 0 <= i < k ==> !Serves(routes[i], host, method_, path)
  {
    if routes == [] || Serves(routes[0], host, method_, path) then 0
    else 1 + FirstServing(routes[1..], host, method_, path)
  }

  /** One past the position of the last route at the host and path, or 0. */
  function PastLastAt<B>(routes: seq<Route<B>>, host: string, path: string): (k: nat)
    ensures k <= |routes|
    ensures k > 0 ==> At(routes[k-1], host, path)
    ensures forall i :: k <= i < |routes| ==> !At(routes[i], host, path)
  {
    if routes == [] then 0
    else if At(routes[|routes|-1], host, path) then |routes|
    else PastLastAt(routes[..|routes|-1], host, path)
  }

  predicate Covered<B>(routes: seq<Route<B>>, host: string) {
    exists i :: 0 <= i < |routes| && RouteHasHost(routes[i], host)
  }

  /**
   The earliest route that serves host, path and method; failing that, the last route at the host
   and path, with a refusal of the method; failing that, whether the host is known at all.
   */
  function MatchSpec<B>(routes: seq<Route<B>>, host: string, method_: string, path: string): Found<B> {
    var first, past := FirstServing(routes, host, method_, path), PastLastAt(routes, host, path);
    if first < |routes| then Found(Some(routes[first]), Matched)
    else if past > 0 then Found(Some(routes[past-1]), MethodNotAllowed)
    else if Covered(routes, host) then Found(None, UnknownPath)
    else Found(None, UnknownHost)
  }

  class Router<B> {
    var routes: seq<Route<B>>

    constructor ()
      ensures routes == []
    {
      routes := [];
    }

    method Match(host: string, method_: string, path: string) returns (a: Found<B>)
      ensures a == MatchSpec(routes, host, method_, path)
    {
      var pathRoute: Option<Route<B>> := None;
      for i := 0 to |routes|
        invariant FirstServing(routes[..i], host, method_, path) == i
        invariant pathRoute == LastAt(routes[..i], host, path)
      {
        LastAtStep(routes, i, host, path);
        FirstServingStep(routes, host, method_, path, i);
        var route := routes[i];
        if !RouteHasHost(route, host) {
          continue;
        }
        if route.path != path {
          continue;
        }
        pathRoute := Some(route);
        var served := ListsMethod(route.methods, method_);
        if served {
          return Found(Some(route), Matched);
        }
      }
      assert routes[..|routes|] == routes;
      if pathRoute.Some? {
        return Found(pathRoute, MethodNotAllowed);
      }
      for i := 0 to |routes|
        invariant !Covered(routes[..i], host)
      {
        CoveredStep(routes, host, i);
        if RouteHasHost(routes[i], host) {
          return Found(None, UnknownPath);
        }
      }
      return Found(None, UnknownHost);
    }
  }

  /** The inner loop of Match over a route's methods. */
  method ListsMethod(methods: seq<string>, method_: string) returns (found: bool)
    ensures found <==> method_ in methods
  {
    for m := 0 to |methods|
      invariant method_ !in methods[..m]
    {
      if methods[m] == method_ {
        return true;
      }
    }
    return false;
  }

  function LastAt<B>(routes: seq<Route<B>>, host: string, path: string): Option<Route<B>> {
    var past := PastLastAt(routes, host, path);
    if past > 0 then Some(routes[past-1]) else None
  }

  lemma LastAtStep<B>(routes: seq<Route<B>>, i: nat, host: string, path: string)
    requires i < |routes|
    ensures LastAt(routes[..i+1], host, path)
            == if At(routes[i], host, path) then Some(routes[i]) else LastAt(routes[..i], host, path)
  {
  }

  /** One more route that does not serve the request, or the first that does. */
  lemma FirstServingStep<B>(routes: seq<Route<B>>, host: string, method_: string, path: string, i: nat)
    requires i < |routes| && FirstServing(routes[..i], host, method_, path) == i
    ensures if Serves(routes[i], host, method_, path) then FirstServing(routes, host, method_, path) == i
            else FirstServing(routes[..i+1], host, method_, path) == i + 1
  {
    forall j | 0 <= j < i ensures !Serves(routes[j], host, method_, path) {
      assert routes[..i][j] == routes[j];
    }
    if Serves(routes[i], host, method_, path) {
      FirstServingIs(routes, host, method_, path, i);
    } else {
      FirstServingIs(routes[..i+1], host, method_, path, i + 1);
    }
  }

  lemma CoveredStep<B>(routes: seq<Route<B>>, host: string, i: nat)
    requires i < |routes| && !Covered(routes[..i], host)
    ensures RouteHasHost(routes[i], host) ==> Covered(routes, host)
    ensures !RouteHasHost(routes[i], host) ==> !Covered(routes[..i+1], host)
  {
    forall j | 0 <= j < i ensures !RouteHasHost(routes[j], host) {
      assert routes[..i][j] == routes[j];
    }
  }

  lemma FirstServingIs<B>(routes: seq<Route<B>>, host: string, method_: string, path: string, k: nat)
    requires k <= |routes| && (k < |routes| ==> Serves(routes[k], host, method_, path))
    requires forall i :: 0 <= i < k ==> !Serves(routes[i], host, method_, path)
    ensures FirstServing(routes, host, method_, path) == k
  {
  }

  datatype RouterError = UnknownProfile(name: string)

  method NewRouter<B>(items: map<string, Profile<B>>, enabled: seq<string>) returns (r: Result<Router<B>, RouterError>)
    ensures r.Ok? <==> forall name :: name in enabled ==> name in items
    ensures r.Ok? ==> fresh(r.value) && r.value.routes == RoutesOf(items, enabled)
    ensures r.Err? ==> exists k ::
              && 0 <= k < |enabled| && r.error == UnknownProfile(enabled[k])
              && enabled[k] !in items && forall j :: 0 <= j < k ==> enabled[j] in items
  {
    var router := new Router();
    for i := 0 to |enabled|
      invariant forall j :: 0 <= j < i ==> enabled[j] in items
      invariant router.routes == RoutesOf(items, enabled[..i])
      invariant fresh(router)
    {
      assert enabled[..i+1][..i] == enabled[..i];
      if enabled[i] !in items {
        return Err(UnknownProfile(enabled[i]));
      }
      router.routes := router.routes + items[enabled[i]].routes;
    }
    assert enabled[..|enabled|] == enabled;
    return Ok(router);
  }

  /** The routes stand in the order in which the profiles are enabled, each profile's in its own order. */
  lemma {:induction false} RoutesInOrder<B>(items: map<string, Profile<B>>, enabled: seq<string>, k: nat)
    requires k < |enabled| && forall name :: name in enabled ==> name in items
    ensures RoutesOf(items, enabled)
            == RoutesOf(items, enabled[..k]) + items[enabled[k]].routes + RoutesOf(items, enabled[k+1..])
  {
    var front, last := enabled[..|enabled|-1], enabled[|enabled|-1];
    if k == |enabled| - 1 {
      assert enabled[k+1..] == [];
    } else {
      RoutesInOrder(items, front, k);
      assert front[..k] == enabled[..k];
      var rest := enabled[k+1..];
      assert rest[..|rest|-1] == front[k+1..] && rest[|rest|-1] == last;
    }
  }

  /** The router knows a host exactly when some enabled profile does. */
  lemma {:induction false} CoveredByProfiles<B>(items: map<string, Profile<B>>, enabled: seq<string>, host: string)
    requires forall name :: name in enabled ==> name in items
    ensures Covered(RoutesOf(items, enabled), host)
            <==> exists name :: name in enabled && ProfileMatchesHost(items[name], host)
  {
    if enabled != [] {
      var front, last := enabled[..|enabled|-1], enabled[|enabled|-1];
      CoveredByProfiles(items, front, host);
      var before, added := RoutesOf(items, front), items[last].routes;
      assert forall name :: name in enabled <==> name in front || name == last;
      if Covered(before, host) {
        var i :| 0 <= i < |before| && RouteHasHost(before[i], host);
        assert RouteHasHost((before + added)[i], host);
      }
      if ProfileMatchesHost(items[last], host) {
        var i :| 0 <= i < |added| && RouteHasHost(added[i], host);
        assert RouteHasHost((before + added)[|before| + i], host);
      }
    }
  }

  predicate SomeServes<B>(routes: seq<Route<B>>, host: string, method_: string, path: string) {
    exists i :: 0 <= i < |routes| && Serves(routes[i], host, method_, path)
  }

  predicate SomeAt<B>(routes: seq<Route<B>>, host: string, path: string) {
    exists i :: 0 <= i < |routes| && At(routes[i], host, path)
  }

  /**
   What each answer means: matched when some route serves the request, and then by the earliest such
   route; refused when routes stand at the host and path but none serves; otherwise the path or the
   host is unknown.
   */
  lemma MatchMeaning<B>(routes: seq<Route<B>>, host: string, method_: string, path: string)
    ensures var a := MatchSpec(routes, host, method_, path);
            && (a.result == Matched <==> SomeServes(routes, host, method_, path))
            && (a.result == Matched ==>
                  exists k :: 0 <= k < |routes| && a.route == Some(routes[k]) && Serves(routes[k], host, method_, path)
                              && forall i :: 0 <= i < k ==> !Serves(routes[i], host, method_, path))
            && (a.result == MethodNotAllowed <==>
                  SomeAt(routes, host, path) && !SomeServes(routes, host, method_, path))
            && (a.result == UnknownPath <==> Covered(routes, host) && !SomeAt(routes, host, path))
  {
  }

  /** Match answers UnknownHost exactly for the hosts no route covers, whatever the method and path. */
  lemma UnknownMeansUncovered<B>(routes: seq<Route<B>>, host: string, method_: string, path: string)
    ensures MatchSpec(routes, host, method_, path).result == UnknownHost <==> !Covered(routes, host)
  {
  }

  /** A refused method is one that no route at the host and path lists; the route named is the last of them. */
  lemma RefusedMethod<B>(routes: seq<Route<B>>, host: string, method_: string, path: string)
    requires MatchSpec(routes, host, method_, path).result == MethodNotAllowed
    ensures var route := MatchSpec(routes, host, method_, path).route;
            && route.Some?
            && At(route.value, host, path)
            && (forall i :: 0 <= i < |routes| && At(routes[i], host, path) ==> method_ !in routes[i].methods)
            && exists k :: 0 <= k < |routes| && routes[k] == route.value
                           && forall i :: k < i < |routes| ==> !At(routes[i], host, path)
  {
  }
}
