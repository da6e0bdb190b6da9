/** Profiles, their routes, and the host rules of internal/profile/profile.go. */
module Profiles {
  import opened Results
  import opened GoStrings

  datatype HostError = EmptyHost | NonAsciiHost

  newtype Byte = b: int | 0 <= b < 256

  type Body = seq<Byte>

  /** A route; `B` is how its response body is held. */
  datatype Route<B> = Route(
    profile: string,
    hosts: seq<string>,
    path: string,
    methods: seq<string>,
    status: int,
    contentType: string,
    cacheControl: string,
    corsOrigin: string,
    body: B)

  datatype Profile<B> = Profile(name: string, routes: seq<Route<B>>)

  function NormalizeHost(host: string): Result<string, HostError> {
    var h := ToLower(TrimSuffix(TrimSpace(host), "."));
    if h == "" then Err(EmptyHost)
    else if exists c :: c in h && c as int > 127 then Err(NonAsciiHost)
    else Ok(h)
  }

  predicate PatternCovers(pattern: string, host: string) {
    || pattern == host
    || (HasPrefix(pattern, "*.") && HasSuffix(host, "." + pattern[2..]))
  }

  predicate RouteHasHost<B>(route: Route<B>, host: string) {
    exists p :: p in route.hosts && PatternCovers(p, host)
  }

  predicate ProfileMatchesHost<B>(item: Profile<B>, host: string) {
    exists i :: 0 <= i < |item.routes| && RouteHasHost(item.routes[i], host)
  }

  const METHODS: set<string> := {"GET", "HEAD", "POST", "OPTIONS"}

  predicate ValidRouteHost(host: string) {
    && NormalizeHost(host) == Ok(host)
    && Count(host, "*.") <= 1
    && ('*' in host ==> HasPrefix(host, "*."))
  }

  /** What validateRoute lets through; its write of the normal form back into the host list changes nothing. */
  predicate ValidRoute<B>(route: Route<B>) {
    && HasPrefix(route.path, "/")
    && route.hosts != [] && route.methods != []
    && 100 <= route.status <= 599
    && (forall h :: h in route.hosts ==> ValidRouteHost(h))
    && forall m :: m in route.methods ==> m in METHODS
  }

  /** The normal form of a text, once white space and one final dot are off, ends in neither. */
  predicate Plain(h: string) {
    && h != ""
    && Trimmed(h)
    && h[|h|-1] != '.'
    && ToLower(h) == h
    && forall c :: c in h ==> c as int <= 127
  }

  lemma LowerIsPlain(s: string)
    ensures ToLower(ToLower(s)) == ToLower(s)
    ensures Trimmed(ToLower(s)) <==> Trimmed(s)
    ensures TrimSuffix(ToLower(s), ".") == ToLower(TrimSuffix(s, "."))
  {
  }

  /** The fixed points of NormalizeHost. */
  lemma PlainIsFixed(h: string)
    ensures NormalizeHost(h) == Ok(h) <==> Plain(h)
  {
    var t := TrimSpace(h);
    TrimSpaceTrims(h);
    LowerIsPlain(TrimSuffix(t, "."));
    if Plain(h) {
      TrimSpaceFixes(h);
      assert h[|h|-1..][0] == h[|h|-1];
    }
    if NormalizeHost(h) == Ok(h) {
      TrimSpaceLength(h);
      assert |TrimSuffix(t, ".")| <= |t|;
      assert |t| == |h| && t == h;
      assert h[|h|-1..] == [h[|h|-1]];
    }
  }

  lemma TrimSpaceLength(s: string)
    ensures |TrimSpace(s)| <= |s|
    ensures |TrimSpace(s)| == |s| ==> TrimSpace(s) == s
  {
    TrimLeftHead(s);
    TrimRightLast(TrimLeft(s));
    assert s[0..] == s;
  }

  /**
   Normalising twice can differ from normalising once: only one final dot is taken off, and what
   stood before it may be another dot or white space. This is exactly when it happens.
   */
  lemma NormalizeHostTwice(host: string)
    requires NormalizeHost(host).Ok?
    ensures var t := TrimSpace(host);
            NormalizeHost(NormalizeHost(host).value) == NormalizeHost(host)
            <==> !(|t| >= 2 && t[|t|-1] == '.' && (t[|t|-2] == '.' || IsSpace(t[|t|-2])))
  {
    var t := TrimSpace(host);
    var u := TrimSuffix(t, ".");
    var h := NormalizeHost(host).value;
    TrimSpaceTrims(host);
    LowerIsPlain(u);
    PlainIsFixed(h);
    assert t[|t|-1..] == [t[|t|-1]];
    assert h[|h|-1] == LowerChar(u[|u|-1]);
    assert u[0] == t[0];
  }

  lemma DottedHostIsNotStable()
    ensures NormalizeHost("a..") == Ok("a.") && NormalizeHost("a.") == Ok("a")
  {
    assert TrimSpace("a..") == "a.." && TrimSpace("a.") == "a.";
    assert "a.."[2..] == "." && "a.."[..2] == "a." && "a."[1..] == "." && "a."[..1] == "a";
    assert ToLower("a.") == "a." && ToLower("a") == "a";
  }

  /** A host that a normal-form pattern covers inherits the pattern's clean end. */
  lemma CoveredEnds(pattern: string, host: string)
    requires pattern != "" && pattern[|pattern|-1] != '.' && PatternCovers(pattern, host)
    ensures host != "" && host[|host|-1] == pattern[|pattern|-1]
  {
  }

  /** Coverage composes: what lies under a covered wildcard is covered by the same pattern. */
  lemma CoverTransitive(pattern: string, wildcard: string, host: string)
    requires PatternCovers(pattern, wildcard) && PatternCovers(wildcard, host)
    ensures PatternCovers(pattern, host)
  {
    if pattern != wildcard && wildcard != host {
      var y, w := "." + pattern[2..], "." + wildcard[2..];
      assert wildcard == "*" + w;
      assert wildcard[|wildcard| - |y|] == y[0];
      SuffixTail("*", w, y);
      SuffixTransitive(host, w, y);
    }
  }

  // ---------------------------------------------------------------- which texts are accepted, and as what

  /** NormalizeHost accepts exactly the ways to write a non-empty ASCII text, and returns that text. */
  lemma NormalizeHostExactly(s: string, h: string)
    ensures NormalizeHost(s) == Ok(h) <==> h != "" && (forall c :: c in h ==> c as int <= 127) && Written(s, h)
    ensures NormalizeHost(s) == Err(EmptyHost) <==> Written(s, "")
  {
    NormalTextExactly(s, h);
    NormalTextExactly(s, "");
  }

  /** A pattern covers itself and, when it begins with "*.", every text that ends in the rest of it from the dot on. */
  lemma CoversExactly(pattern: string, host: string)
    ensures PatternCovers(pattern, host)
            <==> pattern == host || exists front, base :: pattern == "*." + base && host == front + "." + base
  {
    if HasPrefix(pattern, "*.") {
      assert pattern == "*." + pattern[2..];
      LabelSuffix(host, pattern[2..]);
    }
    if front, base :| pattern == "*." + base && host == front + "." + base {
      assert pattern[2..] == base;
      LabelSuffix(host, base);
    }
  }

  /**
   A route pattern is valid exactly when it is its own normal form, "*." occurs in it at most once, and
   it begins with "*." if there is a star in it.
   */
  lemma ValidRouteHostExactly(host: string)
    ensures ValidRouteHost(host)
            <==> && Plain(host)
                 && ('*' in host ==> |host| >= 2 && host[0] == '*' && host[1] == '.')
                 && !(exists i: nat, j: nat :: i < j && StarAt(host, i) && StarAt(host, j))
  {
    PlainIsFixed(host);
    CountTwo(host);
  }

  /**
   A valid route has an absolute path, a status from 100 to 599, at least one host, all of them valid
   patterns, and at least one method, all of them GET, HEAD, POST or OPTIONS.
   */
  lemma ValidRouteExactly<B>(route: Route<B>)
    ensures ValidRoute(route)
            <==> && route.path != "" && route.path[0] == '/'
                 && route.status >= 100 && route.status < 600
                 && |route.hosts| >= 1 && |route.methods| >= 1
                 && (forall i :: 0 <= i < |route.hosts| ==> ValidRouteHost(route.hosts[i]))
                 && forall i :: 0 <= i < |route.methods| ==>
                      var m := route.methods[i]; m == "GET" || m == "HEAD" || m == "POST" || m == "OPTIONS"
  {
    assert HasPrefix(route.path, "/") <==> route.path != "" && route.path[0] == '/' by {
      if route.path != "" {
        assert route.path[..1] == [route.path[0]];
      }
    }
    forall i | 0 <= i < |route.methods| ensures route.methods[i] in route.methods {
    }
    forall i | 0 <= i < |route.hosts| ensures route.hosts[i] in route.hosts {
    }
  }
}
